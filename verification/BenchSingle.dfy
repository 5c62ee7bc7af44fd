/** The benchmark with a window of one: it sends a frame, then takes the first acceptable
    reply for its answer without looking at the reply's number. */
module BenchSingle {
  import opened Words
  import opened Frames
  import opened Echo

  /** `sendNs(k)` is what the clock reads when frame `k` is sent. */
  datatype Config = Config(o: Options, throughputOnly: bool, minRttNs: uint32, sendNs: nat -> uint64)

  /** A received packet, and what the clock reads then. */
  datatype Arrival = Arrival(pkt: bytes, nowNs: uint64)

  datatype Outcome = Done | TimedOut | Failed

  function RttNs(c: Config, k: nat, nowNs: uint64): uint64 {
    if nowNs >= c.sendNs(k) then nowNs - c.sendNs(k) else 0
  }

  /** While frame `k` waits, `a` is taken for its answer. */
  predicate Accepted(c: Config, k: nat, a: Arrival) {
    var p := Parse(c.o, a.pkt);
    && p.Parsed? && (ReplyBit(p.stamp.flags) || IsReflection(c.o, a.pkt))
    && (c.throughputOnly || RttNs(c, k, a.nowNs) >= c.minRttNs)
  }

  /** `a` is a reply with number `n` and arrives late enough after frame `k` was sent. */
  ghost predicate Answering(c: Config, k: nat, a: Arrival, n: uint32) {
    && (exists st: Stamp :: st.seqno == n && IsReply(c.o, a.pkt, st))
    && (c.throughputOnly || c.minRttNs == 0 || c.sendNs(k) + c.minRttNs <= a.nowNs)
  }

  /** What is taken for an answer does carry a benchmark header, and nothing that could be
      taken is passed over. */
  lemma AcceptedIff(c: Config, k: nat, a: Arrival)
    ensures Accepted(c, k, a) <==> exists n: uint32 :: Answering(c, k, a, n)
    ensures Accepted(c, k, a) ==> Answering(c, k, a, Parse(c.o, a.pkt).stamp.seqno)
  {
    hide Parse, IsReply, IsReflection;
    forall st: Stamp ensures IsReply(c.o, a.pkt, st) <==>
        Parse(c.o, a.pkt) == Parsed(st) && (ReplyBit(st.flags) || IsReflection(c.o, a.pkt))
    {
      ReplyIff(c.o, a.pkt, st);
    }
    var p := Parse(c.o, a.pkt);
    if Accepted(c, k, a) {
      assert IsReply(c.o, a.pkt, p.stamp);
      assert Answering(c, k, a, p.stamp.seqno);
    }
  }

  /** The numbers carried by the replies taken for the answers to frames `k`, `k + 1` and
      so on. */
  function Answers(c: Config, arrivals: seq<Arrival>, k: nat): (s: seq<uint32>)
    ensures |s| <= |arrivals|
  {
    if arrivals == [] then []
    else if Accepted(c, k, arrivals[0])
    then [Parse(c.o, arrivals[0].pkt).stamp.seqno] + Answers(c, arrivals[1..], k + 1)
    else Answers(c, arrivals[1..], k)
  }

  /** No answer carries the number of a frame not sent yet. */
  ghost predicate Causal(answers: seq<uint32>) {
    forall k :: 0 <= k < |answers| ==> answers[k] <= k
  }

  /** Every frame was answered by a reply to itself. */
  ghost predicate Own(answers: seq<uint32>) {
    forall k :: 0 <= k < |answers| ==> answers[k] == k
  }

  ghost predicate Distinct(answers: seq<uint32>) {
    forall j, k :: 0 <= j < k < |answers| ==> answers[j] != answers[k]
  }

  /** The answers are those of the arrivals `took`, in order. */
  ghost predicate Took(c: Config, arrivals: seq<Arrival>, answers: seq<uint32>, took: seq<nat>, next: nat) {
    && |took| == |answers|
    && (forall i :: 0 <= i < |took| ==>
          took[i] < next && took[i] < |arrivals| && Answering(c, i, arrivals[took[i]], answers[i]))
    && (forall i, j :: 0 <= i < j < |took| ==> took[i] < took[j])
  }

  lemma TookMore(c: Config, arrivals: seq<Arrival>, answers: seq<uint32>, took: seq<nat>, from: nat, at: nat,
                 number: uint32)
    requires Took(c, arrivals, answers, took, from) && from <= at < |arrivals|
    requires Answering(c, |answers|, arrivals[at], number)
    ensures Took(c, arrivals, answers + [number], took + [at], at + 1)
  {
    hide Answering;
  }

  lemma TookLater(c: Config, arrivals: seq<Arrival>, answers: seq<uint32>, took: seq<nat>, from: nat, to: nat)
    requires Took(c, arrivals, answers, took, from) && from <= to
    ensures Took(c, arrivals, answers, took, to)
  {
    hide Answering;
  }

  /** The loop over everything that arrives until a wait times out; `takes(k)` says
      whether the driver takes frame `k`, and `freed(j)` whether arrival `j` can be given
      back.  A run fails exactly at the first of these that fails.  Each answer is a reply
      carried by a later arrival than the one before.  As long as replies come after what
      they answer, every frame got its own answer exactly if no number was accepted
      twice. */
  method Run(c: Config, count: uint32, arrivals: seq<Arrival>, takes: nat -> bool, freed: nat -> bool)
    returns (rc: Outcome, sent: nat, received: nat, answers: seq<uint32>, ghost took: seq<nat>, ghost seen: nat)
    ensures rc != Failed ==> (rc == Done <==> count <= |Answers(c, arrivals, 0)|)
    ensures received == |answers| && answers <= Answers(c, arrivals, 0)
    ensures seen <= |arrivals| && Took(c, arrivals, answers, took, seen)
    ensures rc == Failed <==> (received == sent < count && !takes(sent)) || (seen > 0 && !freed(seen - 1))
    ensures (forall k :: 0 <= k < sent ==> takes(k)) && (forall j :: 0 <= j < seen - 1 ==> freed(j))
    ensures rc == TimedOut ==> seen == |arrivals|
    ensures received <= sent <= count && sent <= received + 1
    ensures rc == Done ==> received == sent == count
    ensures rc == TimedOut ==> sent == received + 1
    ensures Causal(answers) ==> (Own(answers) <==> Distinct(answers))
  {
    hide Accepted, Parse, Causal, Own, Distinct, Answers, Took, Answering;
    rc, sent, received, answers, took, seen := Done, 0, 0, [], [], 0;
    TookNone(c, arrivals);
    var next := 0;
    assert arrivals[next..] == arrivals;
    while sent < count && rc == Done
      invariant received == sent == |answers| <= count && next <= |arrivals| && rc == Done
      invariant Took(c, arrivals, answers, took, next) && seen == next
      invariant (forall k :: 0 <= k < sent ==> takes(k)) && (forall j :: 0 <= j < next ==> freed(j))
      invariant Answers(c, arrivals, 0) == answers + Answers(c, arrivals[next..], received)
      decreases count - sent
    {
      if !takes(sent) {
        rc := Failed;
        break;
      }
      var number;
      ghost var from := next;
      rc, next, number := AwaitAnswer(c, arrivals, next, sent, freed);
      seen := next;
      sent := sent + 1;
      if |number| == 1 {
        Regroup(answers, number, Answers(c, arrivals[next..], sent));
        TookMore(c, arrivals, answers, took, from, next - 1, number[0]);
        assert number == [number[0]];
        took := took + [next - 1];
        received, answers := received + 1, answers + number;
      } else {
        TookLater(c, arrivals, answers, took, from, next);
      }
      if rc != Done {
        break;
      }
    }
    if Causal(answers) {
      OwnIffDistinct(answers);
    }
  }

  lemma TookNone(c: Config, arrivals: seq<Arrival>)
    ensures Took(c, arrivals, [], [], 0)
  {}

  lemma Regroup(a: seq<uint32>, b: seq<uint32>, c: seq<uint32>)
    ensures a + (b + c) == (a + b) + c
  {}

  /** Waits for the answer to frame `k`, giving every other packet back. */
  method AwaitAnswer(c: Config, arrivals: seq<Arrival>, start: nat, k: nat, freed: nat -> bool)
    returns (rc: Outcome, next: nat, number: seq<uint32>)
    requires start <= |arrivals|
    ensures start <= next <= |arrivals|
    ensures if number == [] then Answers(c, arrivals[start..], k) == Answers(c, arrivals[next..], k)
            else Answers(c, arrivals[start..], k) == number + Answers(c, arrivals[next..], k + 1)
    ensures |number| <= 1 && (rc == Done ==> |number| == 1)
    ensures |number| == 1 ==> start < next && Answering(c, k, arrivals[next - 1], number[0])
    ensures rc == TimedOut ==> number == [] && Answers(c, arrivals[start..], k) == [] && next == |arrivals|
    ensures rc == Failed <==> start < next && !freed(next - 1)
    ensures forall j :: start <= j < next - 1 ==> freed(j)
  {
    hide Accepted, Parse, Answering;
    next, number := start, [];
    while next < |arrivals|
      invariant start <= next <= |arrivals| && number == []
      invariant Answers(c, arrivals[start..], k) == Answers(c, arrivals[next..], k)
      invariant forall j :: start <= j < next ==> freed(j)
    {
      var a := arrivals[next];
      assert arrivals[next..][1..] == arrivals[next + 1..];
      next := next + 1;
      if Accepted(c, k, a) {
        AcceptedIff(c, k, a);
        number := [NumberOf(c, k, a)];
      }
      if !freed(next - 1) {
        return Failed, next, number;
      }
      if number != [] {
        return Done, next, number;
      }
    }
    rc := TimedOut;
  }

  function NumberOf(c: Config, k: nat, a: Arrival): (seqno: uint32)
    requires Accepted(c, k, a)
    ensures Parse(c.o, a.pkt).Parsed? && seqno == Parse(c.o, a.pkt).stamp.seqno
  {
    Parse(c.o, a.pkt).stamp.seqno
  }

  lemma {:induction false} OwnIffDistinct(answers: seq<uint32>)
    requires Causal(answers)
    ensures Own(answers) <==> Distinct(answers)
  {
    if answers != [] {
      var n := |answers| - 1;
      OwnIffDistinct(answers[..n]);
      assert forall k :: 0 <= k < n ==> answers[..n][k] == answers[k];
      if answers[n] < n {
        assert answers[answers[n]] == answers[..n][answers[n]];
      }
    }
  }

  /** The echo of frame number `n`, acceptable at any time. */
  function Reply(c: Config, n: uint32): Arrival
    requires Buildable(c.o) && !c.o.rssUdp
  {
    EchoOfFrame(c.o, Stamp(n, 0, 0));
    Arrival(EchoOf(c.o.ethertype, FrameBytes(c.o, Stamp(n, 0, 0))).frame, 0)
  }

  lemma ReplyAccepted(c: Config, n: uint32, k: nat)
    requires Buildable(c.o) && !c.o.rssUdp && c.throughputOnly
    ensures Accepted(c, k, Reply(c, n)) && Parse(c.o, Reply(c, n).pkt).stamp.seqno == n
  {
    hide FrameBytes, Parse, IsReflection;
    EchoOfFrame(c.o, Stamp(n, 0, 0));
  }

  lemma TwoAnswers(c: Config, m: uint32, n: uint32)
    requires Buildable(c.o) && !c.o.rssUdp && c.throughputOnly
    ensures Answers(c, [Reply(c, m), Reply(c, n)], 0) == [m, n]
  {
    hide FrameBytes, Parse, IsReflection, Accepted, Reply;
    var a, b := Reply(c, m), Reply(c, n);
    ReplyAccepted(c, m, 0);
    ReplyAccepted(c, n, 1);
    assert [a, b][1..] == [b] && [b][1..] == [];
  }

  /** A duplicated reply ends a run of two frames although the second was never
      answered: the answers are causal but not distinct. */
  lemma DuplicateAnswersTwice(c: Config)
    requires Buildable(c.o) && !c.o.rssUdp && c.throughputOnly
    ensures var answers := Answers(c, [Reply(c, 0), Reply(c, 0)], 0);
      |answers| == 2 && Causal(answers) && !Distinct(answers) && !Own(answers)
  {
    hide FrameBytes, Reply, Answers;
    TwoAnswers(c, 0, 0);
    var answers := Answers(c, [Reply(c, 0), Reply(c, 0)], 0);
    assert answers[0] == answers[1] == 0;
  }

  /** A stray reply left from an earlier run breaks causality: the answers are distinct,
      yet the first frame got the answer of the second. */
  lemma StrayAnswersFirst(c: Config)
    requires Buildable(c.o) && !c.o.rssUdp && c.throughputOnly
    ensures var answers := Answers(c, [Reply(c, 1), Reply(c, 0)], 0);
      |answers| == 2 && !Causal(answers) && Distinct(answers) && !Own(answers)
  {
    hide FrameBytes, Reply, Answers;
    TwoAnswers(c, 1, 0);
    assert Answers(c, [Reply(c, 1), Reply(c, 0)], 0)[0] == 1;
  }
}
