/** The threaded benchmark: one worker per queue pair, packet count and window split
    between them. */
module ParallelBench {
  import opened Words
  import opened Frames
  import opened QueuePair
  import opened Workers
  import Flood
  import SendQueue
  import SendClient
  import RecvQueue
  import RecvClient
  import Echo

  datatype Pair = Pair(rx: RecvQueue.Rq, tx: SendQueue.Sq)

  lemma Allocated(p: Pair)
    ensures forall x :: x in Footprint(p) ==> allocated(x)
  {}

  function Footprint(p: Pair): (s: set<object>) {
    {p.rx, p.rx.ring, p.rx.pages, p.rx.cq, p.rx.cq.ring, p.tx, p.tx.ring, p.tx.cq, p.tx.cq.ring}
  }

  function Footprints(ps: seq<Pair>): (s: set<object>) {
    set q, x | 0 <= q < |ps| && x in Footprint(ps[q]) :: x
  }

  ghost predicate AllApart(ps: seq<Pair>) {
    forall q, r :: 0 <= q < |ps| && 0 <= r < |ps| && q != r ==> Footprint(ps[q]) !! Footprint(ps[r])
  }

  ghost predicate Fresh(p: Pair)
    reads Footprint(p)
  {
    && p.rx.Valid() && p.rx.fifo.delivered == [] && p.rx.fifo.released == 0
    && p.tx.Valid() && p.tx.DoorbellMapped() && p.tx.fifo.Unused() && Apart(p.rx, p.tx)
  }

  /** How a worker ended, and its own counts. */
  datatype Result = Result(rc: BenchEnd, sent: nat, replies: nat)

  /** A worker that has `all` to send and a share of the window: it posted the first of its
      frames, in order; its replies are the reflections among the packets it read; sent
      frames are at most a share ahead of them. */
  ghost predicate Worked(p: Pair, o: Options, all: seq<bytes>, share: nat, res: Result, read: seq<bytes>)
    reads Footprint(p)
  {
    && p.rx.Valid() && p.tx.Valid()
    && SendClient.Frames(p.tx.fifo.posts) <= all && res.sent <= |all|
    && (res.rc != NotSent ==> |p.tx.fifo.posts| == res.sent)
    && |read| == |p.rx.fifo.delivered| && RecvClient.Copies(read, p.rx.fifo, 0) && res.replies == Replies(o, read)
    && res.sent <= res.replies + share
    && (res.rc == Done ==> res.replies >= |all|)
  }

  method Work(p: Pair, o: Options, template: bytes, count: uint32, q: nat, queues: nat, window: nat, rounds: nat,
              flag: nat -> bool, memory: nat -> nat)
    returns (res: Result, ghost read: seq<bytes>)
    requires Fresh(p) && q < queues && Buildable(o) && template == FrameBytes(o, Stamp(0, 0, 0))
    modifies Footprint(p)
    ensures Worked(p, o, Flood.Assigned(o, count, q, queues), Share(window, queues), res, read)
    ensures Fits(res, count, q, queues, Share(window, queues))
  {
    hide SendQueue.Refines, RecvQueue.Refines, Bound, Buildable, FrameBytes, RangeFrames, SendClient.Frames,
         RecvClient.Copies, Replies, Least;
    Flood.BoundsInside(count, q, queues);
    var lo, hi := Bound(count, q, queues), Bound(count, q + 1, queues);
    SendClient.NothingPosted(p.tx);
    var rc, done, seqNext, replies;
    ghost var upto, trace;
    rc, done, seqNext, replies, read, upto, trace :=
      BenchWorker(p.rx, p.tx, o, template, lo, hi, Share(window, queues), rounds, flag, memory);
    assert [] + RangeFrames(o, lo, upto) == RangeFrames(o, lo, upto);
    Flood.RangePrefix(o, lo, upto, hi);
    res := Result(rc, seqNext - lo, replies);
  }

  function SentOf(rs: seq<Result>): (s: seq<nat>)
    ensures |s| == |rs|
  {
    seq(|rs|, i requires 0 <= i < |rs| => rs[i].sent)
  }

  function RepliesOf(rs: seq<Result>): (s: seq<nat>)
    ensures |s| == |rs|
  {
    seq(|rs|, i requires 0 <= i < |rs| => rs[i].replies)
  }

  lemma SumMore(rs: seq<Result>, r: Result)
    ensures Sum(SentOf(rs + [r])) == Sum(SentOf(rs)) + r.sent
    ensures Sum(RepliesOf(rs + [r])) == Sum(RepliesOf(rs)) + r.replies
  {
    assert SentOf(rs + [r])[..|rs|] == SentOf(rs);
    assert RepliesOf(rs + [r])[..|rs|] == RepliesOf(rs);
  }

  predicate AllDone(rs: seq<Result>) {
    forall q :: 0 <= q < |rs| ==> rs[q].rc == Done
  }

  lemma DoneMore(rs: seq<Result>, r: Result)
    ensures AllDone(rs + [r]) <==> AllDone(rs) && r.rc == Done
  {
    var all := rs + [r];
    assert all[|rs|] == r && forall q :: 0 <= q < |rs| ==> all[q] == rs[q];
  }

  /** The first numbers of the workers fit their ranges and shares. */
  ghost predicate Counted(rs: seq<Result>, count: uint32, queues: nat, share: nat)
    requires queues > 0
  {
    forall q :: 0 <= q < |rs| ==> Fits(rs[q], count, q, queues, share)
  }

  ghost predicate Fits(r: Result, count: uint32, q: nat, queues: nat, share: nat)
    requires queues > 0
  {
    var size := Bound(count, q + 1, queues) - Bound(count, q, queues);
    r.sent <= size && r.sent <= r.replies + share && (r.rc == Done ==> r.replies >= size)
  }

  lemma CountedLast(rs: seq<Result>, count: uint32, queues: nat, share: nat)
    requires queues > 0 && rs != [] && Counted(rs, count, queues, share)
    ensures var n := |rs| - 1; Counted(rs[..n], count, queues, share) && rs[n].sent <= rs[n].replies + share
  {
    var n := |rs| - 1;
    assert Fits(rs[n], count, n, queues, share);
    assert forall q :: 0 <= q < n ==> rs[..n][q] == rs[q];
    hide Bound;
  }

  /** In total, too, sent frames are at most the shares ahead of the replies. */
  lemma {:induction false} LeadFits(rs: seq<Result>, count: uint32, queues: nat, share: nat)
    requires queues > 0 && Counted(rs, count, queues, share)
    ensures Sum(SentOf(rs)) <= Sum(RepliesOf(rs)) + |rs| * share
    decreases |rs|
  {
    if rs != [] {
      var n := |rs| - 1;
      CountedLast(rs, count, queues, share);
      hide Bound, Counted, Sum, SentOf, RepliesOf;
      LeadFits(rs[..n], count, queues, share);
      SumMore(rs[..n], rs[n]);
      assert rs[..n] + [rs[n]] == rs;
      assert |rs| * share == n * share + share;
    }
  }

  /** If all workers are done, the replies are at least as many as the frames, and as many
      in total exactly if every worker got one for each of its frames. */
  lemma {:induction false} RepliesFit(rs: seq<Result>, count: uint32, queues: nat, share: nat)
    requires 0 < queues && |rs| <= queues && Counted(rs, count, queues, share) && AllDone(rs)
    ensures Sum(RepliesOf(rs)) >= Bound(count, |rs|, queues)
    ensures Sum(RepliesOf(rs)) == Bound(count, |rs|, queues) <==>
              forall q :: 0 <= q < |rs| ==> rs[q].replies == Bound(count, q + 1, queues) - Bound(count, q, queues)
    decreases |rs|
  {
    hide Bound;
    BoundEnds(count, queues);
    if rs != [] {
      var n := |rs| - 1;
      CountedLast(rs, count, queues, share);
      assert Fits(rs[n], count, n, queues, share) && rs[n].rc == Done;
      RepliesFit(rs[..n], count, queues, share);
      SumMore(rs[..n], rs[n]);
      assert rs[..n] + [rs[n]] == rs;
    }
  }

  /** Workers touch only their own queues; here they run one after the other, for `rounds`
      rounds at most.  In total sent frames are at most the larger of window and queue
      count ahead of the replies.  The run succeeds exactly if every worker is done and
      frames and replies are both `count` in total.  Then every worker has sent its whole
      range and got one reply for each frame: a single surplus reflection fails the run. */
  method Run(ps: seq<Pair>, o: Options, template: bytes, count: uint32, window: nat, rounds: nat,
             flag: nat -> nat -> bool, memory: nat -> nat -> nat)
    returns (ok: bool, sent: nat, received: nat, rs: seq<Result>, ghost seen: seq<seq<bytes>>)
    requires 0 < |ps| && AllApart(ps) && forall q :: 0 <= q < |ps| ==> Fresh(ps[q])
    requires Buildable(o) && template == FrameBytes(o, Stamp(0, 0, 0))
    modifies Footprints(ps)
    ensures |rs| == |seen| == |ps| && forall q :: 0 <= q < |ps| ==>
              Worked(ps[q], o, Flood.Assigned(o, count, q, |ps|), Share(window, |ps|), rs[q], seen[q])
    ensures sent == Sum(SentOf(rs)) <= count && received == Sum(RepliesOf(rs))
    ensures sent <= received + if window > |ps| then window else |ps|
    ensures ok <==> AllDone(rs) && sent == count && received == count
    ensures ok ==> forall q :: 0 <= q < |ps| ==>
              rs[q].sent == rs[q].replies == Bound(count, q + 1, |ps|) - Bound(count, q, |ps|)
  {
    hide Buildable, FrameBytes, Flood.Assigned, Worked, Fresh, Bound, AllDone, Share, Counted, SentOf, RepliesOf, Sum,
         Fits, Footprint;
    var queues := |ps|;
    rs, seen := [], [];
    ghost var share := Share(window, queues);
    NoneCounted(count, queues, share);
    for q := 0 to queues
      invariant |rs| == |seen| == q
      invariant forall r :: 0 <= r < q ==>
                  Worked(ps[r], o, Flood.Assigned(o, count, r, queues), share, rs[r], seen[r])
      invariant forall r :: q <= r < queues ==> Fresh(ps[r])
      invariant Counted(rs, count, queues, share)
    {
      assert Footprint(ps[q]) <= Footprints(ps);
      assert forall r :: 0 <= r < queues && r != q ==> Footprint(ps[r]) !! Footprint(ps[q]);
      forall r | 0 <= r < queues ensures forall x :: x in Footprint(ps[r]) ==> allocated(x) {
        Allocated(ps[r]);
      }
      var res;
      ghost var read;
      res, read := Work(ps[q], o, template, count, q, queues, window, rounds, flag(q), memory(q));
      CountedMore(rs, res, count, queues, share);
      rs, seen := rs + [res], seen + [read];
    }
    forall r | 0 <= r < queues ensures forall x :: x in Footprint(ps[r]) ==> allocated(x) {
      Allocated(ps[r]);
    }
    ok, sent, received := Totals(rs, count, queues, window);
  }

  lemma NoneCounted(count: uint32, queues: nat, share: nat)
    requires queues > 0
    ensures Counted([], count, queues, share)
  {}

  lemma CountedMore(rs: seq<Result>, r: Result, count: uint32, queues: nat, share: nat)
    requires queues > 0 && Counted(rs, count, queues, share)
    requires Fits(r, count, |rs|, queues, share)
    ensures Counted(rs + [r], count, queues, share)
  {
    hide Fits;
  }

  /** Adds the workers' counts up and judges the run. */
  method Totals(rs: seq<Result>, count: uint32, queues: nat, window: nat) returns (ok: bool, sent: nat, received: nat)
    requires |rs| == queues > 0 && Counted(rs, count, queues, Share(window, queues))
    ensures sent == Sum(SentOf(rs)) <= count && received == Sum(RepliesOf(rs))
    ensures sent <= received + if window > queues then window else queues
    ensures ok <==> AllDone(rs) && sent == count && received == count
    ensures ok ==> forall q :: 0 <= q < queues ==>
              rs[q].sent == rs[q].replies == Bound(count, q + 1, queues) - Bound(count, q, queues)
  {
    hide Bound, Share, Counted, Sum, SentOf, RepliesOf, AllDone;
    var failed := false;
    sent, received := 0, 0;
    NoTotals();
    assert rs[..0] == [];
    for q := 0 to queues
      invariant sent == Sum(SentOf(rs[..q])) && received == Sum(RepliesOf(rs[..q]))
      invariant !failed <==> AllDone(rs[..q])
    {
      SumMore(rs[..q], rs[q]);
      DoneMore(rs[..q], rs[q]);
      assert rs[..q] + [rs[q]] == rs[..q + 1];
      sent, received := sent + rs[q].sent, received + rs[q].replies;
      failed := failed || rs[q].rc != Done;
    }
    assert rs[..queues] == rs;
    ok := !failed && sent == count && received == count;
    TotalsFit(rs, count, queues, window);
  }

  lemma NoTotals()
    ensures Sum(SentOf([])) == Sum(RepliesOf([])) == 0 && AllDone([])
  {}

  lemma TotalsFit(rs: seq<Result>, count: uint32, queues: nat, window: nat)
    requires |rs| == queues > 0 && Counted(rs, count, queues, Share(window, queues))
    ensures var sent, received := Sum(SentOf(rs)), Sum(RepliesOf(rs));
      && sent <= count && sent <= received + (if window > queues then window else queues)
      && (AllDone(rs) && sent == count && received == count ==>
            forall q :: 0 <= q < queues ==>
              rs[q].sent == rs[q].replies == Bound(count, q + 1, queues) - Bound(count, q, queues))
  {
    hide Bound, Share, Sum, AllDone;
    LeadFits(rs, count, queues, Share(window, queues));
    SharesFit(window, queues);
    BoundEnds(count, queues);
    assert forall q :: 0 <= q < queues ==> SentOf(rs)[q] == rs[q].sent;
    AllSent(count, queues, SentOf(rs));
    if AllDone(rs) {
      RepliesFit(rs, count, queues, Share(window, queues));
    }
    assert forall q :: 0 <= q < queues ==> Fits(rs[q], count, q, queues, Share(window, queues));
  }
}
