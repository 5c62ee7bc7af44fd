/** The windowed benchmark: a cyclic table of outstanding frames that must agree with the
    set of unanswered sequence numbers. */
module BenchWindow {
  import opened Words
  import opened Modular
  import opened Frames
  import opened Echo
  import opened Optional

  const RX_BURST := 128

  datatype Slot = Slot(seqno: uint32, sendNs: uint64, active: bool)

  /** Unanswered sequence numbers and when each was sent. */
  type Unanswered = map<nat, uint64>

  // ---- the table against the set --------------------------------------------------------

  /** The slot of a sequence number. */
  function Home(n: nat, window: nat): (i: nat)
    requires window > 0
    ensures i < window
  {
    n % window
  }

  lemma HomeDistinct(x: nat, y: nat, window: nat)
    requires window > 0 && x < y < x + window
    ensures Home(x, window) != Home(y, window)
  {
    DistinctMod(x, y, window);
  }

  lemma HomePeriod(x: nat, window: nat)
    requires window > 0
    ensures Home(x + window, window) == Home(x, window)
  {
    ModUnique(x + window, window, x / window + 1, x % window);
  }

  /** The active slots are exactly the unanswered numbers below `upto`, each at home. */
  ghost predicate Table(slots: seq<Slot>, out: Unanswered, upto: nat, window: nat) {
    && |slots| == window > 0
    && (forall i :: 0 <= i < window && slots[i].active ==> Tracks(slots[i], i, out, window))
    && (forall s :: s in out ==> s < upto <= s + window && Holds(slots[Home(s, window)], s))
  }

  ghost predicate Tracks(slot: Slot, i: nat, out: Unanswered, window: nat)
    requires window > 0
  {
    slot.seqno in out && Home(slot.seqno, window) == i && out[slot.seqno] == slot.sendNs
  }

  predicate Holds(slot: Slot, s: nat) {
    slot.active && slot.seqno == s
  }

  /** The next number enters its slot if that is free, and the newest and oldest
      unanswered numbers stay less than a window apart. */
  lemma EnterKeeps(slots: seq<Slot>, out: Unanswered, n: uint32, t: uint64, window: nat)
    requires Table(slots, out, n, window) && !slots[Home(n, window)].active
    ensures Table(slots[Home(n, window) := Slot(n, t, true)], out[n := t], n + 1, window)
  {
    hide Home;
    forall s | s in out ensures n < s + window && Home(s, window) != Home(n, window) {
      HomePeriod(s, window);
      assert Holds(slots[Home(s, window)], s);
      if n < s + window {
        HomeDistinct(s, n, window);
      }
    }
  }

  /** The slot of the next number is busy exactly if the number one window earlier is
      still unanswered. */
  lemma BusyIff(slots: seq<Slot>, out: Unanswered, n: nat, window: nat)
    requires Table(slots, out, n, window)
    ensures slots[Home(n, window)].active <==> n >= window && n - window in out
  {
    hide Home;
    var slot := slots[Home(n, window)];
    if slot.active {
      assert Tracks(slot, Home(n, window), out, window);
      assert Holds(slots[Home(slot.seqno, window)], slot.seqno);
      if slot.seqno + window > n {
        HomeDistinct(slot.seqno, n, window);
      }
    }
    if n >= window && n - window in out {
      HomePeriod(n - window, window);
      assert Holds(slots[Home(n - window, window)], n - window);
    }
  }

  /** An answered number leaves. */
  lemma LeaveKeeps(slots: seq<Slot>, out: Unanswered, n: nat, window: nat, s: nat)
    requires Table(slots, out, n, window) && s in out
    ensures var i := Home(s, window);
      Table(slots[i := slots[i].(active := false)], out - {s}, n, window)
  {
    hide Home;
    assert Holds(slots[Home(s, window)], s);
    forall r | r in out && r != s ensures Home(r, window) != Home(s, window) {
      assert Holds(slots[Home(r, window)], r);
    }
  }

  /** What the lookup finds. */
  lemma FindIff(slots: seq<Slot>, out: Unanswered, n: nat, window: nat, s: uint32)
    requires Table(slots, out, n, window)
    ensures Holds(slots[Home(s, window)], s) <==> s in out
    ensures s in out ==> out[s] == slots[Home(s, window)].sendNs
  {
    hide Home;
  }

  function Below(n: nat): (s: set<nat>)
    ensures |s| == n
    ensures forall i :: i in s <==> 0 <= i < n
  {
    if n == 0 then {} else Below(n - 1) + {n - 1}
  }

  function ActiveSlots(slots: seq<Slot>): (s: set<nat>) {
    set i | 0 <= i < |slots| && slots[i].active
  }

  /** There are as many active slots as unanswered numbers. */
  lemma {:induction false} ActiveCount(slots: seq<Slot>, out: Unanswered, n: nat, window: nat)
    requires Table(slots, out, n, window)
    ensures |ActiveSlots(slots)| == |out| <= window
    decreases |out|
  {
    hide Home;
    if out == map[] {
      assert ActiveSlots(slots) == {};
    } else {
      var s :| s in out;
      var i := Home(s, window);
      LeaveKeeps(slots, out, n, window, s);
      assert Holds(slots[i], s);
      var fewer := slots[i := slots[i].(active := false)];
      assert (out - {s}).Keys == out.Keys - {s};
      ActiveCount(fewer, out - {s}, n, window);
      assert ActiveSlots(slots) == ActiveSlots(fewer) + {i};
      assert i !in ActiveSlots(fewer);
    }
    SubsetCount(ActiveSlots(slots), Below(window));
  }

  lemma {:induction false} SubsetCount(a: set<nat>, b: set<nat>)
    requires a <= b
    ensures |a| <= |b|
    decreases |a|
  {
    if |a| > 0 {
      var x :| x in a;
      SubsetCount(a - {x}, b - {x});
    }
  }

  /** Which numbers were sent and not yet credited, and when, and which were credited. */
  datatype Ledger = Ledger(unanswered: Unanswered, credited: set<nat>) {
    function Send(n: nat, t: uint64): (l: Ledger) {
      Ledger(unanswered[n := t], credited)
    }

    function Credit(n: nat): (l: Ledger) {
      Ledger(unanswered - {n}, credited + {n})
    }
  }

  /** Every number below `upto` is either unanswered or credited, and the table agrees. */
  ghost predicate Agrees(slots: seq<Slot>, l: Ledger, upto: nat, window: nat) {
    && Table(slots, l.unanswered, upto, window)
    && l.unanswered.Keys !! l.credited && l.unanswered.Keys + l.credited == Below(upto)
  }

  lemma AgreesCount(slots: seq<Slot>, l: Ledger, upto: nat, window: nat)
    requires Agrees(slots, l, upto, window)
    ensures |l.unanswered| + |l.credited| == upto
    ensures |l.unanswered| == |ActiveSlots(slots)| <= window == |slots|
    ensures forall s :: s in l.unanswered ==> s < upto <= s + window
  {
    hide Home;
    ActiveCount(slots, l.unanswered, upto, window);
    assert |l.unanswered| == |l.unanswered.Keys|;
    assert |l.unanswered.Keys + l.credited| == upto;
  }

  lemma AgreesBusy(slots: seq<Slot>, l: Ledger, n: nat, window: nat)
    requires Agrees(slots, l, n, window)
    ensures slots[Home(n, window)].active <==> n >= window && n - window in l.unanswered
  {
    BusyIff(slots, l.unanswered, n, window);
  }

  lemma SendAgrees(slots: seq<Slot>, l: Ledger, n: uint32, t: uint64, window: nat)
    requires Agrees(slots, l, n, window) && !slots[Home(n, window)].active
    ensures Agrees(slots[Home(n, window) := Slot(n, t, true)], l.Send(n, t), n + 1, window)
  {
    hide Home, Table;
    EnterKeeps(slots, l.unanswered, n, t, window);
  }

  lemma CreditAgrees(slots: seq<Slot>, l: Ledger, upto: nat, window: nat, s: nat)
    requires Agrees(slots, l, upto, window) && s in l.unanswered
    ensures var i := Home(s, window);
      Agrees(slots[i := slots[i].(active := false)], l.Credit(s), upto, window)
    ensures |l.Credit(s).credited| == |l.credited| + 1
  {
    hide Home, Table;
    LeaveKeeps(slots, l.unanswered, upto, window, s);
    assert (l.unanswered - {s}).Keys == l.unanswered.Keys - {s};
    MoveOne(l.unanswered.Keys, l.credited, s);
  }

  lemma MoveOne(a: set<nat>, b: set<nat>, x: nat)
    requires a !! b && x in a
    ensures (a - {x}) !! (b + {x}) && (a - {x}) + (b + {x}) == a + b && |b + {x}| == |b| + 1
  {}

  lemma EmptyAgrees(slots: seq<Slot>, window: nat)
    requires |slots| == window > 0 && forall i :: 0 <= i < window ==> !slots[i].active
    ensures Agrees(slots, Ledger(map[], {}), 0, window)
  {}

  // ---- the benchmark on the set ---------------------------------------------------------

  /** The options, and what the clock reads when each frame is sent. */
  datatype Config = Config(o: Options, window: nat, count: uint32, queueCount: uint16, throughputOnly: bool,
                           minRttNs: uint32, sendNs: nat -> uint64)
  {
    predicate Usable() {
      0 < window <= 4096 && 0 < queueCount && Buildable(o)
    }

    /** The time frame `n` is stamped with. */
    function StampNs(n: nat): uint64 { if throughputOnly then 0 else sendNs(n) }
  }

  /** A received packet, and what the clock reads then. */
  datatype Received = Received(pkt: bytes, nowNs: uint64)

  /** What happens during one round: whether the driver takes the frames, what each queue
      has when asked, and whether the packets can be given back. */
  datatype Round = Round(txOk: bool, offers: nat -> seq<Received>, released: bool)

  datatype Verdict = NotOurs | LocalCopy | Unmatched | Credited

  datatype Outcome = Done | Running | NotSent | TimedOut | NotReleased

  /** The numbers sent so far, what became of them, and the queue to ask first. */
  datatype Progress = Progress(ledger: Ledger, sent: nat, cursor: nat)

  /** No further number can be entered: all are sent, the window is full, or the number
      one window earlier is still unanswered. */
  predicate Stuck(c: Config, l: Ledger, n: nat) {
    n >= c.count || |l.unanswered| >= c.window || (n >= c.window && n - c.window in l.unanswered)
  }

  /** Sends from number `n` on until nothing more can be sent. */
  function FillTo(c: Config, l: Ledger, n: nat): (r: (Ledger, nat))
    ensures r.1 >= n
    decreases c.count - n
  {
    if Stuck(c, l, n) then (l, n) else FillTo(c, l.Send(n, c.StampNs(n)), n + 1)
  }

  /** Consecutive numbers enter, with the time each is sent at, unless time does not
      count; nothing else changes. */
  lemma {:induction false} FillToEnters(c: Config, l: Ledger, n: nat)
    ensures var (l', m) := FillTo(c, l, n);
      && Stuck(c, l', m) && l'.credited == l.credited
      && (forall k :: k in l'.unanswered <==> k in l.unanswered || n <= k < m)
      && (forall k :: k in l'.unanswered ==>
            l'.unanswered[k] == if n <= k < m then (if c.throughputOnly then 0 else c.sendNs(k)) else l.unanswered[k])
    decreases c.count - n
  {
    hide Stuck;
    if !Stuck(c, l, n) {
      StuckAtEnd(c, l, n);
      FillToEnters(c, l.Send(n, c.StampNs(n)), n + 1);
    }
  }

  lemma StuckAtEnd(c: Config, l: Ledger, n: nat)
    ensures !Stuck(c, l, n) ==> n < c.count
  {}

  /** What becomes of a received packet. */
  function Judge(c: Config, out: Unanswered, r: Received): Verdict {
    match Parse(c.o, r.pkt)
    case Rejected => NotOurs
    case Parsed(st) =>
      if !ReplyBit(st.flags) && !IsReflection(c.o, r.pkt) then LocalCopy
      else if st.seqno !in out then Unmatched
      else if !c.throughputOnly && r.nowNs < out[st.seqno] then Unmatched
      else if !c.throughputOnly && r.nowNs - out[st.seqno] < c.minRttNs then LocalCopy
      else Credited
  }

  lemma CreditedIsUnanswered(c: Config, out: Unanswered, r: Received)
    requires Judge(c, out, r) == Credited
    ensures Parse(c.o, r.pkt).Parsed? && Parse(c.o, r.pkt).stamp.seqno in out
  {}

  /** `r` carries the header of a reply to the unanswered number `n`, received late enough
      by the clock if that counts. */
  ghost predicate Answering(c: Config, out: Unanswered, r: Received, n: uint32) {
    && (exists st: Stamp :: st.seqno == n && IsReply(c.o, r.pkt, st))
    && n in out && (c.throughputOnly || out[n] + c.minRttNs <= r.nowNs)
  }

  /** A packet is credited exactly if it answers an unanswered number. */
  lemma CreditedIff(c: Config, out: Unanswered, r: Received)
    ensures Judge(c, out, r) == Credited <==> exists n: uint32 :: Answering(c, out, r, n)
    ensures forall n: uint32 :: Answering(c, out, r, n) ==>
              n in out && Parse(c.o, r.pkt).Parsed? && Parse(c.o, r.pkt).stamp.seqno == n
  {
    hide Parse, IsReply, IsReflection;
    forall st: Stamp ensures IsReply(c.o, r.pkt, st) <==>
        Parse(c.o, r.pkt) == Parsed(st) && (ReplyBit(st.flags) || IsReflection(c.o, r.pkt))
    {
      ReplyIff(c.o, r.pkt, st);
    }
    if Judge(c, out, r) == Credited {
      var st := Parse(c.o, r.pkt).stamp;
      assert IsReply(c.o, r.pkt, st);
      assert Answering(c, out, r, st.seqno);
    }
  }

  /** What becomes of a frame that comes back, with or without its reply bit set: it is
      credited exactly if its number is unanswered and the clock agrees. */
  lemma ReturnJudged(c: Config, out: Unanswered, st: Stamp, nowNs: uint64)
    requires Buildable(c.o)
    ensures var back := Received(FrameBytes(c.o.(dst := c.o.src, src := c.o.dst), st), nowNs);
      Judge(c, out, back) ==
        if st.seqno !in out then Unmatched
        else if c.throughputOnly || out[st.seqno] + c.minRttNs <= nowNs then Credited
        else if nowNs < out[st.seqno] then Unmatched
        else LocalCopy
  {
    hide FrameBytes, Parse;
    var o := c.o.(dst := c.o.src, src := c.o.dst);
    ParsesBack(o, st);
    FrameFields(o, st);
    SameHeader(c.o, o, FrameBytes(o, st));
  }

  lemma SameHeader(o: Options, o': Options, pkt: bytes)
    requires o'.ethertype == o.ethertype && o'.rssUdp == o.rssUdp
    ensures Parse(o, pkt) == Parse(o', pkt)
  {}

  function AfterOne(c: Config, l: Ledger, r: Received): Ledger {
    if Judge(c, l.unanswered, r) == Credited
    then CreditedIsUnanswered(c, l.unanswered, r); l.Credit(Parse(c.o, r.pkt).stamp.seqno)
    else l
  }

  function AfterAll(c: Config, l: Ledger, got: seq<Received>): Ledger {
    if got == [] then l else AfterOne(c, AfterAll(c, l, got[..|got| - 1]), got[|got| - 1])
  }

  /** The first queue with packets, in cyclic order from the cursor on, after `asked`
      attempts. */
  function FirstOffer(c: Config, cursor: nat, offers: nat -> seq<Received>, asked: nat): (q: Option<nat>)
    requires c.queueCount > 0
    ensures q.Some? ==> q.value < c.queueCount && offers(q.value) != []
    decreases c.queueCount - asked
  {
    if asked >= c.queueCount then None
    else
      var q := (cursor + asked) % c.queueCount;
      if offers(q) != [] then Some(q) else FirstOffer(c, cursor, offers, asked + 1)
  }

  /** The first `n` elements, or all of them. */
  function UpTo<T>(s: seq<T>, n: nat): (r: seq<T>)
    ensures r <= s && |r| <= n && (|r| < n ==> r == s)
  {
    if |s| < n then s else s[..n]
  }

  /** How long to wait: only when nothing more can be sent for now. */
  function PollTimeout(c: Config, l: Ledger, sent: nat, timeoutMs: nat): nat {
    if |l.unanswered| >= c.window || sent == c.count then timeoutMs else 0
  }

  /** One round: send, ask the queues, judge what came. */
  function Step(c: Config, p: Progress, r: Round, timeoutMs: nat): (Progress, Outcome)
    requires c.queueCount > 0
  {
    var (l, n) := FillTo(c, p.ledger, p.sent);
    if n > p.sent && !r.txOk then
      (Progress(l, p.sent, p.cursor), NotSent)
    else
      match FirstOffer(c, p.cursor, r.offers, 0)
      case None =>
        (Progress(l, n, p.cursor),
         if c.queueCount > 1 || PollTimeout(c, l, n, timeoutMs) == 0 then Running else TimedOut)
      case Some(q) =>
        var got := UpTo(r.offers(q), if |l.unanswered| < 128 then |l.unanswered| else 128);
        (Progress(AfterAll(c, l, got), n, (q + 1) % c.queueCount), if r.released then Running else NotReleased)
  }

  /** All rounds, until the run is over. */
  function Rounds(c: Config, p: Progress, rounds: seq<Round>, timeoutMs: nat): (Progress, Outcome)
    requires c.queueCount > 0
    decreases |rounds|
  {
    if |p.ledger.credited| >= c.count then (p, Done)
    else if rounds == [] then (p, Running)
    else
      var (q, rc) := Step(c, p, rounds[0], timeoutMs);
      if rc != Running then (q, rc) else Rounds(c, q, rounds[1..], timeoutMs)
  }

  // ---- the benchmark on the table -------------------------------------------------------

  /** The frames of the numbers from `first` on. */
  ghost predicate Stamped(c: Config, frames: seq<bytes>, first: nat)
    requires Buildable(c.o)
  {
    && first + |frames| <= U32
    && (forall k :: 0 <= k < |frames| ==> IsFrameOf(c, frames[k], first + k))
  }

  ghost predicate IsFrameOf(c: Config, frame: bytes, n: uint32)
    requires Buildable(c.o)
  {
    frame == FrameBytes(c.o, Stamp(n, if c.throughputOnly then 0 else c.sendNs(n), 0))
  }

  lemma BuiltIsFrame(c: Config, frame: bytes, n: uint32)
    requires Buildable(c.o) && frame == FrameBytes(c.o, Stamp(n, c.StampNs(n), 0))
    ensures IsFrameOf(c, frame, n)
  {}

  lemma StampMore(c: Config, handed: seq<bytes>, frames: seq<bytes>, first: nat)
    requires Buildable(c.o) && Stamped(c, handed, first) && Stamped(c, frames, first + |handed|)
    ensures Stamped(c, handed + frames, first)
  {
    hide FrameBytes, Buildable;
    forall k | 0 <= k < |handed + frames|
      ensures IsFrameOf(c, (handed + frames)[k], first + k)
    {
      if k >= |handed| {
        assert IsFrameOf(c, frames[k - |handed|], first + |handed| + (k - |handed|));
      }
    }
  }

  class Bench {
    const c: Config
    const slots: array<Slot>
    var sent: uint32
    var received: uint32
    var inflight: uint32
    var rxQueueCursor: uint16
    ghost var ledger: Ledger

    /** `batch` frames are entered in the table and not yet handed to the driver. */
    ghost predicate Filling(batch: nat)
      reads this, slots
    {
      && slots.Length == c.window && c.Usable() && rxQueueCursor < c.queueCount
      && Agrees(slots[..], ledger, sent + batch, c.window)
      && received == |ledger.credited| && received <= sent && sent + batch <= c.count
      && inflight == sent - received
    }

    ghost predicate Valid()
      reads this, slots
    {
      Filling(0)
    }

    ghost function Now(): Progress
      reads this
    {
      Progress(ledger, sent, rxQueueCursor)
    }

    constructor (c: Config)
      requires c.Usable()
      ensures Valid() && fresh(slots) && this.c == c
      ensures sent == 0 && rxQueueCursor == 0 && ledger == Ledger(map[], {})
    {
      hide Agrees, Config.Usable;
      this.c := c;
      assert c.window > 0 by {
        UsableFacts(c);
      }
      slots := new Slot[c.window](_ => Slot(0, 0, false));
      sent, received, inflight, rxQueueCursor := 0, 0, 0, 0;
      ledger := Ledger(map[], {});
      new;
      UsableFacts(c);
      EmptyAgrees(slots[..], c.window);
    }

    /** Enters frame number `sent + batch` in the table unless its slot is still taken, by
        the number one window earlier. */
    method Enter(batch: nat) returns (ok: bool)
      requires Filling(batch) && sent + batch < c.count
      modifies slots, this`ledger
      ensures ok <==> !(sent + batch >= c.window && sent + batch - c.window in old(ledger).unanswered)
      ensures if ok then Filling(batch + 1) && ledger == old(ledger).Send(sent + batch, c.StampNs(sent + batch))
              else Filling(batch) && ledger == old(ledger)
    {
      hide Table, Home, Agrees;
      var n := sent + batch;
      AgreesBusy(slots[..], ledger, n, c.window);
      var i := Home(n, c.window);
      ok := !slots[i].active;
      if ok {
        var t := c.StampNs(n);
        SendAgrees(slots[..], ledger, n, t, c.window);
        ghost var s := slots[..][i := Slot(n, t, true)];
        slots[i] := Slot(n, t, true);
        assert slots[..] == s;
        ledger := ledger.Send(n, t);
      }
    }

    method Build(template: bytes, st: Stamp) returns (frame: bytes)
      requires Buildable(c.o) && template == FrameBytes(c.o, Stamp(0, 0, 0))
      ensures frame == FrameBytes(c.o, st)
    {
      var buffer := new byte[CAPACITY](_ => 0);
      BuildFromTemplate(c.o, template, Stamp(0, 0, 0), st, buffer);
      SplicePrefix(Repeat(CAPACITY, 0), FrameBytes(c.o, st));
      frame := buffer[..|template|];
    }

    /** Enters and builds as many frames as fit, without a gap in the numbers. */
    method FillBatch(template: bytes) returns (frames: seq<bytes>)
      requires Valid() && Buildable(c.o) && template == FrameBytes(c.o, Stamp(0, 0, 0))
      modifies slots, this`ledger
      ensures Filling(|frames|) && |frames| <= c.window - inflight
      ensures Stamped(c, frames, sent)
      ensures Stuck(c, ledger, sent + |frames|)
      ensures (ledger, sent + |frames|) == FillTo(c, old(ledger), sent)
      ensures ledger.credited == old(ledger).credited
    {
      hide Agrees, FrameBytes, Buildable, FillTo, Config.StampNs;
      frames := [];
      AgreesCount(slots[..], ledger, sent, c.window);
      while |frames| < c.window - inflight && sent + |frames| < c.count
        invariant Filling(|frames|) && |frames| <= c.window - inflight
        invariant Stamped(c, frames, sent)
        invariant FillTo(c, ledger, sent + |frames|) == FillTo(c, old(ledger), sent)
        invariant ledger.credited == old(ledger).credited
        decreases c.count - sent - |frames|
      {
        var n := sent + |frames|;
        AgreesCount(slots[..], ledger, n, c.window);
        FillUnfolds(c, ledger, n);
        var ok := Enter(|frames|);
        if !ok {
          break;
        }
        var frame := Build(template, Stamp(n, c.StampNs(n), 0));
        BuiltIsFrame(c, frame, n);
        frames := frames + [frame];
      }
      AgreesCount(slots[..], ledger, sent + |frames|, c.window);
      FillUnfolds(c, ledger, sent + |frames|);
    }

    /** Sends until nothing more can be sent; `handed` are the frames given to the driver,
        which takes them or not. */
    method Fill(template: bytes, txOk: bool) returns (ok: bool, handed: seq<bytes>, ghost pending: nat)
      requires Valid() && Buildable(c.o) && template == FrameBytes(c.o, Stamp(0, 0, 0))
      modifies slots, this`ledger, this`sent, this`inflight
      ensures ok <==> txOk || handed == []
      ensures Filling(pending) && pending == if ok then 0 else |handed|
      ensures (ledger, old(sent) + |handed|) == FillTo(c, old(ledger), old(sent))
      ensures sent == if ok then old(sent) + |handed| else old(sent)
      ensures ledger.credited == old(ledger).credited && Stamped(c, handed, old(sent))
      ensures ok && received < c.count ==> inflight > 0
      ensures ok ==> inflight == |ledger.unanswered|
    {
      hide Agrees, FrameBytes, Buildable, Stamped, FillTo, Config.StampNs;
      ok, handed, pending := true, [], 0;
      NothingStamped(c, sent);
      AgreesCount(slots[..], ledger, sent, c.window);
      while sent < c.count && inflight < c.window
        invariant Valid() && ok && pending == 0 && (handed != [] ==> txOk)
        invariant ledger.credited == old(ledger).credited
        invariant Stamped(c, handed, old(sent)) && sent == old(sent) + |handed|
        invariant FillTo(c, ledger, sent) == FillTo(c, old(ledger), old(sent))
        decreases c.count - sent
      {
        var frames := FillBatch(template);
        FillUnfolds(c, ledger, sent + |frames|);
        StampMore(c, handed, frames, old(sent));
        if frames == [] {
          assert handed + frames == handed;
          break;
        }
        handed := handed + frames;
        if !txOk {
          ok, pending := false, |frames|;
          return;
        }
        inflight := inflight + |frames|;
        sent := sent + |frames|;
      }
      AgreesCount(slots[..], ledger, sent, c.window);
      FillUnfolds(c, ledger, sent);
    }

    /** Takes one packet: it is credited exactly if it answers an unanswered number, and
        then to that number. */
    method Receive(r: Received) returns (v: Verdict)
      requires Valid()
      modifies slots, this`ledger, this`inflight, this`received
      ensures Valid()
      ensures v == Judge(c, old(ledger).unanswered, r) && ledger == AfterOne(c, old(ledger), r)
      ensures v == Credited <==> exists n: uint32 :: Answering(c, old(ledger).unanswered, r, n)
      ensures forall n: uint32 :: Answering(c, old(ledger).unanswered, r, n) ==>
                n in old(ledger).unanswered && ledger == old(ledger).Credit(n)
      ensures v != Credited ==> ledger == old(ledger)
    {
      hide Agrees, Parse, Answering, Judge;
      CreditedIff(c, ledger.unanswered, r);
      v := LookUp(r);
    }

    /** Judges one packet by the table. */
    method LookUp(r: Received) returns (v: Verdict)
      requires Valid()
      modifies slots, this`ledger, this`inflight, this`received
      ensures Valid()
      ensures v == Judge(c, old(ledger).unanswered, r)
      ensures ledger == AfterOne(c, old(ledger), r)
    {
      hide Agrees, Parse, IsReflection, Home, Config.Usable;
      var parsed := Parse(c.o, r.pkt);
      if parsed.Rejected? {
        return NotOurs;
      }
      var st := parsed.stamp;
      if !ReplyBit(st.flags) && !IsReflection(c.o, r.pkt) {
        return LocalCopy;
      }
      UsableFacts(c);
      AgreesFind(slots[..], ledger, sent, c.window, st.seqno);
      AgreesCount(slots[..], ledger, sent, c.window);
      var i := Home(st.seqno, c.window);
      var slot := slots[i];
      if !Holds(slot, st.seqno) {
        return Unmatched;
      }
      if !c.throughputOnly && r.nowNs < slot.sendNs {
        return Unmatched;
      }
      if !c.throughputOnly && r.nowNs - slot.sendNs < c.minRttNs {
        return LocalCopy;
      }
      CreditAgrees(slots[..], ledger, sent, c.window, st.seqno);
      ghost var s := slots[..][i := slots[i].(active := false)];
      slots[i] := slots[i].(active := false);
      assert slots[..] == s;
      ledger := ledger.Credit(st.seqno);
      inflight := inflight - 1;
      received := received + 1;
      v := Credited;
    }

    method ReceiveAll(got: seq<Received>)
      requires Valid()
      modifies slots, this`ledger, this`inflight, this`received
      ensures Valid() && ledger == AfterAll(c, old(ledger), got)
      ensures old(ledger).credited <= ledger.credited
    {
      hide Agrees, Judge, Parse, Config.Usable;
      assert got[..0] == [];
      for i := 0 to |got|
        invariant Valid() && ledger == AfterAll(c, old(ledger), got[..i])
        invariant old(ledger).credited <= ledger.credited
      {
        assert got[..i + 1][..i] == got[..i];
        var v := Receive(got[i]);
      }
      assert got[..|got|] == got;
    }

    /** Asks each queue at most once, in cyclic order from the cursor on, until one has
        packets; if none has, all were asked. */
    method Poll(maxRx: nat, offers: nat -> seq<Received>)
      returns (rxQueue: uint16, got: seq<Received>, asked: seq<uint16>)
      requires rxQueueCursor < c.queueCount && maxRx > 0
      modifies this`rxQueueCursor
      ensures rxQueue < c.queueCount
      ensures match FirstOffer(c, old(rxQueueCursor), offers, 0)
        case None => got == [] && rxQueueCursor == old(rxQueueCursor) && |asked| == c.queueCount
        case Some(q) =>
          && rxQueue == q && got == UpTo(offers(q), maxRx) && got != []
          && rxQueueCursor == (q + 1) % c.queueCount && asked != [] && asked[|asked| - 1] == q
      ensures forall i :: 0 <= i < |asked| ==> asked[i] == (old(rxQueueCursor) + i) % c.queueCount
      ensures forall i, j :: 0 <= i < j < |asked| ==> asked[i] != asked[j]
    {
      rxQueue, got, asked := rxQueueCursor, [], [];
      for attempt := 0 to c.queueCount
        invariant rxQueueCursor == old(rxQueueCursor) && rxQueue < c.queueCount && got == []
        invariant FirstOffer(c, rxQueueCursor, offers, 0) == FirstOffer(c, rxQueueCursor, offers, attempt)
        invariant |asked| == attempt
        invariant forall i :: 0 <= i < |asked| ==> asked[i] == (rxQueueCursor + i) % c.queueCount
        invariant forall i, j :: 0 <= i < j < |asked| ==> asked[i] != asked[j]
      {
        var q := (rxQueueCursor + attempt) % c.queueCount;
        forall i | 0 <= i < attempt ensures asked[i] != q {
          DistinctMod(rxQueueCursor + i, rxQueueCursor + attempt, c.queueCount);
        }
        asked := asked + [q];
        if offers(q) != [] {
          rxQueue, got := q, UpTo(offers(q), maxRx);
          rxQueueCursor := (q + 1) % c.queueCount;
          return;
        }
      }
    }

    /** One round on the table does what a round does on the set. */
    method DoRound(template: bytes, timeoutMs: nat, r: Round)
      returns (rc: Outcome, handed: seq<bytes>, ghost pending: nat)
      requires Valid() && received < c.count && template == FrameBytes(c.o, Stamp(0, 0, 0))
      modifies this, slots
      ensures Filling(pending) && (rc != NotSent ==> pending == 0)
      ensures (Now(), rc) == Step(c, old(Now()), r, timeoutMs) && rc != Done
      ensures old(ledger).credited <= ledger.credited
      ensures Stamped(c, handed, old(sent)) && sent + pending == old(sent) + |handed|
    {
      hide Agrees, FrameBytes, Buildable, FillTo, AfterAll, FirstOffer, Stamped;
      rc := Running;
      var ok;
      ok, handed, pending := Fill(template, r.txOk);
      if !ok {
        rc := NotSent;
        return;
      }
      var pollTimeoutMs := if inflight >= c.window || sent == c.count then timeoutMs else 0;
      var maxRx: nat := if inflight < RX_BURST then inflight else RX_BURST;
      var rxQueue, got, asked := Poll(maxRx, r.offers);
      if got == [] {
        rc := if c.queueCount > 1 || pollTimeoutMs == 0 then Running else TimedOut;
        return;
      }
      ReceiveAll(got);
      rc := if r.released then Running else NotReleased;
    }

    /** The loop, round by round, whatever packets arrive: duplicates, strays, late and
        reordered replies included.  It does exactly what the same rounds do on the set,
        and hands the driver the frames of all numbers in order.  A run that finishes has
        credited every number below `count`. */
    method Run(template: bytes, timeoutMs: nat, rounds: seq<Round>)
      returns (rc: Outcome, handed: seq<bytes>, ghost pending: nat)
      requires Valid() && template == FrameBytes(c.o, Stamp(0, 0, 0))
      modifies this, slots
      ensures Filling(pending) && (rc != NotSent ==> pending == 0)
      ensures (Now(), rc) == Rounds(c, old(Now()), rounds, timeoutMs)
      ensures old(ledger).credited <= ledger.credited
      ensures Stamped(c, handed, old(sent)) && sent + pending == old(sent) + |handed|
      ensures rc == Done ==> ledger.credited == Below(c.count) && ledger.unanswered == map[]
      ensures rc == Done ==> sent == received == c.count && inflight == 0
    {
      hide Agrees, FrameBytes, Buildable, Step, Rounds, Stamped;
      rc, handed, pending := Running, [], 0;
      NothingStamped(c, sent);
      var i := 0;
      assert rounds[0..] == rounds;
      while received < c.count && i < |rounds|
        invariant Valid() && rc == Running && pending == 0 && 0 <= i <= |rounds|
        invariant Rounds(c, old(Now()), rounds, timeoutMs) == Rounds(c, Now(), rounds[i..], timeoutMs)
        invariant old(ledger).credited <= ledger.credited
        invariant Stamped(c, handed, old(sent)) && sent == old(sent) + |handed|
        decreases |rounds| - i
      {
        RoundsUnfold(c, Now(), rounds[i..], timeoutMs);
        assert rounds[i..][1..] == rounds[i + 1..];
        var frames;
        rc, frames, pending := DoRound(template, timeoutMs, rounds[i]);
        StampMore(c, handed, frames, old(sent));
        handed := handed + frames;
        if rc != Running {
          return;
        }
        i := i + 1;
      }
      RoundsUnfold(c, Now(), rounds[i..], timeoutMs);
      if received == c.count {
        rc := Done;
        AllCredited(slots[..], ledger, sent, c.window);
      }
    }
  }

  lemma UsableFacts(c: Config)
    requires c.Usable()
    ensures 0 < c.window <= 4096 && 0 < c.queueCount && Buildable(c.o)
  {}

  lemma NothingStamped(c: Config, first: uint32)
    requires Buildable(c.o)
    ensures Stamped(c, [], first)
  {}

  lemma FillUnfolds(c: Config, l: Ledger, n: nat)
    ensures FillTo(c, l, n) == if Stuck(c, l, n) then (l, n) else FillTo(c, l.Send(n, c.StampNs(n)), n + 1)
  {}

  lemma RoundsUnfold(c: Config, p: Progress, rounds: seq<Round>, timeoutMs: nat)
    requires c.queueCount > 0
    ensures Rounds(c, p, rounds, timeoutMs)
         == if |p.ledger.credited| >= c.count then (p, Done)
            else if rounds == [] then (p, Running)
            else var (q, rc) := Step(c, p, rounds[0], timeoutMs);
              if rc != Running then (q, rc) else Rounds(c, q, rounds[1..], timeoutMs)
  {}

  lemma AgreesFind(slots: seq<Slot>, l: Ledger, upto: nat, window: nat, s: uint32)
    requires Agrees(slots, l, upto, window)
    ensures Holds(slots[Home(s, window)], s) <==> s in l.unanswered
    ensures s in l.unanswered ==> l.unanswered[s] == slots[Home(s, window)].sendNs
  {
    FindIff(slots, l.unanswered, upto, window, s);
  }

  lemma AllCredited(slots: seq<Slot>, l: Ledger, upto: nat, window: nat)
    requires Agrees(slots, l, upto, window) && |l.credited| >= upto
    ensures l.credited == Below(upto) && l.unanswered == map[]
  {
    AgreesCount(slots, l, upto, window);
  }
}
