/** When the 2048 entries of a completion queue can be too few for what the device owes:
    an entry it writes then would fall on one the driver has not given back. */
module Overrun {
  import opened Words
  import opened CompletionQueue
  import SendFifo
  import SendQueue
  import SendWqe
  import RecvFifo
  import RecvQueue

  /** The device owes more entries than the doorbell record leaves room for. */
  ghost predicate Overruns(cq: Cq)
    reads cq
  {
    |cq.due| > cq.released + CQE_COUNT
  }

  // ----- the receive side -----

  /** The device never owes more than the slots granted at the start and those leaked by
      failed releases: up to 2048 of them, the queue cannot overrun. */
  lemma ReceiveOwes(rx: RecvQueue.Rq)
    requires rx.Coherent()
    ensures |rx.cq.due| <= rx.cq.released + rx.fifo.granted + rx.fifo.leaked
    ensures rx.fifo.granted + rx.fifo.leaked <= CQE_COUNT ==> !Overruns(rx.cq)
  {}

  /** The device fills every announced slot before the driver looks again. */
  method FillAnnounced(rx: RecvQueue.Rq)
    requires rx.Coherent()
    modifies rx`hwIndex, rx`fifo, rx.pages, rx.cq
    ensures rx.Coherent() && RecvQueue.DeviceMoved(old(rx.fifo), rx.fifo)
    ensures |rx.cq.due| == rx.fifo.rung && rx.cq.released == old(rx.cq.released)
  {
    hide RecvQueue.Refines;
    Owed(rx);
    var turns := (rx.doorbell - rx.hwIndex) % U24;
    for i := 0 to turns
      invariant rx.Coherent() && RecvQueue.DeviceMoved(old(rx.fifo), rx.fifo)
      invariant rx.cq.released == old(rx.cq.released)
      invariant |rx.cq.due| == |rx.fifo.arrivals| == rx.fifo.rung - (turns - i)
    {
      var raw: Entry := *;
      rx.DeviceReceive(raw, []);
      Owed(rx);
    }
  }

  lemma Owed(rx: RecvQueue.Rq)
    requires rx.Coherent()
    ensures |rx.cq.due| == |rx.fifo.arrivals| <= rx.fifo.rung
    ensures (rx.doorbell - rx.hwIndex) % U24 == rx.fifo.rung - |rx.fifo.arrivals|
  {
    RecvQueue.DoorbellIsExact(rx.View(), rx.mkey, rx.base, rx.fifo);
  }

  /** The bound is reached: wherever every posted slot is announced and the doorbell
      record covers no more than the packets given back, the device can make the queue
      overrun before the driver looks again exactly if more than 2048 slots were granted
      or leaked. */
  method ReceiveWorstCase(rx: RecvQueue.Rq)
    requires rx.Valid() && rx.fifo.rung == rx.fifo.prod && rx.cq.released == rx.fifo.released
    modifies rx`hwIndex, rx`fifo, rx.pages, rx.cq
    ensures rx.Valid() && RecvQueue.DeviceMoved(old(rx.fifo), rx.fifo)
    ensures |rx.cq.due| == rx.cq.released + rx.fifo.granted + rx.fifo.leaked
    ensures Overruns(rx.cq) <==> rx.fifo.granted + rx.fifo.leaked > CQE_COUNT
  {
    hide RecvQueue.Refines;
    FillAnnounced(rx);
  }

  /** A queue just started with `count` buffers. */
  method StartedWorstCase(count: nat) returns (rx: RecvQueue.Rq)
    requires 0 < count <= RecvFifo.RQ_WQE_COUNT
    ensures rx.Valid() && rx.fifo.granted == count && rx.fifo.leaked == 0
    ensures Overruns(rx.cq) <==> count > CQE_COUNT
  {
    hide RecvQueue.Refines;
    rx := new RecvQueue.Rq(0, 0);
    Published(rx);
    var started := rx.Start(count, count);
    Published(rx);
    ReceiveWorstCase(rx);
  }

  /** Leaks count as well: a queue started with two buffers can overrun after both packets
      were held through 2047 releases that got one buffer each, and then given back. */
  method LeakedWorstCase() returns (rx: RecvQueue.Rq)
    ensures rx.Valid() && rx.fifo.granted == 2 && Overruns(rx.cq)
  {
    hide RecvQueue.Refines;
    rx := new RecvQueue.Rq(0, 0);
    var started := rx.Start(2, 2);
    HoldTwo(rx);
    for i := 0 to 2047
      invariant rx.Valid() && rx.outstanding == 2
      invariant fresh(rx) && fresh(rx.ring) && fresh(rx.pages) && fresh(rx.cq) && fresh(rx.cq.ring)
      invariant rx.fifo.granted == 2 && rx.fifo.leaked == i && rx.fifo.prod == 2 + i
      invariant |rx.fifo.delivered| == rx.cq.released == 2 && rx.fifo.released == 0
    {
      var status := rx.RxRelease(2, 1);
      Published(rx);
    }
    var status := rx.RxRelease(2, 2);
    Published(rx);
    ReceiveWorstCase(rx);
  }

  /** The device fills both buffers of a queue, and the application takes both packets. */
  method HoldTwo(rx: RecvQueue.Rq)
    requires rx.Valid() && rx.fifo.prod == rx.fifo.rung == rx.fifo.granted == 2
    requires rx.fifo.delivered == [] && rx.fifo.consumed == rx.fifo.leaked == rx.fifo.released == 0
    requires rx.fifo.arrivals == []
    modifies rx, rx.pages, rx.cq, rx.cq.ring
    ensures rx.Valid() && rx.outstanding == 2
    ensures rx.fifo.granted == rx.fifo.prod == |rx.fifo.delivered| == rx.cq.released == 2
    ensures rx.fifo.leaked == rx.fifo.released == 0
  {
    hide RecvQueue.Refines, RecvQueue.Received, RecvQueue.ShortOf, RecvQueue.HeldIntact, RingHolds;
    FillTwo(rx);
    ghost var before := rx.fifo;
    var pkts, status := rx.RxBurst(2, 0);
    BothReceived(before, rx.fifo, pkts, rx.cq.written);
    Published(rx);
  }

  /** The device receives two packets and writes both completions. */
  method FillTwo(rx: RecvQueue.Rq)
    requires rx.Valid() && rx.fifo.rung == 2 && rx.fifo.arrivals == []
    modifies rx`hwIndex, rx`fifo, rx.pages, rx.cq, rx.cq.ring
    ensures rx.Valid() && rx.cq.written >= 2 && |rx.fifo.arrivals| == 2
    ensures rx.fifo.arrivals[0].ok && rx.fifo.arrivals[1].ok
    ensures rx.fifo == old(rx.fifo).(arrivals := rx.fifo.arrivals)
  {
    hide RecvQueue.Refines, RingHolds;
    var good: Entry := Repeat(CQE_SIZE, 0);
    rx.DeviceReceive(good, []);
    rx.DeviceReceive(good, []);
    Owed(rx);
    rx.cq.DeviceProgressTo(2);
  }

  lemma BothReceived(f: RecvFifo.Fifo, g: RecvFifo.Fifo, pkts: seq<RecvQueue.Packet>, written: nat)
    requires RecvQueue.Received(f, g, pkts) && |pkts| <= 2 && f.consumed == 0 && f.delivered == []
    requires |f.arrivals| == 2 && f.arrivals[0].ok && f.arrivals[1].ok && written >= 2
    requires |pkts| < 2 ==> RecvQueue.ShortOf(f, g, |pkts|, written)
    ensures |pkts| == |g.delivered| == 2
    ensures g == f.(arrivals := g.arrivals, consumed := g.consumed, delivered := g.delivered)
  {}

  lemma Published(rx: RecvQueue.Rq)
    requires rx.Valid()
    ensures rx.fifo.released <= |rx.fifo.delivered| <= rx.cq.released <= rx.cq.consumed == rx.fifo.consumed
    ensures rx.fifo.consumed <= |rx.fifo.arrivals| == |rx.cq.due| <= rx.fifo.rung <= rx.fifo.prod
    ensures rx.outstanding == |rx.fifo.delivered| - rx.fifo.released
  {}

  // ----- the transmit side -----

  /** Completions requested by frames posted so far and not consumed yet. */
  ghost function Requested(f: SendFifo.Fifo): int { |SendFifo.Signals(f.posts)| - f.consumed }

  /** The device never owes more than the completions requested: while these are at most
      2048, the queue cannot overrun. */
  lemma SendOwes(tx: SendQueue.Sq)
    requires tx.Valid()
    ensures |tx.cq.due| <= tx.cq.released + Requested(tx.fifo)
    ensures Requested(tx.fifo) <= CQE_COUNT ==> !Overruns(tx.cq)
  {
    hide SendQueue.RingCarries, SendQueue.OnWire;
  }

  /** The device sends everything announced before the driver looks again. */
  method SendAnnounced(tx: SendQueue.Sq)
    requires tx.Valid()
    modifies tx`hwCounter, tx`wire, tx`fifo, tx.cq
    ensures tx.Valid() && SendQueue.DeviceMoved(old(tx.fifo), tx.fifo)
    ensures tx.fifo.fetched == tx.fifo.rung
  {
    hide SendQueue.Refines;
    SentSoFar(tx);
    var turns := (tx.doorbell - tx.hwCounter) % U16 / 2;
    for i := 0 to turns
      invariant tx.Valid() && SendQueue.DeviceMoved(old(tx.fifo), tx.fifo)
      invariant tx.fifo.fetched == tx.fifo.rung - (turns - i)
    {
      var raw: Entry := *;
      tx.DeviceFetch(raw);
      SentSoFar(tx);
    }
  }

  lemma SentSoFar(tx: SendQueue.Sq)
    requires tx.Valid()
    ensures tx.fifo.Valid() && tx.fifo.fetched <= tx.fifo.rung && |tx.cq.due| == |tx.fifo.outcomes|
    ensures tx.cq.released == tx.cq.consumed == tx.fifo.consumed
    ensures (tx.doorbell - tx.hwCounter) % U16 == 2 * (tx.fifo.rung - tx.fifo.fetched)
  {
    SendQueue.DoorbellIsExact(tx.View(), tx.sqn, tx.tisn, tx.fifo);
  }

  /** The bound is reached: with everything announced, the device can make the queue
      overrun before the driver looks again exactly if more than 2048 completions are
      requested. */
  method SendWorstCase(tx: SendQueue.Sq)
    requires tx.Valid() && tx.fifo.Settled()
    modifies tx`hwCounter, tx`wire, tx`fifo, tx.cq
    ensures tx.Valid() && SendQueue.DeviceMoved(old(tx.fifo), tx.fifo)
    ensures |tx.cq.due| == tx.cq.released + Requested(tx.fifo)
    ensures Overruns(tx.cq) <==> Requested(old(tx.fifo)) > CQE_COUNT
  {
    hide SendQueue.Refines, SendFifo.Signals;
    SendAnnounced(tx);
    SentSoFar(tx);
    AllOwed(tx.fifo);
  }

  lemma AllOwed(f: SendFifo.Fifo)
    requires f.Valid() && f.fetched == f.rung && f.Settled()
    ensures |f.outcomes| == |SendFifo.Signals(f.posts)|
  {
    SendFifo.SignalsAre(f.posts);
    var s := SendFifo.Signals(f.posts);
    if s != [] {
      assert s[|s| - 1] < f.fetched;
    }
  }

  /** Bursts of one frame each reach it: the ring has room for 4096 of them, and no burst
      looks at the completion queue while there is room. */
  method SingleFrameBursts(frame: bytes, count: nat) returns (tx: SendQueue.Sq)
    requires SendWqe.ValidLength(|frame|) && count <= SendFifo.SQ_FRAMES
    ensures tx.Valid() && Requested(tx.fifo) == count
    ensures Overruns(tx.cq) <==> count > CQE_COUNT
  {
    hide SendQueue.Refines, SendFifo.Signals;
    tx := new SendQueue.Sq(1, 2, 3, 0x10000);
    NoSignals(tx.fifo.posts);
    for i := 0 to count
      invariant fresh(tx) && fresh(tx.ring) && fresh(tx.cq) && fresh(tx.cq.ring)
      invariant tx.Valid() && tx.fifo.Settled() && tx.DoorbellMapped()
      invariant |tx.fifo.posts| == |SendFifo.Signals(tx.fifo.posts)| == i && tx.fifo.consumed == 0
    {
      SentSoFar(tx);
      assert SendQueue.FirstBad([frame]) == 1;
      ghost var before := tx.fifo;
      var sent, status := tx.TxBurst([frame]);
      OneSignal(before.posts, tx.fifo.posts);
    }
    SendWorstCase(tx);
  }

  lemma NoSignals(posts: seq<SendFifo.Post>)
    requires posts == []
    ensures SendFifo.Signals(posts) == []
  {}

  lemma OneSignal(prev: seq<SendFifo.Post>, next: seq<SendFifo.Post>)
    requires prev <= next && |next| == |prev| + 1 && next[|prev|].signalled
    ensures |SendFifo.Signals(next)| == |SendFifo.Signals(prev)| + 1
  {
    assert next[..|prev|] == prev;
  }

  /** If no two neighbouring frames in flight request a completion, at most 2048 are
      requested and not reclaimed. */
  lemma SparseRequestsFit(f: SendFifo.Fifo)
    requires f.Valid()
    requires forall k :: f.Freed() <= k < |f.posts| - 1 ==> !(f.posts[k].signalled && f.posts[k + 1].signalled)
    ensures Requested(f) <= CQE_COUNT
  {
    SendFifo.SignalsAre(f.posts);
    var s := SendFifo.Signals(f.posts);
    if f.good < |s| {
      Spread(f, |s| - 1);
    }
  }

  lemma {:induction false} Spread(f: SendFifo.Fifo, i: nat)
    requires f.Valid() && f.good <= i < |SendFifo.Signals(f.posts)|
    requires forall k :: f.Freed() <= k < |f.posts| - 1 ==> !(f.posts[k].signalled && f.posts[k + 1].signalled)
    ensures SendFifo.Signals(f.posts)[i] >= f.Freed() + 2 * (i - f.good)
    decreases i
  {
    SendFifo.SignalsAre(f.posts);
    if f.good < i {
      Spread(f, i - 1);
      SendFifo.SignalsRise(f.posts, i - 1);
      var k := SendFifo.Signals(f.posts)[i - 1];
      assert f.posts[k].signalled && f.posts[SendFifo.Signals(f.posts)[i]].signalled;
    } else {
      SendFifo.SignalsRise(f.posts, i - 1);
    }
  }
}
