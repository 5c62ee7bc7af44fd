/** A whole one-way flood: one worker per queue, the packet count split between them. */
module Flood {
  import opened Words
  import opened Frames
  import SendQueue
  import SendClient
  import SendFifo
  import Echo
  import opened Workers

  function Footprint(tx: SendQueue.Sq): (s: set<object>) {
    {tx, tx.ring, tx.cq, tx.cq.ring}
  }

  function Footprints(txs: seq<SendQueue.Sq>): (s: set<object>) {
    set q, x | 0 <= q < |txs| && x in Footprint(txs[q]) :: x
  }

  ghost predicate AllApart(txs: seq<SendQueue.Sq>) {
    forall q, r :: 0 <= q < |txs| && 0 <= r < |txs| && q != r ==> Footprint(txs[q]) !! Footprint(txs[r])
  }

  ghost predicate Fresh(tx: SendQueue.Sq)
    reads Footprint(tx)
  {
    tx.Valid() && tx.DoorbellMapped() && tx.fifo.Unused()
  }

  /** What worker `q` has to send. */
  function Assigned(o: Options, count: uint32, q: nat, queues: nat): (fs: seq<bytes>)
    requires Buildable(o) && q < queues
  {
    BoundsInside(count, q, queues);
    RangeFrames(o, Bound(count, q, queues), Bound(count, q + 1, queues))
  }

  lemma BoundsInside(count: uint32, q: nat, queues: nat)
    requires q < queues
    ensures Bound(count, q, queues) <= Bound(count, q + 1, queues) <= count
  {
    BoundMonotone(count, q, q + 1, queues);
    BoundMonotone(count, q + 1, queues, queues);
    BoundEnds(count, queues);
  }

  /** What is posted are the first frames of `all`, and the wire carries what the device
      took of them and did not lose.  The worker that ended so has a reason, and if it is
      done everything is on the wire. */
  ghost predicate Carried(tx: SendQueue.Sq, all: seq<bytes>, end: FloodEnd, haveBuffers: bool, flag: nat -> bool)
    reads Footprint(tx)
  {
    && tx.Valid() && SendClient.Frames(tx.fifo.posts) <= all
    && SendQueue.OnWire(tx.wire, tx.fifo.posts, tx.fifo.lost, tx.fifo.fetched)
    && Explained(end, haveBuffers, flag, |all|, tx.fifo, tx.cq.written)
    && (end == Drained ==> tx.wire == all)
  }

  method Work(tx: SendQueue.Sq, o: Options, template: bytes, count: uint32, q: nat, queues: nat, haveBuffers: bool,
              flag: nat -> bool)
    returns (end: FloodEnd, sent: nat)
    requires Fresh(tx) && q < queues && Buildable(o) && template == FrameBytes(o, Stamp(0, 0, 0))
    modifies Footprint(tx)
    ensures Carried(tx, Assigned(o, count, q, queues), end, haveBuffers, flag)
    ensures var size := Bound(count, q + 1, queues) - Bound(count, q, queues);
      sent <= size && (end == Drained ==> sent == size)
  {
    hide SendQueue.Refines, Bound, Buildable, FrameBytes, RangeFrames, SendClient.Frames, SendQueue.OnWire, Explained,
         SendFifo.Clean, SendFifo.Signals;
    BoundsInside(count, q, queues);
    var lo, hi := Bound(count, q, queues), Bound(count, q + 1, queues);
    SendClient.NothingPosted(tx);
    var seqNext;
    ghost var upto;
    end, seqNext, upto := FloodWorker(tx, o, template, lo, hi, haveBuffers, flag);
    assert [] + RangeFrames(o, lo, upto) == RangeFrames(o, lo, upto);
    RangePrefix(o, lo, upto, hi);
    sent := seqNext - lo;
  }

  lemma RangePrefix(o: Options, lo: nat, upto: nat, hi: nat)
    requires Buildable(o) && lo <= upto <= hi <= U32
    ensures RangeFrames(o, lo, upto) <= RangeFrames(o, lo, hi)
    ensures upto == hi ==> RangeFrames(o, lo, upto) == RangeFrames(o, lo, hi)
  {
    hide FrameBytes, Buildable;
  }

  /** The frame of a number below `count` is assigned to exactly one worker, once. */
  lemma AssignedOnce(o: Options, count: uint32, queues: nat, s: uint32) returns (owner: nat)
    requires Buildable(o) && queues > 0 && s < count
    ensures owner < queues && InRange(count, owner, queues, s)
    ensures forall q, i :: 0 <= q < queues && 0 <= i < |Assigned(o, count, q, queues)| ==>
      (Assigned(o, count, q, queues)[i] == FrameBytes(o, Stamp(s, 0, 0))
       <==> q == owner && i == s - Bound(count, q, queues))
  {
    hide Buildable, FrameBytes, Bound, Echo.Parse;
    BoundEnds(count, queues);
    owner := OwnerExists(count, queues, queues, s);
    forall q, i | 0 <= q < queues && 0 <= i < |Assigned(o, count, q, queues)|
      ensures Assigned(o, count, q, queues)[i] == FrameBytes(o, Stamp(s, 0, 0))
         <==> q == owner && i == s - Bound(count, q, queues)
    {
      BoundsInside(count, q, queues);
      Partition(count, queues, s);
      var n := Bound(count, q, queues) + i;
      assert Assigned(o, count, q, queues)[i] == FrameBytes(o, Stamp(n, 0, 0));
      Echo.ParsesBack(o, Stamp(s, 0, 0));
      Echo.ParsesBack(o, Stamp(n, 0, 0));
      assert n == s ==> InRange(count, q, queues, s) && q == owner;
    }
  }

  predicate AllDrained(ends: seq<FloodEnd>) {
    forall q :: 0 <= q < |ends| ==> ends[q] == Drained
  }

  lemma DrainedNone()
    ensures AllDrained([])
  {}

  lemma DrainedOne(ends: seq<FloodEnd>, end: FloodEnd)
    ensures AllDrained(ends + [end]) <==> AllDrained(ends) && end == Drained
  {
    var all := ends + [end];
    assert all[|ends|] == end && forall q :: 0 <= q < |ends| ==> all[q] == ends[q];
  }

  /** Workers touch only their own queues; here they run one after the other.  `buffers`
      and `flag` say for each worker whether it gets its buffers, and what its looks at
      the failure flag see.  None posts anything twice or out of order.  A flood succeeds
      exactly if every worker's queue drains, and has then put exactly what was assigned
      to each worker on its wire. */
  method Run(txs: seq<SendQueue.Sq>, o: Options, template: bytes, count: uint32, buffers: nat -> bool,
             flag: nat -> nat -> bool)
    returns (ok: bool, sent: nat, ends: seq<FloodEnd>)
    requires 0 < |txs| && AllApart(txs) && forall q :: 0 <= q < |txs| ==> Fresh(txs[q])
    requires Buildable(o) && template == FrameBytes(o, Stamp(0, 0, 0))
    modifies Footprints(txs)
    ensures |ends| == |txs| && forall q :: 0 <= q < |txs| ==>
              Carried(txs[q], Assigned(o, count, q, |txs|), ends[q], buffers(q), flag(q))
    ensures ok <==> AllDrained(ends)
    ensures sent <= count && (ok ==> sent == count)
  {
    hide Buildable, FrameBytes, Assigned, Carried, Fresh, Bound, AllDrained;
    var queues := |txs|;
    var failed := false;
    sent, ends := 0, [];
    BoundEnds(count, queues);
    assert AllDrained([]) by {
      DrainedNone();
    }
    for q := 0 to queues
      invariant |ends| == q
      invariant forall r :: 0 <= r < q ==> Carried(txs[r], Assigned(o, count, r, queues), ends[r], buffers(r), flag(r))
      invariant !failed <==> AllDrained(ends)
      invariant forall r :: q <= r < queues ==> Fresh(txs[r])
      invariant sent <= Bound(count, q, queues) && (!failed ==> sent == Bound(count, q, queues))
    {
      assert Footprint(txs[q]) <= Footprints(txs);
      assert forall r :: 0 <= r < queues && r != q ==> Footprint(txs[r]) !! Footprint(txs[q]);
      var end, n := Work(txs[q], o, template, count, q, queues, buffers(q), flag(q));
      failed := failed || end != Drained;
      sent := sent + n;
      DrainedOne(ends, end);
      ends := ends + [end];
      BoundsInside(count, q, queues);
    }
    ok := !failed && sent == count;
  }
}
