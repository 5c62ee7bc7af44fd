/** Several workers, one per queue, on disjoint ranges of sequence numbers. */
module Workers {
  import opened Words
  import opened Modular
  import opened Frames
  import SendWqe
  import SendFifo
  import SendQueue
  import SendClient
  import RecvQueue
  import RecvFifo
  import RecvClient
  import opened QueuePair
  import Echo

  const FLOOD_BURST := 4096
  const BATCH_CAP := 512
  const RX_BURST := 128
  const MAX_IDLE := 100_000_000

  // ---- the ranges -------------------------------------------------------------------------

  /** Worker `q` of `queues` sends the numbers from `Bound(q)` up to `Bound(q + 1)`. */
  function Bound(count: uint32, q: nat, queues: nat): (b: nat)
    requires queues > 0
  {
    count * q / queues
  }

  lemma BoundEnds(count: uint32, queues: nat)
    requires queues > 0
    ensures Bound(count, 0, queues) == 0 && Bound(count, queues, queues) == count
  {
    ModUnique(count * queues, queues, count, 0);
  }

  /** A range begins at the worker's fair part of the count, rounded down. */
  lemma BoundIsFair(count: uint32, q: nat, queues: nat)
    requires queues > 0
    ensures queues * Bound(count, q, queues) <= count * q < queues * (Bound(count, q, queues) + 1)
  {
    assert count * q == count * q / queues * queues + count * q % queues;
  }

  /** Ranges differ in size by at most one. */
  lemma RangeSize(count: uint32, q: nat, queues: nat)
    requires queues > 0
    ensures var size := Bound(count, q + 1, queues) - Bound(count, q, queues);
      count / queues <= size <= count / queues + 1
  {
    assert count * (q + 1) == count * q + count;
    DivAdd(count * q, count, queues);
  }

  lemma {:induction false} BoundMonotone(count: uint32, q: nat, r: nat, queues: nat)
    requires queues > 0 && q <= r
    ensures Bound(count, q, queues) <= Bound(count, r, queues)
    decreases r - q
  {
    hide Bound;
    if q < r {
      RangeSize(count, q, queues);
      BoundMonotone(count, q + 1, r, queues);
    }
  }

  predicate InRange(count: uint32, q: nat, queues: nat, s: nat)
    requires queues > 0
  {
    Bound(count, q, queues) <= s < Bound(count, q + 1, queues)
  }

  /** The worker a number belongs to. */
  lemma {:induction false} OwnerExists(count: uint32, queues: nat, upto: nat, s: nat) returns (q: nat)
    requires queues > 0 && s < Bound(count, upto, queues)
    ensures q < upto && InRange(count, q, queues, s)
    decreases upto
  {
    hide Bound;
    BoundEnds(count, queues);
    if upto == 0 {
      assert false;
    } else if s < Bound(count, upto - 1, queues) {
      q := OwnerExists(count, queues, upto - 1, s);
    } else {
      q := upto - 1;
    }
  }

  /** The ranges cover exactly the numbers below `count` and no two overlap. */
  lemma Partition(count: uint32, queues: nat, s: nat)
    requires queues > 0
    ensures s < count <==> exists q :: 0 <= q < queues && InRange(count, q, queues, s)
    ensures forall q, r :: 0 <= q < queues && 0 <= r < queues && InRange(count, q, queues, s)
                           && InRange(count, r, queues, s) ==>
              q == r
  {
    hide Bound;
    BoundEnds(count, queues);
    if s < count {
      var q := OwnerExists(count, queues, queues, s);
    }
    forall q | 0 <= q < queues && InRange(count, q, queues, s) ensures s < count {
      BoundMonotone(count, q + 1, queues, queues);
    }
    forall q, r | 0 <= q < queues && 0 <= r < queues && InRange(count, q, queues, s) && InRange(count, r, queues, s)
      ensures q == r
    {
      if q < r {
        BoundMonotone(count, q + 1, r, queues);
      } else if r < q {
        BoundMonotone(count, r + 1, q, queues);
      }
    }
  }

  /** Each worker's share of the window, at least one. */
  function Share(window: nat, queues: nat): (w: nat)
    requires queues > 0
    ensures w >= 1
  {
    if window / queues == 0 then 1 else window / queues
  }

  /** The shares are the largest equal ones that fit the window, or one each. */
  lemma SharesFit(window: nat, queues: nat)
    requires queues > 0
    ensures queues * Share(window, queues) <= if window > queues then window else queues
    ensures window >= queues ==> window < queues * (Share(window, queues) + 1)
    ensures window < queues ==> Share(window, queues) == 1
  {
    assert window == window / queues * queues + window % queues;
  }

  // ---- the frames of a range --------------------------------------------------------------

  /** The frames numbered from `lo` up to `hi`. */
  function RangeFrames(o: Options, lo: nat, hi: nat): (fs: seq<bytes>)
    requires Buildable(o) && lo <= hi <= U32
    ensures |fs| == hi - lo
  {
    seq(hi - lo, i requires 0 <= i < hi - lo => FrameBytes(o, Stamp(lo + i, 0, 0)))
  }

  lemma RangeAppend(o: Options, lo: nat, mid: nat, hi: nat, n: nat)
    requires Buildable(o) && lo <= mid <= hi <= U32 && n <= hi - mid
    ensures RangeFrames(o, lo, mid) + RangeFrames(o, mid, hi)[..n] == RangeFrames(o, lo, mid + n)
  {
    hide FrameBytes, Buildable;
  }

  /** Builds the frames of a batch from the template. */
  method BuildRange(o: Options, template: bytes, lo: nat, hi: nat) returns (frames: seq<bytes>)
    requires Buildable(o) && lo <= hi < U32 && template == FrameBytes(o, Stamp(0, 0, 0))
    ensures frames == RangeFrames(o, lo, hi)
  {
    hide FrameBytes, Buildable;
    frames := [];
    for s := lo to hi
      invariant frames == RangeFrames(o, lo, s)
    {
      var frame := new byte[CAPACITY](_ => 0);
      BuildFromTemplate(o, template, Stamp(0, 0, 0), Stamp(s, 0, 0), frame);
      FrameFits(o, Stamp(s, 0, 0));
      Echo.SplicePrefix(Repeat(CAPACITY, 0), FrameBytes(o, Stamp(s, 0, 0)));
      frames := frames + [frame[..|template|]];
    }
  }

  lemma FrameFits(o: Options, st: Stamp)
    requires Buildable(o)
    ensures |FrameBytes(o, st)| == FrameLength(o) && SendWqe.ValidLength(FrameLength(o)) && FrameLength(o) <= CAPACITY
  {}

  function Sum(parts: seq<nat>): (n: nat) {
    if parts == [] then 0 else Sum(parts[..|parts| - 1]) + parts[|parts| - 1]
  }

  /** If the workers sent `count` frames in all, none beyond its range, each sent its
      whole range. */
  lemma {:induction false} AllSent(count: uint32, queues: nat, parts: seq<nat>)
    requires 0 < queues && |parts| <= queues
    requires forall q :: 0 <= q < |parts| ==> parts[q] <= Bound(count, q + 1, queues) - Bound(count, q, queues)
    ensures Sum(parts) <= Bound(count, |parts|, queues)
    ensures Sum(parts) == Bound(count, |parts|, queues) <==>
      forall q :: 0 <= q < |parts| ==> parts[q] == Bound(count, q + 1, queues) - Bound(count, q, queues)
    decreases |parts|
  {
    hide Bound;
    BoundEnds(count, queues);
    if parts != [] {
      var n := |parts| - 1;
      AllSent(count, queues, parts[..n]);
      assert parts[..n] + [parts[n]] == parts;
    }
  }

  /** Builds and sends the frames from `mid` up to `hi`, after those from `lo` up to
      `mid`. */
  method SendRange(tx: SendQueue.Sq, o: Options, template: bytes, ghost lo: nat, mid: nat, hi: nat,
                   ghost was: seq<bytes>)
    returns (ok: bool, ghost upto: nat)
    requires tx.Valid() && tx.DoorbellMapped()
    requires Buildable(o) && lo <= mid <= hi < U32 && hi - mid < U16 && template == FrameBytes(o, Stamp(0, 0, 0))
    requires SendClient.Frames(tx.fifo.posts) == was + RangeFrames(o, lo, mid)
    modifies tx, tx.ring, tx.cq, tx.cq.ring
    ensures tx.Valid()
    ensures mid <= upto <= hi && (ok <==> upto == hi)
    ensures SendClient.Frames(tx.fifo.posts) == was + RangeFrames(o, lo, upto)
    ensures SendQueue.Continues(old(tx.fifo), tx.fifo)
    ensures ok ==> SendFifo.Clean(old(tx.fifo), tx.fifo, tx.fifo.consumed)
    ensures !ok ==> SendQueue.Room(tx.fifo) == 0 && SendFifo.InVain(tx.fifo, tx.cq.written)
  {
    hide SendQueue.Refines, Buildable, FrameBytes, RangeFrames, SendClient.Frames, SendFifo.Stalled, SendFifo.InVain,
         SendFifo.Clean, SendQueue.Continues;
    ghost var before := tx.fifo;
    var frames := BuildRange(o, template, mid, hi);
    AllSupported(o, mid, hi);
    ghost var n;
    ok, n := SendClient.Send(tx, frames);
    RangeAppend(o, lo, mid, hi, n);
    AppendAssoc(was, RangeFrames(o, lo, mid), frames[..n]);
    upto := mid + n;
    if !ok {
      SendFifo.StalledInVain(before, tx.fifo, tx.cq.written);
    }
  }

  lemma AllSupported(o: Options, lo: nat, hi: nat)
    requires Buildable(o) && lo <= hi <= U32
    ensures SendQueue.FirstBad(RangeFrames(o, lo, hi)) == hi - lo
  {
    var fs := RangeFrames(o, lo, hi);
    var k := SendQueue.FirstBad(fs);
    if k < |fs| {
      FrameFits(o, Stamp(lo + k, 0, 0));
    }
  }

  // ---- the one-way worker -----------------------------------------------------------------

  datatype FloodEnd = Drained | NoBuffers | Halted | NotPosted | NotDrained

  /** Why a worker ends the way it does: it has no buffers; the failure flag was set at one
      of its looks; or the ring is full, or does not drain, and there is no success to
      wait for. */
  ghost predicate Explained(end: FloodEnd, haveBuffers: bool, flag: nat -> bool, size: nat, f: SendFifo.Fifo,
                            written: nat)
  {
    && (end == NoBuffers <==> !haveBuffers)
    && match end
       case Drained => true
       case NoBuffers => true
       case Halted => exists k: nat :: (k - 1) * 4096 < size && flag(k)
       case NotPosted => SendQueue.Room(f) == 0 && SendFifo.InVain(f, written)
       case NotDrained => SendFifo.InVain(f, written)
  }

  /** Sends its range in batches and waits for the queue to drain; `flag(k)` is what its
      `k`-th look at the failure flag sees.  Whatever happens, each number is posted at
      most once and in order; on success the device has taken the whole range, and sent
      all of it on a queue new to completions. */
  method FloodWorker(tx: SendQueue.Sq, o: Options, template: bytes, lo: nat, hi: nat, haveBuffers: bool,
                     flag: nat -> bool)
    returns (end: FloodEnd, seqNext: nat, ghost upto: nat)
    requires tx.Valid() && tx.DoorbellMapped()
    requires Buildable(o) && lo <= hi < U32 && template == FrameBytes(o, Stamp(0, 0, 0))
    modifies tx, tx.ring, tx.cq, tx.cq.ring
    ensures tx.Valid()
    ensures lo <= seqNext <= upto <= hi && Explained(end, haveBuffers, flag, hi - lo, tx.fifo, tx.cq.written)
    ensures end == Halted ==>
              exists k: nat ::
                flag(k) && (forall j: nat :: j < k ==> !flag(j)) && seqNext - lo == Least(k * 4096, hi - lo)
    ensures end == NotPosted ==> upto < hi
    ensures end == Drained || end == NotDrained ==> seqNext == upto == hi
    ensures SendClient.Frames(tx.fifo.posts) == SendClient.Frames(old(tx.fifo).posts) + RangeFrames(o, lo, upto)
    ensures SendQueue.OnWire(tx.wire, tx.fifo.posts, tx.fifo.lost, tx.fifo.fetched)
    ensures end == Drained ==> tx.fifo.fetched == |tx.fifo.posts| && tx.fifo.consumed == |tx.fifo.outcomes|
    ensures end == Drained ==> SendFifo.Clean(old(tx.fifo), tx.fifo, tx.fifo.consumed)
    ensures end == Drained && old(tx.fifo).consumed == 0 ==> tx.wire == SendClient.Frames(tx.fifo.posts)
  {
    hide SendQueue.Refines, Buildable, FrameBytes, RangeFrames, SendClient.Frames, SendFifo.Clean, SendFifo.InVain,
         SendFifo.Stalled, SendQueue.Continues, SendQueue.OnWire;
    seqNext, upto, end := lo, lo, Halted;
    ghost var was := SendClient.Frames(tx.fifo.posts);
    NoFrames(o, lo, was);
    SendClient.CleanAtFirst(tx);
    var look := 0;
    if !haveBuffers {
      SendClient.WireSoFar(tx);
      return NoBuffers, seqNext, upto;
    }
    while seqNext < hi && !flag(look)
      invariant tx.Valid() && lo <= seqNext == upto <= hi
      invariant SendClient.Frames(tx.fifo.posts) == was + RangeFrames(o, lo, upto)
      invariant SendFifo.Clean(old(tx.fifo), tx.fifo, tx.fifo.consumed)
      invariant (look - 1) * FLOOD_BURST < hi - lo && seqNext - lo == Least(look * FLOOD_BURST, hi - lo)
      invariant forall j: nat :: j < look ==> !flag(j)
      decreases hi - seqNext
    {
      var batch := if hi - seqNext > FLOOD_BURST then FLOOD_BURST else hi - seqNext;
      ghost var before := tx.fifo;
      var ok;
      ok, upto := SendRange(tx, o, template, lo, seqNext, seqNext + batch, was);
      if !ok {
        SendClient.WireSoFar(tx);
        return NotPosted, seqNext, upto;
      }
      SendQueue.CleanOn(old(tx.fifo), before, tx.fifo);
      seqNext := seqNext + batch;
      look := look + 1;
    }
    if seqNext < hi || flag(look) {
      SendClient.WireSoFar(tx);
      return Halted, seqNext, upto;
    }
    end := Drain(tx, old(tx.fifo));
  }

  /** Waits for the queue to drain. */
  method Drain(tx: SendQueue.Sq, ghost start: SendFifo.Fifo) returns (end: FloodEnd)
    requires tx.Valid() && SendFifo.Clean(start, tx.fifo, tx.fifo.consumed)
    modifies tx`consIndex, tx`hwCounter, tx`wire, tx`fifo, tx.cq, tx.cq.ring
    ensures tx.Valid() && tx.fifo.posts == old(tx.fifo).posts
    ensures end == Drained || end == NotDrained
    ensures end == NotDrained ==> SendFifo.InVain(tx.fifo, tx.cq.written)
    ensures SendQueue.OnWire(tx.wire, tx.fifo.posts, tx.fifo.lost, tx.fifo.fetched)
    ensures end == Drained ==> tx.fifo.fetched == |tx.fifo.posts| && tx.fifo.consumed == |tx.fifo.outcomes|
    ensures end == Drained ==> SendFifo.Clean(start, tx.fifo, tx.fifo.consumed)
    ensures end == Drained && start.consumed == 0 ==> tx.wire == SendClient.Frames(tx.fifo.posts)
  {
    hide SendQueue.Refines, SendFifo.Signals, SendFifo.Clean, SendFifo.InVain, SendFifo.Stalled, SendQueue.Continues;
    ghost var before := tx.fifo;
    var status := tx.TxFlush();
    end := if status == SendQueue.Ok then Drained else NotDrained;
    if end == Drained {
      SendClient.Drained(tx);
      SendQueue.CleanOn(start, before, tx.fifo);
    } else {
      SendFifo.StalledInVain(before, tx.fifo, tx.cq.written);
    }
    SendClient.RunEnds(tx.View(), tx.sqn, tx.tisn, start, tx.fifo);
  }


  lemma NoFrames(o: Options, lo: nat, was: seq<bytes>)
    requires Buildable(o) && lo <= U32
    ensures was + RangeFrames(o, lo, lo) == was
  {
    assert RangeFrames(o, lo, lo) == [];
  }

  lemma AppendAssoc<T>(a: seq<T>, b: seq<T>, c: seq<T>)
    ensures (a + b) + c == a + (b + c)
  {}

  // ---- the request and reply worker -------------------------------------------------------

  /** How many of the packets are reflections of the worker's own frames. */
  function Replies(o: Options, read: seq<bytes>): (n: nat)
    ensures n <= |read|
  {
    if read == [] then 0
    else Replies(o, read[..|read| - 1]) + if Echo.IsReflection(o, read[|read| - 1]) then 1 else 0
  }

  lemma RepliesOne(o: Options, read: seq<bytes>, pkt: bytes)
    ensures Replies(o, read + [pkt]) == Replies(o, read) + if Echo.IsReflection(o, pkt) then 1 else 0
  {
    assert (read + [pkt])[..|read|] == read;
  }

  datatype BenchEnd = Done | Running | Stopped | NotSent | NotReleased | Idle

  /** As many frames as the cap, the range and the window allow. */
  method BatchSize(seqNext: nat, lo: nat, hi: nat, limit: nat) returns (batch: nat)
    requires lo <= seqNext <= hi
    ensures batch <= BATCH_CAP && seqNext + batch <= hi
    ensures batch > 0 ==> seqNext + batch - lo <= limit
    ensures batch < BATCH_CAP && seqNext + batch < hi ==> seqNext + batch - lo >= limit
  {
    batch := 0;
    while batch < BATCH_CAP && seqNext + batch < hi && seqNext + batch - lo < limit
      invariant batch <= BATCH_CAP && seqNext + batch <= hi
      invariant batch > 0 ==> seqNext + batch - lo <= limit
    {
      batch := batch + 1;
    }
  }

  function Least(a: int, b: int): int { if a < b then a else b }

  /** After `done` rounds: a round sends a full batch unless the range or the window ends
      before. */
  predicate Paced(sent: nat, size: nat, window: nat, done: nat) {
    sent >= Least(size, Least(done * 512, window))
  }

  lemma PaceStarts(size: nat, window: nat)
    ensures Paced(0, size, window, 0)
  {}

  lemma PaceGrows(sent: nat, batch: nat, size: nat, window: nat, done: nat, replies: nat)
    requires Paced(sent, size, window, done)
    requires batch < 512 && sent + batch < size ==> sent + batch >= replies + window
    ensures Paced(sent + batch, size, window, done) && Paced(sent + batch, size, window, done + 1)
  {}

  /** What a worker has sent and looked at after a round. */
  datatype Mark = Mark(sent: nat, looked: nat)

  /** The rounds without a frame to send since the last packet. */
  function IdleRounds(trace: seq<Mark>): nat {
    if |trace| < 2 then 0
    else
      var was, now := trace[|trace| - 2], trace[|trace| - 1];
      if now.looked > was.looked then 0
      else IdleRounds(trace[..|trace| - 1]) + if now.sent == was.sent then 1 else 0
  }

  lemma IdleMore(trace: seq<Mark>, m: Mark)
    requires trace != []
    ensures IdleRounds(trace + [m]) ==
              if m.looked > trace[|trace| - 1].looked then 0
              else IdleRounds(trace) + if m.sent == trace[|trace| - 1].sent then 1 else 0
  {
    assert (trace + [m])[..|trace|] == trace;
  }

  /** One round: as many frames as allowed are sent, and one burst of packets is looked at
      and given back. */
  method BenchRound(rx: RecvQueue.Rq, tx: SendQueue.Sq, o: Options, template: bytes, lo: nat, hi: nat, window: nat,
                    memory: nat, from: nat, replied: nat, ghost before: seq<bytes>, ghost was: seq<bytes>)
    returns (rc: BenchEnd, seqNext: nat, replies: nat, got: bool, ghost read: seq<bytes>, ghost given: nat,
             ghost upto: nat)
    requires RecvClient.Took(rx, before, |before|) && tx.Valid() && tx.DoorbellMapped() && Apart(rx, tx)
    requires Buildable(o) && lo <= from <= hi < U32 && template == FrameBytes(o, Stamp(0, 0, 0))
    requires SendClient.Frames(tx.fifo.posts) == was + RangeFrames(o, lo, from)
    requires from - lo <= replied + window && replied == Replies(o, before)
    modifies rx, rx.ring, rx.pages, rx.cq, rx.cq.ring, tx, tx.ring, tx.cq, tx.cq.ring
    ensures rc == Running || rc == NotSent || rc == NotReleased
    ensures RecvClient.Took(rx, read, given) && tx.Valid()
    ensures lo <= upto <= seqNext <= hi && (rc != NotSent ==> upto == seqNext)
    ensures SendClient.Frames(tx.fifo.posts) == was + RangeFrames(o, lo, upto)
    ensures seqNext - lo <= replies + window && replies == Replies(o, read)
    ensures rc == Running ==> given == |read|
    ensures from <= seqNext <= from + 512 && |read| <= |before| + 128
    ensures seqNext - from < BATCH_CAP && seqNext < hi ==> seqNext - lo >= replied + window
    ensures rc == NotSent ==>
              replies == replied && SendQueue.Room(tx.fifo) == 0 && SendFifo.InVain(tx.fifo, tx.cq.written)
    ensures rc == NotReleased ==> memory < 128 && rx.fifo.prod < RecvFifo.RQ_WQE_COUNT
    ensures rc == Running && !got ==> RecvClient.InVain(rx.fifo, rx.cq.written)
    ensures rc == Running ==> (got <==> |read| > |before|)
  {
    hide RecvQueue.Refines, SendQueue.Refines, Buildable, FrameBytes, RangeFrames, SendClient.Frames, RecvClient.Took,
         Echo.IsReflection, RecvClient.InVain, SendFifo.InVain, SendFifo.Clean, SendQueue.Continues;
    rc, seqNext, replies, got, read, given, upto := Running, from, replied, false, before, |before|, from;
    var batch := BatchSize(seqNext, lo, hi, replies + window);
    if batch != 0 {
      var ok;
      ok, upto := SendRange(tx, o, template, lo, seqNext, seqNext + batch, was);
      seqNext := seqNext + batch;
      if !ok {
        rc := NotSent;
        return;
      }
    }
    var released;
    got, released, replies, read, given := ReceiveRound(rx, o, replies, read, memory);
    if !released {
      rc := NotReleased;
    }
  }

  /** The first `rounds` rounds of a worker, of which `done` were completed; `flag(i)` is
      what it sees of the failure flag, and `memory(i)` how many buffers can be had, in
      round `i`.  At most a share of frames is ahead of the replies, and not fewer than
      the batches allow; each number is posted at most once and in order, every packet is
      looked at in arrival order, and all are given back before the next burst.  A worker
      that fails has a cause. */
  method BenchWorker(rx: RecvQueue.Rq, tx: SendQueue.Sq, o: Options, template: bytes, lo: nat, hi: nat, window: nat,
                     rounds: nat, flag: nat -> bool, memory: nat -> nat)
    returns (rc: BenchEnd, done: nat, seqNext: nat, replies: nat, ghost read: seq<bytes>, ghost upto: nat,
             ghost trace: seq<Mark>)
    requires rx.Valid() && rx.fifo.delivered == [] && rx.fifo.released == 0
    requires tx.Valid() && tx.DoorbellMapped() && Apart(rx, tx)
    requires Buildable(o) && lo <= hi < U32 && template == FrameBytes(o, Stamp(0, 0, 0))
    modifies rx, rx.ring, rx.pages, rx.cq, rx.cq.ring, tx, tx.ring, tx.cq, tx.cq.ring
    ensures rx.Valid() && tx.Valid()
    ensures lo <= upto <= seqNext <= hi && (rc != NotSent ==> upto == seqNext)
    ensures SendClient.Frames(tx.fifo.posts) == SendClient.Frames(old(tx.fifo).posts) + RangeFrames(o, lo, upto)
    ensures seqNext - lo <= replies + window && replies == Replies(o, read)
    ensures |read| == |rx.fifo.delivered| && RecvClient.Copies(read, rx.fifo, 0)
    ensures rc != NotSent && rc != NotReleased ==> rx.fifo.released == |read|
    ensures done <= rounds && Paced(seqNext - lo, hi - lo, window, done)
    ensures rc == Done <==> replies >= hi - lo && rc != NotSent && rc != NotReleased && rc != Idle
    ensures rc == Running ==> done == rounds
    ensures forall k :: 0 <= k < done ==> !flag(k)
    ensures rc == Stopped ==> done < rounds && flag(done)
    ensures rc == NotSent ==>
              done < rounds && SendQueue.Room(tx.fifo) == 0 && SendFifo.InVain(tx.fifo, tx.cq.written)
    ensures rc == NotReleased ==>
              done < rounds && memory(done) < 128 && rx.fifo.prod < RecvFifo.RQ_WQE_COUNT
    ensures |trace| == done + 1 && trace[0] == Mark(0, 0)
    ensures rc != NotSent && rc != NotReleased ==> trace[done] == Mark(seqNext - lo, |read|)
    ensures rc == Idle <==> IdleRounds(trace) > 100_000_000
    ensures rc == Idle ==> done > 100_000_000 && RecvClient.InVain(rx.fifo, rx.cq.written)
  {
    hide RecvQueue.Refines, SendQueue.Refines, Buildable, FrameBytes, RangeFrames, SendClient.Frames, RecvClient.Took,
         RecvClient.Copies, Echo.IsReflection, RecvClient.InVain, SendFifo.InVain, Paced, Replies, IdleRounds,
         RecvQueue.Rq.Valid, SendQueue.Sq.Valid, SendQueue.Sq.DoorbellMapped, SendQueue.Room;
    PaceStarts(hi - lo, window);
    rc, done, seqNext, replies, read, upto, trace := Running, 0, lo, 0, [], lo, [Mark(0, 0)];
    NeverIdle();
    ghost var was, given: nat := SendClient.Frames(tx.fifo.posts), 0;
    var idle := 0;
    NoFrames(o, lo, was);
    NoReplies(o);
    RecvClient.Begins(rx);
    while replies < hi - lo && done < rounds
      invariant RecvClient.Took(rx, read, given) && given == |read| && tx.Valid()
      invariant lo <= upto == seqNext <= hi && rc == Running && idle <= done <= rounds && idle <= MAX_IDLE
      invariant SendClient.Frames(tx.fifo.posts) == was + RangeFrames(o, lo, upto)
      invariant seqNext - lo <= replies + window && replies == Replies(o, read)
      invariant Paced(seqNext - lo, hi - lo, window, done)
      invariant forall k :: 0 <= k < done ==> !flag(k)
      invariant |trace| == done + 1 && trace[0] == Mark(0, 0) && trace[done] == Mark(seqNext - lo, |read|)
      invariant idle == IdleRounds(trace)
      decreases rounds - done
    {
      if flag(done) {
        rc := Stopped;
        break;
      }
      var from, replied := seqNext, replies;
      var got;
      rc, seqNext, replies, got, read, given, upto :=
        BenchRound(rx, tx, o, template, lo, hi, window, memory(done), from, replied, read, was);
      PaceGrows(from - lo, seqNext - from, hi - lo, window, done, replied);
      if rc != Running {
        break;
      }
      IdleMore(trace, Mark(seqNext - lo, |read|));
      trace := trace + [Mark(seqNext - lo, |read|)];
      done := done + 1;
      idle := if got then 0 else if seqNext == from then idle + 1 else idle;
      if idle > MAX_IDLE {
        rc := Idle;
        break;
      }
    }
    if rc == Running && replies >= hi - lo {
      rc := Done;
    }
    RecvClient.Taken(rx, read, given);
  }

  lemma NeverIdle()
    ensures IdleRounds([Mark(0, 0)]) == 0
  {}

  lemma NoReplies(o: Options)
    ensures Replies(o, []) == 0
  {}

  /** Looks at one burst of packets and gives them back. */
  method ReceiveRound(rx: RecvQueue.Rq, o: Options, was: nat, ghost before: seq<bytes>, memory: nat)
    returns (got: bool, released: bool, replies: nat, ghost read: seq<bytes>, ghost given: nat)
    requires RecvClient.Took(rx, before, |before|) && was == Replies(o, before)
    modifies rx, rx.ring, rx.pages, rx.cq, rx.cq.ring
    ensures RecvClient.Took(rx, read, given) && before <= read && |read| <= |before| + 128
    ensures given == if released then |read| else |before|
    ensures replies == Replies(o, read) && replies >= was
    ensures released ==> (got <==> |read| > |before|)
    ensures !got ==> released && read == before && RecvClient.InVain(rx.fifo, rx.cq.written)
    ensures !released ==> memory < 128 && rx.fifo.prod < RecvFifo.RQ_WQE_COUNT
  {
    hide RecvClient.Took, Echo.IsReflection, RecvClient.InVain;
    var pkts := RecvClient.Take(rx, RX_BURST, 0, before);
    replies := CountReplies(o, before, pkts, was);
    read := before + pkts;
    got, released, given := |pkts| != 0, true, |before|;
    if got {
      released := RecvClient.Give(rx, |pkts|, memory, read, given);
      given := if released then |read| else |before|;
    }
  }

  method CountReplies(o: Options, ghost before: seq<bytes>, pkts: seq<bytes>, replies: nat) returns (n: nat)
    requires replies == Replies(o, before)
    ensures n == Replies(o, before + pkts) && n >= replies
  {
    n := replies;
    assert before + pkts[..0] == before;
    for i := 0 to |pkts|
      invariant n == Replies(o, before + pkts[..i]) && n >= replies
    {
      RepliesOne(o, before + pkts[..i], pkts[i]);
      assert before + pkts[..i] + [pkts[i]] == before + pkts[..i + 1];
      if Echo.IsReflection(o, pkts[i]) {
        n := n + 1;
      }
    }
    assert before + pkts[..|pkts|] == before + pkts;
  }
}
