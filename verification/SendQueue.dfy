/** The transmit ring: the driver writes two-block work requests into a cyclic ring,
    announces them with a 16-bit doorbell record, and learns of their completion from
    sparse 16-bit counters in the completion queue. */
module SendQueue {
  import opened Modular
  import opened Words
  import opened SendWqe
  import opened CompletionQueue
  import opened SendCounters
  import opened SendFifo

  const RING_BYTES := 524288
  const UAR_PAGE_SIZE := 4096
  const BF_OFFSET := 0x800

  datatype Status = Ok | IoError

  // ----- ring contents -----

  function RingSlot(ring: bytes, s: nat): (b: bytes)
    requires |ring| == RING_BYTES && s < SQ_FRAMES
    ensures |b| == WQE_BYTES
  {
    ring[s * WQE_BYTES..s * WQE_BYTES + WQE_BYTES]
  }

  function WqeFor(k: nat, sqn: uint32, tisn: uint32, p: Post): Wqe {
    Wqe(Blocks16(k), sqn, tisn, p.frame, p.signalled)
  }

  /** Every frame from number `lo` on is in the ring, byte for byte. */
  ghost predicate RingCarries(ring: bytes, sqn: uint32, tisn: uint32, posts: seq<Post>, lo: nat) {
    && |ring| == RING_BYTES
    && (forall k :: 0 <= k < |posts| ==> ValidLength(|posts[k].frame|))
    && (forall k :: lo <= k < |posts| ==> RingSlot(ring, k % SQ_FRAMES) == Encode(WqeFor(k, sqn, tisn, posts[k])))
  }

  /** A new request leaves every request in flight intact as long as fewer than a full
      ring of frames is in flight. */
  lemma PostKeepsRing(ring: bytes, sqn: uint32, tisn: uint32, posts: seq<Post>, lo: nat, p: Post)
    requires RingCarries(ring, sqn, tisn, posts, lo)
    requires lo <= |posts| < lo + SQ_FRAMES && ValidLength(|p.frame|)
    ensures RingCarries(Splice(ring, |posts| % SQ_FRAMES * WQE_BYTES, Encode(WqeFor(|posts|, sqn, tisn, p))),
                        sqn, tisn, posts + [p], lo)
  {
    var n, posts' := |posts|, posts + [p];
    var e := Encode(WqeFor(n, sqn, tisn, p));
    var ring' := Splice(ring, n % SQ_FRAMES * WQE_BYTES, e);
    forall k | lo <= k < |posts'|
      ensures RingSlot(ring', k % SQ_FRAMES) == Encode(WqeFor(k, sqn, tisn, posts'[k]))
    {
      SpliceCell(ring, WQE_BYTES, n % SQ_FRAMES, e, k % SQ_FRAMES);
      if k < n {
        DistinctMod(k, n, SQ_FRAMES);
      }
    }
  }

  /** Reading the slot of a frame in flight recovers what was posted. */
  lemma FetchReads(ring: bytes, sqn: uint32, tisn: uint32, posts: seq<Post>, lo: nat, k: nat)
    requires RingCarries(ring, sqn, tisn, posts, lo) && lo <= k < |posts|
    ensures var b := RingSlot(ring, k % SQ_FRAMES);
      && FrameOf(b) == posts[k].frame
      && IndexOf(b) == Blocks16(k)
      && BlocksOf(b) == 2
      && SignalledOf(b) == posts[k].signalled
      && SendsFor(b, sqn, tisn)
  {
    DecodeEncode(WqeFor(k, sqn, tisn, posts[k]));
  }

  // ----- completions -----

  /** The completion entries the device owes, against the unbounded record of them. */
  ghost predicate Reports(due: seq<Entry>, signals: seq<nat>, outcomes: seq<bool>) {
    && |due| == |outcomes| <= |signals|
    && (forall i :: 0 <= i < |due| ==> Failed(due[i]) == !outcomes[i] && WqeCounter(due[i]) == Blocks16(signals[i]))
  }

  /** The device fills the request's index into a completion. */
  method Compose(raw: Entry, counter: uint16) returns (e: Entry)
    ensures WqeCounter(e) == counter && Failed(e) == Failed(raw)
  {
    e := Splice(raw, 0x3c, Be16(counter));
    SpliceInside(raw, 0x3c, Be16(counter));
    GetPut16(e, 0x3c, counter);
  }

  /** The frames on the wire are exactly the first `n` posted ones, in order, without the
      lost ones. */
  ghost predicate OnWire(wire: seq<bytes>, posts: seq<Post>, lost: set<nat>, n: nat) {
    n <= |posts| && wire == Kept(posts, lost, n)
  }

  // ----- the wrapped, byte-level state against the FIFO -----

  /** The queue as driver and device see it. */
  datatype Image = Image(ring: bytes, prodIndex: uint32, consIndex: uint32, doorbell: uint16,
                         hwCounter: uint16, wire: seq<bytes>, due: seq<Entry>)

  ghost predicate Refines(m: Image, sqn: uint32, tisn: uint32, f: Fifo) {
    && f.Valid()
    && m.prodIndex == Blocks32(|f.posts|)
    && m.consIndex == Blocks32(f.Freed())
    && m.doorbell == Blocks16(f.rung)
    && m.hwCounter == Blocks16(f.fetched)
    && OnWire(m.wire, f.posts, f.lost, f.fetched)
    && RingCarries(m.ring, sqn, tisn, f.posts, f.Freed())
    && Reports(m.due, Signals(f.posts), f.outcomes)
  }

  lemma PostKeepsReports(m: Image, f: Fifo, p: Post)
    requires f.Valid() && OnWire(m.wire, f.posts, f.lost, f.fetched) && Reports(m.due, Signals(f.posts), f.outcomes)
    ensures OnWire(m.wire, f.posts + [p], f.lost, f.fetched) && Reports(m.due, Signals(f.posts + [p]), f.outcomes)
  {
    assert (f.posts + [p])[..|f.posts|] == f.posts;
    KeptSame(f.posts, f.lost, f.posts + [p], f.lost, f.fetched);
  }

  /** Where the producer index puts the next request. */
  lemma PostPlace(m: Image, sqn: uint32, tisn: uint32, f: Fifo)
    requires Refines(m, sqn, tisn, f)
    ensures m.prodIndex % SQ_WQE_COUNT * 64 == |f.posts| % SQ_FRAMES * WQE_BYTES <= RING_BYTES - WQE_BYTES
    ensures |m.ring| == RING_BYTES && m.prodIndex % U16 == Blocks16(|f.posts|)
    ensures f.Valid() && f.Freed() <= |f.posts|
  {
    BlockOffset(|f.posts|);
  }

  /** Writing a request at the producer index refines posting a frame. */
  lemma PostRefines(m: Image, sqn: uint32, tisn: uint32, f: Fifo, p: Post)
    requires Refines(m, sqn, tisn, f)
    requires |f.posts| < f.Freed() + SQ_FRAMES && ValidLength(|p.frame|)
    ensures var off := m.prodIndex % SQ_WQE_COUNT * 64;
      && off + WQE_BYTES <= RING_BYTES == |m.ring|
      && m.prodIndex % U16 == Blocks16(|f.posts|)
      && Refines(m.(ring := Splice(m.ring, off, Encode(Wqe(m.prodIndex % U16, sqn, tisn, p.frame, p.signalled))),
                    prodIndex := (m.prodIndex + 2) % U32), sqn, tisn, f.Post(p))
      && f.Post(p).Freed() == f.Freed()
  {
    hide Encode, Splice, Fifo.Valid, OnWire, RingCarries, Reports;
    PostPlace(m, sqn, tisn, f);
    CounterStep(|f.posts|);
    PostKeeps(f, p);
    PostKeepsReports(m, f, p);
    PostKeepsRing(m.ring, sqn, tisn, f.posts, f.Freed(), p);
  }

  /** The device compares 16-bit counters, yet sees exactly whether a frame is announced. */
  lemma DoorbellIsExact(m: Image, sqn: uint32, tisn: uint32, f: Fifo)
    requires Refines(m, sqn, tisn, f)
    ensures f.fetched <= f.rung <= |f.posts|
    ensures (m.doorbell - m.hwCounter) % U16 == 2 * (f.rung - f.fetched)
  {
    DistanceMod(2 * f.fetched, 2 * f.rung, U16);
  }

  /** The driver's 32-bit subtraction is the number of blocks in flight: the ring is
      never more than full, and the indices are equal exactly when nothing is in
      flight. */
  lemma UsedIsExact(m: Image, sqn: uint32, tisn: uint32, f: Fifo)
    requires Refines(m, sqn, tisn, f)
    ensures f.Freed() <= |f.posts|
    ensures (m.prodIndex - m.consIndex) % U32 == 2 * (|f.posts| - f.Freed()) <= SQ_WQE_COUNT
    ensures m.prodIndex == m.consIndex <==> f.Freed() == |f.posts|
  {
    hide Blocks32, OnWire, RingCarries, Reports;
    UsedBlocks(f.Freed(), |f.posts|);
  }

  /** A drained queue was settled, and everything ever posted and not lost is on the
      wire. */
  lemma DrainedRefines(m: Image, sqn: uint32, tisn: uint32, f: Fifo)
    requires Refines(m, sqn, tisn, f) && m.prodIndex == m.consIndex
    ensures f.Settled() && OnWire(m.wire, f.posts, f.lost, |f.posts|)
  {
    UsedIsExact(m, sqn, tisn, f);
    DrainedIsSettled(f);
  }

  lemma FlushSucceeds(m: Image, sqn: uint32, tisn: uint32, f: Fifo, written: nat)
    requires Refines(m, sqn, tisn, f) && m.prodIndex == m.consIndex && f.consumed <= written <= |m.due|
    ensures written == |Signals(f.posts)| && f.good == f.consumed == |f.outcomes|
  {
    UsedIsExact(m, sqn, tisn, f);
    DrainedHasConsumed(f, written);
  }

  lemma FlushFails(m: Image, sqn: uint32, tisn: uint32, m0: Image, f: Fifo, before: nat, g: Fifo, written: nat)
    requires Refines(m, sqn, tisn, g) && m.prodIndex != m.consIndex && Stalled(f, g, written)
    requires Refines(m0, sqn, tisn, f) && before <= |m0.due| && before <= written <= |m.due|
    requires Continues(f, g) && g.posts == f.posts && g.rung == f.rung
    ensures !(g.Settled() && written == |Signals(g.posts)| && g.good == g.consumed)
    ensures !FlushReady(f, before)
  {
    hide RingCarries, OnWire;
    UsedIsExact(m, sqn, tisn, g);
    StalledLacks(f, g, written);
    if FlushReady(f, before) {
      ReadyDrains(f, before, g, written);
    }
  }

  lemma RingRefines(m: Image, sqn: uint32, tisn: uint32, f: Fifo)
    requires Refines(m, sqn, tisn, f)
    ensures Refines(m.(doorbell := m.prodIndex % U16), sqn, tisn, f.Ring())
    ensures f.rung <= |f.posts|
  {
    BlockOffset(|f.posts|);
    hide Signals, OnWire, RingCarries, Reports;
  }

  /** What the device reads at its 16-bit counter is a send request of this queue with the
      next frame of the FIFO. */
  lemma DeviceReads(m: Image, sqn: uint32, tisn: uint32, f: Fifo)
    requires Refines(m, sqn, tisn, f) && f.fetched < f.rung
    ensures var off := m.hwCounter % SQ_WQE_COUNT * 64;
      && off + WQE_BYTES <= RING_BYTES
      && var b := m.ring[off..off + WQE_BYTES];
      && f.posts[f.fetched] == Post(FrameOf(b), SignalledOf(b))
      && IndexOf(b) == Blocks16(f.fetched)
      && BlocksOf(b) == 2
      && SendsFor(b, sqn, tisn)
  {
    BlockOffset(f.fetched);
    FetchReads(m.ring, sqn, tisn, f.posts, f.Freed(), f.fetched);
  }

  lemma SendMore(wire: seq<bytes>, posts: seq<Post>, lost: set<nat>, n: nat)
    requires OnWire(wire, posts, lost, n) && n < |posts| && forall k :: k in lost ==> k < n
    ensures OnWire(wire + [posts[n].frame], posts, lost, n + 1)
    ensures OnWire(wire, posts, lost + {n}, n + 1)
  {
    KeptSame(posts, lost, posts, lost + {n}, n);
  }

  lemma LostBehind(f: Fifo)
    requires f.Valid()
    ensures f.fetched <= f.rung <= |f.posts| && forall k :: k in f.lost ==> k < f.fetched
  {}

  lemma ReportMore(due: seq<Entry>, signals: seq<nat>, outcomes: seq<bool>, e: Entry)
    requires Reports(due, signals, outcomes) && |outcomes| < |signals|
    requires WqeCounter(e) == Blocks16(signals[|outcomes|])
    ensures Reports(due + [e], signals, outcomes + [!Failed(e)])
  {}

  lemma FetchRefines(m: Image, sqn: uint32, tisn: uint32, f: Fifo, e: Entry)
    requires Refines(m, sqn, tisn, f) && f.fetched < f.rung
    requires WqeCounter(e) == Blocks16(f.fetched)
    ensures var p := f.posts[f.fetched];
      Refines(m.(hwCounter := (m.hwCounter + 2) % U16,
                 wire := if p.signalled && Failed(e) then m.wire else m.wire + [p.frame],
                 due := if p.signalled then m.due + [e] else m.due), sqn, tisn, f.Fetch(!Failed(e)))
  {
    FetchKeeps(f, !Failed(e));
    CounterStep(f.fetched);
    LostBehind(f);
    hide OnWire, Reports, RingCarries, Fifo.Valid, Signals;
    SendMore(m.wire, f.posts, f.lost, f.fetched);
    if f.posts[f.fetched].signalled {
      ReportMore(m.due, Signals(f.posts), f.outcomes, e);
    }
  }

  /** Reclaiming the 16-bit counter of the next successful completion refines consuming
      it: the consumer index moves forward and never past the producer. */
  lemma ConsumeRefines(m: Image, sqn: uint32, tisn: uint32, f: Fifo)
    requires Refines(m, sqn, tisn, f) && f.consumed < |m.due|
    ensures var e := m.due[f.consumed];
      && Failed(e) == !f.outcomes[f.consumed]
      && Refines(if Failed(e) then m else m.(consIndex := Reclaimed(m.consIndex, WqeCounter(e))),
                 sqn, tisn, f.Consume())
  {
    var k := Signals(f.posts)[f.consumed];
    ConsumeKeeps(f);
    ReclaimStep(f.Freed(), k);
  }

  // ----- the queue -----

  /** Index of the first frame with an unsupported length; |pkts| if there is none. */
  function FirstBad(pkts: seq<bytes>): (k: nat)
    ensures k <= |pkts|
    ensures forall i :: 0 <= i < k ==> ValidLength(|pkts[i]|)
    ensures k < |pkts| ==> !ValidLength(|pkts[k]|)
  {
    if |pkts| == 0 || !ValidLength(|pkts[0]|) then 0 else 1 + FirstBad(pkts[1..])
  }

  /** `next` continues `prev`: what was posted, announced, sent, decided, consumed or
      reclaimed stays so. */
  ghost predicate Continues(prev: Fifo, next: Fifo) {
    && prev.posts <= next.posts
    && prev.rung <= next.rung
    && prev.fetched <= next.fetched
    && prev.outcomes <= next.outcomes
    && prev.lost <= next.lost
    && prev.consumed <= next.consumed
    && prev.good <= next.good
  }

  /** Only the device moved between `prev` and `next`. */
  ghost predicate DeviceMoved(prev: Fifo, next: Fifo) {
    && Continues(prev, next)
    && next == prev.(fetched := next.fetched, outcomes := next.outcomes, lost := next.lost)
  }

  /** Fields up to `bar0Size` never change; the indices and the doorbell record are
      written by the driver; `hwCounter` and `wire` belong to the device: its own block
      counter and the frames it has sent, without those it failed to send.  `fifo` is the same queue without
      wrap-around. */
  class Sq {
    const ring: array<byte>
    const cq: Cq
    const sqn: uint32
    const tisn: uint32
    const uar: uint32
    const bar0Size: nat
    var prodIndex: uint32
    var consIndex: uint32
    var doorbell: uint16
    var hwCounter: uint16
    var wire: seq<bytes>
    ghost var fifo: Fifo

    ghost function View(): Image
      reads this, ring, cq
    {
      Image(ring[..], prodIndex, consIndex, doorbell, hwCounter, wire, cq.due)
    }

    ghost predicate Valid()
      reads this, ring, cq, cq.ring
    {
      && cq.Valid() && ring != cq.ring
      && Refines(View(), sqn, tisn, fifo)
      && cq.consumed == cq.released == fifo.consumed
    }

    /** The doorbell register lies inside the mapped BAR. */
    predicate DoorbellMapped() {
      uar * UAR_PAGE_SIZE + BF_OFFSET + 8 <= bar0Size
    }

    constructor (sqn: uint32, tisn: uint32, uar: uint32, bar0Size: nat)
      ensures Valid() && fresh(ring) && fresh(cq) && fresh(cq.ring)
      ensures this.sqn == sqn && this.tisn == tisn && this.uar == uar && this.bar0Size == bar0Size
      ensures fifo.Unused() && wire == []
    {
      ring := new byte[RING_BYTES](_ => 0);
      cq := new Cq();
      this.sqn, this.tisn, this.uar, this.bar0Size := sqn, tisn, uar, bar0Size;
      prodIndex, consIndex, doorbell, hwCounter, wire := 0, 0, 0, 0, [];
      fifo := Fifo([], 0, 0, [], {}, 0, 0);
    }

    /** The device reads, out of the ring bytes, the request its 16-bit counter names. */
    method DeviceRead() returns (frame: bytes, index: uint16, blocks: nat, signalled: bool)
      requires Valid() && fifo.fetched < fifo.rung
      ensures fifo.posts[fifo.fetched] == Post(frame, signalled)
      ensures index == Blocks16(fifo.fetched) && blocks == 2
    {
      DeviceReads(View(), sqn, tisn, fifo);
      var off := hwCounter % SQ_WQE_COUNT * 64;
      var wqe := ring[off..off + WQE_BYTES];
      assert wqe == View().ring[off..off + WQE_BYTES];
      return FrameOf(wqe), IndexOf(wqe), BlocksOf(wqe), SignalledOf(wqe);
    }

    /** The device's own bookkeeping for one frame. */
    method DeviceAdvance(frame: bytes, blocks: nat, signalled: bool, e: Entry)
      requires cq.Valid() && ring != cq.ring
      modifies this`hwCounter, this`wire, cq
      ensures cq.Valid() && cq.consumed == old(cq.consumed) && cq.written == old(cq.written)
      ensures cq.released == old(cq.released) && cq.probes == old(cq.probes)
      ensures View() == old(View()).(hwCounter := (old(hwCounter) + blocks) % U16,
                                     wire := if signalled && Failed(e) then old(wire) else old(wire) + [frame],
                                     due := if signalled then old(cq.due) + [e] else old(cq.due))
    {
      if !(signalled && Failed(e)) {
        wire := wire + [frame];
      }
      hwCounter := (hwCounter + blocks) % U16;
      if signalled {
        cq.Owe(e);
      }
    }

    /** One device turn.  If its 16-bit counter differs from the doorbell record, the
        device takes the next frame, and owes a completion if the request asks for one; it
        sends the frame unless that completion is an error.  `raw` is whatever else the
        device will write into that completion, its opcode included. */
    method DeviceFetch(raw: Entry)
      requires Valid()
      modifies this`hwCounter, this`wire, this`fifo, cq
      ensures Valid()
      ensures fifo == if old(fifo).fetched < old(fifo).rung then old(fifo).Fetch(!Failed(raw)) else old(fifo)
      ensures DeviceMoved(old(fifo), fifo) && old(wire) <= wire
      ensures cq.written == old(cq.written) && cq.probes == old(cq.probes)
    {
      hide Refines;
      DoorbellIsExact(View(), sqn, tisn, fifo);
      if (doorbell - hwCounter) % U16 != 0 {
        var frame, index, blocks, signalled := DeviceRead();
        var e := Compose(raw, index);
        FetchRefines(View(), sqn, tisn, fifo, e);
        DeviceAdvance(frame, blocks, signalled, e);
        fifo := fifo.Fetch(!Failed(e));
      }
    }

    /** Any number of device turns and completion writes, in any order. */
    method DeviceRun()
      requires Valid()
      modifies this`hwCounter, this`wire, this`fifo, cq, cq.ring
      ensures Valid()
      ensures DeviceMoved(old(fifo), fifo) && old(wire) <= wire
      ensures old(cq.written) <= cq.written && cq.probes == old(cq.probes)
    {
      hide Refines;
      var turns: nat := *;
      while turns > 0
        invariant Valid()
        invariant DeviceMoved(old(fifo), fifo) && old(wire) <= wire
        invariant old(cq.written) <= cq.written && cq.probes == old(cq.probes)
      {
        turns := turns - 1;
        if * {
          var raw: Entry := *;
          DeviceFetch(raw);
        } else if cq.written < |cq.due| {
          cq.DeviceWrite();
        }
      }
    }

    /** Clears the two blocks at `off` and fills in the request, field by field. */
    method WriteRequest(off: nat, w: Wqe)
      requires off + WQE_BYTES <= ring.Length && ValidLength(|w.frame|)
      modifies ring
      ensures ring[..] == Splice(old(ring[..]), off, Encode(w))
    {
      hide Splice, Encode, Word0, Word1, Word3, Be16;
      ghost var r, s := ring[..], Repeat(WQE_BYTES, 0);
      Fill(ring, off, WQE_BYTES, 0);
      CopyInto(ring, off, 0, Word0(w), r, s);
      s := Splice(s, 0, Word0(w));
      CopyInto(ring, off, 4, Word1(w), r, s);
      s := Splice(s, 4, Word1(w));
      CopyInto(ring, off, 0x0b, [Flags(w)], r, s);
      s := Splice(s, 0x0b, [Flags(w)]);
      CopyInto(ring, off, 0x0c, Word3(w), r, s);
      s := Splice(s, 0x0c, Word3(w));
      CopyInto(ring, off, 0x1c, Be16(|w.frame|), r, s);
      s := Splice(s, 0x1c, Be16(|w.frame|));
      CopyInto(ring, off, 0x1e, w.frame[..2], r, s);
      s := Splice(s, 0x1e, w.frame[..2]);
      CopyInto(ring, off, 0x20, w.frame[2..], r, s);
      WrittenIsEncode(w);
    }

    /** Writes one frame at the producer index; the caller has made sure of the room.  A
        frame with an unsupported length is refused and changes nothing. */
    method PrepareSendRaw(frame: bytes, requestCompletion: bool) returns (ok: bool)
      requires Valid() && |fifo.posts| < fifo.Freed() + SQ_FRAMES
      modifies this`prodIndex, this`fifo, ring
      ensures Valid()
      ensures ok <==> 60 <= |frame| <= 98
      ensures fifo == if ok then old(fifo).Post(Post(frame, requestCompletion)) else old(fifo)
      ensures fifo.Freed() == old(fifo).Freed()
    {
      hide Refines, Encode, Splice, BasicBlocks;
      if |frame| < MIN_FRAME || |frame| > MAX_INLINE_FRAME {
        return false;
      }
      var wqebbs := BasicBlocks(|frame|);
      assert wqebbs == 2 by {
        TwoBlocks(|frame|);
      }
      PostRefines(View(), sqn, tisn, fifo, Post(frame, requestCompletion));
      WriteRequest(prodIndex % SQ_WQE_COUNT * 64, Wqe(prodIndex % U16, sqn, tisn, frame, requestCompletion));
      prodIndex := (prodIndex + wqebbs) % U32;
      fifo := fifo.Post(Post(frame, requestCompletion));
      ok := true;
    }

    /** Announces everything written so far, through the 16-bit doorbell record. */
    method RingSend() returns (ok: bool)
      requires Valid()
      modifies this`doorbell, this`fifo
      ensures Valid()
      ensures ok <==> uar * 4096 + 0x808 <= bar0Size
      ensures fifo == if ok then old(fifo).Ring() else old(fifo)
      ensures Continues(old(fifo), fifo)
    {
      hide Refines;
      if uar * UAR_PAGE_SIZE + BF_OFFSET + 8 > bar0Size {
        return false;
      }
      RingRefines(View(), sqn, tisn, fifo);
      doorbell := prodIndex % U16;
      fifo := fifo.Ring();
      ok := true;
    }

    /** Waits for, or just looks for, one completion and reclaims the ring space it
        stands for. */
    method PollTxCq(wait: bool) returns (rc: int)
      requires Valid()
      modifies this`consIndex, this`hwCounter, this`wire, this`fifo, cq, cq.ring
      ensures Valid()
      ensures Continues(old(fifo), fifo) && old(wire) <= wire
      ensures fifo.posts == old(fifo).posts && fifo.rung == old(fifo).rung
      ensures rc == 1 || rc == 0 || rc == -1
      ensures rc == 1 ==> old(fifo).consumed < fifo.consumed == fifo.good && old(fifo).Freed() < fifo.Freed()
      ensures rc != 1 ==> fifo.good == old(fifo).good
      ensures fifo.consumed <= old(fifo).consumed + 1
      ensures rc == 1 ==> Clean(old(fifo), fifo, fifo.consumed)
      ensures rc == 0 ==> fifo.consumed == old(fifo).consumed == cq.written && !wait
      ensures rc != 1 ==> Stalled(old(fifo), fifo, cq.written)
      ensures old(cq.written) <= cq.written && old(cq.probes) <= cq.probes
      ensures !wait ==> cq.probes == old(cq.probes) + 1
      ensures wait && fifo.consumed == old(fifo).consumed ==> cq.probes == old(cq.probes) + 1001 * 1_000_001
      ensures rc != 1 && Clean(old(fifo), fifo, fifo.consumed) ==> fifo.consumed == old(fifo).consumed
    {
      hide Refines, Continues, DeviceMoved, Stalled, Clean, Fifo.Freed;
      var wqeCounter;
      rc, wqeCounter := LookForOne(wait);
      ghost var mid := fifo;
      if rc == 1 {
        ReclaimCqe(wqeCounter);
      } else {
        SkipError();
      }
      Decided(View(), sqn, tisn, fifo);
      PollEnds(old(fifo), mid, fifo, rc, cq.written);
    }

    /** Consumes one completion, if there is one, without reclaiming anything yet. */
    method LookForOne(wait: bool) returns (got: int, wqeCounter: uint16)
      requires Valid()
      modifies this`hwCounter, this`wire, this`fifo, cq, cq.ring
      ensures cq.Valid() && ring != cq.ring && cq.released == cq.consumed
      ensures Refines(View(), sqn, tisn, fifo) && DeviceMoved(old(fifo), fifo)
      ensures old(wire) <= wire && old(cq.written) <= cq.written && old(cq.probes) <= cq.probes
      ensures !wait ==> cq.probes == old(cq.probes) + 1
      ensures wait && cq.consumed == fifo.consumed ==> cq.probes == old(cq.probes) + 1001 * 1_000_001
      ensures got == 1 || got == 0 || got == -1
      ensures fifo.consumed <= cq.consumed <= fifo.consumed + 1
      ensures got == 1 ==>
                && cq.consumed == fifo.consumed + 1 && fifo.consumed < |cq.due|
                && !Failed(cq.due[fifo.consumed]) && wqeCounter == WqeCounter(cq.due[fifo.consumed])
      ensures got != 1 && cq.consumed > fifo.consumed ==> fifo.consumed < |cq.due| && Failed(cq.due[fifo.consumed])
      ensures got != 1 && cq.consumed == fifo.consumed ==> cq.consumed == cq.written
      ensures got == 0 ==> cq.consumed == fifo.consumed && !wait
    {
      hide Refines, DeviceMoved;
      DeviceRun();
      var byteCount;
      if wait {
        var ok;
        ok, byteCount, wqeCounter := cq.Poll(1000);
        got := if ok then 1 else -1;
      } else {
        got, byteCount, wqeCounter := cq.PollOnceMode(true);
      }
    }

    /** Gives back the ring space of all frames up to the one just completed. */
    method ReclaimCqe(wqeCounter: uint16)
      requires cq.Valid() && ring != cq.ring && cq.released == cq.consumed
      requires Refines(View(), sqn, tisn, fifo)
      requires fifo.consumed < |cq.due| && cq.consumed == fifo.consumed + 1
      requires !Failed(cq.due[fifo.consumed]) && wqeCounter == WqeCounter(cq.due[fifo.consumed])
      modifies this`consIndex, this`fifo
      ensures Valid()
      ensures old(fifo).consumed < |old(fifo).outcomes| && fifo == old(fifo).Consume()
      ensures old(fifo).good < fifo.good == fifo.consumed && old(fifo).Freed() < fifo.Freed()
    {
      ConsumeRefines(View(), sqn, tisn, fifo);
      ConsumeKeeps(fifo);
      consIndex := Reclaimed(consIndex, wqeCounter);
      fifo := fifo.Consume();
    }

    /** An error completion, if one was consumed, reclaims nothing. */
    ghost method SkipError()
      requires cq.Valid() && ring != cq.ring && cq.released == cq.consumed
      requires Refines(View(), sqn, tisn, fifo)
      requires fifo.consumed <= cq.consumed <= fifo.consumed + 1
      requires fifo.consumed < cq.consumed ==> fifo.consumed < |cq.due| && Failed(cq.due[fifo.consumed])
      modifies this`fifo
      ensures Valid()
      ensures fifo == old(fifo).(consumed := cq.consumed)
      ensures old(fifo).consumed < fifo.consumed ==>
                fifo.consumed <= |fifo.outcomes| && !fifo.outcomes[fifo.consumed - 1]
    {
      if fifo.consumed < cq.consumed {
        ConsumeRefines(View(), sqn, tisn, fifo);
        fifo := fifo.Consume();
      }
    }

    /** Writes one batch behind the frames already posted, the device running in between,
        and requests a completion for its last frame only.  It stops at the first frame
        with an unsupported length. */
    method PostBatch(pkts: seq<bytes>, batch: nat) returns (ok: bool)
      requires Valid() && 0 < batch <= |pkts|
      requires |fifo.posts| + batch <= fifo.Freed() + SQ_FRAMES
      modifies this`prodIndex, this`hwCounter, this`wire, this`fifo, ring, cq, cq.ring
      ensures Valid()
      ensures Continues(old(fifo), fifo) && old(wire) <= wire
      ensures fifo.rung == old(fifo).rung && fifo.Freed() == old(fifo).Freed()
      ensures Appends(old(fifo).posts, fifo.posts, pkts)
      ensures ok <==> batch <= FirstBad(pkts)
      ensures |fifo.posts| - |old(fifo).posts| == if ok then batch else FirstBad(pkts)
      ensures SignalledAt(old(fifo).posts, fifo.posts, |old(fifo).posts| + batch - 1)
      ensures fifo.consumed == old(fifo).consumed && cq.probes == old(cq.probes)
    {
      hide Refines, Signals;
      ok := true;
      for i := 0 to batch
        invariant Valid()
        invariant Continues(old(fifo), fifo) && old(wire) <= wire
        invariant fifo.rung == old(fifo).rung && fifo.Freed() == old(fifo).Freed()
        invariant |fifo.posts| == |old(fifo).posts| + i
        invariant Appends(old(fifo).posts, fifo.posts, pkts)
        invariant i <= FirstBad(pkts)
        invariant SignalledAt(old(fifo).posts, fifo.posts, |old(fifo).posts| + batch - 1)
        invariant fifo.consumed == old(fifo).consumed && cq.probes == old(cq.probes)
      {
        DeviceRun();
        ok := PrepareSendRaw(pkts[i], i + 1 == batch);
        if !ok {
          return;
        }
      }
    }

    /** Posts one batch and rings the doorbell for it. */
    method SendBatch(pkts: seq<bytes>, batch: nat) returns (ok: bool)
      requires Valid() && 0 < batch <= |pkts|
      requires |fifo.posts| + batch <= fifo.Freed() + SQ_FRAMES
      modifies this`prodIndex, this`doorbell, this`hwCounter, this`wire, this`fifo, ring, cq, cq.ring
      ensures Valid()
      ensures BatchOutcome(old(fifo), fifo, pkts, batch, ok, DoorbellMapped()) && old(wire) <= wire
      ensures cq.probes == old(cq.probes)
    {
      hide Refines, Signals;
      ok := PostBatch(pkts, batch);
      if ok {
        DeviceRun();
        ok := RingSend();
        DeviceRun();
      }
    }

    /** Posts as many frames as it can, waiting for completions only while the ring is
        full.  Frames counted as sent are posted and announced, in order.  Frames posted
        but not counted are left behind when a batch is cut short by a frame of
        unsupported length or when the doorbell is not mapped. */
    method TxBurst(pkts: seq<bytes>) returns (sent: nat, status: Status)
      requires Valid() && |pkts| < U16
      modifies this, ring, cq, cq.ring
      ensures Valid()
      ensures sent <= |pkts| && (status == Ok <==> sent == |pkts|)
      ensures BurstOutcome(old(fifo), fifo, pkts, sent, DoorbellMapped()) && old(wire) <= wire
      ensures DoorbellMapped() && |fifo.posts| - |old(fifo).posts| < FirstBad(pkts) ==>
                Stalled(old(fifo), fifo, cq.written)
      ensures Clean(old(fifo), fifo, fifo.consumed) || (Room(fifo) == 0 && Stalled(old(fifo), fifo, cq.written))
      ensures status == Ok ==> Clean(old(fifo), fifo, fifo.consumed)
      ensures DoorbellMapped() && |fifo.posts| - |old(fifo).posts| < FirstBad(pkts)
              && Clean(old(fifo), fifo, fifo.consumed) ==>
                cq.probes >= old(cq.probes) + 1001 * 1_000_001
    {
      hide Refines, Signals, Continues, BatchOutcome, Bursting, BurstOutcome, Stalled, Clean;
      ghost var start := fifo;
      sent := 0;
      BurstStarts(fifo, pkts, DoorbellMapped());
      CleanStarts(View(), sqn, tisn, fifo);
      while sent < |pkts|
        invariant Valid() && sent <= |pkts|
        invariant Bursting(start, fifo, pkts, sent, DoorbellMapped()) && old(wire) <= wire
        invariant Clean(start, fifo, fifo.consumed) && old(cq.probes) <= cq.probes
        decreases |pkts| - sent, |fifo.posts| - fifo.Freed()
      {
        ghost var before := fifo;
        var batch := |pkts| - sent;
        UsedIsExact(View(), sqn, tisn, fifo);
        var usedWqebbs := (prodIndex - consIndex) % U32;
        assert usedWqebbs <= SQ_WQE_COUNT;
        var availablePkts := (SQ_WQE_COUNT - usedWqebbs) / 2;
        if availablePkts == 0 {
          var rc := PollTxCq(true);
          BurstPolls(start, before, fifo, pkts, sent, DoorbellMapped());
          if rc <= 0 {
            BurstStalls(start, before, fifo, pkts, sent, DoorbellMapped(), cq.written);
            if Clean(start, fifo, fifo.consumed) {
              CleanPart(start, before, fifo);
            }
            return sent, IoError;
          }
          CleanOn(start, before, fifo);
        } else {
          if batch > availablePkts {
            batch := availablePkts;
          }
          var ok := SendBatch(pkts[sent..], batch);
          BurstSends(start, before, fifo, pkts, sent, batch, ok, DoorbellMapped());
          CleanStays(start, before, fifo, pkts[sent..], batch, ok, DoorbellMapped());
          if !ok {
            return sent, IoError;
          }
          sent := sent + batch;
        }
      }
      BurstEnds(start, fifo, pkts, DoorbellMapped());
      status := Ok;
    }

    /** Waits until every posted frame has completed.  It succeeds exactly if everything
        posted is announced and ends with a signalled frame, the device has written every
        completion, and the last one was a success.  It gives up only on an error
        completion or when no completion is left to consume. */
    method TxFlush() returns (status: Status)
      requires Valid()
      modifies this`consIndex, this`hwCounter, this`wire, this`fifo, cq, cq.ring
      ensures Valid()
      ensures Continues(old(fifo), fifo) && old(wire) <= wire
      ensures fifo.posts == old(fifo).posts && fifo.rung == old(fifo).rung
      ensures status == Ok <==> consIndex == prodIndex
      ensures status == Ok ==> old(fifo).Settled() && OnWire(wire, fifo.posts, fifo.lost, |fifo.posts|)
      ensures status == Ok ==> Clean(old(fifo), fifo, fifo.consumed) && fifo.consumed == |fifo.outcomes|
      ensures status == Ok <==>
                fifo.Settled() && cq.written == |Signals(fifo.posts)| && fifo.good == fifo.consumed
      ensures status != Ok ==> Stalled(old(fifo), fifo, cq.written)
      ensures status != Ok && Clean(old(fifo), fifo, fifo.consumed) ==>
                cq.probes >= old(cq.probes) + 1001 * 1_000_001
      ensures old(FlushReady(fifo, cq.written)) ==> status == Ok
    {
      hide Refines, Signals, Continues, Stalled, Clean;
      status := Ok;
      ContinuesSelf(fifo);
      CleanStarts(View(), sqn, tisn, fifo);
      while consIndex != prodIndex
        invariant Valid()
        invariant Continues(old(fifo), fifo) && old(wire) <= wire
        invariant fifo.posts == old(fifo).posts && fifo.rung == old(fifo).rung
        invariant old(cq.written) <= cq.written && old(cq.probes) <= cq.probes
        invariant Clean(old(fifo), fifo, fifo.consumed)
        decreases |fifo.posts| - fifo.Freed()
      {
        UsedIsExact(View(), sqn, tisn, fifo);
        ghost var before := fifo;
        var rc := PollTxCq(true);
        ContinuesOn(old(fifo), before, fifo);
        UsedIsExact(View(), sqn, tisn, fifo);
        if rc <= 0 {
          StalledOn(old(fifo), before, fifo, cq.written);
          if Clean(old(fifo), fifo, fifo.consumed) {
            CleanPart(old(fifo), before, fifo);
          }
          FlushFails(View(), sqn, tisn, old(View()), old(fifo), old(cq.written), fifo, cq.written);
          return IoError;
        }
        CleanOn(old(fifo), before, fifo);
      }
      DrainedRefines(View(), sqn, tisn, fifo);
      FlushSucceeds(View(), sqn, tisn, fifo, cq.written);
    }
  }

  function Min(a: int, b: int): int { if a < b then a else b }

  lemma ContinuesSelf(f: Fifo)
    ensures Continues(f, f)
  {}

  lemma ContinuesOn(f: Fifo, g: Fifo, h: Fifo)
    requires Continues(f, g) && Continues(g, h)
    ensures Continues(f, h)
  {}

  lemma SuffixFirstBad(pkts: seq<bytes>, n: nat)
    requires n <= FirstBad(pkts)
    ensures FirstBad(pkts) == n + FirstBad(pkts[n..])
  {
    var k := n + FirstBad(pkts[n..]);
    assert forall i :: n <= i < k ==> pkts[i] == pkts[n..][i - n];
    assert k < |pkts| ==> pkts[k] == pkts[n..][k - n];
  }

  /** Among the frames added, only the one at position `last` is signalled. */
  ghost predicate SignalledAt(prev: seq<Post>, next: seq<Post>, last: int) {
    forall k :: |prev| <= k < |next| ==> (next[k].signalled <==> k == last)
  }

  /** Frames the ring has room for. */
  function Room(f: Fifo): int { SQ_FRAMES - (|f.posts| - f.Freed()) }

  lemma StalledOn(f: Fifo, g: Fifo, h: Fifo, written: nat)
    requires Clean(f, g, g.consumed) && Continues(g, h) && Stalled(g, h, written)
    ensures Stalled(f, h, written)
  {}

  lemma Decided(m: Image, sqn: uint32, tisn: uint32, f: Fifo)
    requires Refines(m, sqn, tisn, f)
    ensures f.consumed <= |f.outcomes|
    ensures f.good == f.consumed > 0 ==> f.outcomes[f.consumed - 1]
  {}

  /** Between `f` and `mid` only the device moved; then one completion was looked for. */
  lemma PollEnds(f: Fifo, mid: Fifo, g: Fifo, got: int, written: nat)
    requires DeviceMoved(f, mid) && g.consumed <= |g.outcomes|
    requires g.good == g.consumed > 0 ==> g.outcomes[g.consumed - 1]
    requires got == 1 ==>
               && mid.consumed < |mid.outcomes| && g == mid.Consume()
               && mid.good < g.good == g.consumed && mid.Freed() < g.Freed()
    requires got != 1 ==> g == mid.(consumed := g.consumed) && mid.consumed <= g.consumed <= mid.consumed + 1
    requires got != 1 && g.consumed > mid.consumed ==> !g.outcomes[g.consumed - 1]
    requires got != 1 && g.consumed == mid.consumed ==> g.consumed == written
    ensures Continues(f, g) && g.posts == f.posts && g.rung == f.rung
    ensures f.consumed == mid.consumed <= g.consumed <= f.consumed + 1
    ensures got == 1 ==> f.consumed < g.consumed == g.good && f.Freed() < g.Freed() && Clean(f, g, g.consumed)
    ensures got != 1 ==> g.good == f.good && Stalled(f, g, written)
    ensures got != 1 && Clean(f, g, g.consumed) ==> g.consumed == f.consumed
  {}

  lemma CleanStarts(m: Image, sqn: uint32, tisn: uint32, f: Fifo)
    requires Refines(m, sqn, tisn, f)
    ensures Clean(f, f, f.consumed)
  {}

  lemma CleanOn(f: Fifo, g: Fifo, h: Fifo)
    requires Clean(f, g, g.consumed) && Continues(g, h) && Clean(g, h, h.consumed)
    ensures Clean(f, h, h.consumed)
  {}

  lemma CleanPart(f: Fifo, g: Fifo, h: Fifo)
    requires Clean(f, g, g.consumed) && Continues(g, h) && Clean(f, h, h.consumed)
    ensures Clean(g, h, h.consumed)
  {}

  /** Posting consumes nothing. */
  lemma CleanStays(f: Fifo, g: Fifo, h: Fifo, pkts: seq<bytes>, batch: nat, ok: bool, mapped: bool)
    requires Clean(f, g, g.consumed) && BatchOutcome(g, h, pkts, batch, ok, mapped)
    ensures Clean(f, h, h.consumed)
  {}

  /** One batch: every frame up to the first of unsupported length is posted, only the
      last frame of the batch signalled; the batch succeeds, announced and settled, if
      all are posted and the doorbell is mapped. */
  ghost predicate BatchOutcome(f: Fifo, g: Fifo, pkts: seq<bytes>, batch: nat, ok: bool, mapped: bool) {
    && Continues(f, g)
    && Appends(f.posts, g.posts, pkts)
    && SignalledAt(f.posts, g.posts, |f.posts| + batch - 1)
    && |g.posts| == |f.posts| + Min(batch, FirstBad(pkts))
    && (ok <==> batch <= FirstBad(pkts) && mapped)
    && (if ok then g.Settled() else g.rung == f.rung)
    && g.Freed() == f.Freed() && g.consumed == f.consumed
  }

  /** A burst, however it ends: the frames counted as sent are the first ones posted, and
      all of them are announced.  A burst that finds room enough consumes no
      completion and requests at most one, for its last frame. */
  ghost predicate BurstKept(f: Fifo, g: Fifo, pkts: seq<bytes>, sent: nat) {
    var posted := |g.posts| - |f.posts|;
    && Continues(f, g)
    && Appends(f.posts, g.posts, pkts)
    && sent <= posted <= FirstBad(pkts)
    && g.rung == (if sent == 0 then f.rung else |f.posts| + sent)
    && (sent > 0 && posted == sent ==> g.Settled())
    && (|pkts| <= Room(f) ==> g.consumed == f.consumed && SignalledAt(f.posts, g.posts, |f.posts| + |pkts| - 1))
  }

  /** A burst: of the frames posted but not counted, the orphans, exactly this is known.
      Without the doorbell mapped, nothing counts and as many frames are posted as fit
      before the first of unsupported length.  With it, there are orphans only up to that
      frame; a burst that posts less found the ring full; and when the ring has room for
      the whole burst there are none exactly if no frame, or the very first one, has an
      unsupported length. */
  ghost predicate BurstOutcome(f: Fifo, g: Fifo, pkts: seq<bytes>, sent: nat, mapped: bool) {
    var posted := |g.posts| - |f.posts|;
    && BurstKept(f, g, pkts, sent)
    && (!mapped && pkts != [] ==>
          sent == 0 && posted == Min(Min(|pkts|, g.Freed() + SQ_FRAMES - |f.posts|), FirstBad(pkts)))
    && (mapped && posted > sent ==> posted == FirstBad(pkts) < |pkts|)
    && (mapped && posted < FirstBad(pkts) ==> Room(g) == 0)
    && (mapped && |pkts| <= Room(f) ==>
          posted == FirstBad(pkts) && sent == if FirstBad(pkts) == |pkts| then |pkts| else 0)
  }

  /** A burst between two batches. */
  ghost predicate Bursting(f: Fifo, g: Fifo, pkts: seq<bytes>, sent: nat, mapped: bool) {
    && BurstKept(f, g, pkts, sent)
    && |g.posts| == |f.posts| + sent
    && (!mapped ==> sent == 0)
    && (sent == 0 ==> g.Freed() >= f.Freed())
    && (sent > 0 && |pkts| <= Room(f) ==> sent == |pkts|)
  }

  lemma BurstStarts(f: Fifo, pkts: seq<bytes>, mapped: bool)
    ensures Bursting(f, f, pkts, 0, mapped)
  {}

  lemma BurstEnds(f: Fifo, g: Fifo, pkts: seq<bytes>, mapped: bool)
    requires Bursting(f, g, pkts, |pkts|, mapped)
    ensures BurstOutcome(f, g, pkts, |pkts|, mapped) && |g.posts| == |f.posts| + |pkts|
  {}

  /** Waiting for room. */
  lemma BurstPolls(f: Fifo, g: Fifo, h: Fifo, pkts: seq<bytes>, sent: nat, mapped: bool)
    requires Bursting(f, g, pkts, sent, mapped) && sent < |pkts| && Room(g) == 0
    requires Continues(g, h) && h.posts == g.posts && h.rung == g.rung && g.Freed() <= h.Freed()
    ensures Bursting(f, h, pkts, sent, mapped)
  {}

  /** Waiting in vain. */
  lemma BurstStalls(f: Fifo, g: Fifo, h: Fifo, pkts: seq<bytes>, sent: nat, mapped: bool, written: nat)
    requires Bursting(f, g, pkts, sent, mapped) && sent < |pkts| && Room(g) == 0
    requires Bursting(f, h, pkts, sent, mapped) && Room(h) == 0 && Stalled(g, h, written)
    requires Clean(f, g, g.consumed) && Continues(g, h)
    ensures BurstOutcome(f, h, pkts, sent, mapped) && Stalled(f, h, written)
  {}

  lemma BurstSends(f: Fifo, g: Fifo, h: Fifo, pkts: seq<bytes>, sent: nat, batch: nat, ok: bool, mapped: bool)
    requires Bursting(f, g, pkts, sent, mapped) && sent < |pkts|
    requires Room(g) > 0 && batch == Min(|pkts| - sent, Room(g))
    requires BatchOutcome(g, h, pkts[sent..], batch, ok, mapped)
    ensures if ok then Bursting(f, h, pkts, sent + batch, mapped) else BurstOutcome(f, h, pkts, sent, mapped)
    ensures !ok && mapped ==> |h.posts| - |f.posts| == FirstBad(pkts)
  {
    hide Appends, SignalledAt;
    SuffixFirstBad(pkts, sent);
    BurstKeeps(f, g, h, pkts, sent, batch, ok, mapped);
  }

  lemma BurstKeeps(f: Fifo, g: Fifo, h: Fifo, pkts: seq<bytes>, sent: nat, batch: nat, ok: bool, mapped: bool)
    requires Bursting(f, g, pkts, sent, mapped) && sent < |pkts|
    requires Room(g) > 0 && batch == Min(|pkts| - sent, Room(g))
    requires BatchOutcome(g, h, pkts[sent..], batch, ok, mapped)
    ensures BurstKept(f, h, pkts, if ok then sent + batch else sent)
  {
    hide Appends;
    SuffixFirstBad(pkts, sent);
    AppendsOn(f.posts, g.posts, h.posts, pkts, sent);
    if sent == 0 {
      assert g.posts == f.posts;
    }
  }

  /** `next` is `prev` followed by the first frames of `pkts`. */
  ghost predicate Appends(prev: seq<Post>, next: seq<Post>, pkts: seq<bytes>) {
    && prev <= next && |next| <= |prev| + |pkts|
    && (forall i :: |prev| <= i < |next| ==> next[i].frame == pkts[i - |prev|])
  }

  lemma AppendsOn(prev: seq<Post>, mid: seq<Post>, next: seq<Post>, pkts: seq<bytes>, n: nat)
    requires n <= |pkts| && Appends(prev, mid, pkts) && |mid| == |prev| + n
    requires Appends(mid, next, pkts[n..])
    ensures Appends(prev, next, pkts)
  {}
}
