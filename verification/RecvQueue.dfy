/** The receive ring: the driver lends page-sized buffers to the device, hands the
    filled ones to the application, and reposts "the next slot" when the application
    gives packets back, without being told which buffer it got. */
module RecvQueue {
  import opened Modular
  import opened Words
  import opened CompletionQueue
  import opened RecvFifo

  const RING_BYTES := 65536
  const WQE_BYTES := 16
  const PAGE_SIZE := 4096
  const RX_BUFFER_SIZE := 2048
  const HW_START_PADDING := 0x8000_0000

  datatype Status = Ok | Timeout | Invalid | IoError

  /** A received packet: the slot whose buffer holds it, and its length. */
  datatype Packet = Packet(slot: nat, len: nat)

  // ----- receive requests -----

  function PageIova(base: nat, slot: nat): nat { base + slot * PAGE_SIZE }

  function Encode(mkey: uint32, iova: uint64): (s: bytes)
    ensures |s| == WQE_BYTES
  {
    Be32(RX_BUFFER_SIZE + HW_START_PADDING) + Be32(mkey) + Be64(iova)
  }

  lemma DecodeEncode(mkey: uint32, iova: uint64)
    ensures GetBe32(Encode(mkey, iova), 0) == 0x8000_0800 == RX_BUFFER_SIZE + HW_START_PADDING
    ensures GetBe32(Encode(mkey, iova), 4) == mkey
    ensures GetBe64(Encode(mkey, iova), 8) == iova
  {
    var s := Encode(mkey, iova);
    assert s[0..4] == Be32(RX_BUFFER_SIZE + HW_START_PADDING);
    GetPut32(s, 0, RX_BUFFER_SIZE + HW_START_PADDING);
    assert s[8..16] == Be64(iova);
    GetPut64(s, 8, iova);
  }

  function RingSlot(ring: bytes, s: nat): (b: bytes)
    requires |ring| == RING_BYTES && s < RQ_WQE_COUNT
    ensures |b| == WQE_BYTES
  {
    ring[s * WQE_BYTES..s * WQE_BYTES + WQE_BYTES]
  }

  // ----- the wrapped, byte-level state against the FIFO -----

  /** The queue as driver and device see it.  A page that is not allocated is empty.
      `hwIndex` is the device's own 24-bit index of the next slot to fill. */
  datatype Image = Image(ring: bytes, pages: seq<bytes>, prodIndex: uint32, doorbell: uint32,
                         hwIndex: uint32, due: seq<Entry>)

  /** Slots posted at least once have a buffer and a request naming it. */
  ghost predicate SlotsReady(ring: bytes, pages: seq<bytes>, mkey: uint32, base: nat, prod: nat) {
    && |ring| == RING_BYTES && |pages| == RQ_WQE_COUNT && base + RQ_WQE_COUNT * PAGE_SIZE < U64
    && (forall s :: 0 <= s < RQ_WQE_COUNT ==> |pages[s]| == if s < prod then PAGE_SIZE else 0)
    && (forall s :: 0 <= s < RQ_WQE_COUNT && s < prod ==> RingSlot(ring, s) == Encode(mkey, PageIova(base, s)))
  }

  /** Every buffer filled and not posted again still begins with what arrived. */
  ghost predicate BuffersKeep(pages: seq<bytes>, arrivals: seq<Arrival>, prod: nat) {
    && |pages| == RQ_WQE_COUNT
    && (forall k :: 0 <= k < |arrivals| && prod <= k + RQ_WQE_COUNT ==> arrivals[k].payload <= pages[k % RQ_WQE_COUNT])
  }

  ghost predicate Reports(due: seq<Entry>, arrivals: seq<Arrival>) {
    && |due| == |arrivals|
    && (forall k :: 0 <= k < |due| ==> Reported(due[k], k, arrivals[k]))
  }

  ghost predicate Reported(e: Entry, k: nat, a: Arrival) {
    && Failed(e) == !a.ok
    && WqeCounter(e) == k % U16
    && ByteCount(e) == |a.payload|
  }

  ghost predicate Refines(m: Image, mkey: uint32, base: nat, f: Fifo) {
    && f.Valid()
    && m.prodIndex == f.prod % U32
    && m.doorbell == f.rung % U24
    && m.hwIndex == |f.arrivals| % U24
    && SlotsReady(m.ring, m.pages, mkey, base, f.prod)
    && BuffersKeep(m.pages, f.arrivals, f.prod)
    && Reports(m.due, f.arrivals)
  }

  lemma UnusedRefines(m: Image, mkey: uint32, base: nat, f: Fifo)
    requires |m.ring| == RING_BYTES && m.prodIndex == m.doorbell == m.hwIndex == 0 && m.due == []
    requires |m.pages| == RQ_WQE_COUNT && forall s :: 0 <= s < RQ_WQE_COUNT ==> m.pages[s] == []
    requires base + RQ_WQE_COUNT * PAGE_SIZE < U64
    requires f.Unused()
    ensures Refines(m, mkey, base, f)
  {}

  /** Every packet the application holds is in its buffer as it arrived. */
  ghost predicate HeldIntact(pages: seq<bytes>, f: Fifo) {
    forall j :: f.released <= j < |f.delivered| ==>
      && |pages| == RQ_WQE_COUNT && f.delivered[j] < |f.arrivals|
      && f.arrivals[f.delivered[j]].payload <= pages[f.delivered[j] % RQ_WQE_COUNT]
  }

  lemma HeldIsIntact(m: Image, mkey: uint32, base: nat, f: Fifo)
    requires Refines(m, mkey, base, f)
    ensures HeldIntact(m.pages, f)
  {
    forall j | f.released <= j < |f.delivered|
      ensures f.arrivals[f.delivered[j]].payload <= m.pages[f.delivered[j] % RQ_WQE_COUNT]
    {
      assert f.prod <= f.delivered[j] + RQ_WQE_COUNT;
    }
  }

  /** The slot number is the same behind the 32-bit, 24-bit and 16-bit counters. */
  lemma SlotOf32(k: nat)
    ensures k % U32 % RQ_WQE_COUNT == k % RQ_WQE_COUNT
  {
    NestMod(k, U32, RQ_WQE_COUNT, 1048576);
  }

  lemma SlotOf24(k: nat)
    ensures k % U24 % RQ_WQE_COUNT == k % RQ_WQE_COUNT && k % U24 % U16 == k % U16
  {
    NestMod(k, U24, RQ_WQE_COUNT, 4096);
    NestMod(k, U24, U16, 256);
  }

  lemma SlotOf16(k: nat)
    ensures k % U16 % RQ_WQE_COUNT == k % RQ_WQE_COUNT
  {
    NestMod(k, U16, RQ_WQE_COUNT, 16);
  }

  /** Slots not posted yet have no buffer; a buffer can be missing only on the first
      pass over the ring. */
  lemma MissingBuffer(m: Image, mkey: uint32, base: nat, f: Fifo)
    requires Refines(m, mkey, base, f)
    ensures m.prodIndex % RQ_WQE_COUNT == f.prod % RQ_WQE_COUNT
    ensures |m.pages| == RQ_WQE_COUNT && |m.ring| == RING_BYTES
    ensures PageIova(base, f.prod % RQ_WQE_COUNT) < U64
    ensures m.pages[f.prod % RQ_WQE_COUNT] == [] <==> f.prod < RQ_WQE_COUNT
    ensures m.pages[f.prod % RQ_WQE_COUNT] != [] ==> |m.pages[f.prod % RQ_WQE_COUNT]| == PAGE_SIZE
  {
    hide BuffersKeep, Reports;
    SlotOf32(f.prod);
    var s := f.prod % RQ_WQE_COUNT;
    assert 0 <= s < RQ_WQE_COUNT && (s < f.prod <==> RQ_WQE_COUNT <= f.prod);
  }

  lemma PostKeepsSlots(ring: bytes, pages: seq<bytes>, mkey: uint32, base: nat, prod: nat, page: bytes)
    requires SlotsReady(ring, pages, mkey, base, prod)
    requires |page| == PAGE_SIZE
    ensures var s := prod % RQ_WQE_COUNT;
      && PageIova(base, s) < U64
      && SlotsReady(Splice(ring, s * WQE_BYTES, Encode(mkey, PageIova(base, s))), pages[s := page],
                    mkey, base, prod + 1)
  {
    hide Encode, Splice;
    var s := prod % RQ_WQE_COUNT;
    var e := Encode(mkey, PageIova(base, s));
    assert s <= prod;
    if prod < RQ_WQE_COUNT {
      ModUnique(prod, RQ_WQE_COUNT, 0, prod);
    }
    forall t | 0 <= t < RQ_WQE_COUNT && t < prod + 1
      ensures RingSlot(Splice(ring, s * WQE_BYTES, e), t) == Encode(mkey, PageIova(base, t))
    {
      SpliceCell(ring, WQE_BYTES, s, e, t);
    }
  }

  lemma PostKeepsBuffers(pages: seq<bytes>, arrivals: seq<Arrival>, prod: nat, page: bytes)
    requires BuffersKeep(pages, arrivals, prod) && |arrivals| <= prod
    requires pages[prod % RQ_WQE_COUNT] != [] ==> page == pages[prod % RQ_WQE_COUNT]
    ensures BuffersKeep(pages[prod % RQ_WQE_COUNT := page], arrivals, prod + 1)
  {
    forall k | 0 <= k < |arrivals| && prod + 1 <= k + RQ_WQE_COUNT
      ensures arrivals[k].payload <= pages[prod % RQ_WQE_COUNT := page][k % RQ_WQE_COUNT]
    {
      DistinctMod(k, prod, RQ_WQE_COUNT);
    }
  }

  /** Posting the next slot, with a fresh buffer if it has none, refines the FIFO's
      post: no request in flight and no buffer in use is touched. */
  lemma PostRefines(m: Image, mkey: uint32, base: nat, f: Fifo, page: bytes)
    requires Refines(m, mkey, base, f) && f.Owed() > 0
    requires |m.pages| == RQ_WQE_COUNT && |page| == PAGE_SIZE
    requires m.pages[f.prod % RQ_WQE_COUNT] != [] ==> page == m.pages[f.prod % RQ_WQE_COUNT]
    ensures var s := f.prod % RQ_WQE_COUNT;
      && |m.ring| == RING_BYTES && PageIova(base, s) < U64
      && Refines(m.(ring := Splice(m.ring, s * WQE_BYTES, Encode(mkey, PageIova(base, s))),
                    pages := m.pages[s := page],
                    prodIndex := (m.prodIndex + 1) % U32), mkey, base, f.Post())
  {
    hide Encode, Splice;
    PostKeepsSlots(m.ring, m.pages, mkey, base, f.prod, page);
    PostKeepsBuffers(m.pages, f.arrivals, f.prod, page);
    AddMod(f.prod, 1, U32);
  }

  lemma RingRefines(m: Image, mkey: uint32, base: nat, f: Fifo)
    requires Refines(m, mkey, base, f)
    ensures Refines(m.(doorbell := m.prodIndex % U24), mkey, base, f.Ring())
    ensures f.rung <= f.prod
  {
    NestMod(f.prod, U32, U24, 256);
  }

  /** The device compares 24-bit indices, yet sees exactly whether a slot is announced. */
  lemma DoorbellIsExact(m: Image, mkey: uint32, base: nat, f: Fifo)
    requires Refines(m, mkey, base, f)
    ensures |f.arrivals| <= f.rung && (m.doorbell - m.hwIndex) % U24 == f.rung - |f.arrivals|
  {
    DistanceMod(|f.arrivals|, f.rung, U24);
  }

  /** The request the device reads names the buffer of its own slot. */
  lemma DeviceReads(m: Image, mkey: uint32, base: nat, f: Fifo)
    requires Refines(m, mkey, base, f) && |f.arrivals| < f.rung
    ensures var s := m.hwIndex % RQ_WQE_COUNT;
      && |m.ring| == RING_BYTES && |m.pages| == RQ_WQE_COUNT
      && GetBe32(RingSlot(m.ring, s), 0) % HW_START_PADDING == RX_BUFFER_SIZE
      && GetBe64(RingSlot(m.ring, s), 8) == PageIova(base, s)
      && |m.pages[s]| == PAGE_SIZE
      && s == |f.arrivals| % RQ_WQE_COUNT
      && m.hwIndex % U16 == |f.arrivals| % U16
  {
    hide Encode, GetBe32, GetBe64, BuffersKeep, Reports;
    SlotOf24(|f.arrivals|);
    assert |f.arrivals| % RQ_WQE_COUNT < f.prod;
    DecodeEncode(mkey, PageIova(base, |f.arrivals| % RQ_WQE_COUNT));
  }

  lemma ReceiveRefines(m: Image, mkey: uint32, base: nat, f: Fifo, a: Arrival, e: Entry)
    requires Refines(m, mkey, base, f) && |f.arrivals| < f.rung
    requires |a.payload| <= RX_BUFFER_SIZE && Reported(e, |f.arrivals|, a)
    ensures var s := |f.arrivals| % RQ_WQE_COUNT;
      && |m.pages| == RQ_WQE_COUNT && |m.pages[s]| == PAGE_SIZE
      && Refines(m.(pages := m.pages[s := Splice(m.pages[s], 0, a.payload)], hwIndex := (m.hwIndex + 1) % U24,
                    due := m.due + [e]), mkey, base, f.Receive(a))
  {
    var n, s := |f.arrivals|, |f.arrivals| % RQ_WQE_COUNT;
    AddMod(n, 1, U24);
    BufferReady(m.ring, m.pages, mkey, base, f.prod, n);
    var page := Splice(m.pages[s], 0, a.payload);
    FillKeepsSlots(m.ring, m.pages, mkey, base, f.prod, s, page);
    FillKeepsBuffers(m.pages, f.arrivals, f.prod, a, page);
    hide WqeCounter, ByteCount, Failed, SlotsReady, BuffersKeep;
  }

  lemma BufferReady(ring: bytes, pages: seq<bytes>, mkey: uint32, base: nat, prod: nat, n: nat)
    requires SlotsReady(ring, pages, mkey, base, prod) && n < prod
    ensures |pages| == RQ_WQE_COUNT && |pages[n % RQ_WQE_COUNT]| == PAGE_SIZE
  {
    assert n % RQ_WQE_COUNT <= n;
  }

  lemma FillKeepsSlots(ring: bytes, pages: seq<bytes>, mkey: uint32, base: nat, prod: nat, s: nat, page: bytes)
    requires SlotsReady(ring, pages, mkey, base, prod) && s < RQ_WQE_COUNT && |page| == |pages[s]|
    ensures SlotsReady(ring, pages[s := page], mkey, base, prod)
  {
    hide Encode, RingSlot;
  }

  /** The packet that fills a slot disturbs no other. */
  lemma FillKeepsBuffers(pages: seq<bytes>, arrivals: seq<Arrival>, prod: nat, a: Arrival, page: bytes)
    requires BuffersKeep(pages, arrivals, prod) && |arrivals| < prod && a.payload <= page
    ensures BuffersKeep(pages[|arrivals| % RQ_WQE_COUNT := page], arrivals + [a], prod)
  {
    var n := |arrivals|;
    forall k | 0 <= k < n && prod <= k + RQ_WQE_COUNT
      ensures k % RQ_WQE_COUNT != n % RQ_WQE_COUNT
    {
      DistinctMod(k, n, RQ_WQE_COUNT);
    }
  }

  /** The entry consumed next describes the next arrival, and its 16-bit counter names
      an allocated buffer. */
  lemma ConsumeRefines(m: Image, mkey: uint32, base: nat, f: Fifo)
    requires Refines(m, mkey, base, f) && f.consumed < |m.due|
    ensures f.consumed < |f.arrivals| && Refines(m, mkey, base, f.Consume())
    ensures Failed(m.due[f.consumed]) == !f.arrivals[f.consumed].ok
    ensures ByteCount(m.due[f.consumed]) == |f.arrivals[f.consumed].payload|
    ensures WqeCounter(m.due[f.consumed]) % RQ_WQE_COUNT == f.consumed % RQ_WQE_COUNT
    ensures |m.pages| == RQ_WQE_COUNT && m.pages[f.consumed % RQ_WQE_COUNT] != []
  {
    hide WqeCounter, ByteCount, Failed, BuffersKeep;
    assert Reported(m.due[f.consumed], f.consumed, f.arrivals[f.consumed]);
    SlotOf16(f.consumed);
    assert f.consumed % RQ_WQE_COUNT <= f.consumed < f.prod;
    ConsumeKeeps(f);
  }

  // ----- the queue -----

  /** What the application was given for the arrivals `from` on. */
  ghost predicate Describes(pkts: seq<Packet>, arrivals: seq<Arrival>, slots: seq<nat>) {
    && |pkts| == |slots|
    && (forall i :: 0 <= i < |pkts| ==>
          slots[i] < |arrivals| && arrivals[slots[i]].ok
          && pkts[i] == Packet(slots[i] % RQ_WQE_COUNT, |arrivals[slots[i]].payload|))
  }

  /** Only the device moved between `prev` and `next`. */
  ghost predicate DeviceMoved(prev: Fifo, next: Fifo) {
    prev.arrivals <= next.arrivals && next == prev.(arrivals := next.arrivals)
  }

  /** `pages` holds the content of each slot's buffer, empty while the slot has none;
      `outstanding` is the 16-bit count of packets the application holds; `hwIndex`
      belongs to the device.  `fifo` is the same queue without wrap-around. */
  class Rq {
    const ring: array<byte>
    const pages: array<bytes>
    const cq: Cq
    const mkey: uint32
    const base: nat
    var prodIndex: uint32
    var doorbell: uint32
    var hwIndex: uint32
    var outstanding: uint16
    ghost var fifo: Fifo

    ghost function View(): Image
      reads this, ring, pages, cq
    {
      Image(ring[..], pages[..], prodIndex, doorbell, hwIndex, cq.due)
    }

    /** Rings, buffers and counters agree with the FIFO. */
    ghost predicate Coherent()
      reads this, ring, pages, cq, cq.ring
    {
      && cq.Valid() && ring != cq.ring
      && Refines(View(), mkey, base, fifo)
      && cq.consumed == fifo.consumed && fifo.released <= cq.released
    }

    /** Between API calls also every slot paid for is posted, the driver's count of packets
        held by the application is exact, and the doorbell record covers every packet
        delivered. */
    ghost predicate Valid()
      reads this, ring, pages, cq, cq.ring
    {
      && Coherent()
      && fifo.Owed() == 0
      && outstanding == fifo.Outstanding()
      && |fifo.delivered| <= cq.released
    }

    constructor (mkey: uint32, base: nat)
      requires base + RQ_WQE_COUNT * PAGE_SIZE < U64
      ensures Valid() && fresh(ring) && fresh(pages) && fresh(cq) && fresh(cq.ring)
      ensures fifo.Unused() && this.mkey == mkey && this.base == base
    {
      ring := new byte[RING_BYTES](_ => 0);
      pages := new bytes[RQ_WQE_COUNT](_ => []);
      cq := new Cq();
      this.mkey, this.base := mkey, base;
      prodIndex, doorbell, hwIndex, outstanding := 0, 0, 0, 0;
      fifo := Fifo(0, 0, [], 0, [], 0, 0, 0);
      new;
      hide Refines, RingHolds;
      UnusedRefines(View(), mkey, base, fifo);
    }

    /** One device turn: if its 24-bit index differs from the doorbell record, the
        device reads the next request, writes `payload` into the buffer the request
        names, and owes a completion.  `raw` is whatever else it writes there. */
    method DeviceReceive(raw: Entry, payload: bytes)
      requires Coherent() && |payload| <= RX_BUFFER_SIZE
      modifies this`hwIndex, this`fifo, pages, cq
      ensures Coherent()
      ensures DeviceMoved(old(fifo), fifo)
      ensures fifo == if |old(fifo).arrivals| < old(fifo).rung
                      then old(fifo).Receive(Arrival(payload, !Failed(raw))) else old(fifo)
      ensures cq.written == old(cq.written) && cq.released == old(cq.released) && cq.probes == old(cq.probes)
    {
      hide Refines;
      DoorbellIsExact(View(), mkey, base, fifo);
      if (doorbell - hwIndex) % U24 != 0 {
        var slot, index := DeviceRead();
        var e := Compose(raw, index, |payload|);
        ReceiveRefines(View(), mkey, base, fifo, Arrival(payload, !Failed(raw)), e);
        FillPage(slot, payload);
        hwIndex := (hwIndex + 1) % U24;
        cq.Owe(e);
        fifo := fifo.Receive(Arrival(payload, !Failed(raw)));
      }
    }

    /** The device reads the request its index names and translates the address found
        there back to a buffer. */
    method DeviceRead() returns (slot: nat, index: uint16)
      requires Coherent() && |fifo.arrivals| < fifo.rung
      ensures slot == |fifo.arrivals| % RQ_WQE_COUNT && index == |fifo.arrivals| % U16
    {
      DeviceReads(View(), mkey, base, fifo);
      var off := hwIndex % RQ_WQE_COUNT * WQE_BYTES;
      var wqe := ring[off..off + WQE_BYTES];
      assert wqe == RingSlot(View().ring, hwIndex % RQ_WQE_COUNT);
      slot := (GetBe64(wqe, 8) - base) / PAGE_SIZE;
      index := hwIndex % U16;
    }

    method FillPage(slot: nat, payload: bytes)
      requires slot < pages.Length && |payload| <= |pages[slot]|
      modifies pages
      ensures pages[..] == old(pages[..])[slot := Splice(old(pages[slot]), 0, payload)]
    {
      pages[slot] := Splice(pages[slot], 0, payload);
    }

    /** Any number of device turns and completion writes, in any order. */
    method DeviceRun()
      requires Coherent()
      modifies this`hwIndex, this`fifo, pages, cq, cq.ring
      ensures Coherent()
      ensures DeviceMoved(old(fifo), fifo)
      ensures cq.released == old(cq.released) && cq.written >= old(cq.written) && cq.probes == old(cq.probes)
    {
      hide Refines;
      var turns: nat := *;
      while turns > 0
        invariant Coherent()
        invariant DeviceMoved(old(fifo), fifo)
        invariant cq.released == old(cq.released) && cq.written >= old(cq.written) && cq.probes == old(cq.probes)
      {
        turns := turns - 1;
        if * {
          var raw: Entry := *;
          var payload: bytes := *;
          if |payload| <= RX_BUFFER_SIZE {
            DeviceReceive(raw, payload);
          }
        } else if cq.written < |cq.due| {
          cq.DeviceWrite();
        }
      }
    }

    /** Gives slot `slot` the buffer `page` and writes the request naming it. */
    method PostSlot(slot: nat, page: bytes)
      requires ring.Length == RING_BYTES && pages.Length == RQ_WQE_COUNT && slot < RQ_WQE_COUNT
      requires PageIova(base, slot) < U64
      modifies this`prodIndex, ring, pages
      ensures View() == old(View()).(ring := Splice(old(ring[..]), slot * WQE_BYTES,
                                                    Encode(mkey, PageIova(base, slot))),
                                     pages := old(pages[..])[slot := page], prodIndex := (old(prodIndex) + 1) % U32)
    {
      pages[slot] := page;
      ghost var p := pages[..];
      var iova := PageIova(base, slot);
      ghost var r, s := ring[..], Repeat(WQE_BYTES, 0);
      Fill(ring, slot * WQE_BYTES, WQE_BYTES, 0);
      CopyInto(ring, slot * WQE_BYTES, 0, Be32(RX_BUFFER_SIZE + HW_START_PADDING), r, s);
      s := Splice(s, 0, Be32(RX_BUFFER_SIZE + HW_START_PADDING));
      CopyInto(ring, slot * WQE_BYTES, 4, Be32(mkey), r, s);
      s := Splice(s, 4, Be32(mkey));
      CopyInto(ring, slot * WQE_BYTES, 8, Be64(iova), r, s);
      s := Splice(s, 8, Be64(iova));
      WrittenIsEncode(mkey, iova);
      prodIndex := (prodIndex + 1) % U32;
      assert pages[..] == p;
    }

    /** Posts the next `count` slots and announces them.  It fails half-way, announcing
        nothing, exactly if more slots need memory than the `memory` buffers that can be
        had. */
    method PostBuffers(count: nat, memory: nat) returns (ok: bool)
      requires Coherent() && count <= fifo.Owed()
      modifies this`prodIndex, this`doorbell, this`hwIndex, this`fifo, ring, pages, cq, cq.ring
      ensures Coherent()
      ensures cq.released == old(cq.released)
      ensures ok <==> 0 < count <= RQ_WQE_COUNT && NeedsMemory(old(fifo).prod, count) <= memory
      ensures old(fifo).arrivals <= fifo.arrivals && |fifo.arrivals| <= old(fifo).rung
      ensures fifo == old(fifo).(prod := fifo.prod, rung := fifo.rung, arrivals := fifo.arrivals)
      ensures ok ==> fifo.prod == fifo.rung == old(fifo).prod + count
      ensures !ok ==> fifo.rung == old(fifo).rung
      ensures !ok && 0 < count <= RQ_WQE_COUNT ==> fifo.prod == old(fifo).prod + memory < RQ_WQE_COUNT
      ensures !ok && !(0 < count <= RQ_WQE_COUNT) ==> fifo == old(fifo)
    {
      hide Refines, Fifo.Valid, Splice, Encode;
      HeldCount(View(), mkey, base, fifo);
      if count == 0 || count > RQ_WQE_COUNT {
        return false;
      }
      var left := memory;
      for i := 0 to count
        invariant Coherent()
        invariant cq.released == old(cq.released)
        invariant old(fifo).arrivals <= fifo.arrivals && |fifo.arrivals| <= old(fifo).rung
        invariant fifo == old(fifo).(prod := old(fifo).prod + i, arrivals := fifo.arrivals)
        invariant left == memory - NeedsMemory(old(fifo).prod, i)
      {
        DeviceRun();
        MissingBuffer(View(), mkey, base, fifo);
        HeldCount(View(), mkey, base, fifo);
        var slot := prodIndex % RQ_WQE_COUNT;
        var page := pages[slot];
        if page == [] {
          if left == 0 {
            return false;
          }
          left := left - 1;
          page := Repeat(PAGE_SIZE, 0);
        }
        PostRefines(View(), mkey, base, fifo, page);
        PostSlot(slot, page);
        fifo := fifo.Post();
      }
      RingRefines(View(), mkey, base, fifo);
      doorbell := prodIndex % U24;
      fifo := fifo.Ring();
      ok := true;
    }

    /** Starts the queue with `count` buffers. */
    method Start(count: nat, memory: nat) returns (ok: bool)
      requires Coherent() && fifo.Unused() && outstanding == 0
      modifies this`prodIndex, this`doorbell, this`hwIndex, this`fifo, ring, pages, cq, cq.ring
      ensures Valid()
      ensures ok <==> 0 < count <= RQ_WQE_COUNT && count <= memory
      ensures ok ==> fifo.prod == fifo.rung == fifo.granted == count
      ensures fifo.delivered == [] && fifo.consumed == fifo.released == fifo.leaked == 0
      ensures fifo.arrivals == [] && cq.released == old(cq.released)
    {
      hide Refines, RingHolds;
      if count == 0 || count > RQ_WQE_COUNT {
        return false;
      }
      GrantRefines(View(), mkey, base, fifo, count);
      fifo := fifo.(granted := count);
      ok := PostBuffers(count, memory);
      if !ok {
        GrantRefines(View(), mkey, base, fifo, fifo.prod);
        fifo := fifo.(granted := fifo.prod);
      }
    }

    /** Waits for one packet. */
    method RxPollOne(timeoutMs: int) returns (ok: bool, pkt: Packet)
      requires Coherent()
      modifies this`hwIndex, this`fifo, pages, cq, cq.ring
      ensures Coherent()
      ensures Consumed(old(fifo), fifo, ok, pkt)
      ensures ok ==> cq.released == cq.consumed
      ensures cq.released == old(cq.released) || cq.released == cq.consumed
      ensures cq.released >= old(cq.released) && cq.written >= old(cq.written)
      ensures cq.probes >= old(cq.probes)
      ensures fifo.consumed == old(fifo).consumed ==> cq.probes == old(cq.probes) + Looks(timeoutMs)
      ensures timeoutMs >= 0 && fifo.consumed == old(fifo).consumed ==> cq.consumed == cq.written
    {
      hide Refines;
      DeviceRun();
      var byteCount, wqeCounter;
      ok, byteCount, wqeCounter := cq.Poll(timeoutMs);
      pkt := Packet(wqeCounter % RQ_WQE_COUNT, byteCount);
      Account();
    }

    /** Looks for one packet without waiting and without telling the device that its
        completion was consumed. */
    method RxPollNow() returns (got: int, pkt: Packet)
      requires Coherent()
      modifies this`hwIndex, this`fifo, pages, cq, cq.ring
      ensures Coherent()
      ensures Consumed(old(fifo), fifo, got == 1, pkt)
      ensures got == -1 || got == 0 || got == 1
      ensures got == 0 <==> fifo.consumed == old(fifo).consumed
      ensures got == 0 ==> cq.consumed == cq.written
      ensures cq.released == old(cq.released) && cq.written >= old(cq.written) && cq.probes == old(cq.probes) + 1
    {
      hide Refines;
      DeviceRun();
      var byteCount, wqeCounter;
      got, byteCount, wqeCounter := cq.PollOnceMode(false);
      pkt := Packet(wqeCounter % RQ_WQE_COUNT, byteCount);
      Account();
    }

    /** Accounts for the completion just consumed, if any. */
    ghost method Account()
      requires cq.Valid() && ring != cq.ring && Refines(View(), mkey, base, fifo)
      requires fifo.consumed <= cq.consumed <= fifo.consumed + 1 && fifo.released <= cq.released
      modifies this`fifo
      ensures Coherent()
      ensures if cq.consumed == old(fifo).consumed then fifo == old(fifo)
              else
                && old(fifo).consumed < |old(fifo).arrivals| && old(fifo).consumed < |cq.due|
                && fifo == old(fifo).Consume()
                && Failed(cq.due[old(fifo).consumed]) == !fifo.arrivals[old(fifo).consumed].ok
                && ByteCount(cq.due[old(fifo).consumed]) == |fifo.arrivals[old(fifo).consumed].payload|
                && WqeCounter(cq.due[old(fifo).consumed]) % RQ_WQE_COUNT == old(fifo).consumed % RQ_WQE_COUNT
                && pages.Length == RQ_WQE_COUNT && pages[old(fifo).consumed % RQ_WQE_COUNT] != []
    {
      hide Refines, Failed, ByteCount, WqeCounter;
      if fifo.consumed < cq.consumed {
        ConsumeRefines(View(), mkey, base, fifo);
        fifo := fifo.Consume();
      }
    }

    /** Collects up to `nbPkts` packets, waiting at most for the first.  The packets are
        the next arrivals, one after the other.  A burst falls short only at an error
        completion, which ends it, or when none is left to consume, unless it was not to
        look at all.  A burst that returns packets leaves the doorbell record up to
        date. */
    method RxBurst(nbPkts: uint16, timeoutMs: int) returns (pkts: seq<Packet>, status: Status)
      requires Valid()
      modifies this`hwIndex, this`outstanding, this`fifo, pages, cq, cq.ring, cq`doorbell
      ensures Valid()
      ensures |pkts| <= nbPkts && (nbPkts > 0 ==> (status == Ok <==> pkts != []))
      ensures Received(old(fifo), fifo, pkts)
      ensures |pkts| == nbPkts ==> fifo.consumed == old(fifo).consumed + nbPkts
      ensures |pkts| < nbPkts ==> ShortOf(old(fifo), fifo, |pkts|, cq.written) || (pkts == [] && timeoutMs < 0)
      ensures pkts != [] ==> cq.released == cq.consumed && cq.doorbell == cq.consIndex % U24
      ensures old(cq.written) <= cq.written && old(cq.probes) <= cq.probes
      ensures nbPkts > 0 && fifo.consumed == old(fifo).consumed ==> cq.probes == old(cq.probes) + Looks(timeoutMs)
      ensures nbPkts == 0 ==> cq.probes == old(cq.probes)
      ensures HeldIntact(pages[..], fifo)
    {
      hide Refines, RingHolds, Received, Consumed, ShortOf, HeldIntact;
      pkts, status := [], Ok;
      ghost var start := fifo;
      NothingReceived(View(), mkey, base, fifo);
      while |pkts| < nbPkts
        invariant Coherent() && |pkts| <= nbPkts
        invariant Received(start, fifo, pkts) && outstanding == old(outstanding)
        invariant fifo.consumed == start.consumed + |pkts|
        invariant old(cq.released) <= cq.released && old(cq.written) <= cq.written && old(cq.probes) <= cq.probes
        invariant pkts == [] ==> cq.probes == old(cq.probes)
        decreases nbPkts - |pkts|
      {
        ghost var before := fifo;
        var got, pkt;
        if pkts == [] && timeoutMs != 0 {
          var ok;
          ok, pkt := RxPollOne(timeoutMs);
          got := if ok then 1 else -1;
        } else {
          got, pkt := RxPollNow();
        }
        MoreReceived(start, before, fifo, pkts, got == 1, pkt);
        if got <= 0 {
          assert ShortOf(start, fifo, |pkts|, cq.written) || (pkts == [] && timeoutMs < 0) by {
            FellShort(start, before, fifo, pkts, got == 1, pkt, cq.written, pkts == [] && timeoutMs < 0);
          }
          status := if pkts == [] then Timeout else Ok;
          break;
        }
        pkts := pkts + [pkt];
      }
      ReceivedConsumes(start, fifo, pkts);
      Conclude(pkts, start);
    }

    /** Counts the packets of a burst and publishes their completions. */
    method Conclude(pkts: seq<Packet>, ghost start: Fifo)
      requires Coherent() && Received(start, fifo, pkts) && start.Owed() == 0
      requires outstanding == start.Outstanding() && |start.delivered| <= cq.released
      modifies this`outstanding, cq`doorbell, cq`released
      ensures Valid() && HeldIntact(pages[..], fifo)
      ensures pkts != [] ==> cq.released == cq.consumed && cq.doorbell == cq.consIndex % U24
      ensures pkts == [] ==> cq.released == old(cq.released)
    {
      hide Refines, RingHolds, Received, HeldIntact;
      ReceivedCount(View(), mkey, base, start, fifo, pkts);
      HeldIsIntact(View(), mkey, base, fifo);
      if pkts != [] {
        cq.UpdateConsumer();
        outstanding := (outstanding + |pkts|) % U16;
      }
    }

    /** Gives the `nbPkts` oldest packets back and posts as many slots.  It fails exactly if
        more packets are given back than held, or more of the slots need memory than the
        `memory` buffers that can be had; then the application keeps its packets. */
    method RxRelease(nbPkts: uint16, memory: nat) returns (status: Status)
      requires Valid()
      modifies this`prodIndex, this`doorbell, this`hwIndex, this`outstanding, this`fifo, ring, pages, cq, cq.ring
      ensures Valid()
      ensures status == Ok || status == Invalid || status == IoError
      ensures status == Invalid <==> nbPkts > old(outstanding)
      ensures status == Invalid ==> fifo == old(fifo)
      ensures status == IoError <==> nbPkts <= old(outstanding) && NeedsMemory(old(fifo).prod, nbPkts) > memory
      ensures fifo == old(fifo).(prod := fifo.prod, rung := fifo.rung, arrivals := fifo.arrivals,
                                 released := fifo.released, leaked := fifo.leaked)
      ensures old(fifo).arrivals <= fifo.arrivals
      ensures status == Ok ==> fifo.released == old(fifo).released + nbPkts && fifo.leaked == old(fifo).leaked
      ensures status == Ok ==> fifo.prod == old(fifo).prod + nbPkts
      ensures status == Ok ==> fifo.rung == if nbPkts > 0 then fifo.prod else old(fifo).rung
      ensures status != Ok ==> fifo.released == old(fifo).released && fifo.rung == old(fifo).rung
      ensures status == IoError ==>
                fifo.prod == old(fifo).prod + memory && fifo.leaked == old(fifo).leaked + memory
      ensures cq.released == old(cq.released)
      ensures HeldIntact(pages[..], fifo)
    {
      hide Refines, RingHolds, HeldIntact;
      if nbPkts > outstanding {
        HeldIsIntact(View(), mkey, base, fifo);
        return Invalid;
      }
      if nbPkts != 0 {
        var ok := Repost(nbPkts, memory);
        if !ok {
          HeldIsIntact(View(), mkey, base, fifo);
          return IoError;
        }
      }
      outstanding := outstanding - nbPkts;
      HeldIsIntact(View(), mkey, base, fifo);
      status := Ok;
    }

    /** Posts `n` slots for as many packets given back, or leaks what it has posted. */
    method Repost(n: nat, memory: nat) returns (ok: bool)
      requires Valid() && 0 < n <= outstanding
      modifies this`prodIndex, this`doorbell, this`hwIndex, this`fifo, ring, pages, cq, cq.ring
      ensures Coherent() && fifo.Owed() == 0 && cq.released == old(cq.released)
      ensures n <= RQ_WQE_COUNT && fifo.delivered == old(fifo).delivered
      ensures ok <==> NeedsMemory(old(fifo).prod, n) <= memory
      ensures old(fifo).arrivals <= fifo.arrivals
      ensures fifo == if ok then old(fifo).(arrivals := fifo.arrivals, prod := old(fifo).prod + n,
                                            rung := old(fifo).prod + n, released := old(fifo).released + n)
                      else old(fifo).(arrivals := fifo.arrivals, prod := old(fifo).prod + memory,
                                      leaked := old(fifo).leaked + memory)
    {
      hide Refines, RingHolds;
      HeldCount(View(), mkey, base, fifo);
      ReleaseRefines(View(), mkey, base, fifo, n);
      fifo := fifo.Release(n);
      ok := PostBuffers(n, memory);
      if !ok {
        UndoRefines(View(), mkey, base, fifo, n, memory);
        fifo := fifo.Undo(n, memory);
      }
    }
  }

  /** How often a wait in vain looks for an entry. */
  function Looks(timeoutMs: int): nat {
    if timeoutMs < 0 then 0 else if timeoutMs == 0 then 1 else (timeoutMs + 1) * 1_000_001
  }

  /** At most one completion was consumed; if it was a success, it is the packet `pkt`. */
  ghost predicate Consumed(f: Fifo, g: Fifo, ok: bool, pkt: Packet) {
    && f.arrivals <= g.arrivals
    && (if g.consumed == f.consumed then
          !ok && g == f.(arrivals := g.arrivals)
        else
          && f.consumed < |g.arrivals|
          && ok == g.arrivals[f.consumed].ok
          && g == f.(arrivals := g.arrivals).Consume()
          && (ok ==> pkt == Packet(f.consumed % RQ_WQE_COUNT, |g.arrivals[f.consumed].payload|)))
  }

  /** A burst that began in `f` and brought `n` packets ends at an error completion, or
      with none of the `written` completions left to consume. */
  ghost predicate ShortOf(f: Fifo, g: Fifo, n: nat, written: nat) {
    g.consumed == f.consumed + n + 1 || (g.consumed == f.consumed + n && g.consumed == written)
  }

  lemma FellShort(f: Fifo, g: Fifo, h: Fifo, pkts: seq<Packet>, ok: bool, pkt: Packet, written: nat, blind: bool)
    requires Received(f, g, pkts) && g.consumed == f.consumed + |pkts| && Consumed(g, h, ok, pkt) && !ok
    requires h.consumed == g.consumed ==> blind || h.consumed == written
    ensures ShortOf(f, h, |pkts|, written) || blind
  {}

  /** A burst: the packets are the next arrivals, one after the other and newly delivered;
      at most one more completion was consumed, and it was an error. */
  ghost predicate Received(f: Fifo, g: Fifo, pkts: seq<Packet>) {
    && f.arrivals <= g.arrivals && f.delivered <= g.delivered
    && |g.delivered| == |f.delivered| + |pkts|
    && f.consumed + |pkts| <= g.consumed <= f.consumed + |pkts| + 1 && g.consumed <= |g.arrivals|
    && (forall i :: |f.delivered| <= i < |g.delivered| ==> g.delivered[i] == f.consumed + (i - |f.delivered|))
    && (g.consumed > f.consumed + |pkts| ==> !g.arrivals[g.consumed - 1].ok)
    && g == f.(arrivals := g.arrivals, consumed := g.consumed, delivered := g.delivered)
    && Describes(pkts, g.arrivals, g.delivered[|f.delivered|..])
  }

  lemma ReceivedConsumes(f: Fifo, g: Fifo, pkts: seq<Packet>)
    requires Received(f, g, pkts)
    ensures g.consumed >= f.consumed + |pkts|
  {}

  lemma NothingReceived(m: Image, mkey: uint32, base: nat, f: Fifo)
    requires Refines(m, mkey, base, f)
    ensures Received(f, f, [])
  {}

  lemma MoreReceived(f: Fifo, g: Fifo, h: Fifo, pkts: seq<Packet>, ok: bool, pkt: Packet)
    requires Received(f, g, pkts) && g.consumed == f.consumed + |pkts| && Consumed(g, h, ok, pkt)
    ensures Received(f, h, if ok then pkts + [pkt] else pkts)
    ensures ok ==> h.consumed == f.consumed + |pkts| + 1
  {
    hide Describes;
    DescribesLater(pkts, g.arrivals, g.delivered[|f.delivered|..], h.arrivals);
    if ok {
      assert h.delivered[|f.delivered|..] == g.delivered[|f.delivered|..] + [g.consumed];
      DescribesOne(pkts, h.arrivals, g.delivered[|f.delivered|..], pkt, g.consumed);
    } else {
      assert h.delivered == g.delivered;
    }
  }

  lemma DescribesLater(pkts: seq<Packet>, arrivals: seq<Arrival>, slots: seq<nat>, later: seq<Arrival>)
    requires Describes(pkts, arrivals, slots) && arrivals <= later
    ensures Describes(pkts, later, slots)
  {}

  lemma DescribesOne(pkts: seq<Packet>, arrivals: seq<Arrival>, slots: seq<nat>, pkt: Packet, k: nat)
    requires Describes(pkts, arrivals, slots) && k < |arrivals| && arrivals[k].ok
    requires pkt == Packet(k % RQ_WQE_COUNT, |arrivals[k].payload|)
    ensures Describes(pkts + [pkt], arrivals, slots + [k])
  {}

  /** The 16-bit count of packets held never wraps. */
  lemma ReceivedCount(m: Image, mkey: uint32, base: nat, f: Fifo, g: Fifo, pkts: seq<Packet>)
    requires Refines(m, mkey, base, g) && Received(f, g, pkts)
    ensures g.Outstanding() == f.Outstanding() + |pkts| <= RQ_WQE_COUNT
    ensures g.Outstanding() <= g.granted + g.leaked
    ensures g.Owed() == f.Owed()
    ensures |g.delivered| == |f.delivered| + |pkts| <= g.consumed
  {}

  lemma HeldCount(m: Image, mkey: uint32, base: nat, f: Fifo)
    requires Refines(m, mkey, base, f)
    ensures |f.arrivals| <= f.rung
    ensures f.Owed() == 0 ==> f.Outstanding() <= f.granted + f.leaked <= RQ_WQE_COUNT
  {}

  lemma ReleaseRefines(m: Image, mkey: uint32, base: nat, f: Fifo, n: nat)
    requires Refines(m, mkey, base, f) && n <= f.Outstanding()
    ensures Refines(m, mkey, base, f.Release(n))
    ensures n <= RQ_WQE_COUNT + f.Owed()
  {}

  lemma UndoRefines(m: Image, mkey: uint32, base: nat, f: Fifo, n: nat, posted: nat)
    requires Refines(m, mkey, base, f) && n <= f.released && f.prod < RQ_WQE_COUNT
    requires f.Owed() == n - posted && posted <= n
    ensures Refines(m, mkey, base, f.Undo(n, posted)) && f.Undo(n, posted).Owed() == 0
  {
    UndoKeeps(f, n, posted);
  }

  lemma GrantRefines(m: Image, mkey: uint32, base: nat, f: Fifo, count: nat)
    requires Refines(m, mkey, base, f)
    requires f.prod <= count <= RQ_WQE_COUNT && f.released == f.leaked == 0
    ensures Refines(m, mkey, base, f.(granted := count))
  {}

  /** The order in which the driver fills in a cleared request. */
  lemma WrittenIsEncode(mkey: uint32, iova: uint64)
    ensures Splice(Splice(Splice(Repeat(WQE_BYTES, 0), 0, Be32(RX_BUFFER_SIZE + HW_START_PADDING)),
                          4, Be32(mkey)), 8, Be64(iova))
         == Encode(mkey, iova)
  {}

  /** The device fills index and length into a completion. */
  method Compose(raw: Entry, counter: uint16, len: uint32) returns (e: Entry)
    ensures WqeCounter(e) == counter && ByteCount(e) == len && Failed(e) == Failed(raw)
  {
    var e0: Entry := Splice(raw, 0x2c, Be32(len));
    e := Splice(e0, 0x3c, Be16(counter));
    SpliceInside(raw, 0x2c, Be32(len));
    SpliceInside(e0, 0x3c, Be16(counter));
    SpliceOutside(e0, 0x3c, Be16(counter), 0x2c, 0x30);
    GetPut32(e, 0x2c, len);
    GetPut16(e, 0x3c, counter);
    assert e[0x3f] == e0[0x3f] == raw[0x3f];
  }
}
