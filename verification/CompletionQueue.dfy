/** The completion queue: a cyclic array of 64-byte entries that the device
    fills and the driver consumes, told apart only by an owner bit that flips on
    every pass over the ring. */
module CompletionQueue {
  import opened Modular
  import opened Words

  const CQE_COUNT := 2048
  const CQE_SIZE := 64
  const CQ_BYTES := CQE_COUNT * CQE_SIZE
  const OPCODE_REQ_ERR := 13
  const OPCODE_RESP_ERR := 14
  const FAST_POLL_SPINS := 1_000_000

  /** One entry as the device composes it: 64 bytes, owner bit not yet chosen. */
  type Entry = e: bytes | |e| == CQE_SIZE witness seq(CQE_SIZE, _ => 0)

  function Opcode(e: Entry): nat { e[0x3f] as int / 16 }

  predicate IsError(e: Entry) { Opcode(e) == OPCODE_REQ_ERR || Opcode(e) == OPCODE_RESP_ERR }

  /** What the hardware means by an error completion: a requester or a responder error in
      the upper half of byte 0x3f. */
  predicate Failed(e: Entry) { e[0x3f] / 16 == 13 || e[0x3f] / 16 == 14 }

  function ByteCount(e: Entry): uint32 { GetBe32(e, 0x2c) }

  function WqeCounter(e: Entry): uint16 { GetBe16(e, 0x3c) }

  /** The owner bit of the `n`-th completion ever: the parity of its pass. */
  function Owner(n: nat): byte { (n / CQE_COUNT % 2) as byte }

  /** The entry as written for the `n`-th completion. */
  function Stamped(e: Entry, n: nat): Entry {
    e[0x3f := e[0x3f] / 2 * 2 + Owner(n)]
  }

  lemma StampKeepsFields(e: Entry, n: nat)
    ensures IsError(Stamped(e, n)) <==> Failed(e)
    ensures ByteCount(Stamped(e, n)) == ByteCount(e)
    ensures WqeCounter(Stamped(e, n)) == WqeCounter(e)
    ensures Stamped(e, n)[0x3f] % 2 == Owner(n)
  {}

  function SlotBytes(ring: bytes, s: nat): Entry
    requires |ring| == CQ_BYTES && s < CQE_COUNT
  {
    ring[s * CQE_SIZE..s * CQE_SIZE + CQE_SIZE]
  }

  /** Slot `n % CQE_COUNT` still holds the `n`-th completion. */
  ghost predicate Holds(ring: bytes, due: seq<Entry>, n: nat)
    requires |ring| == CQ_BYTES && n < |due|
  {
    SlotBytes(ring, n % CQE_COUNT) == Stamped(due[n], n)
  }

  /** After `written` completions every slot holds the last entry written there,
      and a slot never written holds a byte with the owner bit set. */
  ghost predicate RingHolds(ring: bytes, due: seq<Entry>, written: nat) {
    && |ring| == CQ_BYTES && written <= |due|
    && (forall n :: 0 <= n < written && written <= n + CQE_COUNT ==> Holds(ring, due, n))
    && (forall s :: written <= s < CQE_COUNT ==> SlotBytes(ring, s)[0x3f] == 0xff)
  }

  lemma WriteKeepsRing(ring: bytes, due: seq<Entry>, w: nat)
    requires RingHolds(ring, due, w) && w < |due|
    ensures RingHolds(Splice(ring, w % CQE_COUNT * CQE_SIZE, Stamped(due[w], w)), due, w + 1)
  {
    hide Splice, Stamped;
    var t, e := w % CQE_COUNT, Stamped(due[w], w);
    var ring' := Splice(ring, t * CQE_SIZE, e);
    forall n | 0 <= n <= w && w + 1 <= n + CQE_COUNT
      ensures Holds(ring', due, n)
    {
      SpliceCell(ring, CQE_SIZE, t, e, n % CQE_COUNT);
      if n < w {
        assert Holds(ring, due, n);
        DistinctMod(n, w, CQE_COUNT);
      }
    }
    forall s | w + 1 <= s < CQE_COUNT
      ensures SlotBytes(ring', s)[0x3f] == 0xff
    {
      ModUnique(w, CQE_COUNT, 0, w);
      SpliceCell(ring, CQE_SIZE, t, e, s);
      assert SlotBytes(ring', s) == SlotBytes(ring, s);
    }
  }

  /** Slot and owner bit survive the wrap-around of the 32-bit consumer index. */
  lemma WrapKeepsSlot(n: nat)
    ensures n % U32 % CQE_COUNT == n % CQE_COUNT
    ensures (n % U32 / CQE_COUNT % 2) as byte == Owner(n)
  {
    var pass, wraps := n / CQE_COUNT, n / U32;
    NestMod(n, U32, CQE_COUNT, 2097152);
    EvenShift(pass, wraps);
    assert n % U32 / CQE_COUNT == pass - wraps * 2097152;
  }

  /** A counter wrap is an even number of passes. */
  lemma EvenShift(pass: int, wraps: int)
    ensures (pass - wraps * 2097152) % 2 == pass % 2
  {
    ModUnique(pass - wraps * 2097152, 2, pass / 2 - wraps * 1048576, pass % 2);
  }

  /** The owner test is exact: with at most one ring of entries outstanding, the slot
      of completion number `n` shows the owner bit of pass `n` if and only if the
      device has written that completion. */
  lemma OwnerBitIsExact(ring: bytes, due: seq<Entry>, written: nat, n: nat)
    requires RingHolds(ring, due, written)
    requires n <= written <= n + CQE_COUNT
    ensures SlotBytes(ring, n % CQE_COUNT)[0x3f] % 2 == Owner(n) <==> n < written
  {
    if n < written {
      assert Holds(ring, due, n);
      StampKeepsFields(due[n], n);
    } else if CQE_COUNT <= n {
      var m := n - CQE_COUNT;
      assert Holds(ring, due, m);
      StampKeepsFields(due[m], m);
      ModUnique(n, CQE_COUNT, m / CQE_COUNT + 1, m % CQE_COUNT);
    }
  }

  /** Reading the slot of a completion not yet overwritten gives back what the device
      decided. */
  lemma ReadsBack(ring: bytes, due: seq<Entry>, written: nat, n: nat)
    requires RingHolds(ring, due, written) && n < written <= n + CQE_COUNT
    ensures var e := SlotBytes(ring, n % CQE_COUNT);
      && IsError(e) == Failed(due[n])
      && ByteCount(e) == ByteCount(due[n])
      && WqeCounter(e) == WqeCounter(due[n])
  {
    assert Holds(ring, due, n);
    StampKeepsFields(due[n], n);
  }

  /** `consIndex` is a 32-bit counter; `consumed` is the same count without
      wrap-around.  The device has decided the entries `due` and written the first
      `written` of them.  `released` is the consumer count that the doorbell record
      last published, of which the record keeps 24 bits. */
  class Cq {
    const ring: array<byte>
    var consIndex: uint32
    var doorbell: uint32
    var due: seq<Entry>
    var written: nat
    ghost var consumed: nat
    ghost var released: nat
    /** How often the driver has looked for an entry. */
    ghost var probes: nat

    ghost predicate Valid()
      reads this, ring
    {
      && ring.Length == CQ_BYTES && written <= |due|
      && RingHolds(ring[..], due, written)
      && released <= consumed <= written <= released + CQE_COUNT
      && consIndex == consumed % U32
      && doorbell == released % U24
    }

    /** A freshly created queue: every byte of the ring is 0xff. */
    constructor ()
      ensures Valid() && fresh(ring)
      ensures due == [] && written == consumed == released == probes == 0
    {
      ring := new byte[CQ_BYTES](_ => 0xff);
      consIndex, doorbell := 0, 0;
      due, written, consumed, released, probes := [], 0, 0, 0, 0;
    }

    /** The device decides one more completion. */
    method Owe(e: Entry)
      requires Valid()
      modifies this
      ensures Valid()
      ensures due == old(due) + [e]
      ensures written == old(written) && consumed == old(consumed) && released == old(released)
      ensures probes == old(probes)
    {
      due := due + [e];
      assert ring[..] == old(ring[..]);
      forall n | 0 <= n < written && written <= n + CQE_COUNT
        ensures Holds(ring[..], due, n)
      {
        assert Holds(ring[..], old(due), n);
      }
    }

    /** The device writes the next entry it owes, provided the 24-bit doorbell record
        shows room for it. */
    method DeviceWrite()
      requires Valid()
      requires written < |due|
      modifies this, ring
      ensures Valid()
      ensures written == if old(written) < released + CQE_COUNT then old(written) + 1 else old(written)
      ensures due == old(due) && consumed == old(consumed) && released == old(released) && probes == old(probes)
    {
      hide RingHolds, Stamped, Splice;
      DistanceMod(released, written, U24);
      AddMod(written, -(doorbell as int), U24);
      if (written - doorbell) % U24 < CQE_COUNT {
        Copy(ring, written % CQE_COUNT * CQE_SIZE, Stamped(due[written], written));
        WriteKeepsRing(old(ring[..]), due, written);
        written := written + 1;
      }
    }

    /** Any number of device writes, as many as the device chooses. */
    method DeviceProgress()
      requires Valid()
      modifies this, ring
      ensures Valid()
      ensures due == old(due) && consumed == old(consumed) && released == old(released) && probes == old(probes)
      ensures old(written) <= written
    {
      var turns: nat := *;
      while turns > 0
        invariant Valid()
        invariant due == old(due) && consumed == old(consumed) && released == old(released) && probes == old(probes)
        invariant old(written) <= written
      {
        turns := turns - 1;
        if written < |due| {
          DeviceWrite();
        }
      }
    }

    /** The device writes its entries up to number `n`, the doorbell record leaving room. */
    method DeviceProgressTo(n: nat)
      requires Valid() && n <= |due| && n <= released + CQE_COUNT
      modifies this, ring
      ensures Valid() && n <= written
      ensures due == old(due) && consumed == old(consumed) && released == old(released) && probes == old(probes)
    {
      while written < n
        invariant Valid()
        invariant due == old(due) && consumed == old(consumed) && released == old(released) && probes == old(probes)
        decreases n - written
      {
        DeviceWrite();
      }
    }

    method UpdateConsumer()
      requires Valid()
      modifies this`doorbell, this`released
      ensures Valid()
      ensures released == consumed && doorbell == consIndex % U24
    {
      hide RingHolds;
      NestMod(consumed, U32, U24, 256);
      doorbell := consIndex % U24;
      released := consumed;
    }

    /** One probe of the next slot.  It reports an entry exactly when the device has
        written one that was not consumed yet, and then it is the oldest such entry. */
    method PollOnceMode(updateConsumer: bool) returns (got: int, byteCount: uint32, wqeCounter: uint16)
      requires Valid()
      modifies this`consIndex, this`consumed, this`doorbell, this`released, this`probes
      ensures Valid() && probes == old(probes) + 1
      ensures got == 0 <==> old(consumed) == written
      ensures got == 0 ==> consumed == old(consumed) && released == old(released)
      ensures got != 0 ==>
                && consumed == old(consumed) + 1
                && (got == -1 || got == 1)
                && (got == -1 <==> due[old(consumed)][0x3f] as int / 16 in {13, 14})
                && released == if updateConsumer then consumed else old(released)
      ensures got == 1 ==>
                && byteCount == GetBe32(due[old(consumed)], 0x2c)
                && wqeCounter == GetBe16(due[old(consumed)], 0x3c)
    {
      hide RingHolds, Opcode, IsError, GetBe32, GetBe16;
      probes := probes + 1;
      var slot := consIndex % CQE_COUNT;
      var cqe: Entry := ring[slot * CQE_SIZE..slot * CQE_SIZE + CQE_SIZE];
      var owner := cqe[0x3f] % 2;
      var expectedOwner := (consIndex / CQE_COUNT % 2) as byte;
      byteCount, wqeCounter := ByteCount(cqe), WqeCounter(cqe);

      WrapKeepsSlot(consumed);
      assert cqe == SlotBytes(ring[..], slot);
      OwnerBitIsExact(ring[..], due, written, consumed);
      if owner != expectedOwner {
        return 0, byteCount, wqeCounter;
      }
      ReadsBack(ring[..], due, written, consumed);
      AddMod(consumed, 1, U32);
      consIndex := (consIndex + 1) % U32;
      consumed := consumed + 1;
      if updateConsumer {
        UpdateConsumer();
      }
      got := if IsError(cqe) then -1 else 1;
    }

    /** Waits for one entry, the device writing at its own pace between probes.  `spins`
        counts down FAST_POLL_SPINS probes for every elapsed millisecond. */
    method Poll(timeoutMs: int) returns (ok: bool, byteCount: uint32, wqeCounter: uint16)
      requires Valid()
      modifies this, ring
      ensures Valid()
      ensures due == old(due) && old(written) <= written
      ensures ok ==>
                && consumed == released == old(consumed) + 1
                && !Failed(due[old(consumed)])
                && byteCount == ByteCount(due[old(consumed)])
                && wqeCounter == WqeCounter(due[old(consumed)])
      ensures !ok && consumed != old(consumed) ==>
                consumed == released == old(consumed) + 1 && Failed(due[old(consumed)])
      ensures !ok && consumed == old(consumed) ==>
                && released == old(released)
                && probes == old(probes) + if timeoutMs < 0 then 0 else if timeoutMs == 0 then 1
                             else (timeoutMs + 1) * 1_000_001
      ensures old(consumed) < old(written) && timeoutMs >= 0 ==> consumed == old(consumed) + 1
      ensures consumed == old(consumed) && timeoutMs >= 0 ==> consumed == written
      ensures old(probes) <= probes
    {
      var elapsed := 0;
      var spins: int := FAST_POLL_SPINS;
      ok, byteCount, wqeCounter := false, 0, 0;
      DeviceProgress();
      if timeoutMs == 0 {
        var got;
        got, byteCount, wqeCounter := PollOnceMode(true);
        return got > 0, byteCount, wqeCounter;
      }
      while elapsed <= timeoutMs
        invariant Valid() && due == old(due) && old(written) <= written
        invariant consumed == old(consumed) && released == old(released)
        invariant 0 <= spins <= FAST_POLL_SPINS && 0 <= elapsed
        invariant if timeoutMs < 0 then elapsed == 0 && spins == FAST_POLL_SPINS else elapsed <= timeoutMs + 1
        invariant elapsed == timeoutMs + 1 ==> spins == FAST_POLL_SPINS
        invariant probes == old(probes) + elapsed * (FAST_POLL_SPINS + 1) + (FAST_POLL_SPINS - spins)
        invariant elapsed > 0 || probes > old(probes) ==> old(consumed) == old(written) && consumed == written
        decreases timeoutMs - elapsed, spins
      {
        DeviceProgress();
        var got;
        got, byteCount, wqeCounter := PollOnceMode(true);
        if got > 0 {
          return true, byteCount, wqeCounter;
        }
        if got < 0 {
          return false, byteCount, wqeCounter;
        }
        if spins != 0 {
          spins := spins - 1;
          continue;
        }
        elapsed := elapsed + 1;
        spins := FAST_POLL_SPINS;
      }
    }
  }
}
