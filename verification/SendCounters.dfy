/** The wrapping block counters of the transmit ring. */
module SendCounters {
  import opened Modular
  import opened Words
  import opened SendWqe
  import opened SendFifo

  const SQ_WQE_COUNT := 8192

  /** The 16-bit and 32-bit block counters after `k` two-block frames. */
  function Blocks16(k: nat): uint16 { 2 * k % U16 }

  function Blocks32(k: nat): uint32 { 2 * k % U32 }

  lemma CounterStep(k: nat)
    ensures (Blocks16(k) + 2) % U16 == Blocks16(k + 1)
    ensures (Blocks32(k) + 2) % U32 == Blocks32(k + 1)
  {
    AddMod(2 * k, 2, U16);
    AddMod(2 * k, 2, U32);
  }

  /** The wrapped distance of the indices is the number of blocks between them. */
  lemma UsedBlocks(a: nat, b: nat)
    requires a <= b <= a + SQ_FRAMES
    ensures (Blocks32(b) - Blocks32(a)) % U32 == 2 * (b - a)
    ensures Blocks32(b) == Blocks32(a) <==> a == b
  {
    DistanceMod(2 * a, 2 * b, U32);
  }

  /** Two blocks per frame: the ring offset of frame number `k`, from the 32-bit and
      from the 16-bit block counter; a request never straddles the ring's end. */
  lemma BlockOffset(k: nat)
    ensures Blocks32(k) % SQ_WQE_COUNT * 64 == k % SQ_FRAMES * WQE_BYTES
    ensures Blocks16(k) % SQ_WQE_COUNT * 64 == k % SQ_FRAMES * WQE_BYTES
    ensures Blocks32(k) % U16 == Blocks16(k)
    ensures k % SQ_FRAMES * WQE_BYTES + WQE_BYTES <= SQ_WQE_COUNT * 64
  {
    NestMod(2 * k, U32, U16, U16);
    NestMod(2 * k, U32, SQ_WQE_COUNT, 524288);
    NestMod(2 * k, U16, SQ_WQE_COUNT, 8);
    ScaleMod(k, SQ_FRAMES, 2);
  }

  /** The consumer index after a completion that reports the 16-bit index of the first
      block of a two-block request. */
  function Reclaimed(consIndex: uint32, wqeCounter: uint16): uint32 {
    var completed := consIndex / U16 * U16 + wqeCounter;
    var adjusted := if completed < consIndex then (completed + U16) % U32 else completed;
    (adjusted + 2) % U32
  }

  /** What the reconstruction computes: the nearest index at or ahead of the consumer
      with the reported low half. */
  lemma ReclaimedAhead(c: uint32, r: uint16)
    ensures Reclaimed(c, r) == (c + (r - c) % U16 + 2) % U32
  {
    AheadDistance(c, r);
    AddMod(c / U16 * U16 + r + U16, 2, U32);
  }

  lemma AheadDistance(c: uint32, r: uint16)
    ensures (r - c) % U16 == r - c % U16 + if r < c % U16 then U16 else 0
  {
    var high, low := c / U16, c % U16;
    if r < low {
      ModUnique(r - c, U16, -high - 1, r - low + U16);
    } else {
      ModUnique(r - c, U16, -high, r - low);
    }
  }

  /** Seen from the low halves, the distance to the completed request is the distance
      modulo 2^16. */
  lemma LowDistance(cons: nat, done: nat)
    ensures (done % U16 - cons % U32) % U16 == (done - cons) % U16
  {
    AddMod(done, -(cons % U32), U16);
    NestMod(cons, U32, U16, U16);
    EqualMod(cons, cons % U32, U16);
    EqualMod(done - cons % U32, done - cons, U16);
  }

  /** Moving on by the distance's low half arrives exactly if there is no high half. */
  lemma LowHalfSuffices(cons: nat, d: nat)
    ensures (cons + d % U16 + 2) % U32 == (cons + d + 2) % U32 <==> d % U32 < U16
  {
    var g := d % U16;
    EqualMod(cons + d + 2, cons + g + 2, U32);
    NestMod(d, U32, U16, U16);
    AddMod(d, -g, U32);
    ModUnique(d % U32 - g, U32, 0, d % U32 - g);
  }

  /** The reconstruction is right exactly when the completed request lies less than
      2^16 blocks ahead of the consumer (modulo the 32-bit counter). */
  lemma ReclaimIsExact(cons: nat, done: nat)
    requires cons <= done
    ensures Reclaimed(cons % U32, done % U16) == (done + 2) % U32 <==> (done - cons) % U32 < U16
  {
    ReclaimedAhead(cons % U32, done % U16);
    LowDistance(cons, done);
    AddMod(cons, (done - cons) % U16 + 2, U32);
    LowHalfSuffices(cons, done - cons);
  }

  /** In flight are at most 4096 frames, so the reconstruction is always right: the
      consumer index moves just past frame number `k`. */
  lemma ReclaimStep(freed: nat, k: nat)
    requires freed <= k < freed + SQ_FRAMES
    ensures Reclaimed(Blocks32(freed), Blocks16(k)) == Blocks32(k + 1)
  {
    ReclaimIsExact(2 * freed, 2 * k);
    ModUnique(2 * k - 2 * freed, U32, 0, 2 * k - 2 * freed);
  }
}
