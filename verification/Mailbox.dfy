/** Command mailboxes: a byte string scattered over a linked chain of signed 576-byte
    blocks, one per page of a 1 MiB region, and gathered back. */
module Mailbox {
  import opened Words
  import opened Modular
  import opened Optional

  const BLOCK_SIZE := 512
  const PROT_BLOCK_SIZE := 576
  const STRIDE := 4096
  const MBOX_SIZE := 1048576
  const MAX_BLOCKS := 256

  // ----- signatures -----

  function Xor(s: bytes): bv8 {
    if |s| == 0 then 0 else Xor(s[..|s| - 1]) ^ (s[|s| - 1] as bv8)
  }

  function Complement(x: bv8): byte { (!x) as int as byte }

  lemma ComplementBack(x: bv8)
    ensures (Complement(x) as bv8) == !x
  {}

  lemma ComplementCloses(x: bv8)
    ensures x ^ (Complement(x) as bv8) == 0xff
  {
    hide Complement;
    ComplementBack(x);
  }

  lemma {:induction false} XorAppend(a: bytes, b: bytes)
    ensures Xor(a + b) == Xor(a) ^ Xor(b)
  {
    if b == [] {
      assert a + b == a;
    } else {
      assert (a + b)[..|a + b| - 1] == a + b[..|b| - 1];
      XorAppend(a, b[..|b| - 1]);
    }
  }

  lemma XorSnoc(s: bytes, b: byte)
    ensures Xor(s + [b]) == Xor(s) ^ (b as bv8)
  {
    assert (s + [b])[..|s|] == s;
  }

  /** xor8 over a stretch of an array. */
  method Xor8(a: array<byte>, off: nat, len: nat) returns (x: bv8)
    requires off + len <= a.Length
    ensures x == Xor(a[off..off + len])
  {
    x := 0;
    for i := 0 to len
      invariant x == Xor(a[off..off + i])
    {
      x := x ^ (a[off + i] as bv8);
      XorSnoc(a[off..off + i], a[off + i]);
      assert a[off..off + i + 1] == a[off..off + i] + [a[off + i]];
    }
  }

  // ----- one block -----

  type RawBlock = b: bytes | |b| == PROT_BLOCK_SIZE witness Repeat(PROT_BLOCK_SIZE, 0)

  /** The control part up to its signature: next pointer, block number and token. */
  function Control(next: uint64, num: uint32, token: byte): (c: bytes)
    ensures |c| == 62
  {
    Repeat(48, 0) + Be64(next) + Be32(num) + [0] + [token]
  }

  /** Appends the control signature and the block signature. */
  function Sign(data: bytes, control: bytes): bytes {
    var c := data + control + [Complement(Xor(control))];
    c + [Complement(Xor(c))]
  }

  function Block(data: bytes, next: uint64, num: uint32, token: byte): RawBlock
    requires |data| == BLOCK_SIZE
  {
    Sign(data, Control(next, num, token))
  }

  /** Both signatures close: the control part through its signature byte, and the whole
      block, XOR to 0xff. */
  lemma BlockIsSigned(data: bytes, next: uint64, num: uint32, token: byte)
    requires |data| == BLOCK_SIZE
    ensures var b := Block(data, next, num, token);
      Xor(b[BLOCK_SIZE..PROT_BLOCK_SIZE - 1]) == 0xff && Xor(b) == 0xff
  {
    var control := Control(next, num, token);
    var b := Block(data, next, num, token);
    var c := data + control + [Complement(Xor(control))];
    assert b[BLOCK_SIZE..PROT_BLOCK_SIZE - 1] == control + [Complement(Xor(control))];
    XorSnoc(control, Complement(Xor(control)));
    ComplementCloses(Xor(control));
    XorSnoc(c, Complement(Xor(c)));
    ComplementCloses(Xor(c));
  }

  /** What a reader finds in a block. */
  lemma BlockFields(data: bytes, next: uint64, num: uint32, token: byte)
    requires |data| == BLOCK_SIZE
    ensures var b := Block(data, next, num, token);
      && b[..BLOCK_SIZE] == data
      && GetBe64(b, BLOCK_SIZE + 48) == next
      && GetBe32(b, BLOCK_SIZE + 56) == num
      && b[BLOCK_SIZE + 61] == token
  {
    hide Be64, Be32, GetBe64, GetBe32;
    var b := Block(data, next, num, token);
    assert b[BLOCK_SIZE + 48..BLOCK_SIZE + 56] == Be64(next);
    GetPut64(b, BLOCK_SIZE + 48, next);
    assert b[BLOCK_SIZE + 56..BLOCK_SIZE + 60] == Be32(num);
    GetPut32(b, BLOCK_SIZE + 56, num);
  }

  // ----- the chain -----

  function NumBlocks(extra: nat): nat { (extra + BLOCK_SIZE - 1) / BLOCK_SIZE }

  /** Length of the `i`-th piece of `extra` bytes. */
  function PieceLen(extra: nat, i: nat): (n: nat)
    requires i < NumBlocks(extra)
    ensures 0 < n <= BLOCK_SIZE && i * BLOCK_SIZE + n <= extra
  {
    if extra - i * BLOCK_SIZE > BLOCK_SIZE then BLOCK_SIZE else extra - i * BLOCK_SIZE
  }

  /** The `i`-th piece of `src`, padded with zeros to a block. */
  function Piece(src: bytes, i: nat): (p: bytes)
    requires i < NumBlocks(|src|)
    ensures |p| == BLOCK_SIZE
  {
    var n := PieceLen(|src|, i);
    src[i * BLOCK_SIZE..i * BLOCK_SIZE + n] + Repeat(BLOCK_SIZE - n, 0)
  }

  function NextPointer(base: nat, n: nat, i: nat): nat {
    if i + 1 < n then base + (i + 1) * STRIDE else 0
  }

  function BlockAt(mbox: bytes, i: nat): RawBlock
    requires |mbox| == MBOX_SIZE && i < MAX_BLOCKS
  {
    mbox[i * STRIDE..i * STRIDE + PROT_BLOCK_SIZE]
  }

  /** Block `i` of the chain that carries `src`. */
  function ChainBlock(base: nat, src: bytes, token: byte, i: nat): RawBlock
    requires i < NumBlocks(|src|) <= MAX_BLOCKS && base + MBOX_SIZE < U64
  {
    Block(Piece(src, i), NextPointer(base, NumBlocks(|src|), i), i, token)
  }

  /** `mbox` holds the first `n` blocks of the chain that carries `src`. */
  ghost predicate HoldsChain(mbox: bytes, base: nat, src: bytes, token: byte, n: nat) {
    && |mbox| == MBOX_SIZE && base + MBOX_SIZE < U64
    && n <= NumBlocks(|src|) <= MAX_BLOCKS
    && (forall i :: 0 <= i < n ==> BlockAt(mbox, i) == ChainBlock(base, src, token, i))
  }

  /** What a reader visits that starts at address `addr` and follows the next pointers
      until it meets 0.  None: an address outside the region, or more than `limit`
      blocks. */
  function Walk(mbox: bytes, base: nat, addr: nat, limit: nat): Option<seq<RawBlock>>
    requires |mbox| == MBOX_SIZE
    decreases limit
  {
    if limit == 0 || addr < base || (addr - base) % STRIDE != 0 || (addr - base) / STRIDE >= MAX_BLOCKS then None
    else
      var b := BlockAt(mbox, (addr - base) / STRIDE);
      var next := GetBe64(b, BLOCK_SIZE + 48);
      if next == 0 then Some([b])
      else
        match Walk(mbox, base, next, limit - 1)
        case None => None
        case Some(rest) => Some([b] + rest)
  }

  /** The blocks of the chain from the `i`-th on. */
  function ChainFrom(base: nat, src: bytes, token: byte, i: nat): (bs: seq<RawBlock>)
    requires i <= NumBlocks(|src|) <= MAX_BLOCKS && base + MBOX_SIZE < U64
    ensures |bs| == NumBlocks(|src|) - i
    decreases NumBlocks(|src|) - i
  {
    if i == NumBlocks(|src|) then [] else [ChainBlock(base, src, token, i)] + ChainFrom(base, src, token, i + 1)
  }

  /** Walking a chain from its `i`-th block on visits exactly the remaining blocks, in
      order, and stops. */
  lemma {:induction false} WalkVisits(mbox: bytes, base: nat, src: bytes, token: byte, i: nat)
    requires base > 0 && HoldsChain(mbox, base, src, token, NumBlocks(|src|))
    requires i < NumBlocks(|src|)
    ensures Walk(mbox, base, base + i * STRIDE, MAX_BLOCKS - i) == Some(ChainFrom(base, src, token, i))
    decreases NumBlocks(|src|) - i
  {
    hide Block, GetBe64, GetBe32;
    var n := NumBlocks(|src|);
    assert BlockAt(mbox, i) == ChainBlock(base, src, token, i);
    BlockFields(Piece(src, i), NextPointer(base, n, i), i, token);
    ModUnique(i * STRIDE, STRIDE, i, 0);
    if i + 1 < n {
      WalkVisits(mbox, base, src, token, i + 1);
    } else {
      assert ChainFrom(base, src, token, i + 1) == [];
      assert ChainFrom(base, src, token, i) == [ChainBlock(base, src, token, i)];
    }
  }

  /** The payload a reader collects: the data parts of the blocks, cut to length. */
  function Collect(blocks: seq<RawBlock>, extra: nat): bytes {
    if blocks == [] || extra == 0 then []
    else
      var n := if extra < BLOCK_SIZE then extra else BLOCK_SIZE;
      blocks[0][..n] + Collect(blocks[1..], extra - n)
  }

  lemma CollectCons(b: RawBlock, rest: seq<RawBlock>, extra: nat)
    requires extra > 0
    ensures var n := if extra < BLOCK_SIZE then extra else BLOCK_SIZE;
      Collect([b] + rest, extra) == b[..n] + Collect(rest, extra - n)
  {
    assert ([b] + rest)[1..] == rest;
  }

  /** Where the pieces from the `i`-th on start. */
  function PieceStart(extra: nat, i: nat): (k: nat)
    ensures k <= extra
  {
    if i * BLOCK_SIZE < extra then i * BLOCK_SIZE else extra
  }

  /** Collecting the chain from its `i`-th block on gives the rest of the source. */
  lemma {:induction false} CollectChain(base: nat, src: bytes, token: byte, i: nat)
    requires i <= NumBlocks(|src|) <= MAX_BLOCKS && base + MBOX_SIZE < U64
    ensures Collect(ChainFrom(base, src, token, i), |src| - PieceStart(|src|, i)) == src[PieceStart(|src|, i)..]
    decreases NumBlocks(|src|) - i
  {
    hide Block, Piece, Collect;
    if i < NumBlocks(|src|) {
      var len := PieceLen(|src|, i);
      var b := ChainBlock(base, src, token, i);
      assert b[..len] == src[i * BLOCK_SIZE..i * BLOCK_SIZE + len] by {
        PieceStarts(src, i);
        BlockFields(Piece(src, i), NextPointer(base, NumBlocks(|src|), i), i, token);
        assert b[..len] == b[..BLOCK_SIZE][..len];
      }
      CollectCons(b, ChainFrom(base, src, token, i + 1), |src| - i * BLOCK_SIZE);
      CollectChain(base, src, token, i + 1);
      assert src[i * BLOCK_SIZE..] == src[i * BLOCK_SIZE..i * BLOCK_SIZE + len] + src[i * BLOCK_SIZE + len..];
    } else {
      CollectNone(|src| - PieceStart(|src|, i));
    }
  }

  lemma CollectNone(extra: nat)
    ensures Collect([], extra) == []
  {}

  lemma PieceStarts(src: bytes, i: nat)
    requires i < NumBlocks(|src|)
    ensures Piece(src, i)[..PieceLen(|src|, i)] == src[i * BLOCK_SIZE..i * BLOCK_SIZE + PieceLen(|src|, i)]
  {}

  // ----- building and reading a chain in place -----

  lemma BlockWritten(next: uint64, num: uint32, token: byte, piece: bytes)
    requires |piece| <= BLOCK_SIZE
    ensures Splice(Splice(Splice(Splice(Repeat(PROT_BLOCK_SIZE, 0), BLOCK_SIZE + 48, Be64(next)),
                          BLOCK_SIZE + 56, Be32(num)), BLOCK_SIZE + 61, [token]), 0, piece)
         == piece + Repeat(BLOCK_SIZE - |piece|, 0) + Control(next, num, token) + [0, 0]
  {
    hide Be64, Be32;
    var z := Repeat(BLOCK_SIZE + 48, 0);
    var a := Splice(Repeat(PROT_BLOCK_SIZE, 0), BLOCK_SIZE + 48, Be64(next));
    assert a == z + Be64(next) + Repeat(8, 0);
    var b := Splice(a, BLOCK_SIZE + 56, Be32(num));
    assert b == z + Be64(next) + Be32(num) + Repeat(4, 0);
    var c := Splice(b, BLOCK_SIZE + 61, [token]);
    assert c == z + Be64(next) + Be32(num) + [0] + [token] + [0, 0];
    assert c == Repeat(BLOCK_SIZE, 0) + Control(next, num, token) + [0, 0];
  }

  /** Clears a block and fills in pointer, number and token, then the data. */
  method SetupBlock(mbox: array<byte>, off: nat, next: uint64, num: uint32, token: byte, piece: bytes)
    requires off + PROT_BLOCK_SIZE <= mbox.Length && |piece| <= BLOCK_SIZE
    modifies mbox
    ensures mbox[..] == Splice(old(mbox[..]), off,
                               piece + Repeat(BLOCK_SIZE - |piece|, 0) + Control(next, num, token) + [0, 0])
  {
    hide Splice, Be64, Be32, Control;
    ghost var r, s := mbox[..], Repeat(PROT_BLOCK_SIZE, 0);
    Fill(mbox, off, PROT_BLOCK_SIZE, 0);
    CopyInto(mbox, off, BLOCK_SIZE + 48, Be64(next), r, s);
    s := Splice(s, BLOCK_SIZE + 48, Be64(next));
    CopyInto(mbox, off, BLOCK_SIZE + 56, Be32(num), r, s);
    s := Splice(s, BLOCK_SIZE + 56, Be32(num));
    CopyInto(mbox, off, BLOCK_SIZE + 61, [token], r, s);
    s := Splice(s, BLOCK_SIZE + 61, [token]);
    CopyInto(mbox, off, 0, piece, r, s);
    BlockWritten(next, num, token, piece);
  }

  /** Computes both signatures over the block as it stands in memory. */
  method SignBlock(mbox: array<byte>, off: nat, ghost r: bytes, ghost data: bytes, ghost control: bytes)
    requires |data| == BLOCK_SIZE && |control| == 62 && off + PROT_BLOCK_SIZE <= mbox.Length == |r|
    requires mbox[..] == Splice(r, off, data + control + [0, 0])
    modifies mbox
    ensures mbox[..] == Splice(r, off, Sign(data, control))
  {
    ghost var u := data + control + [0, 0];
    var x := Xor8(mbox, off + BLOCK_SIZE, PROT_BLOCK_SIZE - BLOCK_SIZE - 2);
    assert mbox[off + BLOCK_SIZE..off + PROT_BLOCK_SIZE - 2] == control by {
      SignedPart(r, off, u, BLOCK_SIZE, PROT_BLOCK_SIZE - 2);
    }
    CopyInto(mbox, off, PROT_BLOCK_SIZE - 2, [Complement(x)], r, u);
    u := Splice(u, PROT_BLOCK_SIZE - 2, [Complement(x)]);
    assert u == data + control + [Complement(Xor(control))] + [0];
    var y := Xor8(mbox, off, PROT_BLOCK_SIZE - 1);
    assert mbox[off..off + PROT_BLOCK_SIZE - 1] == data + control + [Complement(Xor(control))] by {
      SignedPart(r, off, u, 0, PROT_BLOCK_SIZE - 1);
    }
    CopyInto(mbox, off, PROT_BLOCK_SIZE - 1, [Complement(y)], r, u);
    assert Splice(u, PROT_BLOCK_SIZE - 1, [Complement(y)]) == Sign(data, control);
  }

  lemma SignedPart(r: bytes, off: nat, u: bytes, lo: nat, hi: nat)
    requires off + |u| <= |r| && lo <= hi <= |u|
    ensures Splice(r, off, u)[off + lo..off + hi] == u[lo..hi]
  {}

  lemma WriteBlock(mbox: bytes, i: nat, b: RawBlock, k: nat)
    requires |mbox| == MBOX_SIZE && i < MAX_BLOCKS && k < MAX_BLOCKS
    ensures BlockAt(Splice(mbox, i * STRIDE, b), k) == if k == i then b else BlockAt(mbox, k)
  {
    if k == i {
      SpliceInside(mbox, i * STRIDE, b);
    } else {
      SpliceOutside(mbox, i * STRIDE, b, k * STRIDE, k * STRIDE + PROT_BLOCK_SIZE);
    }
  }

  lemma ExtendChain(mbox: bytes, base: nat, src: bytes, token: byte, i: nat)
    requires HoldsChain(mbox, base, src, token, i) && i < NumBlocks(|src|)
    ensures HoldsChain(Splice(mbox, i * STRIDE, ChainBlock(base, src, token, i)), base, src, token, i + 1)
  {
    hide ChainBlock, Splice;
    forall k | 0 <= k < i + 1
      ensures BlockAt(Splice(mbox, i * STRIDE, ChainBlock(base, src, token, i)), k) == ChainBlock(base, src, token, k)
    {
      WriteBlock(mbox, i, ChainBlock(base, src, token, i), k);
    }
  }

  /** Scatters `src` over a chain at the start of `mbox`; without data to copy the
      blocks stay clear, as if `src` were all zeros.  Refuses what needs more than 256
      blocks. */
  method SetupChain(mbox: array<byte>, base: nat, src: bytes, copyData: bool, token: byte) returns (ok: bool)
    requires mbox.Length == MBOX_SIZE && base + MBOX_SIZE < U64
    requires !copyData ==> src == Repeat(|src|, 0)
    modifies mbox
    ensures ok <==> NumBlocks(|src|) <= MAX_BLOCKS
    ensures ok ==> HoldsChain(mbox[..], base, src, token, NumBlocks(|src|))
    ensures ok ==> forall k :: NumBlocks(|src|) <= k < MAX_BLOCKS ==> BlockAt(mbox[..], k) == BlockAt(old(mbox[..]), k)
    ensures !ok ==> mbox[..] == old(mbox[..])
  {
    hide Splice, Control;
    var n := NumBlocks(|src|);
    if n * STRIDE > MBOX_SIZE {
      return false;
    }
    for i := 0 to n
      invariant HoldsChain(mbox[..], base, src, token, i)
      invariant forall k :: i <= k < MAX_BLOCKS ==> BlockAt(mbox[..], k) == BlockAt(old(mbox[..]), k)
    {
      var off := i * STRIDE;
      var copy := PieceLen(|src|, i);
      var next := NextPointer(base, n, i);
      ghost var r := mbox[..];
      var piece := if copyData then src[i * BLOCK_SIZE..i * BLOCK_SIZE + copy] else [];
      SetupBlock(mbox, off, next, i, token, piece);
      assert piece + Repeat(BLOCK_SIZE - |piece|, 0) == Piece(src, i);
      SignBlock(mbox, off, r, Piece(src, i), Control(next, i, token));
      ExtendChain(r, base, src, token, i);
      forall k | i < k < MAX_BLOCKS ensures BlockAt(mbox[..], k) == BlockAt(r, k) {
        WriteBlock(r, i, ChainBlock(base, src, token, i), k);
      }
    }
    ok := true;
  }

  /** Byte `k` of the payload of a chain laid out with one block per stride. */
  function PayloadAt(mbox: bytes, k: nat): byte
    requires |mbox| == MBOX_SIZE && k < MAX_BLOCKS * BLOCK_SIZE
  {
    mbox[k / BLOCK_SIZE * STRIDE + k % BLOCK_SIZE]
  }

  /** Gathers the payload of a chain block by block, without following pointers. */
  method CopyFromChain(dst: array<byte>, at: nat, extra: nat, mbox: array<byte>)
    requires mbox.Length == MBOX_SIZE && dst != mbox
    requires at + extra <= dst.Length && NumBlocks(extra) <= MAX_BLOCKS
    modifies dst
    ensures forall k :: 0 <= k < extra ==> dst[at + k] == PayloadAt(mbox[..], k)
    ensures forall k :: 0 <= k < at ==> dst[k] == old(dst[k])
  {
    hide PayloadAt, Splice;
    for i := 0 to NumBlocks(extra)
      invariant Copied(dst[..], at, mbox[..], PieceStart(extra, i))
      invariant dst[..at] == old(dst[..at])
    {
      ghost var before := dst[..];
      var piece := mbox[i * STRIDE..i * STRIDE + PieceLen(extra, i)];
      CopyMore(before, at, extra, mbox[..], i);
      SpliceOutside(before, at + i * BLOCK_SIZE, piece, 0, at);
      Copy(dst, at + i * BLOCK_SIZE, piece);
      assert dst[..at] == dst[..][0..at] == before[0..at];
    }
    assert forall k :: 0 <= k < at ==> dst[k] == dst[..at][k];
  }

  /** `dst` holds the first `n` bytes of the payload from `at` on. */
  ghost predicate Copied(dst: bytes, at: nat, mbox: bytes, n: nat) {
    && |mbox| == MBOX_SIZE && n <= MAX_BLOCKS * BLOCK_SIZE && at + n <= |dst|
    && (forall k :: 0 <= k < n ==> dst[at + k] == PayloadAt(mbox, k))
  }

  lemma CopyMore(dst: bytes, at: nat, extra: nat, mbox: bytes, i: nat)
    requires i < NumBlocks(extra) <= MAX_BLOCKS && at + extra <= |dst|
    requires Copied(dst, at, mbox, PieceStart(extra, i))
    ensures Copied(Splice(dst, at + i * BLOCK_SIZE, mbox[i * STRIDE..i * STRIDE + PieceLen(extra, i)]), at, mbox,
                   PieceStart(extra, i + 1))
  {
    var off, piece := i * BLOCK_SIZE, mbox[i * STRIDE..i * STRIDE + PieceLen(extra, i)];
    var dst' := Splice(dst, at + off, piece);
    forall k | 0 <= k < PieceStart(extra, i + 1) ensures dst'[at + k] == PayloadAt(mbox, k) {
      if k >= off {
        ModUnique(k, BLOCK_SIZE, i, k - off);
      }
    }
  }

  /** On a chain that carries `src`, gathering gives `src` back. */
  lemma GatherChain(mbox: bytes, base: nat, src: bytes, token: byte, k: nat)
    requires HoldsChain(mbox, base, src, token, NumBlocks(|src|)) && k < |src|
    ensures k < MAX_BLOCKS * BLOCK_SIZE && PayloadAt(mbox, k) == src[k]
  {
    hide Block;
    var i := k / BLOCK_SIZE;
    assert BlockAt(mbox, i) == ChainBlock(base, src, token, i);
    BlockFields(Piece(src, i), NextPointer(base, NumBlocks(|src|), i), i, token);
    assert PayloadAt(mbox, k) == BlockAt(mbox, i)[k % BLOCK_SIZE] == BlockAt(mbox, i)[..BLOCK_SIZE][k % BLOCK_SIZE];
  }
}
