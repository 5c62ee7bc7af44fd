/** Machine words, big-endian byte layouts and in-place byte copies. */
module Words {
  const U16 := 0x1_0000
  const U24 := 0x100_0000
  const U32 := 0x1_0000_0000
  const U64 := 0x1_0000_0000_0000_0000

  newtype byte = x: int | 0 <= x < 256
  type uint16 = x: int | 0 <= x < U16
  type uint32 = x: int | 0 <= x < U32
  type uint64 = x: int | 0 <= x < U64

  type bytes = seq<byte>

  function Be16(v: uint16): (s: bytes)
    ensures |s| == 2
  {
    [(v / 256) as byte, (v % 256) as byte]
  }

  function Be32(v: uint32): (s: bytes)
    ensures |s| == 4
  {
    Be16(v / U16) + Be16(v % U16)
  }

  function Be64(v: uint64): (s: bytes)
    ensures |s| == 8
  {
    Be32(v / U32) + Be32(v % U32)
  }

  function GetBe16(s: bytes, off: nat): uint16
    requires off + 2 <= |s|
  {
    s[off] as int * 256 + s[off + 1] as int
  }

  function GetBe32(s: bytes, off: nat): uint32
    requires off + 4 <= |s|
  {
    GetBe16(s, off) * U16 + GetBe16(s, off + 2)
  }

  function GetBe64(s: bytes, off: nat): uint64
    requires off + 8 <= |s|
  {
    GetBe32(s, off) * U32 + GetBe32(s, off + 4)
  }

  /** `s` carries the bytes `t` at offset `off`. */
  ghost predicate Carries<T>(s: seq<T>, off: nat, t: seq<T>) {
    off + |t| <= |s| && s[off..off + |t|] == t
  }

  lemma GetPut16(s: bytes, off: nat, v: uint16)
    requires Carries(s, off, Be16(v))
    ensures GetBe16(s, off) == v
  {
    assert s[off] == s[off..off + 2][0] && s[off + 1] == s[off..off + 2][1];
  }

  lemma GetPut32(s: bytes, off: nat, v: uint32)
    requires Carries(s, off, Be32(v))
    ensures GetBe32(s, off) == v
  {
    assert s[off..off + 2] == s[off..off + 4][..2];
    assert s[off + 2..off + 4] == s[off..off + 4][2..];
    GetPut16(s, off, v / U16);
    GetPut16(s, off + 2, v % U16);
  }

  lemma GetPut64(s: bytes, off: nat, v: uint64)
    requires Carries(s, off, Be64(v))
    ensures GetBe64(s, off) == v
  {
    assert s[off..off + 4] == s[off..off + 8][..4];
    assert s[off + 4..off + 8] == s[off..off + 8][4..];
    GetPut32(s, off, v / U32);
    GetPut32(s, off + 4, v % U32);
  }

  lemma PutGet16(s: bytes, off: nat)
    requires off + 2 <= |s|
    ensures Be16(GetBe16(s, off)) == s[off..off + 2]
  {}

  lemma PutGet32(s: bytes, off: nat)
    requires off + 4 <= |s|
    ensures Be32(GetBe32(s, off)) == s[off..off + 4]
  {
    PutGet16(s, off);
    PutGet16(s, off + 2);
    assert s[off..off + 4] == s[off..off + 2] + s[off + 2..off + 4];
  }

  lemma PutGet64(s: bytes, off: nat)
    requires off + 8 <= |s|
    ensures Be64(GetBe64(s, off)) == s[off..off + 8]
  {
    hide Be32, GetBe32;
    PutGet32(s, off);
    PutGet32(s, off + 4);
    assert s[off..off + 8] == s[off..off + 4] + s[off + 4..off + 8];
  }

  /** `s` with the elements from `off` on replaced by `t`. */
  function Splice<T>(s: seq<T>, off: nat, t: seq<T>): (r: seq<T>)
    requires off + |t| <= |s|
    ensures |r| == |s|
  {
    s[..off] + t + s[off + |t|..]
  }

  lemma SpliceInside<T>(s: seq<T>, off: nat, t: seq<T>)
    requires off + |t| <= |s|
    ensures Carries(Splice(s, off, t), off, t)
  {}

  lemma SpliceOutside<T>(s: seq<T>, off: nat, t: seq<T>, lo: nat, hi: nat)
    requires off + |t| <= |s|
    requires lo <= hi <= |s|
    requires hi <= off || off + |t| <= lo
    ensures Splice(s, off, t)[lo..hi] == s[lo..hi]
  {}

  /** Overwriting one of equally sized cells leaves the others alone. */
  lemma SpliceCell<T>(s: seq<T>, size: nat, t: nat, cell: seq<T>, k: nat)
    requires |cell| == size && t * size + size <= |s| && k * size + size <= |s|
    ensures Splice(s, t * size, cell)[k * size..k * size + size]
         == if k == t then cell else s[k * size..k * size + size]
  {
    if k == t {
      SpliceInside(s, t * size, cell);
    } else {
      CellsApart(k, t, size);
      SpliceOutside(s, t * size, cell, k * size, k * size + size);
    }
  }

  lemma CellsApart(k: nat, t: nat, size: nat)
    requires k != t
    ensures k * size + size <= t * size || t * size + size <= k * size
  {
    if k < t {
      CellsOrdered(k, t, size);
    } else {
      CellsOrdered(t, k, size);
    }
  }

  lemma {:induction false} CellsOrdered(k: nat, t: nat, size: nat)
    requires k < t
    ensures k * size + size <= t * size
    decreases t - k
  {
    var u := t - 1;
    assert t * size == u * size + size;
    if k < u {
      CellsOrdered(k, u, size);
    }
  }

  lemma SpliceWithin<T>(s: seq<T>, off: nat, t: seq<T>, at: nat, u: seq<T>)
    requires off + |t| <= |s| && at + |u| <= |t|
    ensures Splice(Splice(s, off, t), off + at, u) == Splice(s, off, Splice(t, at, u))
  {}

  /** Copies `src` into `dst` at `off`, one byte at a time. */
  method Copy(dst: array<byte>, off: nat, src: bytes)
    requires off + |src| <= dst.Length
    modifies dst
    ensures dst[..] == Splice(old(dst[..]), off, src)
  {
    for i := 0 to |src|
      invariant dst[off..off + i] == src[..i]
      invariant dst[..off] == old(dst[..off])
      invariant dst[off + i..] == old(dst[off + i..])
    {
      dst[off + i] := src[i];
    }
  }

  /** Copies `field` into the piece `part` that `dst` carries at `off`. */
  method CopyInto(dst: array<byte>, off: nat, at: nat, field: bytes, ghost whole: bytes, ghost part: bytes)
    requires off + |part| <= |whole| == dst.Length && at + |field| <= |part|
    requires dst[..] == Splice(whole, off, part)
    modifies dst
    ensures dst[..] == Splice(whole, off, Splice(part, at, field))
  {
    Copy(dst, off + at, field);
    SpliceWithin(whole, off, part, at, field);
  }

  /** Sets `n` bytes of `dst` from `off` on to `v`. */
  method Fill(dst: array<byte>, off: nat, n: nat, v: byte)
    requires off + n <= dst.Length
    modifies dst
    ensures dst[..] == Splice(old(dst[..]), off, Repeat(n, v))
  {
    for i := 0 to n
      invariant dst[off..off + i] == Repeat(i, v)
      invariant dst[..off] == old(dst[..off])
      invariant dst[off + i..] == old(dst[off + i..])
    {
      dst[off + i] := v;
    }
  }

  function Repeat(n: nat, v: byte): (s: bytes)
    ensures |s| == n
  {
    seq(n, _ => v)
  }
}
