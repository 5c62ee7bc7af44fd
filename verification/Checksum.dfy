/** The Internet checksum of an even-length header (section 3.1 of RFC 791, section 1 of
    RFC 1071). */
module Checksum {
  import opened Words
  import opened Modular

  /** Sum of the 16-bit big-endian words. */
  function WordSum(h: bytes): nat
    requires |h| % 2 == 0
  {
    if |h| == 0 then 0 else WordSum(h[..|h| - 2]) + GetBe16(h, |h| - 2)
  }

  /** Adding the carries back in until they are gone. */
  function Fold(x: nat): (y: uint16)
    decreases x
  {
    if x / U16 == 0 then x else Fold(x % U16 + x / U16)
  }

  function ChecksumOf(h: bytes): uint16
    requires |h| % 2 == 0
  {
    U16 - 1 - Fold(WordSum(h))
  }

  /** Folding is the remainder modulo 2^16 - 1, except that only 0 folds to 0. */
  lemma {:induction false} FoldIsRemainder(x: nat)
    ensures Fold(x) % (U16 - 1) == x % (U16 - 1)
    ensures Fold(x) == 0 <==> x == 0
    decreases x
  {
    if x / U16 != 0 {
      var y := x % U16 + x / U16;
      FoldIsRemainder(y);
      ModUnique(x - y, U16 - 1, x / U16, 0);
      EqualMod(x, y, U16 - 1);
    }
  }

  /** A sum completed by the complement of its fold checks: it folds to all ones. */
  lemma FoldCompletes(x: nat)
    ensures Fold(x + (U16 - 1 - Fold(x))) == U16 - 1
  {
    var m := U16 - 1;
    var y := x + (m - Fold(x));
    FoldIsRemainder(x);
    FoldIsRemainder(y);
    EqualMod(x, Fold(x), m);
    AddMod(x - Fold(x), m, m);
    ModUnique(m, m, 1, 0);
    if Fold(y) < m {
      ModUnique(Fold(y), m, 0, Fold(y));
    }
  }

  lemma {:induction false} WordSumAppend(a: bytes, b: bytes)
    requires |a| % 2 == 0 && |b| % 2 == 0
    ensures WordSum(a + b) == WordSum(a) + WordSum(b)
    decreases |b|
  {
    if |b| == 0 {
      assert a + b == a;
    } else {
      var n := |a + b| - 2;
      assert (a + b)[..n] == a + b[..|b| - 2];
      WordSumAppend(a, b[..|b| - 2]);
      assert GetBe16(a + b, n) == GetBe16(b, |b| - 2);
    }
  }

  lemma WordSumOne(v: uint16)
    ensures WordSum(Be16(v)) == v
  {
    var w := Be16(v);
    assert w[0..2] == w;
    GetPut16(w, 0, v);
    assert w[..0] == [];
  }

  /** Storing the checksum of a header whose checksum field is zero makes the checksum of
      the whole header 0, wherever the field is. */
  lemma ChecksumVerifies(front: bytes, back: bytes)
    requires |front| % 2 == 0 && |back| % 2 == 0
    ensures ChecksumOf(front + Be16(ChecksumOf(front + Be16(0) + back)) + back) == 0
  {
    var h := front + Be16(0) + back;
    var c := ChecksumOf(h);
    WordSumAppend(front + Be16(0), back);
    WordSumAppend(front, Be16(0));
    WordSumAppend(front + Be16(c), back);
    WordSumAppend(front, Be16(c));
    WordSumOne(0);
    WordSumOne(c);
    FoldCompletes(WordSum(h));
  }

  /** Sums and folds as the driver's users do, in 32-bit arithmetic: the sum must fit. */
  method Compute(a: array<byte>, off: nat, len: nat) returns (c: uint16)
    requires off + len <= a.Length && len % 2 == 0 && WordSum(a[off..off + len]) < U32
    ensures c == ChecksumOf(a[off..off + len])
  {
    var sum: nat := 0;
    var i := 0;
    while i < len
      invariant 0 <= i <= len && i % 2 == 0
      invariant sum == WordSum(a[off..off + i])
    {
      assert a[off..off + i + 2][..i] == a[off..off + i];
      assert GetBe16(a[off..off + i + 2], i) == a[off + i] as int * 256 + a[off + i + 1] as int;
      sum := sum + (a[off + i] as int * 256 + a[off + i + 1] as int);
      i := i + 2;
    }
    assert a[off..off + i] == a[off..off + len];
    while sum / U16 != 0
      invariant Fold(sum) == Fold(WordSum(a[off..off + len])) && sum < U32
      decreases sum
    {
      sum := sum % U16 + sum / U16;
    }
    c := U16 - 1 - sum;
  }
}
