/** The full-inline send work request: two 64-byte basic blocks that carry a control
    segment, the frame length and the whole frame. */
module SendWqe {
  import opened Modular
  import opened Words

  const MIN_FRAME := 60
  const MAX_INLINE_FRAME := 98
  const WQE_BYTES := 128
  const OPCODE_SEND := 0x0a
  const CQ_UPDATE: byte := 8

  predicate ValidLength(len: nat) { MIN_FRAME <= len <= MAX_INLINE_FRAME }

  /** Number of 16-byte segments: control (16), Ethernet header (14) and the frame. */
  function Segments(len: nat): nat { (30 + len + 15) / 16 }

  /** Number of 64-byte basic blocks. */
  function BasicBlocks(len: nat): nat { (Segments(len) + 3) / 4 }

  lemma TwoBlocks(len: nat)
    requires ValidLength(len)
    ensures BasicBlocks(len) == 2 && 30 + len <= WQE_BYTES
  {}

  datatype Wqe = Wqe(index: uint16, sqn: uint32, tisn: uint32, frame: bytes, signalled: bool)

  /** Request index and opcode. */
  function Word0(w: Wqe): (s: bytes)
    ensures |s| == 4
  {
    Be32(w.index * 256 + OPCODE_SEND)
  }

  /** Queue number and segment count. */
  function Word1(w: Wqe): (s: bytes)
    requires ValidLength(|w.frame|)
    ensures |s| == 4
  {
    Be32(w.sqn % U24 * 256 + Segments(|w.frame|))
  }

  function Flags(w: Wqe): byte { if w.signalled then CQ_UPDATE else 0 }

  function Word3(w: Wqe): (s: bytes)
    ensures |s| == 4
  {
    Be32(w.tisn % U24)
  }

  function Encode(w: Wqe): (s: bytes)
    requires ValidLength(|w.frame|)
    ensures |s| == WQE_BYTES
  {
    Word0(w) + Word1(w) + Repeat(3, 0) + [Flags(w)] + Word3(w) +
    Repeat(12, 0) + Be16(|w.frame|) + w.frame + Repeat(98 - |w.frame|, 0)
  }

  /** What the device reads back from the bytes of a work request: how many segments it
      has, and a frame only if they cover it. */
  function SegmentsOf(s: bytes): nat
    requires |s| == WQE_BYTES
  {
    s[7] as int % 64
  }

  function FrameOf(s: bytes): bytes
    requires |s| == WQE_BYTES
  {
    var end := 0x1e + GetBe16(s, 0x1c);
    if end <= 16 * SegmentsOf(s) <= WQE_BYTES then s[0x1e..end] else []
  }

  function IndexOf(s: bytes): uint16
    requires |s| == WQE_BYTES
  {
    GetBe32(s, 0) / 256 % U16
  }

  function BlocksOf(s: bytes): nat
    requires |s| == WQE_BYTES
  {
    (SegmentsOf(s) + 3) / 4
  }

  predicate SignalledOf(s: bytes)
    requires |s| == WQE_BYTES
  {
    s[0x0b] / 4 % 4 == 2
  }

  /** It is a send request of queue `sqn` on behalf of the transport object `tisn`. */
  predicate SendsFor(s: bytes, sqn: uint32, tisn: uint32)
    requires |s| == WQE_BYTES
  {
    s[3] == 0x0a && GetBe32(s, 4) / 256 == sqn % U24 && GetBe32(s, 0x0c) == tisn % U24
  }

  lemma Layout(w: Wqe)
    requires ValidLength(|w.frame|)
    ensures var s := Encode(w);
      && s[0..4] == Word0(w) && s[4..8] == Word1(w) && s[0x0b] == Flags(w) && s[0x0c..0x10] == Word3(w)
      && s[0x1c..0x1e] == Be16(|w.frame|)
      && s[0x1e..0x1e + |w.frame|] == w.frame
  {
    hide Be16, Word0, Word1, Word3, Flags;
  }

  /** The device recovers exactly what the driver encoded: a send request for queue and
      transport object, as long as just covers the frame. */
  lemma DecodeEncode(w: Wqe)
    requires ValidLength(|w.frame|)
    ensures var s := Encode(w);
      && FrameOf(s) == w.frame
      && IndexOf(s) == w.index
      && BlocksOf(s) == 2
      && SignalledOf(s) == w.signalled && s[0x0b] == (if w.signalled then 8 else 0)
      && SendsFor(s, w.sqn, w.tisn)
      && 16 * (SegmentsOf(s) - 1) < 0x1e + |w.frame| <= 16 * SegmentsOf(s)
  {
    hide Be16, Be32, Encode, GetBe16, GetBe32;
    var s := Encode(w);
    Layout(w);
    GetPut32(s, 0, w.index * 256 + OPCODE_SEND);
    LowByte(w.index * 256 + OPCODE_SEND);
    assert s[3] == s[0..4][3];
    GetPut32(s, 0x0c, w.tisn % U24);
    GetPut16(s, 0x1c, |w.frame|);
    var n := Segments(|w.frame|);
    GetPut32(s, 4, w.sqn % U24 * 256 + n);
    LowByte(w.sqn % U24 * 256 + n);
    ModUnique(w.sqn % U24 * 256 + n, 256, w.sqn % U24, n);
    assert s[7] == s[4..8][3];
    TwoBlocks(|w.frame|);
    assert SegmentsOf(s) == n < 64;
  }

  lemma LowByte(v: uint32)
    ensures Be32(v)[3] as int == v % 256
  {}

  /** Writing a field behind a finished prefix of a cleared request. */
  lemma WriteField(prefix: bytes, zeros: nat, gap: nat, field: bytes)
    requires gap + |field| <= zeros
    ensures Splice(prefix + Repeat(zeros, 0), |prefix| + gap, field)
         == prefix + Repeat(gap, 0) + field + Repeat(zeros - gap - |field|, 0)
  {}

  /** One cleared request after the driver's writes of the header fields, in the
      driver's order. */
  function HeaderWritten(a: bytes, b: bytes, c: bytes, d: bytes, l: bytes): (s: bytes)
    requires |a| == |b| == |d| == 4 && |c| == 1 && |l| == 2
    ensures |s| == WQE_BYTES
  {
    Splice(Splice(Splice(Splice(Splice(Repeat(WQE_BYTES, 0), 0, a), 4, b), 0x0b, c), 0x0c, d), 0x1c, l)
  }

  lemma WrittenIsEncode(w: Wqe)
    requires ValidLength(|w.frame|)
    ensures var h := HeaderWritten(Word0(w), Word1(w), [Flags(w)], Word3(w), Be16(|w.frame|));
      Splice(Splice(h, 0x1e, w.frame[..2]), 0x20, w.frame[2..]) == Encode(w)
  {
    var a, b, c, d, l := Word0(w), Word1(w), [Flags(w)], Word3(w), Be16(|w.frame|);
    var head := a + b + Repeat(3, 0) + c + d + Repeat(12, 0) + l;
    HeaderFields(a, b, c, d, l);
    WriteField(head, 98, 0, w.frame[..2]);
    assert head + Repeat(0, 0) + w.frame[..2] == head + w.frame[..2];
    WriteField(head + w.frame[..2], 96, 0, w.frame[2..]);
    assert head + w.frame[..2] + Repeat(0, 0) + w.frame[2..] == head + w.frame;
  }

  lemma HeaderFields(a: bytes, b: bytes, c: bytes, d: bytes, l: bytes)
    requires |a| == |b| == |d| == 4 && |c| == 1 && |l| == 2
    ensures HeaderWritten(a, b, c, d, l) == a + b + Repeat(3, 0) + c + d + Repeat(12, 0) + l + Repeat(98, 0)
  {
    var none: bytes := [];
    assert none + Repeat(128, 0) == Repeat(128, 0);
    WriteField(none, 128, 0, a);
    assert none + Repeat(0, 0) + a == a;
    WriteField(a, 124, 0, b);
    assert a + Repeat(0, 0) + b == a + b;
    WriteField(a + b, 120, 3, c);
    WriteField(a + b + Repeat(3, 0) + c, 116, 0, d);
    assert a + b + Repeat(3, 0) + c + Repeat(0, 0) + d == a + b + Repeat(3, 0) + c + d;
    WriteField(a + b + Repeat(3, 0) + c + d, 112, 12, l);
  }
}
