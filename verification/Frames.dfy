/** Benchmark frames: the full builder, the template builder that must agree with it, the
    parser, and the frame rewrite of the echo program. */
module Frames {
  import opened Words
  import opened Checksum

  const CAPACITY := 98
  const MAGIC := 0x4d4c5842
  const HEADER_LEN := 24
  const IPV4 := 0x0800

  type Mac = s: bytes | |s| == 6 witness Repeat(6, 0)

  datatype Options = Options(dst: Mac, src: Mac, ethertype: uint16, payload: bytes, rssUdp: bool)

  /** The varying part of a frame. */
  datatype Stamp = Stamp(seqno: uint32, sendNs: uint64, flags: uint16)

  datatype Parsed = Rejected | Parsed(stamp: Stamp)

  function HeaderOffset(o: Options): nat { if o.rssUdp then 42 else 14 }

  function FrameLength(o: Options): nat {
    var len := HeaderOffset(o) + HEADER_LEN + |o.payload|;
    if len < 60 then 60 else len
  }

  predicate Buildable(o: Options) {
    FrameLength(o) <= CAPACITY && (o.rssUdp ==> o.ethertype == IPV4)
  }

  function MacHeader(o: Options): (s: bytes)
    ensures |s| == 14
  {
    o.dst + o.src + Be16(o.ethertype)
  }

  function IpFront(len: nat, id: uint16): (s: bytes)
    requires 34 <= len <= CAPACITY
    ensures |s| == 10
  {
    [0x45, 0] + Be16(len - 14) + Be16(id) + Be16(0x4000) + [64, 17]
  }

  function IpBack(): (s: bytes)
    ensures |s| == 8
  {
    [192, 0, 2, 6, 192, 0, 2, 5]
  }

  function IpHeader(len: nat, id: uint16, sum: uint16): (s: bytes)
    requires 34 <= len <= CAPACITY
    ensures |s| == 20
  {
    IpFront(len, id) + Be16(sum) + IpBack()
  }

  function SummedIp(len: nat, id: uint16): (s: bytes)
    requires 34 <= len <= CAPACITY
    ensures |s| == 20
  {
    IpHeader(len, id, ChecksumOf(IpHeader(len, id, 0)))
  }

  function UdpHeader(len: nat, seqno: uint32): (s: bytes)
    requires 34 <= len <= CAPACITY
    ensures |s| == 8
  {
    Be16(10000 + seqno % 50000) + Be16(20000) + Be16(len - 34) + [0, 0]
  }

  function BenchHeader(st: Stamp, payloadLen: uint32): (s: bytes)
    ensures |s| == HEADER_LEN
  {
    Be32(MAGIC) + Be16(1) + Be16(st.flags) + Be32(st.seqno) + Be64(st.sendNs) + Be32(payloadLen)
  }

  function Prefix(o: Options, seqno: uint32): (s: bytes)
    requires Buildable(o)
    ensures |s| == HeaderOffset(o)
  {
    if o.rssUdp
    then MacHeader(o) + SummedIp(FrameLength(o), seqno % U16) + UdpHeader(FrameLength(o), seqno)
    else MacHeader(o)
  }

  function Padding(o: Options): (s: bytes)
    requires Buildable(o)
  {
    Repeat(FrameLength(o) - HeaderOffset(o) - HEADER_LEN - |o.payload|, 0)
  }

  function FrameBytes(o: Options, st: Stamp): (s: bytes)
    requires Buildable(o)
    ensures |s| == FrameLength(o)
  {
    Prefix(o, st.seqno) + BenchHeader(st, |o.payload|) + o.payload + Padding(o)
  }

  // ---- building -----------------------------------------------------------------------

  lemma {:induction false} WordSumBound(h: bytes)
    requires |h| % 2 == 0
    ensures WordSum(h) <= |h| * 0x8000
    decreases |h|
  {
    if |h| > 0 {
      WordSumBound(h[..|h| - 2]);
    }
  }

  /** The stored header checksum makes the checksum of the whole header 0. */
  lemma HeaderChecksumVerifies(o: Options, st: Stamp)
    requires Buildable(o) && o.rssUdp
    ensures ChecksumOf(FrameBytes(o, st)[14..34]) == 0
  {
    hide ChecksumOf, IpFront, IpBack, UdpHeader, MacHeader, BenchHeader;
    var len, id := FrameLength(o), st.seqno % U16;
    assert FrameBytes(o, st)[14..34] == SummedIp(len, id);
    ChecksumVerifies(IpFront(len, id), IpBack());
  }

  /** Every field of a built frame, at its place on the wire. */
  lemma FrameFields(o: Options, st: Stamp)
    requires Buildable(o)
    ensures var s, h := FrameBytes(o, st), if o.rssUdp then 42 else 14;
      && 60 <= |s| <= 98 && (|s| == 60 || |s| == h + 24 + |o.payload|)
      && s[0..6] == o.dst && s[6..12] == o.src && GetBe16(s, 12) == o.ethertype
      && GetBe32(s, h) == 0x4d4c5842 && GetBe16(s, h + 4) == 1 && GetBe16(s, h + 6) == st.flags
      && GetBe32(s, h + 8) == st.seqno && GetBe64(s, h + 12) == st.sendNs && GetBe32(s, h + 20) == |o.payload|
      && s[h + 24..h + 24 + |o.payload|] == o.payload
      && (forall k :: h + 24 + |o.payload| <= k < |s| ==> s[k] == 0)
      && (o.rssUdp ==>
            && s[14..16] == [0x45, 0] && GetBe16(s, 16) == |s| - 14 && GetBe16(s, 18) == st.seqno % U16
            && GetBe16(s, 20) == 0x4000 && s[22] == 64 && s[23] == 17
            && s[26..34] == [192, 0, 2, 6, 192, 0, 2, 5]
            && GetBe16(s, 34) == 10000 + st.seqno % 50000 && GetBe16(s, 36) == 20000
            && GetBe16(s, 38) == |s| - 34 && GetBe16(s, 40) == 0)
  {
    hide Prefix, BenchHeader, Be16, Be32, Be64, GetBe16, GetBe32, GetBe64;
    var s, h := FrameBytes(o, st), HeaderOffset(o);
    assert s[..h] == Prefix(o, st.seqno);
    assert s[h..h + 24] == BenchHeader(st, |o.payload|);
    PrefixFields(o, st.seqno, s);
    HeaderLayout(s, h, st, |o.payload|);
  }

  lemma PrefixFields(o: Options, seqno: uint32, s: bytes)
    requires Buildable(o) && |s| == FrameLength(o) && s[..HeaderOffset(o)] == Prefix(o, seqno)
    ensures s[0..6] == o.dst && s[6..12] == o.src && GetBe16(s, 12) == o.ethertype
    ensures o.rssUdp ==>
              && s[14..16] == [0x45, 0] && GetBe16(s, 16) == |s| - 14 && GetBe16(s, 18) == seqno % U16
              && GetBe16(s, 20) == 0x4000 && s[22] == 64 && s[23] == 17
              && s[26..34] == [192, 0, 2, 6, 192, 0, 2, 5]
              && GetBe16(s, 34) == 10000 + seqno % 50000 && GetBe16(s, 36) == 20000
              && GetBe16(s, 38) == |s| - 34 && GetBe16(s, 40) == 0
  {
    hide Be16, GetBe16, ChecksumOf;
    var p := Prefix(o, seqno);
    assert p[..14] == MacHeader(o) && s[..14] == p[..14];
    assert s[0..6] == s[..14][0..6] && s[6..12] == s[..14][6..12] && s[12..14] == s[..14][12..14];
    assert s[12..14] == Be16(o.ethertype);
    GetPut16(s, 12, o.ethertype);
    if o.rssUdp {
      assert p[14..34] == SummedIp(|s|, seqno % U16) && p[34..42] == UdpHeader(|s|, seqno);
      assert s[14..34] == s[..42][14..34] && s[34..42] == s[..42][34..42];
      IpParts(s, |s|, seqno % U16);
      UdpParts(s, |s|, seqno);
    }
  }

  lemma IpParts(s: bytes, len: nat, id: uint16)
    requires 34 <= len <= CAPACITY && |s| >= 34 && s[14..34] == SummedIp(len, id)
    ensures s[14..16] == [0x45, 0] && GetBe16(s, 16) == len - 14 && GetBe16(s, 18) == id
    ensures GetBe16(s, 20) == 0x4000 && s[22] == 64 && s[23] == 17
    ensures s[26..34] == [192, 0, 2, 6, 192, 0, 2, 5]
  {
    hide Be16, GetBe16, ChecksumOf;
    var t := SummedIp(len, id);
    assert t[0..2] == [0x45, 0] && t[12..20] == [192, 0, 2, 6, 192, 0, 2, 5];
    assert t[2..4] == Be16(len - 14) && t[4..6] == Be16(id) && t[6..8] == Be16(0x4000) && t[8..10] == [64, 17];
    CarriesPart(s, 14, t, 0, [0x45, 0]);
    CarriesPart(s, 14, t, 2, Be16(len - 14));
    CarriesPart(s, 14, t, 4, Be16(id));
    CarriesPart(s, 14, t, 6, Be16(0x4000));
    CarriesPart(s, 14, t, 8, [64, 17]);
    CarriesPart(s, 14, t, 12, [192, 0, 2, 6, 192, 0, 2, 5]);
    GetPut16(s, 16, len - 14);
    GetPut16(s, 18, id);
    GetPut16(s, 20, 0x4000);
    assert s[22] == s[22..24][0] && s[23] == s[22..24][1];
  }

  lemma UdpParts(s: bytes, len: nat, seqno: uint32)
    requires 34 <= len <= CAPACITY && |s| >= 42 && s[34..42] == UdpHeader(len, seqno)
    ensures GetBe16(s, 34) == 10000 + seqno % 50000 && GetBe16(s, 36) == 20000
    ensures GetBe16(s, 38) == len - 34 && GetBe16(s, 40) == 0
  {
    hide Be16;
    var t := UdpHeader(len, seqno);
    assert t[0..2] == Be16(10000 + seqno % 50000) && t[2..4] == Be16(20000) && t[4..6] == Be16(len - 34);
    CarriesPart(s, 34, t, 0, Be16(10000 + seqno % 50000));
    CarriesPart(s, 34, t, 2, Be16(20000));
    CarriesPart(s, 34, t, 4, Be16(len - 34));
    GetPut16(s, 34, 10000 + seqno % 50000);
    GetPut16(s, 36, 20000);
    GetPut16(s, 38, len - 34);
    assert s[40] == t[6] && s[41] == t[7];
  }

  /** Where the fields of a benchmark header are. */
  lemma HeaderLayout(s: bytes, h: nat, st: Stamp, n: uint32)
    requires Carries(s, h, BenchHeader(st, n))
    ensures GetBe32(s, h) == 0x4d4c5842 && GetBe16(s, h + 4) == 1 && GetBe16(s, h + 6) == st.flags
    ensures GetBe32(s, h + 8) == st.seqno && GetBe64(s, h + 12) == st.sendNs && GetBe32(s, h + 20) == n
  {
    hide Be16, Be32, Be64, GetBe16, GetBe32, GetBe64, BenchHeader;
    var t := BenchHeader(st, n);
    HeaderParts(st, n);
    CarriesPart(s, h, t, 0, Be32(MAGIC));
    CarriesPart(s, h, t, 4, Be16(1));
    CarriesPart(s, h, t, 6, Be16(st.flags));
    CarriesPart(s, h, t, 8, Be32(st.seqno));
    CarriesPart(s, h, t, 12, Be64(st.sendNs));
    GetPut32(s, h, MAGIC);
    GetPut16(s, h + 4, 1);
    GetPut16(s, h + 6, st.flags);
    GetPut32(s, h + 8, st.seqno);
    GetPut64(s, h + 12, st.sendNs);
    CarriesPart(s, h, t, 20, Be32(n));
    GetPut32(s, h + 20, n);
  }

  lemma HeaderParts(st: Stamp, n: uint32)
    ensures var t := BenchHeader(st, n);
      && Carries(t, 0, Be32(MAGIC)) && Carries(t, 4, Be16(1)) && Carries(t, 6, Be16(st.flags))
      && Carries(t, 8, Be32(st.seqno)) && Carries(t, 12, Be64(st.sendNs))
      && Carries(t, 20, Be32(n))
  {
    hide Be16, Be32, Be64;
  }

  lemma CarriesPart(s: bytes, h: nat, t: bytes, at: nat, u: bytes)
    requires Carries(s, h, t) && Carries(t, at, u)
    ensures Carries(s, h + at, u)
  {
    assert forall i :: 0 <= i < |t| ==> s[h + i] == s[h..h + |t|][i] == t[i];
    assert forall i :: 0 <= i < |u| ==> t[at + i] == t[at..at + |u|][i] == u[i];
  }

  /** Appending to what has been written so far. */
  lemma SpliceAppend(s: bytes, off: nat, a: bytes, b: bytes)
    requires off + |a| + |b| <= |s|
    ensures Splice(Splice(s, off, a), off + |a|, b) == Splice(s, off, a + b)
  {}

  lemma SpliceSame(s: bytes, off: nat, t: bytes)
    requires Carries(s, off, t)
    ensures Splice(s, off, t) == s
  {}

  /** Writing a field behind a finished prefix of a cleared buffer. */
  lemma WriteField(prefix: bytes, zeros: nat, field: bytes)
    requires |field| <= zeros
    ensures Splice(prefix + Repeat(zeros, 0), |prefix|, field) == prefix + field + Repeat(zeros - |field|, 0)
  {}

  /** Replacing one part of a concatenation by another of the same length. */
  lemma Patch(a: bytes, was: bytes, b: bytes, now: bytes)
    requires |was| == |now|
    ensures Splice(a + was + b, |a|, now) == a + now + b
  {}

  method Append(frame: array<byte>, off: nat, at: nat, field: bytes, ghost whole: bytes, ghost done: bytes)
    requires |done| == at && off + at + |field| <= frame.Length == |whole|
    requires frame[..] == Splice(whole, off, done)
    modifies frame
    ensures frame[..] == Splice(whole, off, done + field)
  {
    Copy(frame, off + at, field);
    SpliceAppend(whole, off, done, field);
  }

  method WriteIp(frame: array<byte>, len: nat, id: uint16)
    requires 34 <= len <= CAPACITY <= frame.Length
    requires Carries(frame[..], 14, Repeat(20, 0))
    modifies frame
    ensures frame[..] == Splice(old(frame[..]), 14, SummedIp(len, id))
  {
    hide IpFront, IpBack, IpHeader, ChecksumOf, Splice, Be16, WordSum;
    ghost var whole := frame[..];
    ghost var part := Repeat(20, 0);
    SpliceSame(whole, 14, part);
    CopyInto(frame, 14, 0, [0x45], whole, part);
    part := Splice(part, 0, [0x45]);
    CopyInto(frame, 14, 2, Be16(len - 14), whole, part);
    part := Splice(part, 2, Be16(len - 14));
    CopyInto(frame, 14, 4, Be16(id), whole, part);
    part := Splice(part, 4, Be16(id));
    CopyInto(frame, 14, 6, Be16(0x4000), whole, part);
    part := Splice(part, 6, Be16(0x4000));
    CopyInto(frame, 14, 8, [64, 17], whole, part);
    part := Splice(part, 8, [64, 17]);
    CopyInto(frame, 14, 12, [192, 0, 2, 6, 192, 0, 2, 5], whole, part);
    IpFields(len, id);
    StoreChecksum(frame, len, id, whole);
  }

  lemma IpFields(len: nat, id: uint16)
    requires 34 <= len <= CAPACITY
    ensures Splice(Splice(Splice(Splice(Splice(Splice(Repeat(20, 0), 0, [0x45]), 2, Be16(len - 14)),
              4, Be16(id)), 6, Be16(0x4000)), 8, [64, 17]), 12, [192, 0, 2, 6, 192, 0, 2, 5])
         == IpHeader(len, id, 0)
  {
    hide Be16, Splice;
    var l, i, f := Be16(len - 14), Be16(id), Be16(0x4000);
    var v: bytes := [0x45];
    var t: bytes := [64, 17];
    FirstField(20, v);
    GapField(v, 19, 1, l);
    var w := v + Repeat(1, 0) + l;
    WriteField(w, 16, i);
    WriteField(w + i, 14, f);
    WriteField(w + i + f, 12, t);
    GapField(w + i + f + t, 10, 2, IpBack());
    ZeroField();
    assert v + Repeat(1, 0) == [0x45, 0];
    assert IpHeader(len, id, 0) + Repeat(0, 0) == IpHeader(len, id, 0);
  }

  lemma ZeroField()
    ensures Be16(0) == Repeat(2, 0)
  {}

  lemma FirstField(n: nat, field: bytes)
    requires |field| <= n
    ensures Splice(Repeat(n, 0), 0, field) == field + Repeat(n - |field|, 0)
  {}

  lemma GapField(prefix: bytes, zeros: nat, gap: nat, field: bytes)
    requires gap + |field| <= zeros
    ensures Splice(prefix + Repeat(zeros, 0), |prefix| + gap, field)
         == prefix + Repeat(gap, 0) + field + Repeat(zeros - gap - |field|, 0)
  {}

  method StoreChecksum(frame: array<byte>, len: nat, id: uint16, ghost whole: bytes)
    requires 34 <= len <= CAPACITY <= frame.Length == |whole|
    requires frame[..] == Splice(whole, 14, IpHeader(len, id, 0))
    modifies frame
    ensures frame[..] == Splice(whole, 14, SummedIp(len, id))
  {
    hide IpFront, IpBack, ChecksumOf, Be16, WordSum;
    assert frame[14..14 + 20] == IpHeader(len, id, 0);
    WordSumBound(IpHeader(len, id, 0));
    var sum := Compute(frame, 14, 20);
    Patch(IpFront(len, id), Be16(0), IpBack(), Be16(sum));
    CopyInto(frame, 14, 10, Be16(sum), whole, IpHeader(len, id, 0));
  }

  method WriteUdp(frame: array<byte>, len: nat, seqno: uint32)
    requires 34 <= len <= CAPACITY <= frame.Length
    requires Carries(frame[..], 34, Repeat(8, 0))
    modifies frame
    ensures frame[..] == Splice(old(frame[..]), 34, UdpHeader(len, seqno))
  {
    hide Splice, Be16;
    ghost var whole := frame[..];
    var port, to, size := Be16(10000 + seqno % 50000), Be16(20000), Be16(len - 34);
    SpliceSame(whole, 34, Repeat(8, 0));
    CopyInto(frame, 34, 0, port, whole, Repeat(8, 0));
    CopyInto(frame, 34, 2, to, whole, Splice(Repeat(8, 0), 0, port));
    CopyInto(frame, 34, 4, size, whole, Splice(Splice(Repeat(8, 0), 0, port), 2, to));
    UdpFields(port, to, size);
  }

  lemma UdpFields(port: bytes, to: bytes, size: bytes)
    requires |port| == |to| == |size| == 2
    ensures Splice(Splice(Splice(Repeat(8, 0), 0, port), 2, to), 4, size) == port + to + size + [0, 0]
  {
    hide Splice;
    FirstField(8, port);
    WriteField(port, 6, to);
    WriteField(port + to, 4, size);
    assert Repeat(2, 0) == [0, 0];
  }

  method WriteBench(frame: array<byte>, off: nat, st: Stamp, payload: bytes)
    requires off + HEADER_LEN + |payload| <= CAPACITY <= frame.Length
    modifies frame
    ensures frame[..] == Splice(old(frame[..]), off, BenchHeader(st, |payload|) + payload)
  {
    hide Splice, Be16, Be32, Be64;
    ghost var whole := frame[..];
    ghost var done: bytes := Be32(MAGIC);
    Copy(frame, off, Be32(MAGIC));
    Append(frame, off, 4, Be16(1), whole, done);
    done := done + Be16(1);
    Append(frame, off, 6, Be16(st.flags), whole, done);
    done := done + Be16(st.flags);
    Append(frame, off, 8, Be32(st.seqno), whole, done);
    done := done + Be32(st.seqno);
    Append(frame, off, 12, Be64(st.sendNs), whole, done);
    done := done + Be64(st.sendNs);
    Append(frame, off, 20, Be32(|payload|), whole, done);
    done := done + Be32(|payload|);
    Append(frame, off, 24, payload, whole, done);
  }

  /** Builds a whole frame in a buffer, which is cleared behind it. */
  method BuildFrame(o: Options, st: Stamp, frame: array<byte>) returns (ok: bool, len: nat)
    modifies frame
    ensures ok <==> Buildable(o) && frame.Length >= 98
    ensures Buildable(o) <==>
              (if o.rssUdp then 66 + |o.payload| <= 98 && o.ethertype == 0x0800 else 38 + |o.payload| <= 98)
    ensures !ok ==> frame[..] == old(frame[..])
    ensures ok ==> len == FrameLength(o) && frame[..] == FrameBytes(o, st) + Repeat(frame.Length - len, 0)
  {
    hide MacHeader, SummedIp, UdpHeader, BenchHeader, Splice;
    len := HeaderOffset(o) + HEADER_LEN + |o.payload|;
    if len < 60 {
      len := 60;
    }
    ok := frame.Length >= CAPACITY && (o.rssUdp ==> o.ethertype == IPV4) && len <= CAPACITY;
    if !ok {
      return;
    }
    Clear(frame);
    WriteMac(frame, o);
    ghost var prefix := MacHeader(o);
    if o.rssUdp {
      CarriesZeros(MacHeader(o), frame.Length - 14, 20);
      WriteIp(frame, len, st.seqno % U16);
      WriteField(prefix, frame.Length - 14, SummedIp(len, st.seqno % U16));
      prefix := prefix + SummedIp(len, st.seqno % U16);
      CarriesZeros(prefix, frame.Length - 34, 8);
      WriteUdp(frame, len, st.seqno);
      WriteField(prefix, frame.Length - 34, UdpHeader(len, st.seqno));
      prefix := prefix + UdpHeader(len, st.seqno);
    }
    assert prefix == Prefix(o, st.seqno);
    WriteBench(frame, HeaderOffset(o), st, o.payload);
    ghost var body := BenchHeader(st, |o.payload|) + o.payload;
    WriteField(prefix, frame.Length - |prefix|, body);
    assert prefix + body + Repeat(frame.Length - |prefix| - |body|, 0)
        == FrameBytes(o, st) + Repeat(frame.Length - len, 0);
  }

  method Clear(frame: array<byte>)
    modifies frame
    ensures frame[..] == Repeat(frame.Length, 0)
  {
    Fill(frame, 0, frame.Length, 0);
  }

  method WriteMac(frame: array<byte>, o: Options)
    requires frame.Length >= CAPACITY && frame[..] == Repeat(frame.Length, 0)
    modifies frame
    ensures frame[..] == MacHeader(o) + Repeat(frame.Length - 14, 0)
  {
    hide Be16, Splice;
    ghost var n := frame.Length;
    var dst: bytes, src: bytes, kind := o.dst, o.src, Be16(o.ethertype);
    Copy(frame, 0, dst);
    FirstField(n, dst);
    Copy(frame, 6, src);
    WriteField(dst, n - 6, src);
    Copy(frame, 12, kind);
    WriteField(dst + src, n - 12, kind);
  }

  lemma CarriesZeros(prefix: bytes, zeros: nat, n: nat)
    requires n <= zeros
    ensures Carries(prefix + Repeat(zeros, 0), |prefix|, Repeat(n, 0))
  {}

  // ---- the template -------------------------------------------------------------------

  function Patched(o: Options, t: bytes, st: Stamp): (s: bytes)
    requires Buildable(o) && |t| == FrameLength(o)
    ensures |s| == |t|
  {
    var h := HeaderOffset(o);
    var u := if o.rssUdp
      then Splice(Splice(t, 14, SummedIp(|t|, st.seqno % U16)), 34, Be16(10000 + st.seqno % 50000))
      else t;
    Splice(Splice(Splice(u, h + 6, Be16(st.flags)), h + 8, Be32(st.seqno)), h + 12, Be64(st.sendNs))
  }

  /** Patching any frame of the same options gives the frame of the new stamp. */
  lemma PatchedIsFrame(o: Options, was: Stamp, now: Stamp)
    requires Buildable(o)
    ensures Patched(o, FrameBytes(o, was), now) == FrameBytes(o, now)
  {
    hide Splice;
    var h := HeaderOffset(o);
    var rest := o.payload + Padding(o);
    var u := Prefix(o, now.seqno) + BenchHeader(was, |o.payload|) + rest;
    assert FrameBytes(o, was) == Prefix(o, was.seqno) + BenchHeader(was, |o.payload|) + rest;
    if o.rssUdp {
      PatchPrefix(o, was.seqno, now.seqno, BenchHeader(was, |o.payload|) + rest);
    }
    PatchBench(Prefix(o, now.seqno), was, now, |o.payload|, rest);
    assert FrameBytes(o, now) == Prefix(o, now.seqno) + BenchHeader(now, |o.payload|) + rest;
    assert Prefix(o, was.seqno) + (BenchHeader(was, |o.payload|) + rest) == FrameBytes(o, was);
    assert Prefix(o, now.seqno) + (BenchHeader(was, |o.payload|) + rest) == u;
  }

  lemma PatchPrefix(o: Options, was: uint32, now: uint32, rest: bytes)
    requires Buildable(o) && o.rssUdp
    ensures Splice(Splice(Prefix(o, was) + rest, 14, SummedIp(FrameLength(o), now % U16)),
                   34, Be16(10000 + now % 50000))
         == Prefix(o, now) + rest
  {
    hide SummedIp, MacHeader, Be16, Splice;
    var len := FrameLength(o);
    var m, i, j := MacHeader(o), SummedIp(len, was % U16), SummedIp(len, now % U16);
    var p, q := Be16(10000 + was % 50000), Be16(10000 + now % 50000);
    var tail := Be16(20000) + Be16(len - 34) + [0, 0];
    assert Prefix(o, was) + rest == m + i + (p + tail + rest);
    Patch(m, i, p + tail + rest, j);
    assert m + j + (p + tail + rest) == (m + j) + p + (tail + rest);
    Patch(m + j, p, tail + rest, q);
    assert Prefix(o, now) + rest == (m + j) + q + (tail + rest);
  }

  lemma PatchBench(prefix: bytes, was: Stamp, now: Stamp, n: uint32, rest: bytes)
    ensures var h := |prefix|;
      Splice(Splice(Splice(prefix + BenchHeader(was, n) + rest, h + 6, Be16(now.flags)), h + 8, Be32(now.seqno)),
             h + 12, Be64(now.sendNs))
      == prefix + BenchHeader(now, n) + rest
  {
    hide Be16, Be32, Be64, Splice;
    var a, z := prefix + Be32(MAGIC) + Be16(1), Be32(n) + rest;
    var f, s, t := Be16(was.flags), Be32(was.seqno), Be64(was.sendNs);
    var f', s', t' := Be16(now.flags), Be32(now.seqno), Be64(now.sendNs);
    assert prefix + BenchHeader(was, n) + rest == a + f + (s + t + z);
    Patch(a, f, s + t + z, f');
    assert a + f' + (s + t + z) == (a + f') + s + (t + z);
    Patch(a + f', s, t + z, s');
    assert (a + f') + s' + (t + z) == (a + f' + s') + t + z;
    Patch(a + f' + s', t, z, t');
    assert prefix + BenchHeader(now, n) + rest == (a + f' + s') + t' + z;
  }

  /** Copies a template and patches the stamp, the IP id and checksum, and the UDP port. */
  method BuildFromTemplate(o: Options, template: bytes, ghost was: Stamp, st: Stamp, frame: array<byte>)
    requires Buildable(o) && template == FrameBytes(o, was) && frame.Length >= CAPACITY
    modifies frame
    ensures frame[..] == Splice(old(frame[..]), 0, FrameBytes(o, st))
  {
    hide Splice, SummedIp, FrameBytes;
    ghost var whole := frame[..];
    var h := HeaderOffset(o);
    Copy(frame, 0, template);
    ghost var part := template;
    if o.rssUdp {
      PatchIp(frame, o, was, st.seqno % U16, whole);
      part := Splice(part, 14, SummedIp(|template|, st.seqno % U16));
      CopyInto(frame, 0, 34, Be16(10000 + st.seqno % 50000), whole, part);
      part := Splice(part, 34, Be16(10000 + st.seqno % 50000));
    }
    CopyInto(frame, 0, h + 6, Be16(st.flags), whole, part);
    part := Splice(part, h + 6, Be16(st.flags));
    CopyInto(frame, 0, h + 8, Be32(st.seqno), whole, part);
    part := Splice(part, h + 8, Be32(st.seqno));
    CopyInto(frame, 0, h + 12, Be64(st.sendNs), whole, part);
    PatchedIsFrame(o, was, st);
  }

  method PatchIp(frame: array<byte>, o: Options, ghost was: Stamp, id: uint16, ghost whole: bytes)
    requires Buildable(o) && o.rssUdp && CAPACITY <= frame.Length == |whole|
    requires frame[..] == Splice(whole, 0, FrameBytes(o, was))
    modifies frame
    ensures frame[..] == Splice(whole, 0, Splice(FrameBytes(o, was), 14, SummedIp(FrameLength(o), id)))
  {
    hide Splice, IpHeader, FrameBytes, IpFront, IpBack, Be16;
    ghost var t := FrameBytes(o, was);
    var len := FrameLength(o);
    ghost var i := was.seqno % U16;
    ghost var sum := ChecksumOf(IpHeader(len, i, 0));
    IpInside(o, was);
    SpliceSame(t, 14, SummedIp(len, i));
    SpliceWithin(whole, 0, t, 14, SummedIp(len, i));
    ghost var base := frame[..];
    assert base == Splice(whole, 0, t);
    SpliceSame(base, 14, SummedIp(len, i)) by {
      SpliceCarries(whole, 0, t, 14, SummedIp(len, i));
    }
    CopyInto(frame, 14, 4, Be16(id), base, SummedIp(len, i));
    CopyInto(frame, 14, 10, Be16(0), base, Splice(SummedIp(len, i), 4, Be16(id)));
    ClearedIp(len, i, id, sum);
    StoreChecksum(frame, len, id, base);
    SpliceWithin(whole, 0, t, 14, SummedIp(len, id));
  }

  lemma SpliceCarries(s: bytes, off: nat, t: bytes, at: nat, u: bytes)
    requires off + |t| <= |s| && Carries(t, at, u)
    ensures Carries(Splice(s, off, t), off + at, u)
  {}

  lemma IpInside(o: Options, st: Stamp)
    requires Buildable(o) && o.rssUdp
    ensures Carries(FrameBytes(o, st), 14, SummedIp(FrameLength(o), st.seqno % U16))
  {
    hide SummedIp, MacHeader, UdpHeader, BenchHeader;
  }

  lemma ClearedIp(len: nat, was: uint16, id: uint16, sum: uint16)
    requires 34 <= len <= CAPACITY
    ensures Splice(Splice(IpHeader(len, was, sum), 4, Be16(id)), 10, Be16(0)) == IpHeader(len, id, 0)
  {
    hide Be16, Splice, IpBack;
    var a: bytes := [0x45, 0] + Be16(len - 14);
    var b: bytes := Be16(0x4000) + [64, 17];
    assert IpHeader(len, was, sum) == a + Be16(was) + (b + Be16(sum) + IpBack());
    Patch(a, Be16(was), b + Be16(sum) + IpBack(), Be16(id));
    assert a + Be16(id) + (b + Be16(sum) + IpBack()) == (a + Be16(id) + b) + Be16(sum) + IpBack();
    Patch(a + Be16(id) + b, Be16(sum), IpBack(), Be16(0));
    assert (a + Be16(id) + b) + Be16(0) + IpBack() == IpHeader(len, id, 0);
  }
}
