/** The echo program: which frames it reflects and how, and what the benchmark makes of
    the reflection. */
module Echo {
  import opened Words
  import opened Frames

  const REPLY := 1

  /** What the benchmark reads out of a received packet. */
  function Parse(o: Options, pkt: bytes): Parsed {
    var h := HeaderOffset(o);
    if |pkt| < h + HEADER_LEN then
      Rejected
    else if GetBe16(pkt, 12) != o.ethertype || GetBe32(pkt, h) != MAGIC || GetBe16(pkt, h + 4) != 1 then
      Rejected
    else
      Parsed(Stamp(GetBe32(pkt, h + 8), GetBe64(pkt, h + 12), GetBe16(pkt, h + 6)))
  }

  predicate IsReflection(o: Options, pkt: bytes) {
    |pkt| >= 14 && pkt[0..6] == o.src && pkt[6..12] == o.dst
  }

  datatype Verdict = Filtered | AlreadyReply | Echoed(frame: bytes)

  predicate IsBenchFrame(ethertype: uint16, pkt: bytes) {
    |pkt| >= 14 + HEADER_LEN && GetBe16(pkt, 12) == ethertype && GetBe32(pkt, 14) == MAGIC
  }

  predicate ReplyBit(flags: uint16) { flags % 2 == 1 }

  /** The source and destination addresses trade places and the reply bit is set. */
  function Rewritten(pkt: bytes): (s: bytes)
    requires |pkt| >= 14 + HEADER_LEN && !ReplyBit(GetBe16(pkt, 20))
    ensures |s| == |pkt|
  {
    pkt[6..12] + pkt[0..6] + pkt[12..20] + Be16(GetBe16(pkt, 20) + REPLY) + pkt[22..]
  }

  function EchoOf(ethertype: uint16, pkt: bytes): Verdict {
    if !IsBenchFrame(ethertype, pkt) then Filtered
    else if ReplyBit(GetBe16(pkt, 20)) then AlreadyReply
    else if |pkt| > CAPACITY then Filtered
    else Echoed(Rewritten(pkt))
  }

  /** Rewrites a received packet in the transmit buffer. */
  method Reflect(ethertype: uint16, pkt: bytes, txFrame: array<byte>) returns (v: Verdict)
    requires txFrame.Length == CAPACITY
    modifies txFrame
    ensures v == EchoOf(ethertype, pkt)
    ensures v.Echoed? ==> |pkt| <= CAPACITY && txFrame[..|pkt|] == v.frame
  {
    hide Be16, GetBe32, Splice;
    if |pkt| < 14 + HEADER_LEN || GetBe16(pkt, 12) != ethertype || GetBe32(pkt, 14) != MAGIC {
      return Filtered;
    }
    var flags := GetBe16(pkt, 20);
    if flags % 2 == 1 {
      return AlreadyReply;
    }
    if |pkt| > CAPACITY {
      return Filtered;
    }
    ghost var z := txFrame[..];
    Copy(txFrame, 0, pkt);
    var mac := CopyOut(txFrame, 0, 6, z, pkt);
    var other := CopyOut(txFrame, 6, 6, z, pkt);
    CopyInto(txFrame, 0, 0, other, z, pkt);
    CopyInto(txFrame, 0, 6, mac, z, Splice(pkt, 0, other));
    CopyInto(txFrame, 0, 20, Be16(flags + REPLY), z, Splice(Splice(pkt, 0, other), 6, mac));
    RewrittenInPlace(pkt);
    SplicePrefix(z, Rewritten(pkt));
    v := Echoed(txFrame[..|pkt|]);
  }

  method CopyOut(a: array<byte>, off: nat, n: nat, ghost whole: bytes, ghost part: bytes) returns (s: bytes)
    requires off + n <= |part| <= |whole| == a.Length && a[..] == Splice(whole, 0, part)
    ensures s == part[off..off + n]
  {
    s := a[off..off + n];
    assert a[..][off..off + n] == s;
  }

  lemma SplicePrefix(z: bytes, t: bytes)
    requires |t| <= |z|
    ensures Splice(z, 0, t)[..|t|] == t
  {}

  lemma RewrittenInPlace(pkt: bytes)
    requires |pkt| >= 14 + HEADER_LEN && !ReplyBit(GetBe16(pkt, 20))
    ensures Splice(Splice(Splice(pkt, 0, pkt[6..12]), 6, pkt[0..6]), 20, Be16(GetBe16(pkt, 20) + REPLY))
         == Rewritten(pkt)
  {
    hide Be16, GetBe16, Splice;
    var a, b, c, d, f := pkt[0..6], pkt[6..12], pkt[12..20], pkt[20..22], Be16(GetBe16(pkt, 20) + REPLY);
    var z := pkt[22..];
    assert pkt == [] + a + (b + c + d + z);
    Patch([], a, b + c + d + z, b);
    assert [] + b + (b + c + d + z) == b + b + (c + d + z);
    Patch(b, b, c + d + z, a);
    assert b + a + (c + d + z) == (b + a + c) + d + z;
    Patch(b + a + c, d, z, f);
  }

  /** Parts of a rewritten packet. */
  lemma RewrittenParts(pkt: bytes)
    requires |pkt| >= 14 + HEADER_LEN && !ReplyBit(GetBe16(pkt, 20))
    ensures var f := Rewritten(pkt);
      && f[0..6] == pkt[6..12] && f[6..12] == pkt[0..6] && f[12..20] == pkt[12..20] && f[22..] == pkt[22..]
      && GetBe16(f, 20) == GetBe16(pkt, 20) + REPLY
      && GetBe16(f, 12) == GetBe16(pkt, 12) && GetBe32(f, 14) == GetBe32(pkt, 14) && GetBe16(f, 18) == GetBe16(pkt, 18)
      && (|pkt| >= 34 ==> GetBe32(f, 22) == GetBe32(pkt, 22) && GetBe64(f, 26) == GetBe64(pkt, 26))
  {
    hide Be16;
    var f := Rewritten(pkt);
    GetPut16(f, 20, GetBe16(pkt, 20) + REPLY);
    assert forall i :: 12 <= i < 20 ==> f[i] == f[12..20][i - 12] == pkt[12..20][i - 12] == pkt[i];
    assert forall i :: 22 <= i < |f| ==> f[i] == f[22..][i - 22] == pkt[22..][i - 22] == pkt[i];
  }

  /** Nothing is echoed a second time. */
  lemma EchoedOnce(ethertype: uint16, pkt: bytes)
    requires EchoOf(ethertype, pkt).Echoed?
    ensures EchoOf(ethertype, EchoOf(ethertype, pkt).frame) == AlreadyReply
  {
    hide Rewritten, GetBe16, GetBe32;
    RewrittenParts(pkt);
  }

  /** An echo parses exactly if the packet did, to the same number and time with the
      reply bit set, and it is a reflection exactly of a packet from `src` to `dst`. */
  lemma EchoParses(o: Options, pkt: bytes)
    requires !o.rssUdp && EchoOf(o.ethertype, pkt).Echoed?
    ensures var f := EchoOf(o.ethertype, pkt).frame;
      && Parse(o, f) == (match Parse(o, pkt)
          case Rejected => Rejected
          case Parsed(st) => Parsed(st.(flags := st.flags + REPLY)))
      && (Parse(o, f).Parsed? ==> ReplyBit(Parse(o, f).stamp.flags))
      && (IsReflection(o, f) <==> pkt[0..6] == o.dst && pkt[6..12] == o.src)
  {
    hide Rewritten, GetBe16, GetBe32, GetBe64;
    RewrittenParts(pkt);
  }

  /** Where the header fields of a built frame are. */
  lemma FrameLayout(o: Options, st: Stamp)
    requires Buildable(o)
    ensures var s, h := FrameBytes(o, st), HeaderOffset(o);
      && s[0..6] == o.dst && s[6..12] == o.src && Carries(s, 12, Be16(o.ethertype))
      && Carries(s, h, BenchHeader(st, |o.payload|))
      && (o.rssUdp ==> s[14] == 0x45)
  {
    hide Be16, BenchHeader, UdpHeader, IpBack, Checksum.ChecksumOf;
    var s := FrameBytes(o, st);
    assert s[..14] == MacHeader(o);
    assert s[0..6] == s[..14][0..6];
    assert s[6..12] == s[..14][6..12];
    assert s[12..14] == s[..14][12..14];
    if o.rssUdp {
      assert s[14] == SummedIp(FrameLength(o), st.seqno % U16)[0];
    }
  }

  /** A built frame parses back, with or without the IP and UDP headers. */
  lemma ParsesBack(o: Options, st: Stamp)
    requires Buildable(o)
    ensures Parse(o, FrameBytes(o, st)) == Parsed(st)
  {
    hide FrameBytes, BenchHeader, Be16, GetBe16, GetBe32, GetBe64;
    var s := FrameBytes(o, st);
    FrameLayout(o, st);
    GetPut16(s, 12, o.ethertype);
    HeaderLayout(s, HeaderOffset(o), st, |o.payload|);
  }

  /** The packet has the EtherType and, where the options put it, a benchmark header with
      this stamp. */
  ghost predicate CarriesStamp(o: Options, pkt: bytes, st: Stamp) {
    && Carries(pkt, 12, Be16(o.ethertype))
    && exists n: uint32 :: Carries(pkt, if o.rssUdp then 42 else 14, BenchHeader(st, n))
  }

  /** A packet is parsed exactly if it carries a benchmark header, and to its stamp; any
      other is rejected. */
  lemma ParseIff(o: Options, pkt: bytes, st: Stamp)
    ensures Parse(o, pkt) == Parsed(st) <==> CarriesStamp(o, pkt, st)
  {
    hide BenchHeader, Be16, GetBe16, GetBe32, GetBe64;
    var h := HeaderOffset(o);
    if CarriesStamp(o, pkt, st) {
      var n: uint32 :| Carries(pkt, h, BenchHeader(st, n));
      GetPut16(pkt, 12, o.ethertype);
      HeaderLayout(pkt, h, st, n);
    }
    if Parse(o, pkt) == Parsed(st) {
      PutGet16(pkt, 12);
      HeaderRead(pkt, h, st);
    }
  }

  /** A packet with this stamp that has its reply bit set, or comes back from `dst`. */
  ghost predicate IsReply(o: Options, pkt: bytes, st: Stamp) {
    CarriesStamp(o, pkt, st) && (st.flags % 2 == 1 || (pkt[0..6] == o.src && pkt[6..12] == o.dst))
  }

  lemma ReplyIff(o: Options, pkt: bytes, st: Stamp)
    ensures IsReply(o, pkt, st) <==>
              Parse(o, pkt) == Parsed(st) && (ReplyBit(st.flags) || IsReflection(o, pkt))
  {
    hide Parse;
    ParseIff(o, pkt, st);
  }

  lemma HeaderRead(s: bytes, h: nat, st: Stamp)
    requires h + HEADER_LEN <= |s| && GetBe32(s, h) == MAGIC && GetBe16(s, h + 4) == 1
    requires st == Stamp(GetBe32(s, h + 8), GetBe64(s, h + 12), GetBe16(s, h + 6))
    ensures exists n: uint32 :: Carries(s, h, BenchHeader(st, n))
  {
    hide Be16, Be32, Be64, GetBe16, GetBe32, GetBe64;
    PutGet32(s, h);
    PutGet16(s, h + 4);
    PutGet16(s, h + 6);
    PutGet32(s, h + 8);
    PutGet64(s, h + 12);
    PutGet32(s, h + 20);
    var n := GetBe32(s, h + 20);
    assert s[h..h + 24] == s[h..h + 4] + s[h + 4..h + 6] + s[h + 6..h + 8] + s[h + 8..h + 12] + s[h + 12..h + 20]
                           + s[h + 20..h + 24];
    assert Carries(s, h, BenchHeader(st, n));
  }

  /** The echo program filters frames with IP and UDP headers: it looks for the
      benchmark's magic number right behind the Ethernet header. */
  lemma RssIsFiltered(o: Options, st: Stamp, ethertype: uint16)
    requires Buildable(o) && o.rssUdp
    ensures EchoOf(ethertype, FrameBytes(o, st)) == Filtered
  {
    hide FrameBytes, BenchHeader;
    FrameLayout(o, st);
  }

  /** What comes back for a frame the benchmark sent: the frame it would build in the
      opposite direction with the reply bit set; it parses to the same number and time
      and is recognised as a reply and as a reflection. */
  lemma EchoOfFrame(o: Options, st: Stamp)
    requires Buildable(o) && !o.rssUdp && !ReplyBit(st.flags)
    ensures var f := FrameBytes(o.(dst := o.src, src := o.dst), st.(flags := st.flags + REPLY));
      && EchoOf(o.ethertype, FrameBytes(o, st)) == Echoed(f)
      && Parse(o, f) == Parsed(st.(flags := st.flags + REPLY))
      && IsReflection(o, f)
  {
    hide FrameBytes, BenchHeader, GetBe16, GetBe32, GetBe64, Rewritten;
    var s := FrameBytes(o, st);
    FrameLayout(o, st);
    HeaderLayout(s, 14, st, |o.payload|);
    assert GetBe16(s, 12) == o.ethertype by {
      GetPut16(s, 12, o.ethertype);
    }
    RewrittenFrame(o, st);
    EchoParses(o, s);
    ParsesBack(o, st);
  }

  lemma RewrittenFrame(o: Options, st: Stamp)
    requires Buildable(o) && !o.rssUdp && !ReplyBit(st.flags)
    requires GetBe16(FrameBytes(o, st), 20) == st.flags
    ensures Rewritten(FrameBytes(o, st)) == FrameBytes(o.(dst := o.src, src := o.dst), st.(flags := st.flags + REPLY))
  {
    hide Be16, Be32, Be64, GetBe16;
    var s := FrameBytes(o, st);
    var f, g := Be16(st.flags), Be16(st.flags + REPLY);
    var a, b, e := o.dst, o.src, Be16(o.ethertype);
    var m := Be32(MAGIC) + Be16(1);
    var z := Be32(st.seqno) + Be64(st.sendNs) + Be32(|o.payload|) + o.payload + Padding(o);
    assert s == a + b + (e + m) + f + z;
    assert s[6..12] == b && s[0..6] == a && s[12..20] == e + m && s[22..] == z;
    assert Rewritten(s) == b + a + (e + m) + g + z;
  }

  /** The echoes of the packets of `read` that are echoed, in order. */
  function Echoes(ethertype: uint16, read: seq<bytes>): (fs: seq<bytes>)
    ensures |fs| <= |read|
    ensures forall i :: 0 <= i < |fs| ==> EchoOf(ethertype, fs[i]) == AlreadyReply
  {
    if read == [] then
      []
    else
      var last := EchoOf(ethertype, read[|read| - 1]);
      if last.Echoed?
      then EchoedOnce(ethertype, read[|read| - 1]); Echoes(ethertype, read[..|read| - 1]) + [last.frame]
      else Echoes(ethertype, read[..|read| - 1])
  }
}
