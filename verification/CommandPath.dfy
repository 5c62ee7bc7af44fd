/** The command interface: a 64-byte descriptor with up to 16 inline bytes in each
    direction, mailbox chains for the rest, a doorbell, and a token that the device is
    given and the driver never compares. */
module CommandPath {
  import opened Modular
  import opened Words
  import opened Mailbox
  import opened Optional

  const DESC_SIZE := 64
  const INLINE := 16
  const PCI_CMD_XPORT: byte := 7
  const OWNER_HW: byte := 1
  const POLLS := 1_000_000
  const INBOX_IOVA := 0x0180_0000
  const OUTBOX_IOVA := 0x0200_0000

  // ----- tokens -----

  /** The token of command number `n`, counted from 0. */
  function TokenOf(n: nat): byte { (n % 255 + 1) as byte }

  /** The driver's token field after `n` commands. */
  function TokenField(n: nat): byte { if n == 0 then 0 else TokenOf(n) }

  /** Any 255 consecutive commands carry pairwise distinct tokens, none of them 0. */
  lemma TokensDistinct(i: nat, j: nat)
    requires i < j < i + 255
    ensures TokenOf(i) != TokenOf(j) && TokenOf(i) != 0
  {
    DistinctMod(i, j, 255);
  }

  // ----- the descriptor -----

  function InlineLen(len: nat): nat { if len < INLINE then len else INLINE }

  function Extra(len: nat): nat { if len > INLINE then len - INLINE else 0 }

  /** Everything before the input length, up to the inline output. */
  function Front(inLen: uint32, inPtr: uint64, inlined: bytes): (s: bytes)
    requires |inlined| <= INLINE
    ensures |s| == 48
  {
    [PCI_CMD_XPORT, 0, 0, 0] + Be32(inLen) + Be64(inPtr) + inlined + Repeat(INLINE - |inlined|, 0) + Repeat(INLINE, 0)
  }

  function Unsigned(inLen: uint32, inPtr: uint64, inlined: bytes, outPtr: uint64, outLen: uint32, token: byte)
    : (s: bytes)
    requires |inlined| <= INLINE
    ensures |s| == DESC_SIZE && s[61] == 0
  {
    Front(inLen, inPtr, inlined) + Be64(outPtr) + Be32(outLen) + [token, 0, 0, OWNER_HW]
  }

  function Descriptor(inLen: uint32, inPtr: uint64, inlined: bytes, outPtr: uint64, outLen: uint32, token: byte)
    : (s: bytes)
    requires |inlined| <= INLINE
    ensures |s| == DESC_SIZE
  {
    var u := Unsigned(inLen, inPtr, inlined, outPtr, outLen, token);
    u[61 := Complement(Xor(u))]
  }

  lemma ClearAll(s: bytes)
    requires |s| == DESC_SIZE
    ensures Splice(s, 0, Repeat(DESC_SIZE, 0)) == Repeat(DESC_SIZE, 0)
  {}

  /** The driver's writes into a cleared descriptor, in its order. */
  lemma DescriptorWritten(inLen: uint32, inPtr: uint64, inlined: bytes, outPtr: uint64, outLen: uint32, token: byte)
    requires |inlined| <= INLINE
    ensures
      Splice(Splice(Splice(Splice(Splice(Splice(Splice(Splice(Repeat(DESC_SIZE, 0),
        0, [PCI_CMD_XPORT]), 4, Be32(inLen)), 16, inlined), 8, Be64(inPtr)),
        48, Be64(outPtr)), 56, Be32(outLen)), 60, [token]), 63, [OWNER_HW])
      == Unsigned(inLen, inPtr, inlined, outPtr, outLen, token)
  {
    hide Be32, Be64;
    var a := Splice(Repeat(DESC_SIZE, 0), 0, [PCI_CMD_XPORT]);
    assert a == [PCI_CMD_XPORT, 0, 0, 0] + Repeat(60, 0);
    var b := Splice(a, 4, Be32(inLen));
    assert b == [PCI_CMD_XPORT, 0, 0, 0] + Be32(inLen) + Repeat(56, 0);
    var s1 := Splice(b, 16, inlined);
    assert s1 == [PCI_CMD_XPORT, 0, 0, 0] + Be32(inLen) + Repeat(8, 0) + inlined + Repeat(48 - |inlined|, 0);
    var s2 := Splice(s1, 8, Be64(inPtr));
    assert s2 == Front(inLen, inPtr, inlined) + Repeat(16, 0);
    var s3 := Splice(Splice(s2, 48, Be64(outPtr)), 56, Be32(outLen));
    assert s3 == Front(inLen, inPtr, inlined) + Be64(outPtr) + Be32(outLen) + Repeat(4, 0);
  }

  lemma XorReplace(s: bytes, i: nat, b: byte)
    requires i < |s| && s[i] == 0
    ensures Xor(s[i := b]) == Xor(s) ^ (b as bv8)
  {
    var h, t := s[..i], s[i + 1..];
    assert s == h + [s[i]] + t && s[i := b] == h + [b] + t;
    XorAppend(h + [s[i]], t);
    XorAppend(h + [b], t);
    XorSnoc(h, s[i]);
    XorSnoc(h, b);
  }

  /** The descriptor XORs to 0xff, and its fields read back. */
  lemma DescriptorReads(inLen: uint32, inPtr: uint64, inlined: bytes, outPtr: uint64, outLen: uint32, token: byte)
    requires |inlined| <= INLINE
    ensures var d := Descriptor(inLen, inPtr, inlined, outPtr, outLen, token);
      && Xor(d) == 0xff
      && d[0] == 7 && d[60] == token && d[63] == 1
      && GetBe32(d, 4) == inLen && GetBe64(d, 8) == inPtr
      && d[16..16 + |inlined|] == inlined
      && d[32..48] == Repeat(INLINE, 0)
      && GetBe64(d, 48) == outPtr && GetBe32(d, 56) == outLen
  {
    hide Be32, Be64, GetBe32, GetBe64, Xor;
    var u := Unsigned(inLen, inPtr, inlined, outPtr, outLen, token);
    var d := Descriptor(inLen, inPtr, inlined, outPtr, outLen, token);
    XorReplace(u, 61, Complement(Xor(u)));
    ComplementCloses(Xor(u));
    assert d[4..8] == Be32(inLen);
    GetPut32(d, 4, inLen);
    assert d[8..16] == Be64(inPtr);
    GetPut64(d, 8, inPtr);
    assert d[48..56] == Be64(outPtr);
    GetPut64(d, 48, outPtr);
    assert d[56..60] == Be32(outLen);
    GetPut32(d, 56, outLen);
  }

  // ----- what the device makes of it -----

  /** The input the device reads: the inline bytes, then the payload of the mailbox
      chain it finds by following pointers.  It accepts only a signed descriptor, and
      signed blocks that are numbered in order and carry the token of the descriptor. */
  ghost function ReadCommand(desc: bytes, inbox: bytes): Option<bytes>
    requires |desc| == DESC_SIZE && |inbox| == MBOX_SIZE
  {
    var len := GetBe32(desc, 4);
    var inlined := desc[16..16 + InlineLen(len)];
    if !(desc[0] == 7 && desc[63] == 1 && Xor(desc) == 0xff) then None
    else if len <= INLINE then Some(inlined)
    else
      match Walk(inbox, INBOX_IOVA, GetBe64(desc, 8), MAX_BLOCKS)
      case None => None
      case Some(blocks) =>
        if |blocks| == NumBlocks(len - 16) && ChainAccepted(blocks, 0x0180_0000, desc[60])
        then Some(inlined + Collect(blocks, len - 16))
        else None
  }

  /** Every block the device visits is signed, numbered in order and carries `token`. */
  ghost predicate ChainAccepted(blocks: seq<RawBlock>, base: nat, token: byte) {
    forall k :: 0 <= k < |blocks| ==>
      && Xor(blocks[k][512..575]) == 0xff
      && Xor(blocks[k]) == 0xff
      && GetBe32(blocks[k], 512 + 56) == k
      && blocks[k][512 + 61] == token
      && GetBe64(blocks[k], 512 + 48) == if k + 1 < |blocks| then base + (k + 1) * 4096 else 0
  }

  lemma {:induction false} ChainIndex(base: nat, src: bytes, token: byte, i: nat, k: nat)
    requires i <= k < NumBlocks(|src|) <= MAX_BLOCKS && base + MBOX_SIZE < U64
    ensures ChainFrom(base, src, token, i)[k - i] == ChainBlock(base, src, token, k)
    decreases k - i
  {
    hide ChainBlock;
    if i < k {
      ChainIndex(base, src, token, i + 1, k);
    }
  }

  /** The device recovers the input from descriptor and chain, and accepts the chain:
      exactly ceil((|input| - 16) / 512) blocks. */
  lemma DeviceAccepts(input: bytes, outPtr: uint64, outLen: uint32, token: byte, inbox: bytes)
    requires NumBlocks(Extra(|input|)) <= MAX_BLOCKS && |inbox| == MBOX_SIZE
    requires Extra(|input|) != 0 ==> HoldsChain(inbox, INBOX_IOVA, input[INLINE..], token, NumBlocks(Extra(|input|)))
    ensures var ptr := if Extra(|input|) != 0 then INBOX_IOVA else 0;
      var d := Descriptor(|input|, ptr, input[..InlineLen(|input|)], outPtr, outLen, token);
      && ReadCommand(d, inbox) == Some(input)
      && (Extra(|input|) != 0 ==>
            var walked := Walk(inbox, INBOX_IOVA, ptr, MAX_BLOCKS);
            && walked.Some? && |walked.value| == NumBlocks(Extra(|input|))
            && ChainAccepted(walked.value, INBOX_IOVA, token))
  {
    hide Descriptor, Collect, ChainFrom, Walk, HoldsChain, ChainAccepted, Xor;
    var inlined := input[..InlineLen(|input|)];
    if Extra(|input|) != 0 {
      var src := input[INLINE..];
      DescriptorReads(|input|, INBOX_IOVA, inlined, outPtr, outLen, token);
      WalkVisits(inbox, INBOX_IOVA, src, token, 0);
      CollectChain(INBOX_IOVA, src, token, 0);
      assert inlined + src[0..] == input;
      ChainOk(INBOX_IOVA, src, token);
    } else {
      DescriptorReads(|input|, 0, inlined, outPtr, outLen, token);
      assert inlined == input;
    }
  }

  lemma ChainOk(base: nat, src: bytes, token: byte)
    requires NumBlocks(|src|) <= MAX_BLOCKS && base + MBOX_SIZE < U64
    ensures ChainAccepted(ChainFrom(base, src, token, 0), base, token)
  {
    forall k | 0 <= k < NumBlocks(|src|)
      ensures var b := ChainFrom(base, src, token, 0)[k];
        && Xor(b[BLOCK_SIZE..PROT_BLOCK_SIZE - 1]) == 0xff && Xor(b) == 0xff
        && GetBe32(b, BLOCK_SIZE + 56) == k && b[BLOCK_SIZE + 61] == token
        && GetBe64(b, BLOCK_SIZE + 48) == NextPointer(base, NumBlocks(|src|), k)
    {
      ChainIndex(base, src, token, 0, k);
      BlockIsSigned(Piece(src, k), NextPointer(base, NumBlocks(|src|), k), k, token);
      BlockFields(Piece(src, k), NextPointer(base, NumBlocks(|src|), k), k, token);
    }
  }

  // ----- what may come back -----

  /** A command that the device has and not answered yet, and what it will answer. */
  datatype Pending = Pending(number: nat, reply: bytes)

  /** What the device does while the driver waits for at most POLLS + 1 looks at the owner
      bit: nothing; or, before look number `at`, answer the command number `which` among
      those pending, the last of which is the driver's current one. */
  datatype Answer = Silent | Finish(at: nat, which: nat, statusOwn: byte)

  predicate InTime(a: Answer) { a.Finish? && a.at <= POLLS }

  /** A device with `n` older commands pending may do this. */
  predicate Legal(a: Answer, n: nat) {
    a.Finish? ==> a.which <= n && a.statusOwn % 2 == 0
  }

  function Remove<T>(s: seq<T>, i: nat): (r: seq<T>)
    requires i < |s|
    ensures |r| == |s| - 1
  {
    s[..i] + s[i + 1..]
  }

  /** A reply as a driver sees it that expects `n` bytes: cut or filled up with zeros. */
  function Resized(r: bytes, n: nat): (s: bytes)
    ensures |s| == n
  {
    if |r| >= n then r[..n] else r + Repeat(n - |r|, 0)
  }

  /** The bytes a driver that expects `outLen` of them puts together. */
  function Gathered(inlined: bytes, mailbox: bytes, outLen: nat): (out: bytes)
    requires |inlined| == INLINE && |mailbox| == MBOX_SIZE && Fits(outLen)
    ensures |out| == outLen
  {
    inlined[..InlineLen(outLen)] + seq(Extra(outLen), k requires 0 <= k < Extra(outLen) => PayloadAt(mailbox, k))
  }

  /** Whatever the device answers, the driver takes the command's own reply for the answer
      exactly if no older command is pending. */
  lemma OwnAnswerIff(pending: seq<Pending>, number: nat, outLen: nat)
    requires outLen > 0
    ensures pending == [] <==>
              forall own: bytes, w: nat :: |own| == outLen && w <= |pending| ==>
                Resized((pending + [Pending(number, own)])[w].reply, outLen) == own
  {
    if pending != [] {
      var r := Resized(pending[0].reply, outLen);
      var own := Repeat(outLen, if r[0] == 0 then 1 else 0);
      assert Resized((pending + [Pending(number, own)])[0].reply, outLen) == r && own[0] != r[0];
    } else {
      forall own: bytes, w: nat | |own| == outLen && w <= |pending|
        ensures Resized((pending + [Pending(number, own)])[w].reply, outLen) == own
      {
        assert own[..outLen] == own;
      }
    }
  }

  /** Comparing tokens would tell an older command from the current one exactly if their
      numbers do not differ by a multiple of 255; for fewer than 255 commands in between
      it always would. */
  lemma TokensTellApartIff(older: nat, current: nat)
    requires older < current
    ensures TokenOf(older) != TokenOf(current) <==> (current - older) % 255 != 0
    ensures current < older + 255 ==> TokenOf(older) != TokenOf(current)
  {
    EqualMod(current, older, 255);
    if current < older + 255 {
      TokensDistinct(older, current);
    }
  }

  // ----- the command context -----

  /** The three shared regions and the token field.  `issued` counts commands without
      wrap-around; `pending` are those that rang the doorbell and were given up, and that
      the device may still answer. */
  class CmdCtx {
    const desc: array<byte>
    const inbox: array<byte>
    const outbox: array<byte>
    var token: byte
    var issued: nat
    var pending: seq<Pending>

    ghost predicate Valid()
      reads this
    {
      && desc.Length == DESC_SIZE && inbox.Length == outbox.Length == MBOX_SIZE
      && desc != inbox && desc != outbox && inbox != outbox
      && token == TokenField(issued)
      && (forall i :: 0 <= i < |pending| ==> pending[i].number < issued && Fits(|pending[i].reply|))
    }

    constructor ()
      ensures Valid() && issued == 0 && pending == [] && fresh(desc) && fresh(inbox) && fresh(outbox)
    {
      desc := new byte[DESC_SIZE](_ => 0);
      inbox := new byte[MBOX_SIZE](_ => 0);
      outbox := new byte[MBOX_SIZE](_ => 0);
      token, issued, pending := 0, 0, [];
    }

    /** Takes the next token, skipping 0 on wrap-around. */
    method TakeToken() returns (t: byte)
      requires Valid()
      modifies this`token, this`issued
      ensures Valid() && issued == old(issued) + 1
      ensures t == TokenOf(old(issued))
    {
      t := token;
      token := Next(token);
      if token == 0 {
        token := 1;
      }
      if t == 0 {
        t := token;
        token := Next(token);
      }
      NextToken(issued);
      issued := issued + 1;
    }

    /** Lays the descriptor out and signs it. */
    method WriteDescriptor(inLen: uint32, inPtr: uint64, inlined: bytes, outPtr: uint64, outLen: uint32, t: byte)
      requires desc.Length == DESC_SIZE && |inlined| <= INLINE
      modifies desc
      ensures desc[..] == Descriptor(inLen, inPtr, inlined, outPtr, outLen, t)
    {
      hide Be32, Be64, Splice, Unsigned;
      Fill(desc, 0, DESC_SIZE, 0);
      ClearAll(old(desc[..]));
      Copy(desc, 0, [PCI_CMD_XPORT]);
      Copy(desc, 4, Be32(inLen));
      Copy(desc, 16, inlined);
      Copy(desc, 8, Be64(inPtr));
      Copy(desc, 48, Be64(outPtr));
      Copy(desc, 56, Be32(outLen));
      Copy(desc, 60, [t]);
      Copy(desc, 63, [OWNER_HW]);
      DescriptorWritten(inLen, inPtr, inlined, outPtr, outLen, t);
      var x := Xor8(desc, 0, DESC_SIZE);
      assert desc[0..DESC_SIZE] == desc[..];
      desc[61] := Complement(x);
    }

    /** The device answers: inline bytes into the descriptor, the rest into the blocks it
        finds by following the output chain's pointers, and then the owner bit. */
    method DeviceReply(reply: bytes, statusOwn: byte, ghost t: byte)
      requires Valid() && statusOwn % 2 == 0
      requires NumBlocks(Extra(|reply|)) <= MAX_BLOCKS
      requires Extra(|reply|) != 0 ==> GetBe64(desc[..], 48) == OUTBOX_IOVA
      requires HoldsChain(outbox[..], OUTBOX_IOVA, Repeat(Extra(|reply|), 0), t, NumBlocks(Extra(|reply|)))
      modifies desc, outbox
      ensures desc[32..32 + InlineLen(|reply|)] == reply[..InlineLen(|reply|)] && desc[63] == statusOwn
      ensures forall k :: 0 <= k < Extra(|reply|) ==> PayloadAt(outbox[..], k) == reply[INLINE + k]
    {
      hide ChainBlock, Splice, Walk, HoldsChain;
      ghost var src := Repeat(Extra(|reply|), 0);
      var n := NumBlocks(Extra(|reply|));
      var addr := GetBe64(desc[..], 48);
      StartReply(outbox[..], t, reply);
      for i := 0 to n
        invariant i < n ==> addr == OUTBOX_IOVA + i * STRIDE
        invariant Replied(outbox[..], src, t, reply, i)
      {
        var pos := addr - OUTBOX_IOVA;
        var len := PieceLen(Extra(|reply|), i);
        ReplyStep(outbox[..], src, t, reply, i);
        assert outbox[pos..pos + PROT_BLOCK_SIZE] == BlockAt(outbox[..], i);
        addr := GetBe64(outbox[pos..pos + PROT_BLOCK_SIZE], BLOCK_SIZE + 48);
        Copy(outbox, pos, reply[INLINE + i * BLOCK_SIZE..INLINE + i * BLOCK_SIZE + len]);
      }
      CopyInline(reply, statusOwn);
    }

    method CopyInline(reply: bytes, statusOwn: byte)
      requires desc.Length == DESC_SIZE
      modifies desc
      ensures desc[32..32 + InlineLen(|reply|)] == reply[..InlineLen(|reply|)] && desc[63] == statusOwn
      ensures desc[32..48] == Splice(old(desc[..]), 32, reply[..InlineLen(|reply|)])[32..48]
    {
      Copy(desc, 32, reply[..InlineLen(|reply|)]);
      desc[63] := statusOwn;
    }

    /** Sends one command and waits for the answer.  `seen` is what the device reads when
        the doorbell rings, `reply` what it will answer to it, and `a` what it does
        meanwhile.  The caller gets the reply of the command that the device has answered,
        resized; it need not be this one. */
    method Exec(input: bytes, outLen: uint32, reply: bytes, a: Answer)
      returns (rc: int, out: bytes, ghost seen: Option<bytes>)
      requires Valid() && |reply| == outLen && Legal(a, |pending|)
      modifies this, desc, inbox, outbox
      ensures Valid() && issued == old(issued) + 1
      ensures seen == if |input| <= 16 + 256 * 512 && outLen <= 16 + 256 * 512 then Some(input) else None
      ensures seen == None ==> pending == old(pending) && rc == -1 && out == []
      ensures seen.Some? ==>
                var all := old(pending) + [Pending(old(issued), reply)];
                if InTime(a) then
                  && pending == Remove(all, a.which)
                  && out == Resized(all[a.which].reply, outLen)
                  && rc == if outLen == 0 || out[0] == 0 then 0 else -1
                else
                  pending == all && rc == -1 && out == []
    {
      hide HoldsChain, ReadCommand, Gathered, Resized;
      rc, out, seen := -1, [], None;
      var number := issued;
      FitsIff(|input|);
      FitsIff(outLen);
      var t := TakeToken();
      if !Fits(|input|) || !Fits(outLen) {
        return;
      }
      Submit(input, outLen, t);
      seen := ReadCommand(desc[..], inbox[..]);
      pending := pending + [Pending(number, reply)];
      var answered := Await(outLen, t, a);
      if !answered {
        return;
      }
      pending := Remove(pending, a.which);
      out := ReadReply(outLen);
      if outLen > 0 && out[0] != 0 {
        return;
      }
      rc := 0;
    }

    /** Fills both mailboxes and the descriptor. */
    method Submit(input: bytes, outLen: uint32, t: byte)
      requires Valid() && Fits(|input|) && Fits(outLen)
      modifies desc, inbox, outbox
      ensures ReadCommand(desc[..], inbox[..]) == Some(input)
      ensures AwaitingReply(desc[..], outbox[..], outLen, t)
    {
      hide HoldsChain, Walk, Descriptor, ReadCommand;
      Fill(inbox, 0, MBOX_SIZE, 0);
      var inPtr := 0;
      if Extra(|input|) != 0 {
        var ok := SetupChain(inbox, INBOX_IOVA, input[INLINE..], true, t);
        inPtr := INBOX_IOVA;
      }
      var outPtr := LayOutReply(outLen, t);
      WriteDescriptor(|input|, inPtr, input[..InlineLen(|input|)], outPtr, outLen, t);
      DescriptorReads(|input|, inPtr, input[..InlineLen(|input|)], outPtr, outLen, t);
      DeviceAccepts(input, outPtr, outLen, t, inbox[..]);
    }

    /** Clears the output mailbox and lays the chain for the answer out in it. */
    method LayOutReply(outLen: uint32, t: byte) returns (outPtr: uint64)
      requires outbox.Length == MBOX_SIZE && Fits(outLen)
      modifies outbox
      ensures outPtr == if Extra(outLen) != 0 then OUTBOX_IOVA else 0
      ensures HoldsChain(outbox[..], OUTBOX_IOVA, Repeat(Extra(outLen), 0), t, NumBlocks(Extra(outLen)))
      ensures forall k :: 0 <= k < MAX_BLOCKS * BLOCK_SIZE ==> PayloadAt(outbox[..], k) == 0
    {
      hide HoldsChain, PayloadAt;
      Fill(outbox, 0, MBOX_SIZE, 0);
      assert outbox[..] == Repeat(MBOX_SIZE, 0);
      var extra := Extra(outLen);
      outPtr := 0;
      if extra != 0 {
        var ok := SetupChain(outbox, OUTBOX_IOVA, Repeat(extra, 0), false, t);
        outPtr := OUTBOX_IOVA;
      } else {
        EmptyChain(outbox[..], t);
      }
      BlankPayload(outbox[..], extra, t);
    }

    /** Looks at the owner bit until the device clears it, and once more after the last
        pause. */
    method Await(outLen: uint32, ghost t: byte, a: Answer) returns (answered: bool)
      requires Valid() && Fits(outLen) && AwaitingReply(desc[..], outbox[..], outLen, t)
      requires pending != [] && |pending[|pending| - 1].reply| == outLen && Legal(a, |pending| - 1)
      modifies desc, outbox
      ensures answered <==> a.Finish? && a.at <= 1_000_000
      ensures answered ==> Gathered(desc[32..48], outbox[..], outLen) == Resized(pending[a.which].reply, outLen)
    {
      hide AwaitingReply, Gathered, Resized;
      StillWaiting(desc[..], outbox[..], outLen, t);
      for i := 0 to POLLS
        invariant desc[63] % 2 == 1
        invariant AwaitingReply(desc[..], outbox[..], outLen, t)
        invariant InTime(a) ==> i <= a.at
      {
        if a.Finish? && a.at == i {
          DeviceAnswer(outLen, t, a);
        }
        if desc[63] % 2 == 0 {
          break;
        }
      }
      if desc[63] % 2 == 1 && a.Finish? && a.at == POLLS {
        DeviceAnswer(outLen, t, a);
      }
      answered := desc[63] % 2 == 0;
    }

    lemma StillWaiting(d: bytes, o: bytes, outLen: nat, t: byte)
      requires AwaitingReply(d, o, outLen, t)
      ensures |d| == DESC_SIZE && d[63] % 2 == 1
    {}

    method DeviceAnswer(outLen: uint32, ghost t: byte, a: Answer)
      requires Valid() && Fits(outLen) && AwaitingReply(desc[..], outbox[..], outLen, t)
      requires pending != [] && |pending[|pending| - 1].reply| == outLen
      requires Legal(a, |pending| - 1) && InTime(a)
      modifies desc, outbox
      ensures desc[63] % 2 == 0
      ensures Gathered(desc[32..48], outbox[..], outLen) == Resized(pending[a.which].reply, outLen)
    {
      hide HoldsChain;
      var reply := pending[a.which].reply;
      if a.which == |pending| - 1 {
        DeviceReply(reply, a.statusOwn, t);
        GatheredReply(desc[..], outbox[..], reply);
        assert reply[..outLen] == reply;
      } else {
        DeviceLate(reply, a.statusOwn);
        GatheredLate(desc[..], outbox[..], reply, outLen);
      }
    }

    /** The device answers a command given up before: it remembers where its output
        blocks were. */
    method DeviceLate(reply: bytes, statusOwn: byte)
      requires Valid() && Fits(|reply|)
      requires desc[32..48] == Repeat(INLINE, 0) && LatePayload(outbox[..], reply, 0)
      modifies desc, outbox
      ensures desc[63] == statusOwn
      ensures desc[32..48] == reply[..InlineLen(|reply|)] + Repeat(INLINE - InlineLen(|reply|), 0)
      ensures LatePayload(outbox[..], reply, NumBlocks(Extra(|reply|)))
    {
      hide LatePayload, Splice;
      for i := 0 to NumBlocks(Extra(|reply|))
        invariant LatePayload(outbox[..], reply, i)
        invariant desc[32..48] == Repeat(INLINE, 0)
      {
        LateStep(outbox[..], reply, i);
        Copy(outbox, i * STRIDE, Part(reply, i));
      }
      ghost var before := desc[..];
      CopyInline(reply, statusOwn);
      BlankTail(before, desc[..], reply[..InlineLen(|reply|)]);
    }

    /** Puts the answer together from the inline bytes and the output chain. */
    method ReadReply(outLen: uint32) returns (out: bytes)
      requires Valid() && Fits(outLen)
      ensures out == Gathered(desc[32..48], outbox[..], outLen)
    {
      var buf := new byte[outLen](_ => 0);
      Copy(buf, 0, desc[32..32 + InlineLen(outLen)]);
      assert buf[..InlineLen(outLen)] == desc[32..48][..InlineLen(outLen)];
      if outLen > INLINE {
        CopyFromChain(buf, INLINE, Extra(outLen), outbox);
      }
      out := buf[..];
      forall k | 0 <= k < outLen
        ensures out[k] == Gathered(desc[32..48], outbox[..], outLen)[k]
      {
        if k >= INLINE {
          assert out[INLINE + (k - INLINE)] == PayloadAt(outbox[..], k - INLINE);
        } else {
          assert out[k] == desc[32..48][..InlineLen(outLen)][k];
        }
      }
    }
  }

  /** An answer laid out by the device is put together as it was given. */
  lemma GatheredReply(desc: bytes, outbox: bytes, reply: bytes)
    requires |desc| == DESC_SIZE && |outbox| == MBOX_SIZE && Fits(|reply|)
    requires desc[32..32 + InlineLen(|reply|)] == reply[..InlineLen(|reply|)]
    requires forall k :: 0 <= k < Extra(|reply|) ==> PayloadAt(outbox, k) == reply[INLINE + k]
    ensures Gathered(desc[32..48], outbox, |reply|) == reply
  {
    assert desc[32..48][..InlineLen(|reply|)] == desc[32..32 + InlineLen(|reply|)];
  }

  /** The part of a reply that goes into output block `i`. */
  function Part(reply: bytes, i: nat): (p: bytes)
    requires i < NumBlocks(Extra(|reply|))
    ensures |p| == PieceLen(Extra(|reply|), i)
  {
    reply[INLINE + i * BLOCK_SIZE..INLINE + i * BLOCK_SIZE + PieceLen(Extra(|reply|), i)]
  }

  /** The first `i` blocks hold their parts of the reply, and all other payload is zero. */
  ghost predicate LatePayload(outbox: bytes, reply: bytes, i: nat) {
    && |outbox| == MBOX_SIZE
    && (forall k :: 0 <= k < MAX_BLOCKS * BLOCK_SIZE ==>
          PayloadAt(outbox, k) == if k < Extra(|reply|) && k < i * BLOCK_SIZE then reply[INLINE + k] else 0)
  }

  lemma LateStep(outbox: bytes, reply: bytes, i: nat)
    requires LatePayload(outbox, reply, i) && i < NumBlocks(Extra(|reply|)) <= MAX_BLOCKS
    ensures LatePayload(Splice(outbox, i * STRIDE, Part(reply, i)), reply, i + 1)
  {
    var outbox' := Splice(outbox, i * STRIDE, Part(reply, i));
    forall k | 0 <= k < MAX_BLOCKS * BLOCK_SIZE
      ensures PayloadAt(outbox', k) == if k < Extra(|reply|) && k < (i + 1) * BLOCK_SIZE then reply[INLINE + k] else 0
    {
      LateByte(outbox, reply, i, k);
    }
  }

  lemma LateByte(outbox: bytes, reply: bytes, i: nat, k: nat)
    requires |outbox| == MBOX_SIZE && i < NumBlocks(Extra(|reply|)) <= MAX_BLOCKS && k < MAX_BLOCKS * BLOCK_SIZE
    ensures PayloadAt(Splice(outbox, i * STRIDE, Part(reply, i)), k)
         == if i * BLOCK_SIZE <= k < i * BLOCK_SIZE + PieceLen(Extra(|reply|), i) then reply[INLINE + k]
            else PayloadAt(outbox, k)
  {
    var b, r := k / BLOCK_SIZE, k % BLOCK_SIZE;
    assert k == b * BLOCK_SIZE + r;
  }

  lemma BlankTail(before: bytes, after: bytes, part: bytes)
    requires |before| == |after| == DESC_SIZE && |part| <= INLINE && before[32..48] == Repeat(INLINE, 0)
    requires after[32..48] == Splice(before, 32, part)[32..48]
    ensures after[32..48] == part + Repeat(INLINE - |part|, 0)
  {
    var now := Splice(before, 32, part);
    forall k | 0 <= k < INLINE
      ensures after[32..48][k] == (part + Repeat(INLINE - |part|, 0))[k]
    {
      assert after[32..48][k] == now[32..48][k] == now[32 + k];
      assert k >= |part| ==> now[32 + k] == before[32 + k] == before[32..48][k];
    }
  }

  /** An answer laid out for another length is put together cut or filled up. */
  lemma GatheredLate(desc: bytes, outbox: bytes, reply: bytes, outLen: nat)
    requires |desc| == DESC_SIZE && Fits(|reply|) && Fits(outLen)
    requires desc[32..48] == reply[..InlineLen(|reply|)] + Repeat(INLINE - InlineLen(|reply|), 0)
    requires LatePayload(outbox, reply, NumBlocks(Extra(|reply|)))
    ensures Gathered(desc[32..48], outbox, outLen) == Resized(reply, outLen)
  {
    var g, r := Gathered(desc[32..48], outbox, outLen), Resized(reply, outLen);
    forall k | 0 <= k < outLen ensures g[k] == r[k] {
      if k >= INLINE {
        assert g[k] == PayloadAt(outbox, k - INLINE);
      }
    }
  }

  /** One command of a run: what the device will answer to it, and what it does while the
      driver waits. */
  datatype Command = Command(input: bytes, outLen: uint32, reply: bytes, answer: Answer)

  predicate Sent(c: Command) { Fits(|c.input|) && Fits(c.outLen) }

  /** The commands pending after command number `n`, with `p` pending before. */
  function PendingNext(p: seq<Pending>, n: nat, c: Command): seq<Pending> {
    var all := p + [Pending(n, c.reply)];
    if !Sent(c) then p
    else if InTime(c.answer) && c.answer.which < |all| then Remove(all, c.answer.which)
    else all
  }

  /** What the caller gets for command number `n`, with `p` pending before. */
  function Result(p: seq<Pending>, n: nat, c: Command): (out: bytes)
    requires Legal(c.answer, |p|)
  {
    if Sent(c) && InTime(c.answer) then Resized((p + [Pending(n, c.reply)])[c.answer.which].reply, c.outLen) else []
  }

  predicate Succeeds(c: Command, out: bytes) {
    Sent(c) && InTime(c.answer) && (out == [] || out[0] == 0)
  }

  /** The commands pending after a run. */
  function After(cmds: seq<Command>): (p: seq<Pending>) {
    if cmds == [] then [] else PendingNext(After(cmds[..|cmds| - 1]), |cmds| - 1, cmds[|cmds| - 1])
  }

  method Apply(ctx: CmdCtx, c: Command) returns (rc: int, out: bytes)
    requires ctx.Valid() && |c.reply| == c.outLen && Legal(c.answer, |ctx.pending|)
    modifies ctx, ctx.desc, ctx.inbox, ctx.outbox
    ensures ctx.Valid() && ctx.issued == old(ctx.issued) + 1
    ensures ctx.pending == PendingNext(old(ctx.pending), old(ctx.issued), c)
    ensures out == Result(old(ctx.pending), old(ctx.issued), c)
    ensures rc == 0 <==> Succeeds(c, out)
  {
    hide Fits, Resized;
    FitsIff(|c.input|);
    FitsIff(c.outLen);
    ghost var seen;
    rc, out, seen := ctx.Exec(c.input, c.outLen, c.reply, c.answer);
  }

  /** Any run of commands: the caller gets for each the resized reply of the command that
      the device answered, and the own reply as long as none was given up before. */
  method Run(cmds: seq<Command>) returns (rcs: seq<int>, outs: seq<bytes>)
    requires forall i :: 0 <= i < |cmds| ==>
               |cmds[i].reply| == cmds[i].outLen && Legal(cmds[i].answer, |After(cmds[..i])|)
    ensures |outs| == |rcs| == |cmds|
    ensures forall i :: 0 <= i < |cmds| ==> outs[i] == Result(After(cmds[..i]), i, cmds[i])
    ensures forall i :: 0 <= i < |cmds| ==> (rcs[i] == 0 <==> Succeeds(cmds[i], outs[i]))
    ensures forall i ::
              (&& 0 <= i < |cmds| && After(cmds[..i]) == [] && InTime(cmds[i].answer)
               && |cmds[i].input| <= 16 + 256 * 512 && cmds[i].outLen <= 16 + 256 * 512) ==>
              outs[i] == cmds[i].reply && (rcs[i] == 0 <==> outs[i] == [] || outs[i][0] == 0)
  {
    hide After, PendingNext, Result, Succeeds, Sent;
    var ctx := new CmdCtx();
    rcs, outs := [], [];
    NoneAtFirst();
    assert cmds[..0] == [];
    for i := 0 to |cmds|
      invariant fresh(ctx) && fresh(ctx.desc) && fresh(ctx.inbox) && fresh(ctx.outbox)
      invariant ctx.Valid() && ctx.issued == i && ctx.pending == After(cmds[..i]) && |outs| == |rcs| == i
      invariant forall k :: 0 <= k < i ==> outs[k] == Result(After(cmds[..k]), k, cmds[k])
      invariant forall k :: 0 <= k < i ==> (rcs[k] == 0 <==> Succeeds(cmds[k], outs[k]))
    {
      AfterMore(cmds, i);
      var rc, out := Apply(ctx, cmds[i]);
      rcs, outs := rcs + [rc], outs + [out];
    }
    forall i | 0 <= i < |cmds| && After(cmds[..i]) == [] && InTime(cmds[i].answer)
               && |cmds[i].input| <= 16 + 256 * 512 && cmds[i].outLen <= 16 + 256 * 512
      ensures outs[i] == cmds[i].reply && (rcs[i] == 0 <==> outs[i] == [] || outs[i][0] == 0)
    {
      OwnResult(i, cmds[i], outs[i]);
    }
  }

  lemma NoneAtFirst()
    ensures After([]) == []
  {}

  lemma AfterMore(cmds: seq<Command>, i: nat)
    requires i < |cmds|
    ensures After(cmds[..i + 1]) == PendingNext(After(cmds[..i]), i, cmds[i])
  {
    assert cmds[..i + 1][..i] == cmds[..i];
  }

  lemma OwnResult(n: nat, c: Command, out: bytes)
    requires Legal(c.answer, 0) && |c.reply| == c.outLen && InTime(c.answer)
    requires |c.input| <= 16 + 256 * 512 && c.outLen <= 16 + 256 * 512
    ensures Result([], n, c) == c.reply
    ensures Succeeds(c, out) <==> out == [] || out[0] == 0
  {
    FitsIff(|c.input|);
    FitsIff(c.outLen);
    ResizedSame(c.reply);
  }

  lemma ResizedSame(r: bytes)
    ensures Resized(r, |r|) == r
  {}

  /** As long as every command that was sent is answered in time, none is pending. */
  lemma {:induction false} NonePending(cmds: seq<Command>)
    requires forall i :: 0 <= i < |cmds| ==> Legal(cmds[i].answer, |After(cmds[..i])|)
    requires forall i :: 0 <= i < |cmds| && Sent(cmds[i]) ==> InTime(cmds[i].answer)
    ensures After(cmds) == []
  {
    if cmds != [] {
      var n := |cmds| - 1;
      forall i | 0 <= i < n ensures Legal(cmds[..n][i].answer, |After(cmds[..n][..i])|) {
        assert cmds[..n][..i] == cmds[..i];
      }
      NonePending(cmds[..n]);
      AfterMore(cmds, n);
      assert cmds[..n + 1] == cmds;
    }
  }

  /** The second of two commands gets the first one's late reply as its own, with success,
      whatever its own would have been. */
  method StaleAnswerIsTaken(first: bytes, second: bytes, late: bytes, own: bytes) returns (rc: int, out: bytes)
    requires |first| <= INLINE && |second| <= INLINE && |late| == |own| == INLINE && late[0] == 0
    ensures rc == 0 && out == late
  {
    var ctx := new CmdCtx();
    ghost var seen;
    rc, out, seen := ctx.Exec(first, INLINE, late, Silent);
    rc, out, seen := ctx.Exec(second, INLINE, own, Finish(0, 0, 0));
    ResizedSame(late);
  }

  /** The command is with the device, and the output chain is laid out for it. */
  ghost predicate AwaitingReply(desc: bytes, outbox: bytes, outLen: nat, t: byte) {
    && |desc| == DESC_SIZE && desc[63] == OWNER_HW
    && GetBe64(desc, 48) == (if Extra(outLen) != 0 then OUTBOX_IOVA else 0)
    && HoldsChain(outbox, OUTBOX_IOVA, Repeat(Extra(outLen), 0), t, NumBlocks(Extra(outLen)))
    && desc[32..48] == Repeat(INLINE, 0)
    && (forall k :: 0 <= k < MAX_BLOCKS * BLOCK_SIZE ==> PayloadAt(outbox, k) == 0)
  }

  /** A chain laid out without data in a cleared mailbox carries zeros only. */
  lemma BlankPayload(outbox: bytes, extra: nat, t: byte)
    requires HoldsChain(outbox, OUTBOX_IOVA, Repeat(extra, 0), t, NumBlocks(extra))
    requires forall k :: NumBlocks(extra) <= k < MAX_BLOCKS ==> BlockAt(outbox, k) == BlockAt(Repeat(MBOX_SIZE, 0), k)
    ensures forall k :: 0 <= k < MAX_BLOCKS * BLOCK_SIZE ==> PayloadAt(outbox, k) == 0
  {
    hide Block;
    var src := Repeat(extra, 0);
    forall k | 0 <= k < MAX_BLOCKS * BLOCK_SIZE ensures PayloadAt(outbox, k) == 0 {
      var i := k / BLOCK_SIZE;
      assert PayloadAt(outbox, k) == BlockAt(outbox, i)[k % BLOCK_SIZE];
      if i < NumBlocks(extra) {
        assert BlockAt(outbox, i) == ChainBlock(OUTBOX_IOVA, src, t, i);
        BlockFields(Piece(src, i), NextPointer(OUTBOX_IOVA, NumBlocks(extra), i), i, t);
        assert BlockAt(outbox, i)[k % BLOCK_SIZE] == BlockAt(outbox, i)[..BLOCK_SIZE][k % BLOCK_SIZE];
      }
    }
  }

  lemma EmptyChain(outbox: bytes, t: byte)
    requires |outbox| == MBOX_SIZE
    ensures HoldsChain(outbox, OUTBOX_IOVA, Repeat(0, 0), t, 0)
  {}

  /** The extra bytes fit a mailbox of 256 blocks. */
  predicate Fits(len: nat) { NumBlocks(Extra(len)) <= MAX_BLOCKS }

  lemma FitsIff(len: nat)
    ensures Fits(len) <==> len <= 16 + 256 * 512
  {}

  /** The device has filled the first `i` blocks of the output chain and not touched the
      others. */
  ghost predicate Replied(outbox: bytes, src: bytes, t: byte, reply: bytes, i: nat) {
    && |outbox| == MBOX_SIZE && |src| == Extra(|reply|) && NumBlocks(|src|) <= MAX_BLOCKS
    && (forall k :: i <= k < NumBlocks(|src|) ==> BlockAt(outbox, k) == ChainBlock(OUTBOX_IOVA, src, t, k))
    && (forall k :: 0 <= k < |src| && k < i * BLOCK_SIZE ==> PayloadAt(outbox, k) == reply[INLINE + k])
  }

  lemma StartReply(outbox: bytes, t: byte, reply: bytes)
    requires HoldsChain(outbox, OUTBOX_IOVA, Repeat(Extra(|reply|), 0), t, NumBlocks(Extra(|reply|)))
    ensures Replied(outbox, Repeat(Extra(|reply|), 0), t, reply, 0)
  {}

  lemma ReplyStep(outbox: bytes, src: bytes, t: byte, reply: bytes, i: nat)
    requires Replied(outbox, src, t, reply, i) && i < NumBlocks(|src|)
    ensures GetBe64(BlockAt(outbox, i), BLOCK_SIZE + 48) == NextPointer(OUTBOX_IOVA, NumBlocks(|src|), i)
    ensures var piece := reply[INLINE + i * BLOCK_SIZE..INLINE + i * BLOCK_SIZE + PieceLen(|src|, i)];
      Replied(Splice(outbox, i * STRIDE, piece), src, t, reply, i + 1)
  {
    hide Block, Piece, GetBe64;
    var piece := reply[INLINE + i * BLOCK_SIZE..INLINE + i * BLOCK_SIZE + PieceLen(|src|, i)];
    BlockFields(Piece(src, i), NextPointer(OUTBOX_IOVA, NumBlocks(|src|), i), i, t);
    assert BlockAt(outbox, i) == ChainBlock(OUTBOX_IOVA, src, t, i);
    var outbox' := Splice(outbox, i * STRIDE, piece);
    forall k | i < k < NumBlocks(|src|)
      ensures BlockAt(outbox', k) == ChainBlock(OUTBOX_IOVA, src, t, k)
    {
      SpliceOutside(outbox, i * STRIDE, piece, k * STRIDE, k * STRIDE + PROT_BLOCK_SIZE);
    }
    forall k | 0 <= k < |src| && k < (i + 1) * BLOCK_SIZE
      ensures PayloadAt(outbox', k) == reply[INLINE + k]
    {
      if k < i * BLOCK_SIZE {
        assert PayloadAt(outbox, k) == reply[INLINE + k];
      } else {
        assert k / BLOCK_SIZE == i;
      }
    }
  }

  function Next(t: byte): byte { ((t as int + 1) % 256) as byte }

  lemma NextToken(n: nat)
    ensures var s := Next(TokenField(n));
      if n == 0 then s == TokenOf(0) && Next(s) == TokenField(1)
      else TokenField(n + 1) == if s == 0 then 1 else s
  {
    AddMod(n, 1, 255);
  }
}
