/** The device address space: every region the driver ever maps, and where. */
module AddressSpace {
  import opened Words
  import opened Modular
  import CommandPath
  import CompletionQueue
  import Mailbox
  import RecvFifo
  import RecvQueue
  import SendQueue

  const PAGE_SIZE := RecvQueue.PAGE_SIZE
  const MAX_QUEUES := 8
  const MAX_FW_PAGES := 8192
  const RQ_WQE_COUNT := RecvFifo.RQ_WQE_COUNT
  const MBOX_SIZE := Mailbox.MBOX_SIZE
  const CQ_BYTES := CompletionQueue.CQ_BYTES
  const SQ_BYTES := SendQueue.RING_BYTES
  const RQ_BYTES := RecvQueue.RING_BYTES

  datatype Region =
    | CmdQueue | Inbox | Outbox
    | FwPage(i: nat)
    | EqPage
    | TxCqRing(q: nat) | TxCqDbr(q: nat)
    | SqRing(q: nat) | SqDbr(q: nat) | TxPage(q: nat)
    | RxCqRing(q: nat) | RxCqDbr(q: nat)
    | RqRing(q: nat) | RqDbr(q: nat) | RxPage(q: nat, slot: nat)

  function Iova(g: Region): nat {
    match g
    case CmdQueue => 0x0100_0000
    case Inbox => CommandPath.INBOX_IOVA
    case Outbox => CommandPath.OUTBOX_IOVA
    case FwPage(i) => 0x0300_0000 + i * PAGE_SIZE
    case EqPage => 0x0720_0000
    case TxCqRing(q) => 0x0400_0000 + q * 0x0010_0000
    case TxCqDbr(q) => 0x0400_0000 + q * 0x0010_0000 + 0x0004_0000
    case SqRing(q) => 0x0500_0000 + q * 0x0010_0000
    case SqDbr(q) => 0x0500_0000 + q * 0x0010_0000 + 0x0008_0000
    case TxPage(q) => 0x0500_0000 + q * 0x0010_0000 + 0x0008_1000
    case RxCqRing(q) => 0x0a00_0000 + q * 0x0020_0000
    case RxCqDbr(q) => 0x0a00_0000 + q * 0x0020_0000 + 0x0004_0000
    case RqRing(q) => 0x0c00_0000 + q * 0x0200_0000
    case RqDbr(q) => 0x0c00_0000 + q * 0x0200_0000 + 0x0001_0000
    case RxPage(q, s) => 0x0c00_0000 + q * 0x0200_0000 + 0x0010_0000 + s * PAGE_SIZE
  }

  function Length(g: Region): nat {
    match g
    case Inbox => MBOX_SIZE
    case Outbox => MBOX_SIZE
    case TxCqRing(_) => CQ_BYTES
    case RxCqRing(_) => CQ_BYTES
    case SqRing(_) => SQ_BYTES
    case RqRing(_) => RQ_BYTES
    case _ => PAGE_SIZE
  }

  predicate IsTx(g: Region) {
    g.TxCqRing? || g.TxCqDbr? || g.SqRing? || g.SqDbr? || g.TxPage?
  }

  /** The regions that a device with up to `queues` queues, `fwPages` firmware pages and
      transmit enabled or not may map. */
  predicate Mappable(g: Region, tx: bool, queues: nat, fwPages: nat) {
    match g
    case CmdQueue => true
    case Inbox => true
    case Outbox => true
    case EqPage => true
    case FwPage(i) => i < fwPages
    case RxPage(q, s) => q < queues && s < RQ_WQE_COUNT
    case RxCqRing(q) => q < queues
    case RxCqDbr(q) => q < queues
    case RqRing(q) => q < queues
    case RqDbr(q) => q < queues
    case _ => tx && g.q < queues
  }

  predicate Disjoint(g: Region, h: Region) {
    Iova(g) + Length(g) <= Iova(h) || Iova(h) + Length(h) <= Iova(g)
  }

  /** All mappable regions are page-aligned and pairwise disjoint. */
  ghost predicate AllDisjoint(tx: bool, queues: nat, fwPages: nat) {
    forall g, h :: Mappable(g, tx, queues, fwPages) && Mappable(h, tx, queues, fwPages) && g != h ==> Disjoint(g, h)
  }

  lemma PageAligned(g: Region)
    ensures Iova(g) % PAGE_SIZE == 0 && Length(g) % PAGE_SIZE == 0
  {
    ModUnique(Iova(g), PAGE_SIZE, Page(g), 0);
  }

  /** The number of the first page of a region. */
  function Page(g: Region): (n: nat)
    ensures Iova(g) == n * PAGE_SIZE
  {
    match g
    case CmdQueue => 0x1000
    case Inbox => 0x1800
    case Outbox => 0x2000
    case FwPage(i) => 0x3000 + i
    case EqPage => 0x7200
    case TxCqRing(q) => 0x4000 + q * 0x100
    case TxCqDbr(q) => 0x4000 + q * 0x100 + 0x40
    case SqRing(q) => 0x5000 + q * 0x100
    case SqDbr(q) => 0x5000 + q * 0x100 + 0x80
    case TxPage(q) => 0x5000 + q * 0x100 + 0x81
    case RxCqRing(q) => 0xa000 + q * 0x200
    case RxCqDbr(q) => 0xa000 + q * 0x200 + 0x40
    case RqRing(q) => 0xc000 + q * 0x2000
    case RqDbr(q) => 0xc000 + q * 0x2000 + 0x10
    case RxPage(q, s) => 0xc000 + q * 0x2000 + 0x100 + s
  }

  /** The address space is cut into one zone per group of regions. */
  datatype Zone = Zone(lo: nat, hi: nat)

  function ZoneOf(g: Region, fwPages: nat): Zone {
    match g
    case CmdQueue => Zone(0x0100_0000, 0x0180_0000)
    case Inbox => Zone(0x0180_0000, 0x0200_0000)
    case Outbox => Zone(0x0200_0000, 0x0300_0000)
    case FwPage(_) => Zone(0x0300_0000, 0x0300_0000 + fwPages * PAGE_SIZE)
    case EqPage => Zone(0x0720_0000, 0x0a00_0000)
    case TxCqRing(_) => Zone(0x0400_0000, 0x0500_0000)
    case TxCqDbr(_) => Zone(0x0400_0000, 0x0500_0000)
    case SqRing(_) => Zone(0x0500_0000, 0x0720_0000)
    case SqDbr(_) => Zone(0x0500_0000, 0x0720_0000)
    case TxPage(_) => Zone(0x0500_0000, 0x0720_0000)
    case RxCqRing(_) => Zone(0x0a00_0000, 0x0c00_0000)
    case RxCqDbr(_) => Zone(0x0a00_0000, 0x0c00_0000)
    case RqRing(_) => Zone(0x0c00_0000, 0x1c00_0000)
    case RqDbr(_) => Zone(0x0c00_0000, 0x1c00_0000)
    case RxPage(_, _) => Zone(0x0c00_0000, 0x1c00_0000)
  }

  predicate PerQueue(g: Region) {
    !g.CmdQueue? && !g.Inbox? && !g.Outbox? && !g.FwPage? && !g.EqPage?
  }

  /** The part of a queue's zone that belongs to one queue. */
  function QueueSlice(g: Region): Zone
    requires PerQueue(g)
  {
    if g.TxCqRing? || g.TxCqDbr? then Zone(0x0400_0000 + g.q * 0x0010_0000, 0x0400_0000 + (g.q + 1) * 0x0010_0000)
    else if IsTx(g) then Zone(0x0500_0000 + g.q * 0x0010_0000, 0x0500_0000 + (g.q + 1) * 0x0010_0000)
    else if g.RxCqRing? || g.RxCqDbr? then Zone(0x0a00_0000 + g.q * 0x0020_0000, 0x0a00_0000 + (g.q + 1) * 0x0020_0000)
    else Zone(0x0c00_0000 + g.q * 0x0200_0000, 0x0c00_0000 + (g.q + 1) * 0x0200_0000)
  }

  lemma InZone(g: Region, tx: bool, queues: nat, fwPages: nat)
    requires queues <= MAX_QUEUES && Mappable(g, tx, queues, fwPages)
    ensures ZoneOf(g, fwPages).lo <= Iova(g) && Iova(g) + Length(g) <= ZoneOf(g, fwPages).hi
    ensures PerQueue(g) ==> QueueSlice(g).lo <= Iova(g) && Iova(g) + Length(g) <= QueueSlice(g).hi
  {}

  lemma ZonesDisjoint(g: Region, h: Region, tx: bool, queues: nat, fwPages: nat)
    requires queues <= MAX_QUEUES && fwPages <= MAX_FW_PAGES && (!tx || fwPages <= 4096)
    requires Mappable(g, tx, queues, fwPages) && Mappable(h, tx, queues, fwPages)
    requires ZoneOf(g, fwPages) != ZoneOf(h, fwPages)
    ensures Disjoint(g, h)
  {
    hide Iova, Length;
    InZone(g, tx, queues, fwPages);
    InZone(h, tx, queues, fwPages);
  }

  lemma SameZoneDisjoint(g: Region, h: Region, tx: bool, queues: nat, fwPages: nat)
    requires queues <= MAX_QUEUES && fwPages <= MAX_FW_PAGES
    requires Mappable(g, tx, queues, fwPages) && Mappable(h, tx, queues, fwPages) && g != h
    requires ZoneOf(g, fwPages) == ZoneOf(h, fwPages) && PerQueue(g) && PerQueue(h)
    ensures Disjoint(g, h)
  {
    if g.q != h.q {
      SlicesDisjoint(g, h, tx, queues, fwPages);
    }
  }

  lemma SlicesDisjoint(g: Region, h: Region, tx: bool, queues: nat, fwPages: nat)
    requires queues <= MAX_QUEUES && Mappable(g, tx, queues, fwPages) && Mappable(h, tx, queues, fwPages)
    requires PerQueue(g) && PerQueue(h) && ZoneOf(g, fwPages) == ZoneOf(h, fwPages) && g.q != h.q
    ensures Disjoint(g, h)
  {
    hide Iova, Length, Mappable;
    InZone(g, tx, queues, fwPages);
    InZone(h, tx, queues, fwPages);
  }

  /** The driver's own cap of 8192 firmware pages is twice too high for a transmitting
      device: the 4097th firmware page would lie on the completion ring of transmit
      queue 0.  Up to 4096 pages, and for a receive-only device up to the cap,
      everything is disjoint. */
  lemma DisjointIff(tx: bool, queues: nat, fwPages: nat)
    requires 0 < queues <= MAX_QUEUES && fwPages <= MAX_FW_PAGES
    ensures AllDisjoint(tx, queues, fwPages) <==> !tx || fwPages <= 4096
  {
    hide Disjoint, Iova, Length, ZoneOf;
    if !tx || fwPages <= 4096 {
      forall g, h | Mappable(g, tx, queues, fwPages) && Mappable(h, tx, queues, fwPages) && g != h
        ensures Disjoint(g, h)
      {
        PairDisjoint(g, h, tx, queues, fwPages);
      }
    } else {
      FirmwarePageHitsRing();
      assert Mappable(FwPage(4096), tx, queues, fwPages) && Mappable(TxCqRing(0), tx, queues, fwPages);
    }
  }

  lemma FirmwarePageHitsRing()
    ensures !Disjoint(FwPage(4096), TxCqRing(0))
  {}

  lemma PairDisjoint(g: Region, h: Region, tx: bool, queues: nat, fwPages: nat)
    requires queues <= MAX_QUEUES && fwPages <= MAX_FW_PAGES && (!tx || fwPages <= 4096)
    requires Mappable(g, tx, queues, fwPages) && Mappable(h, tx, queues, fwPages) && g != h
    ensures Disjoint(g, h)
  {
    if ZoneOf(g, fwPages) != ZoneOf(h, fwPages) {
      ZonesDisjoint(g, h, tx, queues, fwPages);
    } else if PerQueue(g) && PerQueue(h) {
      SameZoneDisjoint(g, h, tx, queues, fwPages);
    }
  }

  // ----- page lists -----

  /** The page addresses written into a create command at `pasOff`. */
  predicate ListsPages(cmd: bytes, pasOff: nat, base: nat, pages: nat) {
    && pasOff + pages * 8 <= |cmd|
    && (forall i :: 0 <= i < pages ==> GetBe64(cmd, pasOff + i * 8) == base + i * PAGE_SIZE)
  }

  /** Writes `pages` consecutive page addresses. */
  method FillPas(cmd: array<byte>, pasOff: nat, base: nat, pages: nat)
    requires pasOff + pages * 8 <= cmd.Length && base + pages * PAGE_SIZE < U64
    modifies cmd
    ensures ListsPages(cmd[..], pasOff, base, pages)
    ensures cmd[..pasOff] == old(cmd[..pasOff]) && cmd[pasOff + pages * 8..] == old(cmd[pasOff + pages * 8..])
  {
    hide Be64, GetBe64, ListsPages;
    ListsNone(cmd[..], pasOff, base);
    for i := 0 to pages
      invariant ListsPages(cmd[..], pasOff, base, i)
      invariant cmd[..pasOff] == old(cmd[..pasOff]) && cmd[pasOff + i * 8..] == old(cmd[pasOff + i * 8..])
    {
      ListsMore(cmd[..], pasOff, base, i);
      Copy(cmd, pasOff + i * 8, Be64(base + i * PAGE_SIZE));
    }
  }

  lemma ListsNone(s: bytes, pasOff: nat, base: nat)
    requires pasOff <= |s|
    ensures ListsPages(s, pasOff, base, 0)
  {}

  lemma ListsMore(s: bytes, pasOff: nat, base: nat, n: nat)
    requires ListsPages(s, pasOff, base, n) && pasOff + n * 8 + 8 <= |s| && base + n * PAGE_SIZE < U64
    ensures ListsPages(Splice(s, pasOff + n * 8, Be64(base + n * PAGE_SIZE)), pasOff, base, n + 1)
  {
    hide Be64, GetBe64, Splice;
    var field := Be64(base + n * PAGE_SIZE);
    var s' := Splice(s, pasOff + n * 8, field);
    SpliceInside(s, pasOff + n * 8, field);
    GetPut64(s', pasOff + n * 8, base + n * PAGE_SIZE);
    forall k | 0 <= k < n
      ensures GetBe64(s', pasOff + k * 8) == base + k * PAGE_SIZE
    {
      SpliceOutside(s, pasOff + n * 8, field, pasOff + k * 8, pasOff + k * 8 + 8);
      GetSame64(s, s', pasOff + k * 8);
    }
  }

  lemma GetSame64(s: bytes, t: bytes, off: nat)
    requires off + 8 <= |s| == |t| && s[off..off + 8] == t[off..off + 8]
    ensures GetBe64(s, off) == GetBe64(t, off)
  {
    forall k | off <= k < off + 8
      ensures s[k] == t[k]
    {
      assert s[k] == s[off..off + 8][k - off] && t[k] == t[off..off + 8][k - off];
    }
  }

  const CREATE_CQ_IN_SIZE := 0x210
  const CREATE_SQ_IN_SIZE := 0x510
  const CREATE_RQ_IN_SIZE := 0x210
  const PAS_OFF := 0x110

  /** Page count and command size of the create command for a ring. */
  function PasPages(g: Region): nat { Length(g) / PAGE_SIZE }

  function CommandSize(g: Region): nat {
    if g.SqRing? then CREATE_SQ_IN_SIZE else if g.RqRing? then CREATE_RQ_IN_SIZE else CREATE_CQ_IN_SIZE
  }

  lemma PagesCover(cmd: bytes, pasOff: nat, base: nat, pages: nat, addr: nat)
    requires ListsPages(cmd, pasOff, base, pages) && base % PAGE_SIZE == 0 && addr % PAGE_SIZE == 0
    ensures base <= addr < base + pages * PAGE_SIZE
        <==> exists i :: 0 <= i < pages && GetBe64(cmd, pasOff + i * 8) == addr
  {
    hide GetBe64;
    if base <= addr < base + pages * PAGE_SIZE {
      var i := addr / PAGE_SIZE - base / PAGE_SIZE;
      assert GetBe64(cmd, pasOff + i * 8) == addr;
    }
  }

  /** The page list of each queue ring fits its create command and names every page of
      the ring and nothing else. */
  lemma PasCoversRing(g: Region, cmd: bytes, addr: nat)
    requires g.TxCqRing? || g.RxCqRing? || g.SqRing? || g.RqRing?
    requires |cmd| == CommandSize(g)
    ensures PAS_OFF + PasPages(g) * 8 == CommandSize(g) - if g.RqRing? then 0x80 else 0
    ensures ListsPages(cmd, PAS_OFF, Iova(g), PasPages(g)) && addr % PAGE_SIZE == 0 ==>
              (Iova(g) <= addr < Iova(g) + Length(g)
               <==> exists i :: 0 <= i < PasPages(g) && GetBe64(cmd, PAS_OFF + i * 8) == addr)
  {
    PageAligned(g);
    if ListsPages(cmd, PAS_OFF, Iova(g), PasPages(g)) && addr % PAGE_SIZE == 0 {
      PagesCover(cmd, PAS_OFF, Iova(g), PasPages(g), addr);
    }
  }
}
