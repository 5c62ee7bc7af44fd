/** Bringing a device up and tearing it down: about 25 fallible steps, one cleanup
    routine.  The firmware is a set of live objects that refer to each other. */
module Lifecycle {
  import opened AddressSpace
  import opened Optional

  datatype Role =
    | Uar | Pd | Tdn | QCounter | Mkey | Tis | Eq
    | TxCq(q: nat) | Sq(q: nat) | RxCq(q: nat) | Rq(q: nat)
    | Rqt | Tir | FlowTable | FlowGroup | Fte

  /** Object `o`, once created, refers to object `r`. */
  predicate Refers(o: Role, r: Role, queues: nat) {
    match o
    case Uar => false
    case Pd => false
    case Tdn => false
    case QCounter => false
    case FlowTable => false
    case Mkey => r == Pd
    case Tis => r == Tdn
    case Eq => r == Uar
    case TxCq(_) => r == Eq || r == Uar
    case Sq(q) => r == TxCq(q) || r == Tis || r == Pd || r == Uar
    case RxCq(_) => r == Eq || r == Uar
    case Rq(q) => r == RxCq(q) || r == Pd || r == QCounter || r == Mkey
    case Rqt => r.Rq? && r.q < queues
    case Tir => r == Rqt || r == Tdn
    case FlowGroup => r == FlowTable
    case Fte => r == FlowTable || r == FlowGroup || r == Tir
  }

  /** The regions that back an object, in the order in which they are mapped. */
  function Backing(r: Role): seq<Region> {
    match r
    case Eq => [EqPage]
    case TxCq(q) => [TxCqRing(q), TxCqDbr(q)]
    case Sq(q) => [SqRing(q), SqDbr(q), TxPage(q)]
    case RxCq(q) => [RxCqRing(q), RxCqDbr(q)]
    case Rq(q) => [RqRing(q), RqDbr(q)]
    case _ => []
  }

  /** The object whose record keeps track of a region; None for the command context. */
  function OwnerOf(g: Region): Option<Role> {
    match g
    case CmdQueue => None
    case Inbox => None
    case Outbox => None
    case FwPage(_) => None
    case EqPage => Some(Eq)
    case TxCqRing(q) => Some(TxCq(q))
    case TxCqDbr(q) => Some(TxCq(q))
    case SqRing(q) => Some(Sq(q))
    case SqDbr(q) => Some(Sq(q))
    case TxPage(q) => Some(Sq(q))
    case RxCqRing(q) => Some(RxCq(q))
    case RxCqDbr(q) => Some(RxCq(q))
    case RqRing(q) => Some(Rq(q))
    case RqDbr(q) => Some(Rq(q))
    case RxPage(q, _) => Some(Rq(q))
  }

  /** The object belongs to one of the device's queues, or to none in particular. */
  predicate InUse(r: Role, queues: nat) {
    match r
    case TxCq(q) => q < queues
    case Sq(q) => q < queues
    case RxCq(q) => q < queues
    case Rq(q) => q < queues
    case _ => true
  }

  /** The object is among those of a device with these flags and queues. */
  predicate Belongs(r: Role, tx: bool, rx: bool, queues: nat) {
    match r
    case Uar => true
    case Pd => true
    case Tdn => true
    case Eq => true
    case Mkey => tx || rx
    case Tis => tx
    case TxCq(q) => tx && q < queues
    case Sq(q) => tx && q < queues
    case RxCq(q) => rx && q < queues
    case Rq(q) => rx && q < queues
    case _ => rx
  }

  /** The position of each object in the cleanup routine. */
  function CleanupOrder(r: Role, queues: nat): nat {
    match r
    case Fte => 0
    case FlowGroup => 1
    case FlowTable => 2
    case Tir => 3
    case Rqt => 4
    case Rq(q) => 5 + 4 * q
    case Sq(q) => 6 + 4 * q
    case RxCq(q) => 7 + 4 * q
    case TxCq(q) => 8 + 4 * q
    case Eq => 5 + 4 * queues
    case Tis => 6 + 4 * queues
    case Mkey => 7 + 4 * queues
    case Tdn => 8 + 4 * queues
    case QCounter => 9 + 4 * queues
    case Pd => 10 + 4 * queues
    case Uar => 11 + 4 * queues
  }

  /** The cleanup routine takes every object down before anything it refers to, and has
      one place for each object. */
  lemma CleanupFollowsReferences(o: Role, r: Role, queues: nat)
    requires InUse(o, queues) && InUse(r, queues)
    ensures Refers(o, r, queues) ==> CleanupOrder(o, queues) < CleanupOrder(r, queues)
    ensures CleanupOrder(o, queues) == CleanupOrder(r, queues) ==> o == r
    ensures CleanupOrder(o, queues) < 12 + 4 * queues
  {}

  /** The driver recognises these by a nonzero id, all others by a flag. */
  predicate ById(r: Role) { r == Uar || r == Pd || r == Mkey }

  /** The driver's record of an object: whether it exists, and the memory mapped for it.
      A record never written is absent. */
  datatype Res = Res(valid: bool, regions: set<Region>)

  /** What the firmware does with a create command: refuse it, carry it out and answer with
      an id, or carry it out and answer when the driver has given up. */
  datatype Answer = Refused | Created(id: nat) | Unanswered

  /** Commands that create no object; the pages for booting and for running are `phase` 0
      and 1. */
  datatype Step =
    | EnableHca | SetIssi | QueryPages(phase: nat) | QueryPagesAgain(phase: nat) | GivePages(phase: nat)
    | QueryTimeouts | QueryCapabilities | SetCapabilities | InitHca | QueryPort | Promiscuous
    | SqToReady(q: nat) | RqToReady(q: nat) | FlowTableRoot

  /** One step of a start: a command that creates nothing, handing pages to the firmware,
      creating an object on its memory, or posting the receive buffers of a queue. */
  datatype Op = Cmd(step: Step) | Give(phase: nat) | Make(role: Role) | Post(q: nat)

  /** How firmware and operating system behave during one start. */
  datatype Env = Env(create: Role -> Answer, works: Step -> bool, maps: Region -> bool, pages: nat -> nat)
  {
    /** Pages given before a phase. */
    function Before(phase: nat): nat { if phase == 0 then 0 else pages(0) }

    /** A step succeeds, on a device with `slots` receive buffers per queue. */
    ghost predicate Does(op: Op, slots: nat) {
      match op
      case Cmd(s) => works(s)
      case Give(p) =>
        || pages(p) == 0
        || (&& Before(p) + pages(p) <= MAX_FW_PAGES && works(GivePages(p))
            && forall i: nat :: Before(p) <= i < Before(p) + pages(p) ==> maps(FwPage(i)))
      case Make(r) => create(r).Created? && Backed(r)
      case Post(q) => forall s: nat :: s < slots ==> maps(RxPage(q, s))
    }

    predicate Backed(r: Role) {
      forall g :: g in Backing(r) ==> maps(g)
    }

    /** The regions a step maps if it succeeds. */
    function MappedBy(op: Op, slots: nat): set<Region> {
      match op
      case Cmd(_) => {}
      case Give(p) => set i: nat | Before(p) <= i < Before(p) + pages(p) :: FwPage(i)
      case Make(r) => set g | g in Backing(r)
      case Post(q) => set s: nat | s < slots :: RxPage(q, s)
    }

    function MappedByAll(ops: seq<Op>, slots: nat): set<Region> {
      if ops == [] then {} else MappedByAll(ops[..|ops| - 1], slots) + MappedBy(ops[|ops| - 1], slots)
    }

    /** The object a step leaves behind, even if the step fails. */
    function Arising(op: Op): set<Role> {
      if op.Make? && !create(op.role).Refused? && Backed(op.role) then {op.role} else {}
    }

    /** The driver takes an object for absent. */
    predicate Unseen(r: Role) {
      create(r) == Unanswered || (ById(r) && create(r) == Created(0))
    }

    /** The command context can be opened. */
    predicate Opens() {
      maps(CmdQueue) && maps(Inbox) && maps(Outbox)
    }

    /** Everything works that a start with these flags and queues needs. */
    ghost predicate Permits(tx: bool, rx: bool, queues: nat, slots: nat) {
      && Opens()
      && (forall s :: Needs(s, tx, rx, queues) ==> works(s))
      && pages(0) + pages(1) <= 8192 && (forall i: nat :: i < pages(0) + pages(1) ==> maps(FwPage(i)))
      && (forall r :: Belongs(r, tx, rx, queues) ==> create(r).Created? && Backed(r))
      && (rx ==> forall q: nat, s: nat :: q < queues && s < slots ==> maps(RxPage(q, s)))
    }

    /** The commands that create nothing. */
    predicate Needs(s: Step, tx: bool, rx: bool, queues: nat) {
      match s
      case QueryPages(p) => p < 2
      case QueryPagesAgain(p) => p < 2
      case GivePages(p) => p < 2 && pages(p) > 0
      case Promiscuous => rx
      case FlowTableRoot => rx
      case SqToReady(q) => tx && q < queues
      case RqToReady(q) => rx && q < queues
      case _ => true
    }

    /** What a started device has mapped. */
    predicate Uses(g: Region, tx: bool, rx: bool, queues: nat, slots: nat) {
      match g
      case CmdQueue => true
      case Inbox => true
      case Outbox => true
      case EqPage => true
      case FwPage(i) => i < pages(0) + pages(1)
      case RxPage(q, s) => rx && q < queues && s < slots
      case RxCqRing(q) => rx && q < queues
      case RxCqDbr(q) => rx && q < queues
      case RqRing(q) => rx && q < queues
      case RqDbr(q) => rx && q < queues
      case _ => tx && g.q < queues
    }

    /** Nothing fails before the first object, and no mapping later. */
    ghost predicate Quiet() {
      (forall s :: works(s)) && (forall g :: maps(g)) && pages(0) + pages(1) <= MAX_FW_PAGES
    }

    /** Nothing fails at all. */
    ghost predicate Favourable() {
      Quiet() && forall r :: create(r).Created?
    }
  }

  // ----- the steps of a start, in order -----

  function BootOps(rx: bool): seq<Op> {
    [Cmd(EnableHca), Cmd(SetIssi)]
    + (PageOps(0)
       + ([Cmd(QueryTimeouts), Cmd(QueryCapabilities), Cmd(SetCapabilities)]
          + (PageOps(1) + ReadyOps(rx))))
  }

  function PageOps(phase: nat): seq<Op> { [Cmd(QueryPages(phase)), Cmd(QueryPagesAgain(phase)), Give(phase)] }

  function ReadyOps(rx: bool): seq<Op> {
    if rx then [Cmd(InitHca), Cmd(QueryPort), Cmd(Promiscuous)] else [Cmd(InitHca), Cmd(QueryPort)]
  }

  function SharedOps(tx: bool, rx: bool): seq<Op> {
    [Make(Uar), Make(Pd), Make(Tdn)] + ((if rx then [Make(QCounter)] else []) + SenderOps(tx, rx))
  }

  function SenderOps(tx: bool, rx: bool): seq<Op> {
    (if tx || rx then [Make(Mkey)] else []) + ((if tx then [Make(Tis)] else []) + [Make(Eq)])
  }

  function TxOps(q: nat, tx: bool): seq<Op> {
    if tx then [Make(TxCq(q)), Make(Sq(q)), Cmd(SqToReady(q))] else []
  }

  function RxOps(q: nat, rx: bool): seq<Op> {
    if rx then [Make(RxCq(q)), Make(Rq(q)), Cmd(RqToReady(q)), Post(q)] else []
  }

  /** The queues from `q` on, one after the other. */
  function QueueOps(q: nat, queues: nat, tx: bool, rx: bool): seq<Op>
    decreases queues - q
  {
    if q >= queues then [] else (TxOps(q, tx) + RxOps(q, rx)) + QueueOps(q + 1, queues, tx, rx)
  }

  function SteeringOps(rx: bool): seq<Op> {
    if rx then [Make(Rqt), Make(Tir), Make(FlowTable), Cmd(FlowTableRoot), Make(FlowGroup), Make(Fte)] else []
  }

  function StartOps(tx: bool, rx: bool, queues: nat): seq<Op> {
    BootOps(rx) + (SharedOps(tx, rx) + (QueueOps(0, queues, tx, rx) + SteeringOps(rx)))
  }

  function RolesOf(ops: seq<Op>): set<Role> {
    if ops == [] then {}
    else RolesOf(ops[..|ops| - 1]) + if ops[|ops| - 1].Make? then {ops[|ops| - 1].role} else {}
  }

  /** Which steps a start takes. */
  predicate Takes(op: Op, tx: bool, rx: bool, queues: nat) {
    match op
    case Cmd(s) =>
      (match s
       case SqToReady(q) => tx && q < queues
       case RqToReady(q) => rx && q < queues
       case QueryPages(p) => p < 2
       case QueryPagesAgain(p) => p < 2
       case GivePages(_) => false
       case Promiscuous => rx
       case FlowTableRoot => rx
       case _ => true)
    case Give(p) => p < 2
    case Make(r) => Belongs(r, tx, rx, queues)
    case Post(q) => rx && q < queues
  }

  lemma StartHas(op: Op, tx: bool, rx: bool, queues: nat)
    ensures op in StartOps(tx, rx, queues) <==> Takes(op, tx, rx, queues)
  {
    QueuesHave(op, 0, queues, tx, rx);
    QueueTakes(op, queues, tx, rx);
    OthersHave(op, tx, rx);
    hide QueueOps, BootOps, SharedOps, SteeringOps, Takes;
  }

  predicate OfQueue(op: Op) {
    match op
    case Cmd(s) => s.SqToReady? || s.RqToReady?
    case Make(r) => r.TxCq? || r.Sq? || r.RxCq? || r.Rq?
    case Give(_) => false
    case Post(_) => true
  }

  lemma QueueTakes(op: Op, queues: nat, tx: bool, rx: bool)
    ensures (exists k :: 0 <= k < queues && (op in TxOps(k, tx) || op in RxOps(k, rx))) <==>
              OfQueue(op) && Takes(op, tx, rx, queues)
  {
    if OfQueue(op) && Takes(op, tx, rx, queues) {
      var k := match op
        case Cmd(s) => s.q
        case Make(r) => r.q
        case Post(q) => q;
      assert op in TxOps(k, tx) || op in RxOps(k, rx);
    }
  }

  lemma OthersHave(op: Op, tx: bool, rx: bool)
    ensures op in BootOps(rx) || op in SharedOps(tx, rx) || op in SteeringOps(rx) <==>
              !OfQueue(op) && Takes(op, tx, rx, 0)
    ensures !OfQueue(op) ==> forall queues :: Takes(op, tx, rx, queues) <==> Takes(op, tx, rx, 0)
  {
    BootHas(op, tx, rx);
    SharedHas(op, tx, rx);
    hide BootOps, SharedOps;
  }

  lemma BootHas(op: Op, tx: bool, rx: bool)
    ensures op in BootOps(rx) <==>
              !OfQueue(op) && Takes(op, tx, rx, 0) && !op.Make? && op != Cmd(FlowTableRoot)
  {}

  lemma SharedHas(op: Op, tx: bool, rx: bool)
    ensures op in SharedOps(tx, rx) <==>
              && !OfQueue(op) && Takes(op, tx, rx, 0) && op.Make?
              && op.role !in {Rqt, Tir, FlowTable, FlowGroup, Fte}
  {}

  lemma {:induction false} QueuesHave(op: Op, q: nat, queues: nat, tx: bool, rx: bool)
    ensures op in QueueOps(q, queues, tx, rx) <==>
              exists k :: q <= k < queues && (op in TxOps(k, tx) || op in RxOps(k, rx))
    decreases queues - q
  {
    if q < queues {
      QueuesHave(op, q + 1, queues, tx, rx);
      hide TxOps, RxOps;
      assert op in QueueOps(q, queues, tx, rx) <==>
               op in TxOps(q, tx) || op in RxOps(q, rx) || op in QueueOps(q + 1, queues, tx, rx);
    }
  }

  /** A start succeeds exactly if everything works that it needs. */
  lemma PermitsIff(e: Env, tx: bool, rx: bool, queues: nat, slots: nat)
    ensures e.Permits(tx, rx, queues, slots) <==>
              e.Opens() && forall op :: op in StartOps(tx, rx, queues) ==> e.Does(op, slots)
  {
    hide StartOps, Env.Backed, Belongs, Env.Opens;
    forall op ensures op in StartOps(tx, rx, queues) <==> Takes(op, tx, rx, queues) {
      StartHas(op, tx, rx, queues);
    }
    if forall op :: Takes(op, tx, rx, queues) ==> e.Does(op, slots) {
      assert e.Does(Give(0), slots) && e.Does(Give(1), slots);
      forall s | e.Needs(s, tx, rx, queues) ensures e.works(s) {
        if s.GivePages? {
          assert e.Does(Give(s.phase), slots);
        } else {
          assert e.Does(Cmd(s), slots);
        }
      }
      forall r | Belongs(r, tx, rx, queues) ensures e.create(r).Created? && e.Backed(r) {
        assert Takes(Make(r), tx, rx, queues) && e.Does(Make(r), slots);
      }
      forall q: nat, s: nat | rx && q < queues && s < slots ensures e.maps(RxPage(q, s)) {
        assert e.Does(Post(q), slots);
      }
    }
  }

  lemma {:induction false} RolesAre(ops: seq<Op>, r: Role)
    ensures r in RolesOf(ops) <==> Make(r) in ops
  {
    if ops != [] {
      RolesAre(ops[..|ops| - 1], r);
      assert ops == ops[..|ops| - 1] + [ops[|ops| - 1]];
    }
  }

  lemma {:induction false} RegionsAre(e: Env, ops: seq<Op>, slots: nat, g: Region)
    ensures g in e.MappedByAll(ops, slots) <==> exists op :: op in ops && g in e.MappedBy(op, slots)
  {
    hide Env.MappedBy;
    if ops != [] {
      RegionsAre(e, ops[..|ops| - 1], slots, g);
      assert ops == ops[..|ops| - 1] + [ops[|ops| - 1]];
    }
  }

  /** What a start maps that succeeds. */
  lemma UsesAre(e: Env, tx: bool, rx: bool, queues: nat, slots: nat, g: Region)
    ensures g in {CmdQueue, Inbox, Outbox} + e.MappedByAll(StartOps(tx, rx, queues), slots) <==>
              e.Uses(g, tx, rx, queues, slots)
  {
    hide StartOps, Env.MappedByAll;
    var ops := StartOps(tx, rx, queues);
    RegionsAre(e, ops, slots, g);
    forall op ensures op in ops <==> Takes(op, tx, rx, queues) {
      StartHas(op, tx, rx, queues);
    }
    var op := match g
      case FwPage(i) => Give(if i < e.pages(0) then 0 else 1)
      case RxPage(q, _) => Post(q)
      case _ => if OwnerOf(g).Some? then Make(OwnerOf(g).value) else Cmd(EnableHca);
    assert g !in {CmdQueue, Inbox, Outbox} && e.Uses(g, tx, rx, queues, slots) ==>
        Takes(op, tx, rx, queues) && g in e.MappedBy(op, slots);
  }

  /** With every receive slot posted, that is all that may ever be mapped. */
  lemma UsesAllMappable(e: Env, tx: bool, queues: nat, g: Region)
    ensures e.Uses(g, tx, true, queues, RQ_WQE_COUNT) <==> Mappable(g, tx, queues, e.pages(0) + e.pages(1))
  {}

  /** When nothing fails before the first object, that object is asked for. */
  lemma QuietReaches(e: Env, tx: bool, rx: bool, queues: nat, slots: nat, at: nat, created: set<Role>)
    requires e.Quiet() && StuckAt(e, StartOps(tx, rx, queues), slots, at, created) && !e.create(Uar).Refused?
    ensures Uar in created
  {
    hide QueueOps, SteeringOps;
    var ops, n := StartOps(tx, rx, queues), |BootOps(rx)|;
    assert forall i :: 0 <= i < n ==> ops[i] == BootOps(rx)[i] && e.Does(ops[i], slots);
    assert ops[n] == SharedOps(tx, rx)[0] == Make(Uar);
    if at > n {
      RolesAre(ops[..at], Uar);
      assert ops[..at][n] == Make(Uar);
    }
  }

  lemma FavourablePermits(e: Env, tx: bool, rx: bool, queues: nat, slots: nat)
    requires e.Favourable()
    ensures e.Permits(tx, rx, queues, slots)
  {}

  /** The first `at` steps have succeeded, and these are the objects and regions. */
  ghost predicate Advanced(e: Env, ops: seq<Op>, slots: nat, at: nat, created: set<Role>, mapped: set<Region>) {
    && at <= |ops| && (forall i :: 0 <= i < at ==> e.Does(ops[i], slots))
    && created == RolesOf(ops[..at])
    && mapped == {CmdQueue, Inbox, Outbox} + e.MappedByAll(ops[..at], slots)
  }

  /** Step `at` is the first that fails, and these are the objects. */
  ghost predicate StuckAt(e: Env, ops: seq<Op>, slots: nat, at: nat, created: set<Role>) {
    && at < |ops| && (forall i :: 0 <= i < at ==> e.Does(ops[i], slots)) && !e.Does(ops[at], slots)
    && created == RolesOf(ops[..at]) + e.Arising(ops[at])
  }

  lemma Advance(e: Env, ops: seq<Op>, slots: nat, at: nat, created: set<Role>, mapped: set<Region>)
    requires Advanced(e, ops, slots, at, created, mapped) && at < |ops|
    ensures e.Does(ops[at], slots) ==>
              Advanced(e, ops, slots, at + 1, created + (if ops[at].Make? then {ops[at].role} else {}),
                       mapped + e.MappedBy(ops[at], slots))
    ensures !e.Does(ops[at], slots) ==> StuckAt(e, ops, slots, at, created + e.Arising(ops[at]))
  {
    hide Env.Does, Env.MappedBy, Env.Arising;
    assert ops[..at + 1][..at] == ops[..at];
  }

  /** What became of the objects of one start: created, given a destroy command, refused
      by the firmware, or never recognised by the driver. */
  datatype Generation =
    Generation(created: set<Role>, issued: set<Role>, failed: set<Role>, leaked: set<Role>, env: Env)
  {
    /** Every object the driver can see got one destroy command; reliable firmware refused
        it exactly if an object left over refers to it. */
    ghost predicate Closed(reliable: bool, queues: nat) {
      && (forall r :: r in leaked <==> r in created && env.Unseen(r))
      && issued == created - leaked && failed <= issued
      && (reliable ==> forall r :: r in issued ==> (r in failed <==> Pinned(r, leaked + failed, queues)))
      && (reliable && leaked == {} ==> failed == {})
    }
  }

  /** Some object among `left` refers to `r`. */
  predicate Pinned(r: Role, left: set<Role>, queues: nat) {
    exists o :: o in left && Refers(o, r, queues)
  }

  /** The records `ctx` and `res` say that the region is mapped. */
  predicate Owned(g: Region, ctx: set<Region>, res: map<Role, Res>) {
    match OwnerOf(g)
    case None => g in ctx
    case Some(r) => r in res && g in res[r].regions
  }

  ghost predicate MemoryAgrees(mapped: set<Region>, ctx: set<Region>, res: map<Role, Res>, queues: nat) {
    && (forall g :: g in mapped <==> Owned(g, ctx, res))
    && (forall r :: r in res ==>
          && !ById(r) && InUse(r, queues) && (!res[r].valid ==> res[r].regions == {})
          && (forall g :: g in res[r].regions ==> OwnerOf(g) == Some(r)))
    && (forall g :: g in ctx ==> OwnerOf(g) == None)
  }

  /** The records `ids` and `res` say that the object exists. */
  predicate Recorded(r: Role, ids: map<Role, nat>, res: map<Role, Res>) {
    if ById(r) then r in ids && ids[r] != 0 else r in res && res[r].valid
  }

  /** Exactly the objects of `live` that are not `leaked` are on record, with their ids. */
  ghost predicate KnownOf(env: Env, live: set<Role>, leaked: set<Role>, ids: map<Role, nat>, res: map<Role, Res>,
                          queues: nat)
  {
    && (forall r :: r in live <==> Recorded(r, ids, res) || r in leaked)
    && (forall r :: r in leaked ==> !Recorded(r, ids, res))
    && (forall r :: r in leaked <==> r in live && env.Unseen(r))
    && (forall r :: r in live && ById(r) && env.create(r).Created? ==> r in ids && ids[r] == env.create(r).id)
    && (forall o, r :: o in live && Refers(o, r, queues) ==> r in live)
    && (forall r :: r in live ==> InUse(r, queues))
  }

  /** A new object is recorded according to the answer, or leaked. */
  lemma NewObject(env: Env, live: set<Role>, leaked: set<Role>, ids: map<Role, nat>, res: map<Role, Res>, queues: nat,
                  r: Role, own: set<Region>)
    requires KnownOf(env, live, leaked, ids, res, queues) && r !in live && InUse(r, queues)
    requires forall x :: Refers(r, x, queues) ==> x in live
    ensures match env.create(r)
      case Refused => true
      case Unanswered => KnownOf(env, live + {r}, leaked + {r}, ids, res, queues)
      case Created(id) =>
        if ById(r) then KnownOf(env, live + {r}, if id == 0 then leaked + {r} else leaked, ids[r := id], res, queues)
        else KnownOf(env, live + {r}, leaked, ids, res[r := Res(true, own)], queues)
  {
    hide KnownOf;
    match env.create(r) {
      case Refused =>
      case Unanswered => NewUnseen(env, live, leaked, ids, res, queues, r);
      case Created(id) =>
        if ById(r) {
          NewById(env, live, leaked, ids, res, queues, r, id);
        } else {
          NewFlagged(env, live, leaked, ids, res, queues, r, own);
        }
    }
  }

  lemma NewUnseen(env: Env, live: set<Role>, leaked: set<Role>, ids: map<Role, nat>, res: map<Role, Res>, queues: nat,
                  r: Role)
    requires KnownOf(env, live, leaked, ids, res, queues) && r !in live && InUse(r, queues)
    requires forall x :: Refers(r, x, queues) ==> x in live
    requires env.create(r) == Unanswered
    ensures KnownOf(env, live + {r}, leaked + {r}, ids, res, queues)
  {
    hide Refers, InUse;
  }

  lemma NewById(env: Env, live: set<Role>, leaked: set<Role>, ids: map<Role, nat>, res: map<Role, Res>, queues: nat,
                r: Role, id: nat)
    requires KnownOf(env, live, leaked, ids, res, queues) && r !in live && InUse(r, queues)
    requires forall x :: Refers(r, x, queues) ==> x in live
    requires env.create(r) == Created(id) && ById(r)
    ensures KnownOf(env, live + {r}, if id == 0 then leaked + {r} else leaked, ids[r := id], res, queues)
  {
    hide Refers, InUse;
  }

  lemma NewFlagged(env: Env, live: set<Role>, leaked: set<Role>, ids: map<Role, nat>, res: map<Role, Res>, queues: nat,
                   r: Role, own: set<Region>)
    requires KnownOf(env, live, leaked, ids, res, queues) && r !in live && InUse(r, queues)
    requires forall x :: Refers(r, x, queues) ==> x in live
    requires env.create(r).Created? && !ById(r)
    ensures KnownOf(env, live + {r}, leaked, ids, res[r := Res(true, own)], queues)
  {
    hide Refers, InUse;
  }

  /** Of the places from `k` on, exactly the objects `seen` are on record. */
  ghost predicate KnowsOf(ids: map<Role, nat>, res: map<Role, Res>, seen: set<Role>, queues: nat, k: nat) {
    forall r :: InUse(r, queues) && CleanupOrder(r, queues) >= k ==> (Recorded(r, ids, res) <==> r in seen)
  }

  /** The places before `k` have no memory left. */
  ghost predicate MemoryLeft(mapped: set<Region>, ctx: set<Region>, res: map<Role, Res>, queues: nat, k: nat) {
    && (forall g :: g in mapped <==> Owned(g, ctx, res))
    && (forall g :: g in ctx ==> OwnerOf(g) == None)
    && (forall r :: r in res ==>
          && InUse(r, queues)
          && (forall g :: g in res[r].regions ==> OwnerOf(g) == Some(r))
          && (CleanupOrder(r, queues) < k || !res[r].valid ==> res[r].regions == {}))
  }

  /** The record of an object loses its memory. */
  lemma LessMemory(mapped: set<Region>, ctx: set<Region>, res: map<Role, Res>, queues: nat, r: Role, valid: bool)
    requires MemoryLeft(mapped, ctx, res, queues, CleanupOrder(r, queues)) && r in res
    requires forall o :: InUse(o, queues) && CleanupOrder(o, queues) == CleanupOrder(r, queues) ==> o == r
    ensures MemoryLeft(mapped - res[r].regions, ctx, res[r := Res(valid, {})], queues, CleanupOrder(r, queues) + 1)
  {
    hide InUse, CleanupOrder;
  }

  lemma LessKnown(ids: map<Role, nat>, res: map<Role, Res>, seen: set<Role>, queues: nat, r: Role, now: Res)
    requires KnowsOf(ids, res, seen, queues, CleanupOrder(r, queues))
    ensures KnowsOf(ids, res[r := now], seen, queues, CleanupOrder(r, queues) + 1)
  {
    hide InUse, CleanupOrder;
  }

  /** Mapping more memory for an object and recording it. */
  lemma MoreMemory(mapped: set<Region>, ctx: set<Region>, res: map<Role, Res>, queues: nat, r: Role, more: set<Region>)
    requires MemoryAgrees(mapped, ctx, res, queues) && !ById(r) && InUse(r, queues)
    requires forall g :: g in more ==> OwnerOf(g) == Some(r)
    ensures var had := if r in res then res[r].regions else {};
      MemoryAgrees(mapped + more, ctx, res[r := Res(true, had + more)], queues)
  {
    hide InUse;
  }

  class Device {
    const tx: bool
    const rx: bool
    const queues: nat
    const postCount: nat
    /** The firmware carries out, and answers in time, every destroy of an object that
        nobody refers to. */
    const reliable: bool

    // the driver
    var started: bool
    var ctx: set<Region>
    var fwPages: nat
    var ids: map<Role, nat>
    var res: map<Role, Res>

    // the firmware and the IOMMU, since the last start
    var env: Env
    var live: set<Role>
    var mapped: set<Region>
    ghost var created: set<Role>
    ghost var issued: set<Role>
    ghost var failed: set<Role>
    ghost var leaked: set<Role>
    ghost var past: seq<Generation>
    ghost var at: nat

    ghost function Plan(): seq<Op> { StartOps(tx, rx, queues) }

    /** So far every step of the start has succeeded. */
    ghost predicate Going()
      reads this`env, this`created, this`mapped, this`at
    {
      Advanced(env, Plan(), postCount, at, created, mapped)
    }

    /** A step of the start has failed. */
    ghost predicate Stuck()
      reads this`env, this`created, this`at
    {
      StuckAt(env, Plan(), postCount, at, created)
    }

    /** These steps are next. */
    ghost predicate Next(ops: seq<Op>)
      reads this`at
    {
      at <= |Plan()| && ops <= Plan()[at..]
    }

    /** The first of several groups of steps is next, and then the others. */
    lemma NextFirst(a: seq<Op>, b: seq<Op>)
      requires Next(a + b)
      ensures Next(a) && at + |a| <= |Plan()| && b <= Plan()[at + |a|..]
    {
      hide StartOps;
      var s := Plan()[at..];
      assert a <= s && s[|a|..] == Plan()[at + |a|..];
      assert forall i :: 0 <= i < |b| ==> b[i] == (a + b)[|a| + i];
    }

    /** The driver's record says that the object exists. */
    predicate Holds(r: Role)
      reads this`ids, this`res
    {
      Recorded(r, ids, res)
    }

    /** The driver's record says that the region is mapped. */
    predicate Owns(g: Region)
      reads this`ctx, this`res
    {
      Owned(g, ctx, res)
    }

    /** While a start is under way or done: the driver's records agree with firmware and
        IOMMU.  An object that came with id 0 where the driver goes by the id, or was
        created without an answer, looks absent to the driver: it is leaked. */
    ghost predicate Coherent()
      reads this`env, this`live, this`created, this`issued, this`failed, this`leaked, this`ids, this`res
      reads this`mapped, this`ctx, this`fwPages
    {
      0 < queues <= MAX_QUEUES && Known() && Mapped()
    }

    /** The records of objects. */
    ghost predicate Known()
      reads this`env, this`live, this`created, this`issued, this`failed, this`leaked, this`ids, this`res
    {
      live == created && issued == failed == {} && KnownOf(env, live, leaked, ids, res, queues)
    }

    /** The records of memory. */
    ghost predicate Mapped()
      reads this`mapped, this`ctx, this`fwPages, this`res
    {
      && MemoryAgrees(mapped, ctx, res, queues)
      && fwPages <= MAX_FW_PAGES && (forall i: nat :: FwPage(i) in ctx <==> i < fwPages)
      && (forall g :: g in mapped ==> Mappable(g, tx, queues, fwPages))
    }

    // ----- firmware and IOMMU -----

    /** A create command.  Without an answer in time the driver takes it for failed,
        though the object exists. */
    method FwCreate(r: Role) returns (ok: bool, id: nat)
      requires r !in live
      requires forall x :: Refers(r, x, queues) ==> x in live
      modifies this`live, this`created, this`leaked
      ensures ok <==> env.create(r).Created?
      ensures ok ==> id == env.create(r).id
      ensures if env.create(r).Refused? then live == old(live) && created == old(created)
              else live == old(live) + {r} && created == old(created) + {r}
      ensures leaked == if env.create(r) == Unanswered then old(leaked) + {r} else old(leaked)
    {
      ok, id := false, 0;
      match env.create(r) {
        case Refused =>
        case Created(i) =>
          live, created := live + {r}, created + {r};
          ok, id := true, i;
        case Unanswered =>
          live, created, leaked := live + {r}, created + {r}, leaked + {r};
      }
    }

    /** A destroy command, issued at most once per object: refused while another live
        object refers to this one. */
    method FwDestroy(r: Role) returns (ok: bool)
      requires r in live && r !in issued
      modifies this`live, this`issued, this`failed
      ensures issued == old(issued) + {r}
      ensures if ok then live == old(live) - {r} && failed == old(failed)
              else live == old(live) && failed == old(failed) + {r}
      ensures reliable ==> (ok <==> !Pinned(r, old(live), queues))
    {
      issued := issued + {r};
      if Pinned(r, live, queues) {
        ok := false;
      } else if reliable {
        ok := true;
      } else {
        ok := *;
      }
      if ok {
        live := live - {r};
      } else {
        failed := failed + {r};
      }
    }

    // ----- the steps of a start -----

    ghost predicate Due(op: Op)
      reads this`at
    {
      at < |Plan()| && Plan()[at] == op
    }

    /** Accounts for the step just taken. */
    ghost method Tick(op: Op, ok: bool, created0: set<Role>, mapped0: set<Region>)
      requires Advanced(env, Plan(), postCount, at, created0, mapped0) && Due(op) && ok == env.Does(op, postCount)
      requires ok ==> mapped == mapped0 + env.MappedBy(op, postCount)
      requires created == created0 + env.Arising(op)
      modifies this`at
      ensures if ok then Going() && at == old(at) + 1 else Stuck() && at == old(at)
    {
      hide StartOps, Env.MappedBy, Env.MappedByAll, Advanced, StuckAt;
      Advance(env, Plan(), postCount, at, created0, mapped0);
      if ok {
        at := at + 1;
      }
    }

    /** A command that creates nothing. */
    method Issue(s: Step) returns (ok: bool)
      requires Going() && Due(Cmd(s))
      modifies this`at
      ensures ok <==> env.works(s)
      ensures if ok then Going() && at == old(at) + 1 else Stuck() && at == old(at)
    {
      hide StartOps, Advanced, StuckAt;
      ok := env.works(s);
      Tick(Cmd(s), ok, created, mapped);
    }

    lemma LiveIsCreated()
      requires Coherent()
      ensures live == created
    {}

    // ----- create -----

    lemma AlwaysInUse(r: Role)
      requires ById(r)
      ensures InUse(r, queues)
    {}

    /** UAR, PD and memory key: recognised by their id. */
    method CreateById(r: Role) returns (ok: bool)
      requires Coherent() && ById(r) && r !in live && Going() && Due(Make(r))
      requires forall x :: Refers(r, x, queues) ==> x in live
      modifies this`live, this`created, this`ids, this`leaked, this`at
      ensures Coherent()
      ensures ok <==> env.create(r).Created?
      ensures live == if env.create(r).Refused? then old(live) else old(live) + {r}
      ensures if ok then Going() && at == old(at) + 1 else Stuck() && at == old(at)
    {
      hide KnownOf, MemoryAgrees, StartOps, Advanced, StuckAt;
      AlwaysInUse(r);
      NewObject(env, live, leaked, ids, res, queues, r, {});
      var id;
      ok, id := FwCreate(r);
      if ok {
        ids := ids[r := id];
        if id == 0 {
          leaked := leaked + {r};
        }
      }
      Tick(Make(r), ok, old(created), mapped);
    }

    /** Objects without memory of their own. */
    method CreateFlagged(r: Role) returns (ok: bool)
      requires Coherent() && !ById(r) && Backing(r) == [] && r !in live && InUse(r, queues)
      requires Going() && Due(Make(r))
      requires forall x :: Refers(r, x, queues) ==> x in live
      modifies this`live, this`created, this`res, this`leaked, this`at
      ensures Coherent()
      ensures ok <==> env.create(r).Created?
      ensures live == if env.create(r).Refused? then old(live) else old(live) + {r}
      ensures if ok then Going() && at == old(at) + 1 else Stuck() && at == old(at)
    {
      hide KnownOf, MemoryAgrees, Refers, InUse, StartOps, Advanced, StuckAt;
      NotRecorded(r);
      NewObject(env, live, leaked, ids, res, queues, r, {});
      var id;
      ok, id := FwCreate(r);
      if ok {
        NoMemory(r);
        res := res[r := Res(true, {})];
      }
      Tick(Make(r), ok, old(created), mapped);
    }

    /** An object without memory of its own is recorded with none. */
    lemma NoMemory(r: Role)
      requires Mapped() && !ById(r) && InUse(r, queues) && (r in res ==> !res[r].valid)
      ensures MemoryAgrees(mapped, ctx, res[r := Res(true, {})], queues)
    {
      MoreMemory(mapped, ctx, res, queues, r, {});
      assert mapped + {} == mapped;
    }

    /** Queues and the event queue. */
    method CreateBacked(r: Role) returns (ok: bool)
      requires Coherent() && !ById(r) && r !in live && InUse(r, queues) && Going() && Due(Make(r))
      requires forall g :: g in Backing(r) ==> Mappable(g, tx, queues, fwPages)
      requires forall x :: Refers(r, x, queues) ==> x in live
      modifies this`live, this`created, this`res, this`mapped, this`leaked, this`at
      ensures Coherent()
      ensures ok <==> env.create(r).Created? && forall g :: g in Backing(r) ==> env.maps(g)
      ensures ok ==> live == old(live) + {r} && mapped == old(mapped) + (set g | g in Backing(r))
      ensures !ok ==> old(live) <= live <= old(live) + {r} && mapped == old(mapped)
      ensures if ok then Going() && at == old(at) + 1 else Stuck() && at == old(at)
    {
      hide Coherent, Refers, Backing, InUse, StartOps, Advanced, StuckAt;
      LiveIsCreated();
      ok := AllocateAndCreate(r);
      LiveIsCreated();
      Tick(Make(r), ok, old(created), old(mapped));
    }

    /** Memory first, in order, then the object; on failure the memory is given back. */
    method AllocateAndCreate(r: Role) returns (ok: bool)
      requires Coherent() && !ById(r) && r !in live && InUse(r, queues)
      requires forall g :: g in Backing(r) ==> Mappable(g, tx, queues, fwPages)
      requires forall x :: Refers(r, x, queues) ==> x in live
      modifies this`live, this`created, this`res, this`mapped, this`leaked
      ensures Coherent()
      ensures ok <==> env.create(r).Created? && forall g :: g in Backing(r) ==> env.maps(g)
      ensures live == old(live) + env.Arising(Make(r))
      ensures mapped == if ok then old(mapped) + (set g | g in Backing(r)) else old(mapped)
    {
      hide Known, Refers, MemoryAgrees;
      var regions := Backing(r);
      NotMapped(r);
      var own;
      ok, own := MapAll(regions);
      if ok {
        MoreMemory(old(mapped), ctx, res, queues, r, own);
        assert (if r in res then res[r].regions else {}) + own == own;
        ok := CreateOn(r, own);
        if !ok {
          mapped := mapped - own;
          assert mapped == old(mapped);
        }
      }
    }

    /** What will back an absent object is not mapped. */
    lemma NotMapped(r: Role)
      requires Coherent() && !ById(r) && r !in live
      ensures forall g :: g in Backing(r) ==> OwnerOf(g) == Some(r) && g !in mapped
      ensures r in res ==> res[r].regions == {}
    {
      hide Refers;
    }

    lemma NotRecorded(r: Role)
      requires Known() && r !in live
      ensures !Holds(r)
    {}

    /** Creates an object on the memory just mapped for it. */
    method CreateOn(r: Role, own: set<Region>) returns (ok: bool)
      requires 0 < queues <= MAX_QUEUES && Known() && !ById(r) && r !in live && InUse(r, queues)
      requires forall x :: Refers(r, x, queues) ==> x in live
      requires forall g :: g in own ==> OwnerOf(g) == Some(r) && Mappable(g, tx, queues, fwPages)
      modifies this`live, this`created, this`res, this`leaked
      ensures Known() && ok == env.create(r).Created?
      ensures live == if env.create(r).Refused? then old(live) else old(live) + {r}
      ensures ok ==> res == old(res)[r := Res(true, own)]
      ensures !ok ==> res == old(res)
    {
      hide KnownOf, Refers, InUse;
      NewObject(env, live, leaked, ids, res, queues, r, own);
      var id;
      ok, id := FwCreate(r);
      if ok {
        res := res[r := Res(true, own)];
      }
    }

    /** Maps the regions in order; if one fails, those before it are given back. */
    method MapAll(regions: seq<Region>) returns (ok: bool, own: set<Region>)
      requires forall g :: g in regions ==> g !in mapped
      modifies this`mapped
      ensures own == set g | g in regions
      ensures ok <==> forall g :: g in regions ==> env.maps(g)
      ensures mapped == if ok then old(mapped) + own else old(mapped)
    {
      var done: set<Region> := {};
      own := set g | g in regions;
      for i := 0 to |regions|
        invariant done == set g | g in regions[..i]
        invariant mapped == old(mapped) + done
        invariant forall k :: 0 <= k < i ==> env.maps(regions[k])
      {
        if !env.maps(regions[i]) {
          mapped := mapped - done;
          return false, own;
        }
        mapped := mapped + {regions[i]};
        done := done + {regions[i]};
      }
      assert regions[..|regions|] == regions;
      ok := true;
    }

    /** Initial receive buffers of queue `q`; a failure leaves those mapped so far to the
        cleanup. */
    method PostBuffers(q: nat) returns (ok: bool)
      requires Coherent() && q < queues && Rq(q) in live && Rq(q) !in leaked && 0 < postCount <= RQ_WQE_COUNT
      requires Going() && Due(Post(q))
      modifies this`res, this`mapped, this`at
      ensures Coherent()
      ensures ok <==> forall slot: nat :: slot < postCount ==> env.maps(RxPage(q, slot))
      ensures ok ==> mapped == old(mapped) + set slot: nat | slot < postCount :: RxPage(q, slot)
      ensures if ok then Going() && at == old(at) + 1 else Stuck() && at == old(at)
    {
      hide Coherent, StartOps, Advanced, StuckAt;
      ok := MapRxPages(q);
      Tick(Post(q), ok, created, old(mapped));
    }

    method MapRxPages(q: nat) returns (ok: bool)
      requires Coherent() && q < queues && Rq(q) in live && Rq(q) !in leaked && postCount <= RQ_WQE_COUNT
      modifies this`res, this`mapped
      ensures Coherent()
      ensures ok <==> env.Does(Post(q), postCount)
      ensures ok ==> mapped == old(mapped) + env.MappedBy(Post(q), postCount)
    {
      hide Coherent;
      for slot := 0 to postCount
        invariant Coherent()
        invariant forall s: nat :: s < slot ==> env.maps(RxPage(q, s))
        invariant mapped == old(mapped) + set s: nat | s < slot :: RxPage(q, s)
      {
        ok := MapRxPage(q, slot, env.maps(RxPage(q, slot)));
        if !ok {
          return;
        }
      }
      ok := true;
    }

    method MapRxPage(q: nat, slot: nat, fits: bool) returns (ok: bool)
      requires Coherent() && q < queues && Rq(q) in live && Rq(q) !in leaked && slot < RQ_WQE_COUNT
      modifies this`res, this`mapped
      ensures Coherent()
      ensures ok == fits
      ensures mapped == if ok then old(mapped) + {RxPage(q, slot)} else old(mapped)
    {
      hide Refers, MemoryAgrees;
      ok := fits;
      if ok {
        assert Holds(Rq(q));
        MoreMemory(mapped, ctx, res, queues, Rq(q), {RxPage(q, slot)});
        mapped := mapped + {RxPage(q, slot)};
        res := res[Rq(q) := Res(true, res[Rq(q)].regions + {RxPage(q, slot)})];
      }
    }

    /** Opens the command context. */
    method OpenContext() returns (ok: bool)
      requires Coherent() && ctx == {} && fwPages == 0 && mapped == {}
      modifies this`ctx, this`mapped, this`fwPages
      ensures Coherent()
      ensures ok <==> env.Opens()
      ensures mapped == ctx == if ok then {CmdQueue, Inbox, Outbox} else {}
      ensures fwPages == 0
    {
      ok := MapContext(CmdQueue);
      if ok {
        ok := MapContext(Inbox);
        if ok {
          ok := MapContext(Outbox);
        }
      }
      if !ok {
        CloseContext();
      }
    }

    method MapContext(g: Region) returns (ok: bool)
      requires Coherent() && g in {CmdQueue, Inbox, Outbox}
      modifies this`ctx, this`mapped
      ensures Coherent()
      ensures ok == env.maps(g)
      ensures if ok then ctx == old(ctx) + {g} && mapped == old(mapped) + {g}
              else ctx == old(ctx) && mapped == old(mapped)
    {
      ok := env.maps(g);
      if ok {
        ctx := ctx + {g};
        mapped := mapped + {g};
      }
    }

    /** Gives `n` pages to the firmware; a failure leaves those mapped so far to the
        cleanup. */
    method GivePages(n: nat, phase: nat) returns (ok: bool)
      requires Coherent() && Going() && Due(Give(phase)) && n == env.pages(phase) && fwPages == env.Before(phase)
      modifies this`ctx, this`mapped, this`fwPages, this`at
      ensures Coherent()
      ensures old(fwPages) <= fwPages <= old(fwPages) + n
      ensures ok ==> fwPages == old(fwPages) + n
      ensures if ok then Going() && at == old(at) + 1 else Stuck() && at == old(at)
    {
      hide Coherent, StartOps, Advanced, StuckAt;
      ok := MapFwPages(n, phase);
      Tick(Give(phase), ok, created, old(mapped));
    }

    method MapFwPages(n: nat, phase: nat) returns (ok: bool)
      requires Coherent() && n == env.pages(phase) && fwPages == env.Before(phase)
      modifies this`ctx, this`mapped, this`fwPages
      ensures Coherent()
      ensures old(fwPages) <= fwPages <= old(fwPages) + n
      ensures ok <==> env.Does(Give(phase), postCount)
      ensures ok ==> fwPages == old(fwPages) + n && mapped == old(mapped) + env.MappedBy(Give(phase), postCount)
    {
      hide Coherent;
      if n == 0 {
        assert mapped == mapped + {};
        return true;
      }
      if n > MAX_FW_PAGES || fwPages + n > MAX_FW_PAGES {
        return false;
      }
      var first := fwPages;
      for i := 0 to n
        invariant Coherent() && fwPages == first + i
        invariant mapped == old(mapped) + set k: nat | first <= k < first + i :: FwPage(k)
        invariant forall k: nat :: first <= k < first + i ==> env.maps(FwPage(k))
      {
        var fits := MapFwPage();
        if !fits {
          return false;
        }
      }
      ok := env.works(Step.GivePages(phase));
    }

    method MapFwPage() returns (ok: bool)
      requires Coherent() && fwPages < MAX_FW_PAGES
      modifies this`ctx, this`mapped, this`fwPages
      ensures Coherent() && fwPages == old(fwPages) + if ok then 1 else 0
      ensures ok <==> env.maps(FwPage(old(fwPages)))
      ensures mapped == if ok then old(mapped) + {FwPage(old(fwPages))} else old(mapped)
    {
      ok := env.maps(FwPage(fwPages));
      if ok {
        ctx := ctx + {FwPage(fwPages)};
        mapped := mapped + {FwPage(fwPages)};
        fwPages := fwPages + 1;
      }
    }

    method CloseContext()
      modifies this`ctx, this`mapped, this`fwPages
      ensures mapped == old(mapped) - old(ctx) && ctx == {} && fwPages == 0
    {
      mapped := mapped - ctx;
      ctx := {};
      fwPages := 0;
    }

    // ----- cleanup -----

    /** The cleanup routine has passed its first `k` places: exactly the objects there, as
        far as the driver knew them, have got their one destroy command. */
    ghost predicate Cleaning(k: nat)
      reads this
    {
      Issuing(k) && Knows(k)
    }

    ghost predicate Issuing(k: nat)
      reads this`live, this`created, this`issued, this`failed, this`leaked, this`env
    {
      && (forall r :: r in leaked <==> r in created && env.Unseen(r))
      && (forall r :: r in created ==> InUse(r, queues))
      && (forall r :: r in issued <==> r in created && r !in leaked && CleanupOrder(r, queues) < k)
      && failed <= issued
      && (forall r :: r in live <==> r in created && (r !in issued || r in failed))
      && (reliable ==> forall r :: r in issued ==> (r in failed <==> Pinned(r, leaked + failed, queues)))
      && (reliable && leaked == {} ==> failed == {})
    }

    /** The driver knows the objects of the places to come. */
    ghost predicate Knows(k: nat)
      reads this`ids, this`res, this`created, this`leaked
    {
      KnowsOf(ids, res, created - leaked, queues, k)
    }

    /** Memory: the records are exact, and the places passed have none left. */
    ghost predicate Unmapping(k: nat)
      reads this`mapped, this`ctx, this`res
    {
      MemoryLeft(mapped, ctx, res, queues, k)
    }

    /** One place of the cleanup routine: destroys the object if the driver knows it, and
        gives back its memory even if the firmware refuses. */
    method Drop(r: Role, rc: int, ghost k: nat) returns (rc': int)
      requires Cleaning(k) && Unmapping(k) && InUse(r, queues) && k == CleanupOrder(r, queues)
      modifies this`live, this`issued, this`failed, this`res, this`mapped
      ensures Cleaning(k + 1) && Unmapping(k + 1)
      ensures old(failed) <= failed
      ensures rc' == if rc == 0 && failed != old(failed) then -1 else rc
    {
      hide Refers, Cleaning, Unmapping;
      rc' := rc;
      if Holds(r) {
        var ok := DropHeld(r, k);
        if rc == 0 && !ok {
          rc' := -1;
        }
      } else {
        SkipPlace(r, k);
      }
    }

    method DropHeld(r: Role, ghost k: nat) returns (ok: bool)
      requires Cleaning(k) && Unmapping(k) && InUse(r, queues) && k == CleanupOrder(r, queues) && Holds(r)
      modifies this`live, this`issued, this`failed, this`res, this`mapped
      ensures Cleaning(k + 1) && Unmapping(k + 1)
      ensures failed == (if ok then old(failed) else old(failed) + {r}) && (!ok ==> r !in old(failed))
    {
      hide CleanupOrder, Refers, InUse, Issuing, Knows, Unmapping;
      ok := Destroy(r, k);
      if ById(r) {
        PassById(r, k);
      } else {
        KnownHasRecord(r);
        FreeMemory(r, !ok);
      }
    }

    lemma KnownHasRecord(r: Role)
      requires Holds(r) && !ById(r)
      ensures r in res
    {}

    /** An object without a record of memory leaves the records as they are. */
    lemma PassById(r: Role, k: nat)
      requires Knows(k) && Unmapping(k) && InUse(r, queues) && ById(r) && k == CleanupOrder(r, queues)
      ensures Knows(k + 1) && Unmapping(k + 1)
    {
      hide CleanupOrder, Refers, InUse;
      OnlyPlace(r);
      forall g: Region ensures OwnerOf(g) != Some(r) {}
    }

    lemma SkipPlace(r: Role, k: nat)
      requires Cleaning(k) && Unmapping(k) && InUse(r, queues) && k == CleanupOrder(r, queues) && !Holds(r)
      ensures Cleaning(k + 1) && Unmapping(k + 1)
    {
      hide CleanupOrder, Refers, InUse;
      OnlyPlace(r);
    }

    lemma OnlyPlace(r: Role)
      requires InUse(r, queues)
      ensures forall o :: InUse(o, queues) && CleanupOrder(o, queues) == CleanupOrder(r, queues) ==> o == r
      ensures forall o :: InUse(o, queues) && Refers(o, r, queues) ==> CleanupOrder(o, queues) < CleanupOrder(r, queues)
    {
      forall o | InUse(o, queues)
        ensures CleanupOrder(o, queues) == CleanupOrder(r, queues) ==> o == r
        ensures Refers(o, r, queues) ==> CleanupOrder(o, queues) < CleanupOrder(r, queues)
      {
        CleanupFollowsReferences(o, r, queues);
      }
    }

    method Destroy(r: Role, ghost k: nat) returns (ok: bool)
      requires Cleaning(k) && InUse(r, queues) && k == CleanupOrder(r, queues) && Holds(r)
      modifies this`live, this`issued, this`failed
      ensures issued == old(issued) + {r} && failed == (if ok then old(failed) else old(failed) + {r})
      ensures r !in old(issued) + old(failed)
      ensures Issuing(k + 1)
    {
      hide CleanupOrder, Refers, Env.Unseen, Pinned;
      OnlyPlace(r);
      PinnedBefore(r, k);
      ok := FwDestroy(r);
      PinsNothing(r, old(failed), leaked, old(issued));
      assert leaked + (old(failed) + {r}) == leaked + old(failed) + {r};
    }

    /** The objects that still refer to the one whose turn it is are those left over by the
        places before. */
    lemma PinnedBefore(r: Role, k: nat)
      requires Cleaning(k) && InUse(r, queues) && k == CleanupOrder(r, queues)
      ensures Pinned(r, live, queues) <==> Pinned(r, leaked + failed, queues)
      ensures leaked == failed == {} ==> !Pinned(r, leaked + failed, queues)
    {
      hide Refers, CleanupOrder;
      OnlyPlace(r);
    }

    /** An object left over now does not refer to those whose turn is over. */
    lemma PinsNothing(r: Role, failed0: set<Role>, leaked0: set<Role>, issued0: set<Role>)
      requires InUse(r, queues)
      requires forall x :: x in issued0 ==> InUse(x, queues) && CleanupOrder(x, queues) <= CleanupOrder(r, queues)
      ensures forall x :: x in issued0 + {r} ==>
                (Pinned(x, leaked0 + failed0, queues) <==> Pinned(x, leaked0 + failed0 + {r}, queues))
    {
      hide Refers, CleanupOrder;
      forall x | x in issued0 + {r} ensures !Refers(r, x, queues) {
        CleanupFollowsReferences(r, x, queues);
      }
    }

    method FreeMemory(r: Role, stillValid: bool)
      requires Unmapping(CleanupOrder(r, queues)) && InUse(r, queues) && r in res
      modifies this`res, this`mapped
      ensures Unmapping(CleanupOrder(r, queues) + 1)
      ensures old(Knows(CleanupOrder(r, queues))) ==> Knows(CleanupOrder(r, queues) + 1)
      ensures res == old(res)[r := Res(old(res)[r].valid && stillValid, {})]
    {
      hide CleanupOrder, KnowsOf, MemoryLeft;
      OnlyPlace(r);
      LessMemory(mapped, ctx, res, queues, r, res[r].valid && stillValid);
      if Knows(CleanupOrder(r, queues)) {
        LessKnown(ids, res, created - leaked, queues, r, Res(res[r].valid && stillValid, {}));
      }
      mapped := mapped - res[r].regions;
      res := res[r := Res(res[r].valid && stillValid, {})];
    }

    lemma CleaningStarts()
      requires Coherent()
      ensures Cleaning(0) && Unmapping(0)
    {
      hide CleanupOrder, Refers;
    }

    /** Steering, flow and receive-side spreading objects. */
    method CleanupSteering(rcIn: int) returns (rc: int)
      requires Cleaning(0) && Unmapping(0)
      modifies this`live, this`issued, this`failed, this`res, this`mapped
      ensures Cleaning(5) && Unmapping(5)
      ensures old(failed) <= failed && rc == if rcIn == 0 && failed != old(failed) then -1 else rcIn
    {
      hide Refers, Cleaning, Unmapping;
      rc := Drop(Fte, rcIn, 0);
      rc := Drop(FlowGroup, rc, 1);
      rc := Drop(FlowTable, rc, 2);
      rc := Drop(Tir, rc, 3);
      rc := Drop(Rqt, rc, 4);
    }

    method CleanupQueue(rcIn: int, q: nat) returns (rc: int)
      requires q < queues && Cleaning(5 + 4 * q) && Unmapping(5 + 4 * q)
      modifies this`live, this`issued, this`failed, this`res, this`mapped
      ensures Cleaning(9 + 4 * q) && Unmapping(9 + 4 * q)
      ensures old(failed) <= failed && rc == if rcIn == 0 && failed != old(failed) then -1 else rcIn
    {
      hide Refers, Cleaning, Unmapping;
      rc := Drop(Rq(q), rcIn, 5 + 4 * q);
      rc := Drop(Sq(q), rc, 6 + 4 * q);
      rc := Drop(RxCq(q), rc, 7 + 4 * q);
      rc := Drop(TxCq(q), rc, 8 + 4 * q);
    }

    method CleanupShared(rcIn: int) returns (rc: int)
      requires Cleaning(5 + 4 * queues) && Unmapping(5 + 4 * queues)
      modifies this`live, this`issued, this`failed, this`res, this`mapped
      ensures Cleaning(12 + 4 * queues) && Unmapping(12 + 4 * queues)
      ensures old(failed) <= failed && rc == if rcIn == 0 && failed != old(failed) then -1 else rcIn
    {
      hide Refers, Cleaning, Unmapping;
      rc := Drop(Eq, rcIn, 5 + 4 * queues);
      rc := Drop(Tis, rc, 6 + 4 * queues);
      rc := Drop(Mkey, rc, 7 + 4 * queues);
      rc := Drop(Tdn, rc, 8 + 4 * queues);
      rc := Drop(QCounter, rc, 9 + 4 * queues);
      rc := Drop(Pd, rc, 10 + 4 * queues);
      rc := Drop(Uar, rc, 11 + 4 * queues);
    }

    /** The cleanup routine, from wherever bringing the device up has got to. */
    method Cleanup(rcIn: int) returns (rc: int)
      requires Coherent()
      modifies this`live, this`issued, this`failed, this`res, this`mapped, this`ctx, this`fwPages, this`past
      ensures Generation(created, issued, failed, leaked, env).Closed(reliable, queues)
      ensures past == old(past) + [Generation(created, issued, failed, leaked, env)]
      ensures live == leaked + failed && mapped == {}
      ensures rcIn == 0 ==> (rc == 0 <==> failed == {})
    {
      hide Refers, Coherent, Cleaning, Unmapping;
      CleaningStarts();
      CoherentBounds();
      rc := CleanupSteering(rcIn);
      for q := 0 to queues
        invariant Cleaning(5 + 4 * q) && Unmapping(5 + 4 * q)
        invariant rcIn == 0 ==> (rc == 0 <==> failed == {})
        invariant past == old(past)
      {
        rc := CleanupQueue(rc, q);
      }
      rc := CleanupShared(rc);
      CleaningEnds();
      CloseContext();
      past := past + [Generation(created, issued, failed, leaked, env)];
    }

    lemma CoherentBounds()
      requires Coherent()
      ensures 0 < queues && issued == failed == {}
    {}

    lemma CleaningEnds()
      requires Cleaning(12 + 4 * queues) && Unmapping(12 + 4 * queues)
      ensures Generation(created, issued, failed, leaked, env).Closed(reliable, queues)
      ensures live == leaked + failed && mapped - ctx == {}
    {
      hide Refers;
      forall g | g in mapped
        ensures g in ctx
      {
        assert Owns(g);
      }
    }

    // ----- start and stop -----

    /** Asks how many pages the firmware wants, and gives them. */
    method QueryAndGivePages(phase: nat) returns (ok: bool)
      requires Coherent() && fwPages == env.Before(phase) && Going() && Next(PageOps(phase))
      modifies this`ctx, this`mapped, this`fwPages, this`at
      ensures Coherent()
      ensures ok ==> fwPages == old(fwPages) + env.pages(phase)
      ensures if ok then Going() && at == old(at) + |PageOps(phase)| else Stuck()
    {
      hide Coherent, StartOps, Advanced, StuckAt;
      ok := Issue(QueryPages(phase));
      if !ok { return; }
      ok := Issue(QueryPagesAgain(phase));
      if !ok { return; }
      ok := GivePages(env.pages(phase), phase);
    }

    /** The commands before any object is created. */
    method InitFirmware() returns (ok: bool)
      requires Coherent() && fwPages == 0 && Going() && Next(BootOps(rx))
      modifies this`ctx, this`mapped, this`fwPages, this`at
      ensures Coherent()
      ensures ok ==> fwPages == env.pages(0) + env.pages(1)
      ensures if ok then Going() && at == old(at) + |BootOps(rx)| else Stuck()
    {
      hide Coherent, Going, Stuck, StartOps, PageOps, ReadyOps;
      var caps := [Cmd(QueryTimeouts), Cmd(QueryCapabilities), Cmd(SetCapabilities)];
      var last := PageOps(1) + ReadyOps(rx);
      NextFirst([Cmd(EnableHca), Cmd(SetIssi)], PageOps(0) + (caps + last));
      ok := Enable();
      if !ok { return; }
      NextFirst(PageOps(0), caps + last);
      ok := QueryAndGivePages(0);
      if !ok { return; }
      NextFirst(caps, last);
      ok := SetUp();
      if !ok { return; }
      NextFirst(PageOps(1), ReadyOps(rx));
      ok := QueryAndGivePages(1);
      if !ok { return; }
      ok := MakeReady();
    }

    method Enable() returns (ok: bool)
      requires Going() && Next([Cmd(EnableHca), Cmd(SetIssi)])
      modifies this`at
      ensures if ok then Going() && at == old(at) + 2 else Stuck()
    {
      hide StartOps, Going, Stuck;
      ok := Issue(EnableHca);
      if !ok { return; }
      ok := Issue(SetIssi);
    }

    method SetUp() returns (ok: bool)
      requires Going() && Next([Cmd(QueryTimeouts), Cmd(QueryCapabilities), Cmd(SetCapabilities)])
      modifies this`at
      ensures if ok then Going() && at == old(at) + 3 else Stuck()
    {
      hide StartOps, Going, Stuck;
      ok := Issue(QueryTimeouts);
      if !ok { return; }
      ok := Issue(QueryCapabilities);
      if !ok { return; }
      ok := Issue(SetCapabilities);
    }

    method MakeReady() returns (ok: bool)
      requires Going() && Next(ReadyOps(rx))
      modifies this`at
      ensures if ok then Going() && at == old(at) + |ReadyOps(rx)| else Stuck()
    {
      hide StartOps, Going, Stuck;
      ok := Issue(InitHca);
      if !ok { return; }
      ok := Issue(QueryPort);
      if !ok { return; }
      if rx {
        ok := Issue(Promiscuous);
      }
    }

    /** The objects that all queues share. */
    function Shared(): set<Role> {
      {Uar, Pd, Tdn, Eq} + (if rx then {QCounter} else {})
      + (if tx || rx then {Mkey} else {}) + (if tx then {Tis} else {})
    }

    function TxQueue(q: nat): set<Role> { if tx then {TxCq(q), Sq(q)} else {} }

    function RxQueue(q: nat): set<Role> { if rx then {RxCq(q), Rq(q)} else {} }

    /** The objects of the first `n` queues. */
    function Queues(n: nat): set<Role> {
      if n == 0 then {} else Queues(n - 1) + TxQueue(n - 1) + RxQueue(n - 1)
    }

    lemma {:induction false} QueuesAre(n: nat)
      ensures forall r :: r in Queues(n) <==> OfQueue(r, n)
      decreases n
    {
      if n > 0 {
        QueuesAre(n - 1);
        forall r ensures r in Queues(n) <==> OfQueue(r, n) {
          assert OfQueue(r, n) <==> OfQueue(r, n - 1) || r in TxQueue(n - 1) + RxQueue(n - 1);
        }
      }
    }

    /** The object belongs to one of the first `n` queues. */
    predicate OfQueue(r: Role, n: nat) {
      match r
      case TxCq(q) => tx && q < n
      case Sq(q) => tx && q < n
      case RxCq(q) => rx && q < n
      case Rq(q) => rx && q < n
      case _ => false
    }

    function Steering(): set<Role> { {Rqt, Tir, FlowTable, FlowGroup, Fte} }

    /** Everything a started device has. */
    function Objects(): set<Role> {
      Shared() + Queues(queues) + if rx then Steering() else {}
    }

    method CreateShared() returns (ok: bool)
      requires Coherent() && live == {}
      requires Going() && Next(SharedOps(tx, rx))
      modifies this`live, this`created, this`ids, this`leaked, this`res, this`mapped, this`at
      ensures Coherent()
      ensures ok ==> live == Shared()
      ensures ok ==> forall r :: r in live && r !in old(live) ==> env.create(r).Created?
      ensures if ok then Going() && at == old(at) + |SharedOps(tx, rx)| else Stuck()
    {
      hide Coherent, StartOps, Going, Stuck;
      ok := CreateById(Uar);
      if !ok { return; }
      ok := CreateById(Pd);
      if !ok { return; }
      ok := CreateFlagged(Tdn);
      if !ok { return; }
      assert live == {Uar, Pd, Tdn};
      if rx {
        ok := CreateFlagged(QCounter);
        if !ok { return; }
      }
      assert live == {Uar, Pd, Tdn} + if rx then {QCounter} else {};
      ok := CreateSenders();
    }

    method CreateSenders() returns (ok: bool)
      requires Coherent() && live == {Uar, Pd, Tdn} + if rx then {QCounter} else {}
      requires Going() && Next(SenderOps(tx, rx))
      modifies this`live, this`created, this`ids, this`leaked, this`res, this`mapped, this`at
      ensures Coherent() && old(live) <= live
      ensures ok ==> live == Shared()
      ensures ok ==> forall r :: r in live && r !in old(live) ==> env.create(r).Created?
      ensures if ok then Going() && at == old(at) + |SenderOps(tx, rx)| else Stuck()
    {
      hide Coherent, StartOps, Going, Stuck;
      if tx || rx {
        ok := CreateById(Mkey);
        if !ok { return; }
      }
      assert live == old(live) + if tx || rx then {Mkey} else {};
      ok := CreateLast();
    }

    method CreateLast() returns (ok: bool)
      requires Coherent() && live + (if tx then {Tis} else {}) + {Eq} == Shared() && Tis !in live && Eq !in live
      requires Going() && Next((if tx then [Make(Tis)] else []) + [Make(Eq)])
      modifies this`live, this`created, this`leaked, this`res, this`mapped, this`at
      ensures Coherent() && old(live) <= live
      ensures ok ==> live == Shared()
      ensures ok ==> forall r :: r in live && r !in old(live) ==> env.create(r).Created?
      ensures if ok then Going() && at == old(at) + |(if tx then [Make(Tis)] else []) + [Make(Eq)]| else Stuck()
    {
      hide Coherent, StartOps, Going, Stuck;
      assert Tdn in Shared() && Uar in Shared();
      if tx {
        ok := CreateFlagged(Tis);
        if !ok { return; }
      }
      ok := CreateBacked(Eq);
    }

    method CreateTxQueue(q: nat) returns (ok: bool)
      requires Coherent() && q < queues && Shared() <= live && TxQueue(q) !! live
      requires Going() && Next(TxOps(q, tx))
      modifies this`live, this`created, this`res, this`mapped, this`leaked, this`at
      ensures Coherent() && old(live) <= live
      ensures ok ==> live == old(live) + TxQueue(q)
      ensures ok ==> forall r :: r in live && r !in old(live) ==> env.create(r).Created?
      ensures if ok then Going() && at == old(at) + |TxOps(q, tx)| else Stuck()
    {
      hide Coherent, StartOps, Going, Stuck;
      ok := true;
      if tx {
        ok := CreateBacked(TxCq(q));
        if !ok { return; }
        ok := CreateBacked(Sq(q));
        if !ok { return; }
        ok := Issue(SqToReady(q));
      }
    }

    method CreateRxQueue(q: nat) returns (ok: bool)
      requires Coherent() && q < queues && 0 < postCount <= RQ_WQE_COUNT && Shared() <= live && RxQueue(q) !! live
      requires Going() && Next(RxOps(q, rx))
      modifies this`live, this`created, this`res, this`mapped, this`leaked, this`at
      ensures Coherent() && old(live) <= live
      ensures ok ==> live == old(live) + RxQueue(q)
      ensures ok ==> forall r :: r in live && r !in old(live) ==> env.create(r).Created?
      ensures if ok then Going() && at == old(at) + |RxOps(q, rx)| else Stuck()
    {
      hide Coherent, StartOps, Going, Stuck;
      ok := true;
      if rx {
        ok := CreateBacked(RxCq(q));
        if !ok { return; }
        ok := CreateBacked(Rq(q));
        if !ok { return; }
        ok := Issue(RqToReady(q));
        if !ok { return; }
        SeenIfAnswered(Rq(q));
        ok := PostBuffers(q);
      }
    }

    lemma SeenIfAnswered(r: Role)
      requires Coherent() && env.create(r).Created? && !ById(r)
      ensures r !in leaked
    {
      hide MemoryAgrees, Refers;
    }

    method CreateSteering() returns (ok: bool)
      requires Coherent() && Tdn in live && Steering() !! live
      requires forall q :: 0 <= q < queues ==> Rq(q) in live
      requires Going() && Next(SteeringOps(true))
      modifies this`live, this`created, this`res, this`leaked, this`at
      ensures Coherent() && old(live) <= live
      ensures ok ==> live == old(live) + Steering()
      ensures ok ==> forall r :: r in live && r !in old(live) ==> env.create(r).Created?
      ensures if ok then Going() && at == old(at) + |SteeringOps(true)| else Stuck()
    {
      hide Coherent, StartOps, Going, Stuck;
      ok := CreateFlagged(Rqt);
      if !ok { return; }
      ok := CreateFlagged(Tir);
      if !ok { return; }
      ok := CreateFlow();
    }

    method CreateFlow() returns (ok: bool)
      requires Coherent() && Tir in live && {FlowTable, FlowGroup, Fte} !! live
      requires Going() && Next([Make(FlowTable), Cmd(FlowTableRoot), Make(FlowGroup), Make(Fte)])
      modifies this`live, this`created, this`res, this`leaked, this`at
      ensures Coherent() && old(live) <= live
      ensures ok ==> live == old(live) + {FlowTable, FlowGroup, Fte}
      ensures ok ==> forall r :: r in live && r !in old(live) ==> env.create(r).Created?
      ensures if ok then Going() && at == old(at) + 4 else Stuck()
    {
      hide Coherent, StartOps, Going, Stuck;
      ok := CreateFlagged(FlowTable);
      if !ok { return; }
      ok := Issue(FlowTableRoot);
      if !ok { return; }
      ok := CreateFlagged(FlowGroup);
      if !ok { return; }
      ok := CreateFlagged(Fte);
    }

    method BringUp() returns (ok: bool)
      requires Coherent() && live == {} && 0 < postCount <= RQ_WQE_COUNT && fwPages == 0 && Going() && at == 0
      modifies this`live, this`created, this`ids, this`leaked, this`res, this`mapped, this`ctx, this`fwPages, this`at
      ensures Coherent()
      ensures ok ==> live == Objects() && fwPages == env.pages(0) + env.pages(1)
      ensures ok ==> forall r :: r in live && r !in old(live) ==> env.create(r).Created?
      ensures if ok then Going() && at == |Plan()| else Stuck()
    {
      hide Coherent, BootOps, SharedOps, QueueOps, SteeringOps, StartOps, Going, Stuck, Queues, Steering;
      PlanNext();
      var queueing := QueueOps(0, queues, tx, rx);
      NextFirst(BootOps(rx), SharedOps(tx, rx) + (queueing + SteeringOps(rx)));
      ok := InitFirmware();
      if !ok { return; }
      NextFirst(SharedOps(tx, rx), queueing + SteeringOps(rx));
      ok := CreateShared();
      if !ok { return; }
      NextFirst(queueing, SteeringOps(rx));
      ok := CreateQueues();
      if !ok { return; }
      if rx {
        ok := CreateSteering();
      } else {
        NoSteering();
      }
    }

    lemma PlanNext()
      requires at == 0
      ensures Next(BootOps(rx) + (SharedOps(tx, rx) + (QueueOps(0, queues, tx, rx) + SteeringOps(rx))))
      ensures |Plan()| == |BootOps(rx)| + |SharedOps(tx, rx)| + |QueueOps(0, queues, tx, rx)| + |SteeringOps(rx)|
    {
      hide BootOps, SharedOps, QueueOps, SteeringOps;
    }

    lemma NoSteering()
      ensures SteeringOps(false) == []
    {}

    method CreateQueues() returns (ok: bool)
      requires Coherent() && live == Shared() && 0 < postCount <= RQ_WQE_COUNT
      requires Going() && Next(QueueOps(0, queues, tx, rx))
      modifies this`live, this`created, this`res, this`mapped, this`leaked, this`at
      ensures Coherent() && old(live) <= live
      ensures ok ==> live == Shared() + Queues(queues)
      ensures ok ==> forall r :: r in live && r !in old(live) ==> env.create(r).Created?
      ensures ok ==> Steering() !! live && (rx ==> forall q :: 0 <= q < queues ==> Rq(q) in live)
      ensures if ok then Going() && at == old(at) + |QueueOps(0, queues, tx, rx)| else Stuck()
    {
      hide Coherent, Going, Stuck, Next, QueueOps, TxOps, RxOps, Queues, TxQueue, RxQueue, Shared, Steering;
      ok := true;
      Separate(0);
      for q := 0 to queues
        invariant Coherent() && live == Shared() + Queues(q) && ok
        invariant forall r :: r in live && r !in old(live) ==> env.create(r).Created?
        invariant Going() && Next(QueueOps(q, queues, tx, rx))
        invariant at + |QueueOps(q, queues, tx, rx)| == old(at) + |QueueOps(0, queues, tx, rx)|
      {
        Separate(q);
        QueueNext(q);
        ok := CreateQueue(q);
        if !ok { return; }
      }
      QueueNext(queues);
      Separate(queues);
    }

    lemma QueueNext(q: nat)
      ensures q >= queues ==> QueueOps(q, queues, tx, rx) == []
      ensures q < queues && Next(QueueOps(q, queues, tx, rx)) ==>
                var a, b := TxOps(q, tx) + RxOps(q, rx), QueueOps(q + 1, queues, tx, rx);
                Next(a + b) && |QueueOps(q, queues, tx, rx)| == |a| + |b|
    {}

    method CreateQueue(q: nat) returns (ok: bool)
      requires Coherent() && q < queues && 0 < postCount <= RQ_WQE_COUNT && Shared() <= live
      requires TxQueue(q) !! live && RxQueue(q) !! live + TxQueue(q)
      requires Going() && Next((TxOps(q, tx) + RxOps(q, rx)) + QueueOps(q + 1, queues, tx, rx))
      modifies this`live, this`created, this`res, this`mapped, this`leaked, this`at
      ensures Coherent() && old(live) <= live
      ensures ok ==> live == old(live) + TxQueue(q) + RxQueue(q)
      ensures ok ==> forall r :: r in live && r !in old(live) ==> env.create(r).Created?
      ensures if ok then Going() && at == old(at) + |TxOps(q, tx) + RxOps(q, rx)| else Stuck()
      ensures ok ==> Next(QueueOps(q + 1, queues, tx, rx))
    {
      hide Coherent, Going, Stuck, QueueOps, TxOps, RxOps, TxQueue, RxQueue, Shared;
      NextFirst(TxOps(q, tx) + RxOps(q, rx), QueueOps(q + 1, queues, tx, rx));
      NextFirst(TxOps(q, tx), RxOps(q, rx));
      ok := CreateTxQueue(q);
      if !ok { return; }
      ok := CreateRxQueue(q);
    }

    /** The objects of the next queue, and those for steering, are still absent. */
    lemma Separate(n: nat)
      ensures Queues(0) == {} && Queues(n + 1) == Queues(n) + TxQueue(n) + RxQueue(n)
      ensures TxQueue(n) !! Shared() + Queues(n) && RxQueue(n) !! Shared() + Queues(n) + TxQueue(n)
      ensures Steering() !! Shared() + Queues(n)
      ensures rx ==> forall q :: 0 <= q < n ==> Rq(q) in Queues(n)
    {
      Apart(n);
    }

    lemma Apart(n: nat)
      ensures TxQueue(n) !! Shared() + Queues(n) && RxQueue(n) !! Shared() + Queues(n) + TxQueue(n)
      ensures Steering() !! Shared() + Queues(n)
      ensures rx ==> forall q :: 0 <= q < n ==> Rq(q) in Queues(n)
    {
      QueuesAre(n);
      RolesApart(n);
      assert forall r :: r in Queues(n) ==> PerQueue(r) && r.q < n;
      hide Queues, TxQueue, RxQueue, Shared, Steering;
    }

    predicate PerQueue(r: Role) { r.TxCq? || r.Sq? || r.RxCq? || r.Rq? }

    lemma RolesApart(n: nat)
      ensures forall r :: r in Shared() + Steering() ==> !PerQueue(r)
      ensures forall r :: r in TxQueue(n) + RxQueue(n) ==> PerQueue(r) && r.q == n
      ensures TxQueue(n) !! RxQueue(n) && Shared() !! Steering()
    {}

    /** Between API calls: a started device's records are exact, a stopped one has nothing
        mapped, and every start that is over has been cleaned up. */
    ghost predicate Valid()
      reads this
    {
      && 0 < queues <= MAX_QUEUES && 0 < postCount <= RQ_WQE_COUNT
      && (started ==> Coherent() && live == Objects() && Running())
      && (!started ==> mapped == {} && live <= leaked + failed)
      && (forall i :: 0 <= i < |past| ==> past[i].Closed(reliable, queues) && Formed(past[i]))
    }

    /** Everything the start needed has worked, and all memory is there. */
    ghost predicate Running()
      reads this`env, this`mapped
    {
      && env.Permits(tx, rx, queues, postCount)
      && (forall g :: env.Uses(g, tx, rx, queues, postCount) ==> g in mapped)
    }

    /** The objects created are all of them, or those of the steps up to the first that
        failed. */
    ghost predicate Formed(g: Generation) {
      if g.env.Permits(tx, rx, queues, postCount) then g.created == Objects()
      else exists k :: StuckAt(g.env, StartOps(tx, rx, queues), postCount, k, g.created)
    }

    /** A count of 0 stands for the default. */
    constructor (tx: bool, rx: bool, queues: nat, postCount: nat, reliable: bool)
      requires queues <= 8 && postCount <= 4096
      ensures Valid() && !started && past == []
      ensures this.reliable == reliable && this.tx == tx && this.rx == rx
      ensures this.queues == (if queues == 0 then 1 else queues)
      ensures this.postCount == if postCount == 0 then 4096 else postCount
    {
      this.tx, this.rx, this.reliable := tx, rx, reliable;
      this.queues := if queues == 0 then 1 else queues;
      this.postCount := if postCount == 0 then RQ_WQE_COUNT else postCount;
      started, ctx, fwPages, ids, res := false, {}, 0, map[], map[];
      live, mapped := {}, {};
      created, issued, failed, leaked, past, at := {}, {}, {}, {}, [], 0;
      env := Env(_ => Refused, _ => false, _ => false, _ => 0);
    }

    /** Everything mapped at one time lies apart, provided a transmitting device has not
        given the firmware more than 4096 pages. */
    lemma MappedDisjoint(g: Region, h: Region)
      requires Coherent() && (!tx || fwPages <= 4096)
      requires g in mapped && h in mapped && g != h
      ensures Disjoint(g, h)
    {
      PairDisjoint(g, h, tx, queues, fwPages);
    }

    /** A fresh record for the next start, which meets the environment `e`. */
    method Reset(e: Env)
      requires mapped == {}
      modifies this`ctx, this`fwPages, this`ids, this`res, this`live, this`created, this`issued, this`failed,
               this`leaked, this`env, this`at
      ensures 0 < queues <= MAX_QUEUES ==> Coherent()
      ensures live == created == leaked == {} && ctx == {} && fwPages == 0 && env == e && at == 0
    {
      hide KnownOf, MemoryAgrees;
      NothingRecorded(e);
      env, at := e, 0;
      ctx, fwPages, ids, res := {}, 0, map[], map[];
      live, created, issued, failed, leaked := {}, {}, {}, {}, {};
    }

    lemma NothingRecorded(e: Env)
      ensures KnownOf(e, {}, {}, map[], map[], queues) && MemoryAgrees({}, {}, map[], queues)
    {
      hide Refers, InUse;
    }

    /** Brings the device up, or cleans up whatever had been created.  A successful start
        has created exactly the device's objects; after a failed one with reliable
        firmware an object is left exactly if some object of that start came with id 0
        where the driver goes by the id, or was created without an answer. */
    method Start(e: Env) returns (ok: bool)
      requires Valid()
      modifies this
      ensures Valid() && ok == started
      ensures old(started) ==> ok && past == old(past) && live == old(live) && env == old(env)
      ensures !old(started) ==> env == e && (e.Favourable() ==> ok)
      ensures ok && !old(started) ==> live == created == Objects() && past == old(past)
      ensures ok && !old(started) ==> forall r :: r in created ==> e.create(r).Created?
      ensures forall r :: !old(started) && r in leaked <==> !old(started) && r in created && e.Unseen(r)
      ensures !old(started) && e.Quiet() && !e.create(Uar).Refused? ==> Uar in created
      ensures !ok ==> mapped == {}
      ensures !ok && past != old(past) ==>
                live == leaked + failed && past == old(past) + [Generation(created, issued, failed, leaked, env)]
      ensures !ok && past != old(past) ==> Generation(created, issued, failed, leaked, env).Closed(reliable, queues)
      ensures !ok && past == old(past) ==> created == live == {}
      ensures !ok ==> (past == old(past) <==> !e.Opens())
      ensures !ok && reliable ==> (live == {} <==> forall r :: r in created ==> !e.Unseen(r))
      ensures !old(started) ==> (ok <==> e.Permits(tx, rx, queues, postCount))
      ensures ok && !old(started) ==> fwPages == e.pages(0) + e.pages(1)
      ensures ok && !old(started) ==> forall g :: g in mapped <==> e.Uses(g, tx, rx, queues, postCount)
      ensures !ok && e.Opens() ==> StuckAt(e, StartOps(tx, rx, queues), postCount, at, created)
    {
      hide Coherent, Env.Favourable, Env.Quiet, Env.Unseen, Env.Opens, Objects, Pinned, Going, Stuck,
           Env.Permits, Env.Uses, StartOps, StuckAt;
      if started {
        return true;
      }
      Reset(e);
      QuietMaps(e);
      PermitsIff(e, tx, rx, queues, postCount);
      ok := OpenContext();
      if ok {
        GoingStarts();
        ok := BringUp();
        LeakedIsUnseen();
        GoingEnds(e, ok);
        if ok {
          started := true;
        } else {
          var rc := Cleanup(-1);
        }
      }
    }

    lemma QuietMaps(e: Env)
      ensures e.Favourable() ==> e.Quiet()
      ensures e.Quiet() ==> e.Opens()
    {}

    lemma GoingStarts()
      requires created == {} && mapped == {CmdQueue, Inbox, Outbox} && at == 0
      ensures Going()
    {}

    lemma GoingEnds(e: Env, ok: bool)
      requires env == e && e.Opens() && if ok then Going() && at == |Plan()| else Stuck()
      ensures ok <==> e.Permits(tx, rx, queues, postCount)
      ensures ok ==> forall g :: g in mapped <==> e.Uses(g, tx, rx, queues, postCount)
      ensures !ok ==> StuckAt(e, StartOps(tx, rx, queues), postCount, at, created)
      ensures e.Favourable() ==> ok
      ensures e.Quiet() && !e.create(Uar).Refused? ==> Uar in created
    {
      hide StartOps, Env.Permits, Env.Does, Env.MappedByAll, Env.Uses, Env.Favourable, Env.Quiet, Env.Opens, RolesOf,
           Takes;
      PermitsIff(e, tx, rx, queues, postCount);
      forall op ensures op in Plan() <==> Takes(op, tx, rx, queues) {
        StartHas(op, tx, rx, queues);
      }
      if e.Favourable() {
        FavourablePermits(e, tx, rx, queues, postCount);
      }
      if ok {
        assert Plan()[..at] == Plan();
        RolesAre(Plan(), Uar);
        UarTaken();
        forall g ensures g in mapped <==> e.Uses(g, tx, rx, queues, postCount) {
          UsesAre(e, tx, rx, queues, postCount, g);
        }
      } else if e.Quiet() && !e.create(Uar).Refused? {
        QuietReaches(e, tx, rx, queues, postCount, at, created);
      }
    }

    lemma UarTaken()
      ensures Takes(Make(Uar), tx, rx, queues)
    {}

    lemma LeakedIsUnseen()
      requires Coherent()
      ensures created == live && forall r :: r in leaked <==> r in created && env.Unseen(r)
    {}

    /** A release posts a slot that never had a buffer; `fits` says whether one can be
        mapped. */
    method Repost(q: nat, slot: nat, fits: bool) returns (ok: bool)
      requires Valid()
      modifies this`res, this`mapped
      ensures Valid()
      ensures ok <==> fits && started && rx && q < queues && slot < 4096
      ensures mapped == if ok then old(mapped) + {RxPage(q, slot)} else old(mapped)
    {
      hide Coherent;
      ok := false;
      if started && q < queues && slot < RQ_WQE_COUNT {
        ReceiverHeld(q);
        if Holds(Rq(q)) {
          ok := MapRxPage(q, slot, fits);
        }
      }
    }

    /** A started device has the receive queues its flags call for. */
    lemma ReceiverHeld(q: nat)
      requires Valid() && started && q < queues
      ensures Holds(Rq(q)) <==> rx
      ensures rx ==> Rq(q) in live && Rq(q) !in leaked
    {
      hide Coherent, Env.Uses, Objects, Env.Permits, Generation.Closed, Formed;
      ReceiverBelongs(env, q);
      SeenIfCreated(Rq(q));
    }

    lemma ReceiverBelongs(e: Env, q: nat)
      requires q < queues
      ensures Rq(q) in Objects() <==> rx
      ensures e.Permits(tx, rx, queues, postCount) && rx ==> e.create(Rq(q)).Created?
    {
      QueuesAre(queues);
      hide Queues;
    }

    lemma SeenIfCreated(r: Role)
      requires Coherent() && !ById(r)
      ensures env.create(r).Created? ==> r !in leaked && (Holds(r) <==> r in live)
      ensures r !in live ==> !Holds(r)
    {
      hide MemoryAgrees, Refers;
    }

    /** Takes a started device down; does nothing to a stopped one.  The result is clean
        exactly if the firmware carried out every destroy. */
    method Stop() returns (clean: bool)
      requires Valid()
      modifies this
      ensures Valid() && !started && mapped == {}
      ensures if old(started) then past == old(past) + [Generation(created, issued, failed, leaked, env)]
              else past == old(past) && issued == old(issued)
      ensures env == old(env) && created == old(created) && leaked == old(leaked)
      ensures old(started) ==> Generation(created, issued, failed, leaked, env).Closed(reliable, queues)
      ensures old(started) ==> live == leaked + failed && (clean <==> failed == {})
      ensures old(started) && reliable ==> (live == {} <==> forall r :: r in created ==> !env.Unseen(r))
    {
      hide Coherent, Objects, Env.Permits, Env.Uses, StuckAt;
      clean := true;
      if started {
        LiveIsCreated();
        var rc := Cleanup(0);
        clean := rc == 0;
        started := false;
      }
    }
  }

  datatype Call = StartCall(e: Env) | StopCall | RepostCall(q: nat, slot: nat, fits: bool)

  /** The environments of the starts that are over, in order, and of the one that is not. */
  datatype History = History(over: seq<Env>, current: Option<Env>)

  /** What a call adds to the history.  A start that fails is over at once, unless it could
      not even open the command context. */
  function Follow(h: History, c: Call, ok: bool): History {
    match c
    case StartCall(e) =>
      if h.current.Some? then h
      else if ok then History(h.over, Some(e))
      else if e.Opens() then History(h.over + [e], None)
      else h
    case StopCall => if h.current.Some? then History(h.over + [h.current.value], None) else h
    case RepostCall(_, _, _) => h
  }

  function FollowAll(calls: seq<Call>, oks: seq<bool>): History
    requires |oks| == |calls|
  {
    if calls == [] then History([], None)
    else
      var n := |calls| - 1;
      Follow(FollowAll(calls[..n], oks[..n]), calls[n], oks[n])
  }

  function EnvsOf(past: seq<Generation>): (es: seq<Env>)
    ensures |es| == |past|
  {
    seq(|past|, i requires 0 <= i < |past| => past[i].env)
  }

  /** The device has been through `h`. */
  ghost predicate Matches(d: Device, h: History)
    reads d
  {
    && d.Valid() && EnvsOf(d.past) == h.over
    && (d.started <==> h.current.Some?) && (d.started ==> d.env == h.current.value)
  }

  method Apply(d: Device, c: Call, ghost h: History) returns (ok: bool)
    requires Matches(d, h)
    modifies d
    ensures Matches(d, Follow(h, c, ok))
    ensures c.StartCall? ==> (ok <==> h.current.Some? || c.e.Permits(d.tx, d.rx, d.queues, d.postCount))
    ensures c.RepostCall? ==> (ok <==> c.fits && h.current.Some? && d.rx && c.q < d.queues && c.slot < 4096)
  {
    hide Env.Permits, Env.Unseen, Env.Opens, Env.Favourable, Env.Quiet, Device.Running, Device.Formed, Device.Coherent,
         Device.Objects, Pinned, Generation.Closed;
    ghost var before := d.past;
    match c {
      case StartCall(e) =>
        ok := d.Start(e);
      case StopCall =>
        ok := d.Stop();
      case RepostCall(q, slot, fits) =>
        ok := d.Repost(q, slot, fits);
    }
    EnvsMore(before, Generation(d.created, d.issued, d.failed, d.leaked, d.env));
  }

  /** Any sequence of starts, stops and reposts, each start failing at any step or not at
      all, followed by a last stop.  `oks` are the results.  Exactly the starts that came
      as far as to open the command context leave a generation, in order; each of these
      has issued exactly one destroy command for each object the driver could see, and
      with reliable firmware exactly those were refused to which an object left over
      refers; without objects of id 0 or created without an answer none was refused and
      none is left. */
  method Run(d: Device, calls: seq<Call>) returns (oks: seq<bool>)
    requires d.Valid() && !d.started && d.past == []
    modifies d
    ensures d.Valid() && !d.started && d.mapped == {}
    ensures |oks| == |calls| && EnvsOf(d.past) == Follow(FollowAll(calls, oks), StopCall, true).over
    ensures forall i :: 0 <= i < |calls| && calls[i].StartCall? ==>
              (oks[i] <==>
               || FollowAll(calls[..i], oks[..i]).current.Some?
               || calls[i].e.Permits(d.tx, d.rx, d.queues, d.postCount))
    ensures forall i :: 0 <= i < |calls| && calls[i].RepostCall? ==>
              (oks[i] <==>
               && FollowAll(calls[..i], oks[..i]).current.Some?
               && calls[i].fits && d.rx && calls[i].q < d.queues && calls[i].slot < 4096)
    ensures forall i :: 0 <= i < |d.past| ==> d.past[i].Closed(d.reliable, d.queues) && d.Formed(d.past[i])
    ensures forall i :: 0 <= i < |d.past| && d.reliable ==>
              var g := d.past[i];
              (forall r :: r in g.created ==> !g.env.Unseen(r)) ==> g.issued == g.created && g.failed == {}
  {
    hide Env.Favourable, Env.Permits, Follow, FollowAll, EnvsOf, Device.Coherent, Device.Objects, Device.Running,
         Device.Formed;
    oks := [];
    NoEnvs();
    assert calls[..0] == [];
    for i := 0 to |calls|
      invariant |oks| == i && Matches(d, FollowAll(calls[..i], oks))
      invariant forall k :: 0 <= k < i && calls[k].StartCall? ==>
                  (oks[k] <==>
                   || FollowAll(calls[..k], oks[..k]).current.Some?
                   || calls[k].e.Permits(d.tx, d.rx, d.queues, d.postCount))
      invariant forall k :: 0 <= k < i && calls[k].RepostCall? ==>
                  (oks[k] <==>
                   && FollowAll(calls[..k], oks[..k]).current.Some?
                   && calls[k].fits && d.rx && calls[k].q < d.queues && calls[k].slot < 4096)
    {
      ghost var h := FollowAll(calls[..i], oks);
      var ok := Apply(d, calls[i], h);
      FollowMore(calls[..i], oks, calls[i], ok);
      assert calls[..i] + [calls[i]] == calls[..i + 1];
      ghost var was := oks;
      oks := oks + [ok];
      assert oks[..i] == was;
      assert forall k :: 0 <= k < i ==> oks[..k] == was[..k];
    }
    assert calls[..|calls|] == calls;
    ghost var h := FollowAll(calls, oks);
    var clean := Apply(d, StopCall, h);
    StopEnds(d, h, clean);
  }

  lemma EnvsMore(past: seq<Generation>, g: Generation)
    ensures EnvsOf(past + [g]) == EnvsOf(past) + [g.env] && past + [g] != past
  {
    assert |past + [g]| == |past| + 1;
  }

  lemma NoEnvs()
    ensures EnvsOf([]) == [] && FollowAll([], []) == History([], None)
  {}

  lemma FollowMore(calls: seq<Call>, oks: seq<bool>, c: Call, ok: bool)
    requires |oks| == |calls|
    ensures FollowAll(calls + [c], oks + [ok]) == Follow(FollowAll(calls, oks), c, ok)
  {
    assert (calls + [c])[..|calls|] == calls && (oks + [ok])[..|oks|] == oks;
  }

  lemma StopEnds(d: Device, h: History, clean: bool)
    requires Matches(d, Follow(h, StopCall, clean))
    ensures !d.started && d.mapped == {} && EnvsOf(d.past) == Follow(h, StopCall, true).over
  {}

  /** A UAR of id 0 on an otherwise perfect device: the start succeeds, the stop reports no
      failure, and the UAR is still there. */
  method IdZeroIsLeft() returns (d: Device, started: bool, clean: bool)
    ensures started && Uar in d.live && Uar !in d.issued
  {
    hide Device.Coherent, Device.Formed, Device.Running, Device.Objects, Env.Permits, Env.Uses, StuckAt;
    d := new Device(true, true, 1, 1, true);
    var e := Env(r => if r == Uar then Created(0) else Created(1), _ => true, _ => true, _ => 0);
    started := d.Start(e);
    assert e.Unseen(Uar);
    clean := d.Stop();
  }

  /** A UAR that is created but answered too late: the start fails, and its cleanup leaves
      the UAR behind. */
  method UnansweredIsLeft() returns (d: Device, started: bool)
    ensures !started && Uar in d.live && Uar !in d.issued
  {
    hide Device.Coherent, Device.Formed, Device.Running, Device.Objects, Env.Permits, Env.Uses, StuckAt;
    d := new Device(true, true, 1, 1, true);
    var e := Env(r => if r == Uar then Unanswered else Created(1), _ => true, _ => true, _ => 0);
    started := d.Start(e);
    assert e.Unseen(Uar);
  }

  /** An event queue that is created but answered too late: even perfect firmware refuses to
      destroy the UAR that it refers to, so both are left. */
  method LeftOverPinsUar() returns (d: Device, started: bool)
    ensures !started && Eq in d.live && Eq !in d.issued && Uar in d.live && Uar in d.failed
  {
    hide Device.Coherent, Device.Formed, Device.Running, Device.Objects, Env.Uses, StuckAt;
    d := new Device(true, true, 1, 1, true);
    var e := Env(r => if r == Eq then Unanswered else Created(1), _ => true, _ => true, _ => 0);
    started := d.Start(e);
    assert e.Unseen(Eq);
    EqIsLast(e, d.at, d.created);
    UarPinned(d.created, d.issued, d.failed, d.leaked, e);
  }

  lemma EqIsLast(e: Env, at: nat, created: set<Role>)
    requires StuckAt(e, StartOps(true, true, 1), 1, at, created) && e.Quiet()
    requires forall r :: e.create(r) == if r == Eq then Unanswered else Created(1)
    ensures Eq in created && Uar in created
  {
    hide StartOps, RolesOf;
    var ops := StartOps(true, true, 1);
    assert !e.Does(ops[at], 1);
    assert ops[at] in ops;
    StartHas(ops[at], true, true, 1);
    assert ops[at] == Make(Eq);
    QuietReaches(e, true, true, 1, 1, at, created);
  }

  lemma UarPinned(created: set<Role>, issued: set<Role>, failed: set<Role>, leaked: set<Role>, e: Env)
    requires Eq in created && Uar in created
    requires forall r :: e.create(r) == if r == Eq then Unanswered else Created(1)
    requires Generation(created, issued, failed, leaked, e).Closed(true, 1)
    ensures Eq in leaked && Eq !in issued && Uar in failed
  {
    assert e.Unseen(Eq) && !e.Unseen(Uar);
    assert Refers(Eq, Uar, 1) && Pinned(Uar, leaked + failed, 1);
  }
}
