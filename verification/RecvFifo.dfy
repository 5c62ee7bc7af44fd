/** The receive side without counters and bytes: which receive slots are posted, filled,
    handed to the application and reposted. */
module RecvFifo {
  import opened Modular
  import opened Words

  const RQ_WQE_COUNT := 4096

  /** What the device did with one posted slot: it wrote `payload` into the buffer and
      completed it with success or with an error. */
  datatype Arrival = Arrival(payload: bytes, ok: bool)

  /** Slots are numbered by posting order, without wrap-around: `prod` have been
      written, the first `rung` announced, and the first |arrivals| completed by the
      device.  The driver has consumed `consumed` completions and handed the packets
      `delivered` to the application, which has given `released` of them back, oldest
      first.  `granted` slots were posted when the queue was started and `leaked` by
      releases that failed half-way. */
  datatype Fifo = Fifo(prod: nat, rung: nat, arrivals: seq<Arrival>, consumed: nat,
                       delivered: seq<nat>, released: nat, granted: nat, leaked: nat)
  {
    /** Slots the application has paid for and that are not posted yet. */
    function Owed(): int { granted + released + leaked - prod }

    ghost predicate Valid() {
      && released <= |delivered| <= consumed <= |arrivals| <= rung <= prod
      && 0 <= Owed()
      && granted + leaked <= RQ_WQE_COUNT
      && (forall j :: 0 <= j < |delivered| ==> j <= delivered[j] < consumed && arrivals[delivered[j]].ok)
      && (forall i, j :: 0 <= i < j < |delivered| ==> delivered[i] < delivered[j])
      && (forall k :: 0 <= k < consumed && arrivals[k].ok ==> k in delivered)
    }

    /** Nothing posted, received or granted yet. */
    predicate Unused() {
      && prod == rung == consumed == released == granted == leaked == 0
      && arrivals == [] && delivered == []
    }

    /** Packets the application holds. */
    function Outstanding(): int { |delivered| - released }

    function Post(): Fifo { this.(prod := prod + 1) }

    function Ring(): Fifo { this.(rung := prod) }

    function Receive(a: Arrival): Fifo { this.(arrivals := arrivals + [a]) }

    /** Consumes the next completion; a success is handed to the application. */
    function Consume(): Fifo
      requires consumed < |arrivals|
    {
      this.(consumed := consumed + 1, delivered := if arrivals[consumed].ok then delivered + [consumed] else delivered)
    }

    function Release(n: nat): Fifo { this.(released := released + n) }

    /** A release of `n` packets fails after reposting `posted` slots: the application
        keeps the packets. */
    function Undo(n: nat, posted: nat): Fifo
      requires n <= released
    {
      this.(released := released - n, leaked := leaked + posted)
    }
  }

  /** How many of the next `count` slots are posted for the first time and need memory. */
  function NeedsMemory(prod: nat, count: nat): (n: nat)
    ensures n <= count
    ensures prod >= RQ_WQE_COUNT ==> n == 0
  {
    if prod + count <= RQ_WQE_COUNT then count
    else if prod <= RQ_WQE_COUNT then RQ_WQE_COUNT - prod
    else 0
  }

  lemma ConsumeKeeps(f: Fifo)
    requires f.Valid() && f.consumed < |f.arrivals|
    ensures f.Consume().Valid()
  {
    var g := f.Consume();
    forall k | 0 <= k < g.consumed && g.arrivals[k].ok
      ensures k in g.delivered
    {
      if k < f.consumed {
        assert k in f.delivered;
      } else {
        assert g.delivered[|g.delivered| - 1] == k;
      }
    }
  }

  /** A packet the application still holds, and a slot posted but not completed, lie
      less than one ring behind the next slot to post: posting never reuses them. */
  lemma PostSparesHeld(f: Fifo)
    requires f.Valid() && f.Owed() > 0
    ensures forall j :: f.released <= j < |f.delivered| ==>
              f.delivered[j] < f.prod < f.delivered[j] + RQ_WQE_COUNT
              && f.prod % RQ_WQE_COUNT != f.delivered[j] % RQ_WQE_COUNT
    ensures forall k :: |f.arrivals| <= k < f.prod ==>
              f.prod < k + RQ_WQE_COUNT && f.prod % RQ_WQE_COUNT != k % RQ_WQE_COUNT
  {
    forall k | f.released <= k < f.prod
      ensures f.prod < k + RQ_WQE_COUNT && f.prod % RQ_WQE_COUNT != k % RQ_WQE_COUNT
    {
      DistinctMod(k, f.prod, RQ_WQE_COUNT);
    }
  }

  /** A release can only fail while some slot has never been posted, that is during the
      first pass; so what failed releases leak never exhausts the ring. */
  lemma UndoKeeps(f: Fifo, n: nat, posted: nat)
    requires f.Valid() && n <= f.released && f.prod < RQ_WQE_COUNT
    requires f.Owed() == n - posted && posted <= n
    ensures f.Undo(n, posted).Valid() && f.Undo(n, posted).Owed() == 0
  {}

  /** The exact reach of releases: a slot is posted again exactly when more than one ring
      of slots has been posted behind it. */
  lemma ReusedIff(k: nat, prod: nat)
    ensures (exists n :: k < n < prod && n % RQ_WQE_COUNT == k % RQ_WQE_COUNT) <==> k + RQ_WQE_COUNT < prod
  {
    if k + RQ_WQE_COUNT < prod {
      EqualMod(k + RQ_WQE_COUNT, k, RQ_WQE_COUNT);
      assert (k + RQ_WQE_COUNT) % RQ_WQE_COUNT == k % RQ_WQE_COUNT;
    }
    forall n | k < n < prod && n % RQ_WQE_COUNT == k % RQ_WQE_COUNT
      ensures k + RQ_WQE_COUNT <= n
    {
      if n < k + RQ_WQE_COUNT {
        DistinctMod(k, n, RQ_WQE_COUNT);
      }
    }
  }

  /** Packets may be given back out of order only within the slack of the ring: a packet
      delivered survives a total of `released` releases exactly if these do not exceed
      the number of its slot by more than the slots never granted. */
  lemma OutOfOrderSlack(f: Fifo, j: nat)
    requires f.Valid() && f.Owed() == 0 && j < |f.delivered|
    ensures var k := f.delivered[j];
      (exists n :: k < n < f.prod && n % RQ_WQE_COUNT == k % RQ_WQE_COUNT)
        <==> f.released > k + (RQ_WQE_COUNT - f.granted - f.leaked)
  {
    ReusedIff(f.delivered[j], f.prod);
  }
}
