/** Whole runs of the receive API against one queue. */
module RecvClient {
  import opened Words
  import opened RecvFifo
  import opened RecvQueue

  /** `memory` buffers can be had during a release. */
  datatype Call = Burst(nbPkts: uint16, timeoutMs: int) | Release(nbPkts: uint16, memory: nat)

  /** What one call does, the device having written `written` completions by its end.  A
      burst delivers the next arrivals and falls short only for a reason; a release takes
      effect exactly if the packets are held and the memory suffices. */
  ghost predicate Step(c: Call, f: Fifo, g: Fifo, written: nat) {
    && f.arrivals <= g.arrivals
    && match c
       case Burst(n, timeoutMs) =>
         var k := |g.delivered| - |f.delivered|;
         && f.delivered <= g.delivered && k <= n
         && g == f.(arrivals := g.arrivals, consumed := g.consumed, delivered := g.delivered)
         && (forall i :: |f.delivered| <= i < |g.delivered| ==> g.delivered[i] == f.consumed + (i - |f.delivered|))
         && (k == n ==> g.consumed == f.consumed + n)
         && (k < n ==> ShortOf(f, g, k, written) || (k == 0 && timeoutMs < 0))
       case Release(n, memory) =>
         if n > f.Outstanding() then g == f
         else if NeedsMemory(f.prod, n) > memory then
           g == f.(arrivals := g.arrivals, prod := f.prod + memory, leaked := f.leaked + memory)
         else
           g == f.(arrivals := g.arrivals, prod := f.prod + n, released := f.released + n,
                   rung := if n > 0 then f.prod + n else f.rung)
  }

  /** `trace` and `written` say, call by call, where the queue was. */
  ghost predicate Traces(calls: seq<Call>, trace: seq<Fifo>, written: seq<nat>) {
    && |trace| == |calls| + 1 && |written| == |calls|
    && (forall i :: 0 <= i < |calls| ==> Step(calls[i], trace[i], trace[i + 1], written[i]))
  }

  lemma TraceMore(calls: seq<Call>, trace: seq<Fifo>, written: seq<nat>, c: Call, g: Fifo, w: nat)
    requires Traces(calls, trace, written) && Step(c, trace[|calls|], g, w)
    ensures Traces(calls + [c], trace + [g], written + [w])
  {
    hide Step;
  }

  /** `read` is, packet by packet from the `first`-th delivery on, what the device put on
      the delivered slots. */
  ghost predicate Copies(read: seq<bytes>, f: Fifo, first: nat) {
    && first + |read| <= |f.delivered|
    && (forall i :: 0 <= i < |read| ==> IsCopy(read[i], f, first + i))
  }

  /** The bytes that arrived as the `j`-th packet delivered. */
  ghost predicate IsCopy(pkt: bytes, f: Fifo, j: nat) {
    j < |f.delivered| && f.delivered[j] < |f.arrivals| && pkt == f.arrivals[f.delivered[j]].payload
  }

  /** The delivered slots are all successful arrivals consumed so far, in order. */
  ghost predicate InOrder(f: Fifo) {
    && (forall i, j :: 0 <= i < j < |f.delivered| ==> f.delivered[i] < f.delivered[j])
    && (forall k :: 0 <= k < f.consumed && k < |f.arrivals| && f.arrivals[k].ok ==> k in f.delivered)
  }

  /** The application looks at the packets `pkts`, which it holds. */
  method Read(q: Rq, pkts: seq<Packet>, ghost first: nat) returns (read: seq<bytes>)
    requires q.Valid() && HeldIntact(q.pages[..], q.fifo)
    requires q.fifo.released <= first && first + |pkts| == |q.fifo.delivered|
    requires Describes(pkts, q.fifo.arrivals, q.fifo.delivered[first..])
    ensures |read| == |pkts| && Copies(read, q.fifo, first)
  {
    hide Refines;
    read := [];
    for i := 0 to |pkts|
      invariant |read| == i && Copies(read, q.fifo, first)
    {
      ghost var k := q.fifo.delivered[first + i];
      assert k == q.fifo.delivered[first..][i];
      read := read + [q.pages[pkts[i].slot][..pkts[i].len]];
    }
  }

  /** Any run of calls on a started queue, the device and its errors acting in between:
      every packet is read as it arrived, in arrival order, none is skipped, and the
      packets still held read the same again at the end.  Slots posted are those granted
      at the start plus those released plus those leaked by failed releases.  `trace`
      says what each call did. */
  method Run(q: Rq, calls: seq<Call>)
    returns (read: seq<bytes>, again: seq<bytes>, ghost trace: seq<Fifo>, ghost written: seq<nat>)
    requires q.Valid() && q.fifo.delivered == [] && q.fifo.released == 0
    modifies q, q.ring, q.pages, q.cq, q.cq.ring
    ensures q.Valid()
    ensures |read| == |q.fifo.delivered| && Copies(read, q.fifo, 0) && InOrder(q.fifo)
    ensures q.fifo.released <= |read| && again == read[q.fifo.released..]
    ensures q.fifo.prod == q.fifo.granted + q.fifo.released + q.fifo.leaked
    ensures q.outstanding == |again| <= q.fifo.granted + q.fifo.leaked <= RQ_WQE_COUNT
    ensures Traces(calls, trace, written) && trace[0] == old(q.fifo) && trace[|calls|] == q.fifo
  {
    hide Refines, Step, Traces, Session;
    var held: seq<Packet> := [];
    read, trace, written := [], [q.fifo], [];
    SessionStart(q);
    TraceStart(q.fifo);
    assert calls[..0] == [];
    for c := 0 to |calls|
      invariant Session(q, read, held)
      invariant Traces(calls[..c], trace, written) && |trace| == c + 1
      invariant trace[0] == old(q.fifo) && trace[c] == q.fifo
    {
      read, held := Apply(q, calls[c], read, held);
      TraceMore(calls[..c], trace, written, calls[c], q.fifo, q.cq.written);
      assert calls[..c] + [calls[c]] == calls[..c + 1];
      trace, written := trace + [q.fifo], written + [q.cq.written];
    }
    assert calls[..|calls|] == calls;
    again := SessionEnd(q, read, held);
  }

  /** All packets delivered have been read as they arrived, and `held` describes those not
      given back. */
  ghost predicate Session(q: Rq, read: seq<bytes>, held: seq<Packet>)
    reads q, q.ring, q.pages, q.cq, q.cq.ring
  {
    && q.Valid() && HeldIntact(q.pages[..], q.fifo)
    && |read| == |q.fifo.delivered| && q.fifo.released <= |read| && Copies(read, q.fifo, 0)
    && Describes(held, q.fifo.arrivals, q.fifo.delivered[q.fifo.released..])
    && |held| == |q.fifo.delivered| - q.fifo.released
  }

  /** One call; a burst is read at once. */
  method Apply(q: Rq, c: Call, read0: seq<bytes>, held0: seq<Packet>) returns (read: seq<bytes>, held: seq<Packet>)
    requires Session(q, read0, held0)
    modifies q, q.ring, q.pages, q.cq, q.cq.ring
    ensures Session(q, read, held)
    ensures Step(c, old(q.fifo), q.fifo, q.cq.written)
  {
    hide Refines, Copies, Describes, Step, HeldIntact;
    read, held := read0, held0;
    ghost var before := q.fifo;
    match c {
      case Burst(nbPkts, timeoutMs) =>
        var pkts, status := q.RxBurst(nbPkts, timeoutMs);
        var more := Read(q, pkts, |before.delivered|);
        CopiesOn(before, q.fifo, read, more);
        read := read + more;
        DescribesOn(before, q.fifo, held, pkts);
        held := held + pkts;
        BurstStep(nbPkts, timeoutMs, before, q.fifo, pkts, q.cq.written);
      case Release(nbPkts, memory) =>
        HeldPackets(q);
        var status := q.RxRelease(nbPkts, memory);
        ReleaseStep(nbPkts, memory, before, q.fifo, status);
        NoCopies(q.fifo, |before.delivered|);
        CopiesOn(before, q.fifo, read, []);
        ghost var n := if status == Ok then nbPkts else 0;
        FifoFacts(q.View(), q.mkey, q.base, q.fifo);
        DescribesRest(before, q.fifo, held, n);
        if status == Ok {
          held := held[nbPkts..];
        }
    }
  }

  lemma SessionStart(q: Rq)
    requires q.Valid() && q.fifo.delivered == [] && q.fifo.released == 0
    ensures Session(q, [], [])
  {
    hide Refines;
    HeldIsIntact(q.View(), q.mkey, q.base, q.fifo);
  }

  /** Reads the packets still held once more. */
  method SessionEnd(q: Rq, read: seq<bytes>, held: seq<Packet>) returns (again: seq<bytes>)
    requires Session(q, read, held)
    ensures q.Valid()
    ensures |read| == |q.fifo.delivered| && Copies(read, q.fifo, 0) && InOrder(q.fifo)
    ensures q.fifo.released <= |read| && again == read[q.fifo.released..]
    ensures q.fifo.prod == q.fifo.granted + q.fifo.released + q.fifo.leaked
    ensures q.outstanding == |again| <= q.fifo.granted + q.fifo.leaked <= RQ_WQE_COUNT
  {
    hide Refines, Copies, Describes, HeldIntact;
    again := Read(q, held, q.fifo.released);
    SameCopies(q.fifo, read, again, q.fifo.released);
    FifoFacts(q.View(), q.mkey, q.base, q.fifo);
  }

  lemma TraceStart(f: Fifo)
    ensures Traces([], [f], [])
  {}

  lemma BurstStep(n: uint16, timeoutMs: int, f: Fifo, g: Fifo, pkts: seq<Packet>, written: nat)
    requires Received(f, g, pkts) && |pkts| <= n
    requires |pkts| == n ==> g.consumed == f.consumed + n
    requires |pkts| < n ==> ShortOf(f, g, |pkts|, written) || (pkts == [] && timeoutMs < 0)
    ensures Step(Burst(n, timeoutMs), f, g, written)
  {
    hide Describes;
  }

  lemma ReleaseStep(n: uint16, memory: nat, f: Fifo, g: Fifo, status: Status)
    requires f.arrivals <= g.arrivals && 0 <= f.Outstanding()
    requires status == Ok || status == Invalid || status == IoError
    requires status == Invalid <==> n > f.Outstanding()
    requires status == Invalid ==> g == f
    requires status == IoError <==> n <= f.Outstanding() && NeedsMemory(f.prod, n) > memory
    requires g == f.(prod := g.prod, rung := g.rung, arrivals := g.arrivals, released := g.released, leaked := g.leaked)
    requires status == Ok ==> g.released == f.released + n && g.leaked == f.leaked && g.prod == f.prod + n
    requires status == Ok ==> g.rung == if n > 0 then g.prod else f.rung
    requires status != Ok ==> g.released == f.released && g.rung == f.rung
    requires status == IoError ==> g.prod == f.prod + memory && g.leaked == f.leaked + memory
    ensures forall w :: Step(Release(n, memory), f, g, w)
  {}

  lemma HeldPackets(q: Rq)
    requires q.Valid()
    ensures q.outstanding == q.fifo.Outstanding() >= 0
  {}

  lemma NoCopies(f: Fifo, first: nat)
    requires first <= |f.delivered|
    ensures Copies([], f, first)
  {}

  lemma SameCopies(f: Fifo, read: seq<bytes>, again: seq<bytes>, first: nat)
    requires Copies(read, f, 0) && Copies(again, f, first) && |read| == |f.delivered| == first + |again|
    ensures again == read[first..]
  {
    forall i | 0 <= i < |again| ensures again[i] == read[first + i] {
      assert IsCopy(again[i], f, first + i) && IsCopy(read[first + i], f, 0 + (first + i));
    }
  }

  lemma CopiesOn(f: Fifo, g: Fifo, read: seq<bytes>, more: seq<bytes>)
    requires f.delivered <= g.delivered && f.arrivals <= g.arrivals
    requires Copies(read, f, 0) && |read| == |f.delivered| && Copies(more, g, |f.delivered|)
    ensures Copies(read + more, g, 0)
    ensures more == [] ==> Copies(read, g, 0)
  {
    var n := |read|;
    forall i | 0 <= i < n + |more| ensures IsCopy((read + more)[i], g, i) {
      if i < n {
        assert IsCopy(read[i], f, 0 + i);
      } else {
        assert IsCopy(more[i - n], g, n + (i - n));
      }
    }
    assert more == [] ==> read + more == read;
  }

  lemma DescribesOn(f: Fifo, g: Fifo, held: seq<Packet>, pkts: seq<Packet>)
    requires f.released <= |f.delivered| && f.delivered <= g.delivered && f.arrivals <= g.arrivals
    requires Describes(held, f.arrivals, f.delivered[f.released..])
    requires Describes(pkts, g.arrivals, g.delivered[|f.delivered|..])
    ensures Describes(held + pkts, g.arrivals, g.delivered[f.released..])
    ensures |held + pkts| == |g.delivered| - f.released
  {
    assert g.delivered[f.released..] == f.delivered[f.released..] + g.delivered[|f.delivered|..];
  }

  /** Giving the oldest `n` packets back leaves the rest described. */
  lemma DescribesRest(f: Fifo, g: Fifo, held: seq<Packet>, n: nat)
    requires f.arrivals <= g.arrivals && g.delivered == f.delivered
    requires g.released == f.released + n <= |g.delivered|
    requires Describes(held, f.arrivals, f.delivered[f.released..])
    ensures n <= |held| && Describes(held[n..], g.arrivals, g.delivered[g.released..])
    ensures |held[n..]| == |g.delivered| - g.released
    ensures n == 0 ==> held[n..] == held
  {
    assert g.delivered[g.released..] == f.delivered[f.released..][n..];
    DescribesFrom(held, f.arrivals, f.delivered[f.released..], g.arrivals, n);
  }

  lemma DescribesFrom(held: seq<Packet>, arrivals: seq<Arrival>, slots: seq<nat>, later: seq<Arrival>, n: nat)
    requires Describes(held, arrivals, slots) && arrivals <= later && n <= |held|
    ensures Describes(held[n..], later, slots[n..])
  {}

  lemma FifoFacts(m: Image, mkey: uint32, base: nat, f: Fifo)
    requires Refines(m, mkey, base, f)
    ensures f.Valid()
    ensures f.Owed() == 0 ==> f.Outstanding() <= f.granted + f.leaked <= RQ_WQE_COUNT
  {}

  /** All packets received so far were read as `read` and the first `given` of them given
      back. */
  ghost predicate Took(rx: Rq, read: seq<bytes>, given: nat)
    reads rx, rx.ring, rx.pages, rx.cq, rx.cq.ring
  {
    && rx.Valid()
    && |read| == |rx.fifo.delivered| && rx.fifo.released == given
    && Copies(read, rx.fifo, 0)
  }

  /** Nothing is left to consume, or the last completion consumed was an error. */
  ghost predicate InVain(f: Fifo, written: nat) {
    f.consumed == written || (0 < f.consumed <= |f.arrivals| && !f.arrivals[f.consumed - 1].ok)
  }

  /** Receives up to `n` packets and looks at them. */
  method Take(rx: Rq, n: uint16, timeoutMs: int, ghost was: seq<bytes>) returns (copies: seq<bytes>)
    requires Took(rx, was, |was|)
    modifies rx, rx.pages, rx.cq, rx.cq.ring
    ensures Took(rx, was + copies, |was|) && |copies| <= n
    ensures |copies| < n ==> InVain(rx.fifo, rx.cq.written) || (copies == [] && timeoutMs < 0)
    ensures rx.fifo.prod == old(rx.fifo).prod
  {
    hide Refines;
    ghost var before := rx.fifo;
    var pkts, status := rx.RxBurst(n, timeoutMs);
    copies := Read(rx, pkts, |before.delivered|);
    CopiesOn(before, rx.fifo, was, copies);
  }

  /** Gives back the `n` packets last taken. */
  method Give(rx: Rq, n: uint16, memory: nat, ghost read: seq<bytes>, ghost given: nat) returns (ok: bool)
    requires |read| == given + n && Took(rx, read, given)
    modifies rx, rx.ring, rx.pages, rx.cq, rx.cq.ring
    ensures Took(rx, read, if ok then |read| else given)
    ensures ok <==> NeedsMemory(old(rx.fifo).prod, n) <= memory
    ensures rx.fifo.prod == old(rx.fifo).prod + if ok then n else memory
  {
    hide Refines;
    ghost var before := rx.fifo;
    FifoFacts(rx.View(), rx.mkey, rx.base, rx.fifo);
    var status := rx.RxRelease(n, memory);
    CopiesOn(before, rx.fifo, read, []);
    ok := status == Ok;
  }

  lemma Begins(rx: Rq)
    requires rx.Valid() && rx.fifo.delivered == [] && rx.fifo.released == 0
    ensures Took(rx, [], 0)
  {
    hide Refines;
  }

  lemma Taken(rx: Rq, read: seq<bytes>, given: nat)
    requires Took(rx, read, given)
    ensures rx.Valid() && |read| == |rx.fifo.delivered| && Copies(read, rx.fifo, 0) && InOrder(rx.fifo)
    ensures rx.fifo.released == given && rx.outstanding == |read| - given
  {
    FifoFacts(rx.View(), rx.mkey, rx.base, rx.fifo);
  }
}
