/** Whole runs of the transmit API against one queue. */
module SendClient {
  import opened Words
  import opened SendWqe
  import opened SendFifo
  import opened SendQueue

  datatype Call = Burst(pkts: seq<bytes>) | Flush

  function Frames(posts: seq<Post>): (fs: seq<bytes>)
    ensures |fs| == |posts|
  {
    seq(|posts|, i requires 0 <= i < |posts| => posts[i].frame)
  }

  /** If nothing was lost, the wire carries the first frames posted. */
  lemma WireIsPrefix(wire: seq<bytes>, posts: seq<Post>, lost: set<nat>, n: nat)
    requires OnWire(wire, posts, lost, n) && forall k :: k in lost ==> k < n
    ensures lost == {} ==> wire <= Frames(posts)
    ensures n == |posts| ==> (wire == Frames(posts) <==> lost == {})
  {
    KeptAllIff(posts, lost, n);
  }

  lemma FramesAppend(prev: seq<Post>, next: seq<Post>, pkts: seq<bytes>, sent: nat)
    requires Appends(prev, next, pkts) && |next| == |prev| + sent
    ensures Frames(next) == Frames(prev) + pkts[..sent]
  {}

  /** A legal call: fewer than 2^16 frames, all of a supported length. */
  predicate Legal(c: Call) {
    c.Burst? ==> |c.pkts| < U16 && FirstBad(c.pkts) == |c.pkts|
  }

  lemma LegalIff(c: Call)
    ensures Legal(c) <==> c.Flush? || (|c.pkts| <= 65535 && forall i :: 0 <= i < |c.pkts| ==> 60 <= |c.pkts[i]| <= 98)
  {
    if c.Burst? && FirstBad(c.pkts) < |c.pkts| {
      assert !ValidLength(|c.pkts[FirstBad(c.pkts)]|);
    }
  }

  /** What one call does, the device having written `written` completions by its end.  A
      burst counts fewer frames than it has only with the ring full and nothing more to
      consume or an error consumed; a flush fails only for one of the latter reasons. */
  ghost predicate Step(c: Call, f: Fifo, g: Fifo, count: nat, ok: bool, written: nat) {
    && Continues(f, g)
    && (ok ==> Clean(f, g, g.consumed))
    && (!ok ==> Stalled(f, g, written))
    && match c
       case Burst(pkts) =>
         && BurstOutcome(f, g, pkts, count, true) && |g.posts| == |f.posts| + count
         && (ok <==> count == |pkts|) && (!ok ==> Room(g) == 0)
       case Flush =>
         && count == 0 && g.posts == f.posts && g.rung == f.rung
         && (ok <==> g.Settled() && written == |Signals(g.posts)| && g.good == g.consumed)
         && (ok ==> g.consumed == |g.outcomes|)
  }

  /** The course of a run, call by call. */
  ghost predicate Traces(calls: seq<Call>, counts: seq<nat>, oks: seq<bool>, trace: seq<Fifo>, written: seq<nat>) {
    && |counts| == |oks| == |written| == |calls| && |trace| == |calls| + 1
    && (forall i :: 0 <= i < |calls| ==> Step(calls[i], trace[i], trace[i + 1], counts[i], oks[i], written[i]))
  }

  /** The frames counted as sent, call by call. */
  function Accepted(calls: seq<Call>, counts: seq<nat>): (fs: seq<bytes>)
    requires |counts| == |calls|
  {
    if calls == [] then []
    else
      var n := |calls| - 1;
      Accepted(calls[..n], counts[..n]) + CountedOf(calls[n], counts[n])
  }

  function CountedOf(c: Call, count: nat): seq<bytes> {
    if c.Burst? && count <= |c.pkts| then c.pkts[..count] else []
  }

  lemma AcceptedMore(calls: seq<Call>, counts: seq<nat>, c: Call, count: nat)
    requires |counts| == |calls|
    ensures Accepted(calls + [c], counts + [count]) == Accepted(calls, counts) + CountedOf(c, count)
  {
    assert (calls + [c])[..|calls|] == calls && (counts + [count])[..|calls|] == counts;
  }

  /** One legal call. */
  method Apply(q: Sq, c: Call) returns (count: nat, ok: bool)
    requires q.Valid() && q.fifo.Settled() && q.DoorbellMapped() && Legal(c)
    modifies q, q.ring, q.cq, q.cq.ring
    ensures q.Valid() && q.fifo.Settled()
    ensures Step(c, old(q.fifo), q.fifo, count, ok, q.cq.written)
    ensures Frames(q.fifo.posts) == Frames(old(q.fifo).posts) + CountedOf(c, count)
    ensures c.Flush? && ok ==> q.fifo.fetched == |q.fifo.posts|
  {
    hide Refines, Continues, Clean, Stalled, Signals;
    ghost var before := q.fifo;
    match c {
      case Burst(pkts) =>
        var status;
        count, status := q.TxBurst(pkts);
        ok := status == Ok;
        FramesAppend(before.posts, q.fifo.posts, pkts, count);
      case Flush =>
        var status := q.TxFlush();
        count, ok := 0, status == Ok;
        if ok {
          Drained(q);
        }
    }
  }

  lemma Drained(q: Sq)
    requires q.Valid() && q.consIndex == q.prodIndex
    ensures q.fifo.fetched == |q.fifo.posts|
  {
    UsedIsExact(q.View(), q.sqn, q.tisn, q.fifo);
    DrainedIsSettled(q.fifo);
  }

  /** Any run of legal calls on a fresh queue, the device acting in between as it likes:
      the frames on the wire are, in order and once each, the first of the frames counted
      as sent, without those whose completion is an error.  After a successful flush they
      are all of them exactly if there is no such frame, as when every call succeeds. */
  method Run(q: Sq, calls: seq<Call>)
    returns (counts: seq<nat>, oks: seq<bool>, ghost trace: seq<Fifo>, ghost written: seq<nat>)
    requires q.Valid() && q.fifo.Unused() && q.DoorbellMapped()
    requires forall i :: 0 <= i < |calls| ==> Legal(calls[i])
    modifies q, q.ring, q.cq, q.cq.ring
    ensures q.Valid() && q.fifo.Settled()
    ensures Traces(calls, counts, oks, trace, written) && trace[0] == old(q.fifo) && trace[|calls|] == q.fifo
    ensures Frames(q.fifo.posts) == Accepted(calls, counts)
    ensures OnWire(q.wire, q.fifo.posts, q.fifo.lost, q.fifo.fetched)
    ensures q.fifo.lost == {} ==> q.wire <= Accepted(calls, counts)
    ensures calls != [] && calls[|calls| - 1].Flush? && oks[|calls| - 1] ==>
              && (q.wire == Accepted(calls, counts) <==> q.fifo.lost == {})
              && (false !in oks ==> q.wire == Accepted(calls, counts))
  {
    hide Refines, Step, Accepted, Frames, OnWire, Clean;
    counts, oks, trace, written := [], [], [q.fifo], [];
    RunStarts(q);
    assert calls[..0] == [];
    for i := 0 to |calls|
      invariant q.Valid() && q.fifo.Settled()
      invariant Traces(calls[..i], counts, oks, trace, written)
      invariant trace[0] == old(q.fifo) && trace[i] == q.fifo
      invariant Frames(q.fifo.posts) == Accepted(calls[..i], counts)
      invariant false !in oks ==> Clean(old(q.fifo), q.fifo, q.fifo.consumed)
      invariant i > 0 && calls[i - 1].Flush? && oks[i - 1] ==>
                  q.fifo.fetched == |q.fifo.posts| && q.fifo.consumed == |q.fifo.outcomes|
    {
      ghost var before := q.fifo;
      var count, ok := Apply(q, calls[i]);
      StepFacts(calls[i], before, q.fifo, count, ok, q.cq.written);
      AcceptedMore(calls[..i], counts, calls[i], count);
      assert calls[..i] + [calls[i]] == calls[..i + 1];
      if ok && false !in oks {
        CleanOn(old(q.fifo), before, q.fifo);
      }
      counts, oks, trace, written := counts + [count], oks + [ok], trace + [q.fifo], written + [q.cq.written];
    }
    assert calls[..|calls|] == calls;
    RunEnds(q.View(), q.sqn, q.tisn, old(q.fifo), q.fifo);
  }

  lemma RunStarts(q: Sq)
    requires q.Valid() && q.fifo.Unused()
    ensures q.fifo.Settled() && Frames(q.fifo.posts) == Accepted([], []) && Clean(q.fifo, q.fifo, q.fifo.consumed)
  {
    hide Refines;
  }

  lemma StepFacts(c: Call, f: Fifo, g: Fifo, count: nat, ok: bool, written: nat)
    requires Step(c, f, g, count, ok, written)
    ensures Continues(f, g) && (ok ==> Clean(f, g, g.consumed))
    ensures c.Flush? && ok ==> g.consumed == |g.outcomes|
  {}

  lemma RunEnds(m: Image, sqn: uint32, tisn: uint32, start: Fifo, f: Fifo)
    requires Refines(m, sqn, tisn, f)
    ensures OnWire(m.wire, f.posts, f.lost, f.fetched)
    ensures f.lost == {} ==> m.wire <= Frames(f.posts)
    ensures f.fetched == |f.posts| ==> (m.wire == Frames(f.posts) <==> f.lost == {})
    ensures start.consumed == 0 && Clean(start, f, f.consumed) && f.consumed == |f.outcomes| ==> f.lost == {}
  {
    WireIsPrefix(m.wire, f.posts, f.lost, f.fetched);
    NothingLostIff(f);
  }

  /** Sends a burst on a queue whose doorbell is mapped: what is posted is the first
      `posted` frames, and all of them exactly if the call succeeds.  If all lengths are
      supported, it fails only with the ring full and nothing more to consume, or an error
      consumed. */
  method Send(tx: Sq, frames: seq<bytes>) returns (ok: bool, ghost posted: nat)
    requires tx.Valid() && tx.DoorbellMapped() && |frames| < U16
    modifies tx, tx.ring, tx.cq, tx.cq.ring
    ensures tx.Valid() && old(tx.wire) <= tx.wire
    ensures posted <= |frames| && (ok <==> posted == |frames|)
    ensures Frames(tx.fifo.posts) == Frames(old(tx.fifo).posts) + frames[..posted]
    ensures Continues(old(tx.fifo), tx.fifo)
    ensures ok ==> Clean(old(tx.fifo), tx.fifo, tx.fifo.consumed)
    ensures !ok && FirstBad(frames) == |frames| ==>
              Room(tx.fifo) == 0 && Stalled(old(tx.fifo), tx.fifo, tx.cq.written)
  {
    hide Refines, Clean, Stalled;
    ghost var before := tx.fifo;
    var sent, status := tx.TxBurst(frames);
    posted := |tx.fifo.posts| - |before.posts|;
    FramesAppend(before.posts, tx.fifo.posts, frames, posted);
    ok := sent == |frames|;
  }

  /** Where the frames posted so far have got to. */
  lemma WireSoFar(tx: Sq)
    requires tx.Valid()
    ensures OnWire(tx.wire, tx.fifo.posts, tx.fifo.lost, tx.fifo.fetched)
    ensures tx.fifo.lost == {} ==> tx.wire <= Frames(tx.fifo.posts)
    ensures tx.fifo.fetched == |tx.fifo.posts| ==> (tx.wire == Frames(tx.fifo.posts) <==> tx.fifo.lost == {})
  {
    RunEnds(tx.View(), tx.sqn, tx.tisn, tx.fifo, tx.fifo);
  }

  lemma CleanAtFirst(tx: Sq)
    requires tx.Valid()
    ensures Clean(tx.fifo, tx.fifo, tx.fifo.consumed)
  {
    CleanStarts(tx.View(), tx.sqn, tx.tisn, tx.fifo);
  }

  lemma NothingPosted(tx: Sq)
    requires tx.fifo.Unused()
    ensures Frames(tx.fifo.posts) == []
  {}

  /** Without the restriction on lengths the same is false.  A burst whose second frame
      is too short counts nothing as sent, yet its first frame stays in the ring, and
      the doorbell of the next burst has the device send it as well, whatever becomes of
      the second. */
  method MidBatchFailureSendsUncounted(first: bytes, second: bytes) returns (accepted: seq<bytes>, wire: seq<bytes>)
    requires ValidLength(|first|) && ValidLength(|second|)
    ensures accepted == [second] && (wire == [first, second] || wire == [first])
  {
    hide Refines;
    var q := new Sq(1, 2, 3, 0x10000);
    assert FirstBad([first, []]) == 1 && FirstBad([second]) == 1;
    var sent1, status1 := q.TxBurst([first, []]);
    ghost var posts1 := q.fifo.posts;
    var sent2, status2 := q.TxBurst([second]);
    accepted := [first, []][..sent1] + [second][..sent2];
    assert q.fifo.posts[0] == posts1[0] && |q.fifo.posts| == q.fifo.rung == 2;
    FetchTwo(q);
    wire := q.wire;
  }

  /** Two device turns on a queue with two announced frames, the first unsignalled. */
  method FetchTwo(q: Sq)
    requires q.Valid() && |q.fifo.posts| == q.fifo.rung == 2 && !q.fifo.posts[0].signalled
    modifies q`hwCounter, q`wire, q`fifo, q.cq
    ensures var posts := old(q.fifo).posts;
      q.wire == [posts[0].frame, posts[1].frame] || q.wire == [posts[0].frame]
  {
    hide Refines;
    var raw := *;
    q.DeviceFetch(raw);
    q.DeviceFetch(raw);
    SentTwo(q.View(), q.sqn, q.tisn, q.fifo);
  }

  lemma SentTwo(m: Image, sqn: uint32, tisn: uint32, f: Fifo)
    requires Refines(m, sqn, tisn, f) && f.fetched >= |f.posts| == 2 && !f.posts[0].signalled
    ensures m.wire == [f.posts[0].frame, f.posts[1].frame] || m.wire == [f.posts[0].frame]
  {
    assert Kept(f.posts, f.lost, 1) == [f.posts[0].frame];
    assert m.wire == Kept(f.posts, f.lost, 2);
  }
}
