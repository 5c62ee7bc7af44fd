/** The transmit side without counters and bytes: a FIFO of posted frames of which
    growing prefixes are announced, sent and reclaimed. */
module SendFifo {
  import opened Words

  const SQ_FRAMES := 4096

  /** A frame written into the ring, and whether its completion was requested. */
  datatype Post = Post(frame: bytes, signalled: bool)

  /** The positions, in order, of the frames whose completion was requested. */
  function Signals(posts: seq<Post>): (s: seq<nat>)
    ensures |s| <= |posts|
  {
    if |posts| == 0 then []
    else
      var k := |posts| - 1;
      Signals(posts[..k]) + if posts[k].signalled then [k] else []
  }

  /** `s` lists exactly the signalled positions, each once and in order. */
  ghost predicate ListsSignalled(posts: seq<Post>, s: seq<nat>) {
    && (forall i :: 0 <= i < |s| ==> s[i] < |posts| && posts[s[i]].signalled)
    && (forall i, j :: 0 <= i < j < |s| ==> s[i] < s[j])
    && (forall k :: 0 <= k < |posts| && posts[k].signalled ==> k in s)
  }

  lemma {:induction false} SignalsAre(posts: seq<Post>)
    ensures ListsSignalled(posts, Signals(posts))
  {
    if |posts| > 0 {
      var k := |posts| - 1;
      SignalsAre(posts[..k]);
      var rest, s := Signals(posts[..k]), Signals(posts);
      forall j | 0 <= j < |posts| && posts[j].signalled
        ensures j in s
      {
        if j < k {
          assert posts[..k][j].signalled;
          assert j in rest;
        } else {
          assert s[|s| - 1] == j;
        }
      }
    }
  }

  /** `posts` are all frames ever written; the first `rung` are announced, the first
      `fetched` taken by the device, which failed to send those in `lost`.  `outcomes`
      says of each completion the device owes whether it is a success.  The driver has
      consumed the first `consumed` completions, and `good` of them up to the last
      success. */
  datatype Fifo = Fifo(posts: seq<Post>, rung: nat, fetched: nat, outcomes: seq<bool>, lost: set<nat>,
                       consumed: nat, good: nat)
  {
    /** Frames whose ring space the driver has back: all up to the last frame that
        completed with success. */
    function Freed(): nat {
      if 0 < good <= |Signals(posts)| then Signals(posts)[good - 1] + 1 else 0
    }

    ghost predicate Valid() {
      var s := Signals(posts);
      && good <= consumed <= |outcomes| <= |s|
      && Freed() <= fetched <= rung <= |posts| <= Freed() + SQ_FRAMES
      && (forall i :: 0 <= i < |s| ==> (s[i] < fetched <==> i < |outcomes|))
      && (forall i :: 0 <= i < |outcomes| ==> (outcomes[i] <==> s[i] !in lost))
      && (forall k :: k in lost ==> k < fetched && posts[k].signalled)
      && (good > 0 ==> outcomes[good - 1])
      && (forall i :: good <= i < consumed ==> !outcomes[i])
    }

    predicate Unused() {
      posts == [] && outcomes == [] && lost == {} && rung == fetched == consumed == good == 0
    }

    /** Everything written has been announced, and the last frame is signalled. */
    ghost predicate Settled() {
      rung == |posts| && (posts != [] ==> posts[|posts| - 1].signalled)
    }

    function Post(p: Post): Fifo {
      this.(posts := posts + [p])
    }

    function Ring(): Fifo {
      this.(rung := |posts|)
    }

    /** The device takes the next announced frame; a signalled one yields a completion
        with outcome `ok`, and is not sent if that is an error. */
    function Fetch(ok: bool): Fifo
      requires fetched < |posts|
    {
      this.(fetched := fetched + 1,
            outcomes := if posts[fetched].signalled then outcomes + [ok] else outcomes,
            lost := if posts[fetched].signalled && !ok then lost + {fetched} else lost)
    }

    function Consume(): Fifo
      requires consumed < |outcomes|
    {
      this.(consumed := consumed + 1, good := if outcomes[consumed] then consumed + 1 else good)
    }
  }

  lemma PostKeeps(f: Fifo, p: Post)
    requires f.Valid() && |f.posts| < f.Freed() + SQ_FRAMES
    ensures f.Post(p).Valid() && f.Post(p).Freed() == f.Freed()
    ensures Signals(f.posts) <= Signals(f.Post(p).posts)
  {
    assert f.Post(p).posts[..|f.posts|] == f.posts;
  }

  /** Only a signalled frame yields a completion, and it is the next one due. */
  lemma FetchKeeps(f: Fifo, ok: bool)
    requires f.Valid() && f.fetched < f.rung
    ensures f.Fetch(ok).Valid() && f.Fetch(ok).Freed() == f.Freed()
    ensures f.posts[f.fetched].signalled ==>
              |f.outcomes| < |Signals(f.posts)| && Signals(f.posts)[|f.outcomes|] == f.fetched
  {
    hide Signals;
    var s, g := Signals(f.posts), f.Fetch(ok);
    SignalsAre(f.posts);
    assert Ordered(s, f.outcomes, f.fetched);
    FetchOrder(s, f.posts, f.outcomes, f.fetched, ok);
    assert Ordered(s, g.outcomes, g.fetched);
    LostMore(s, f.outcomes, f.lost, f.fetched, f.posts[f.fetched].signalled, ok);
  }

  /** An outcome is an error exactly if its frame is lost; so it stays. */
  lemma LostMore(s: seq<nat>, outcomes: seq<bool>, lost: set<nat>, fetched: nat, signalled: bool, ok: bool)
    requires Ordered(s, outcomes, fetched)
    requires forall i :: 0 <= i < |outcomes| ==> (outcomes[i] <==> s[i] !in lost)
    requires forall k :: k in lost ==> k < fetched
    requires signalled ==> |outcomes| < |s| && s[|outcomes|] == fetched
    ensures var outcomes', lost' := if signalled then outcomes + [ok] else outcomes,
                                    if signalled && !ok then lost + {fetched} else lost;
      forall i :: 0 <= i < |outcomes'| ==> (outcomes'[i] <==> s[i] !in lost')
  {}

  /** The signalled frames before `fetched` are those with an outcome. */
  ghost predicate Ordered(s: seq<nat>, outcomes: seq<bool>, fetched: nat) {
    |outcomes| <= |s| && forall i :: 0 <= i < |s| ==> (s[i] < fetched <==> i < |outcomes|)
  }

  lemma FetchOrder(s: seq<nat>, posts: seq<Post>, outcomes: seq<bool>, fetched: nat, ok: bool)
    requires fetched < |posts| && ListsSignalled(posts, s) && Ordered(s, outcomes, fetched)
    ensures posts[fetched].signalled ==> |outcomes| < |s| && s[|outcomes|] == fetched
    ensures Ordered(s, if posts[fetched].signalled then outcomes + [ok] else outcomes, fetched + 1)
  {
    if posts[fetched].signalled {
      var i :| 0 <= i < |s| && s[i] == fetched;
      assert |outcomes| <= i && fetched <= s[|outcomes|] <= s[i];
    }
  }

  /** Consuming a success frees at least one more frame, and never one that the device
      has not sent; consuming an error frees none. */
  lemma ConsumeKeeps(f: Fifo)
    requires f.Valid() && f.consumed < |f.outcomes|
    ensures f.Consume().Valid()
    ensures if f.outcomes[f.consumed]
            then f.Freed() < f.Consume().Freed() == Signals(f.posts)[f.consumed] + 1 <= f.fetched
            else f.Consume().Freed() == f.Freed()
    ensures f.Freed() <= Signals(f.posts)[f.consumed] < f.fetched
  {
    hide Signals;
    SignalsAre(f.posts);
  }

  /** While a settled queue still waits for frames, the last frame is signalled and its
      completion has not been reclaimed; without errors it has not been consumed. */
  lemma SettledAwaitsCompletion(f: Fifo)
    requires f.Valid() && f.Settled() && f.Freed() < |f.posts|
    ensures var s := Signals(f.posts);
      f.good < |s| && s[|s| - 1] == |f.posts| - 1 && (f.good == f.consumed ==> f.consumed < |s|)
  {}

  /** The queue can only drain if the last frame posted is signalled. */
  lemma DrainedIsSettled(f: Fifo)
    requires f.Valid() && f.Freed() == |f.posts|
    ensures f.Settled() && f.fetched == |f.posts|
  {
    SignalsAre(f.posts);
    if f.posts != [] {
      assert Signals(f.posts)[f.good - 1] == |f.posts| - 1;
    }
  }

  // ----- waiting -----

  /** The completions consumed since `f`, up to number `n`, were successes. */
  ghost predicate Clean(f: Fifo, g: Fifo, n: int) {
    f.consumed <= n <= |g.outcomes| && forall i :: f.consumed <= i < n ==> g.outcomes[i]
  }

  /** Why a wait that began in `f` gives up in `g`: after successes only, it consumed an
      error, or none of the `written` completions is left to consume. */
  ghost predicate Stalled(f: Fifo, g: Fifo, written: nat) {
    || (g.consumed == written && Clean(f, g, g.consumed))
    || (g.consumed <= |g.outcomes| && Clean(f, g, g.consumed - 1) && !g.outcomes[g.consumed - 1])
  }

  /** Nothing is left to consume, or the last completion consumed was an error. */
  ghost predicate InVain(f: Fifo, written: nat) {
    f.consumed == written || (0 < f.consumed <= |f.outcomes| && !f.outcomes[f.consumed - 1])
  }

  lemma StalledInVain(f: Fifo, g: Fifo, written: nat)
    requires Stalled(f, g, written)
    ensures InVain(g, written)
  {}

  /** What the device has sent of the first `n` frames. */
  function Kept(posts: seq<Post>, lost: set<nat>, n: nat): (fs: seq<bytes>)
    requires n <= |posts|
    ensures |fs| <= n
  {
    if n == 0 then []
    else Kept(posts, lost, n - 1) + if n - 1 in lost then [] else [posts[n - 1].frame]
  }

  lemma {:induction false} KeptSame(posts: seq<Post>, lost: set<nat>, posts': seq<Post>, lost': set<nat>, n: nat)
    requires n <= |posts| && posts <= posts' && forall k :: 0 <= k < n ==> (k in lost <==> k in lost')
    ensures Kept(posts, lost, n) == Kept(posts', lost', n)
    decreases n
  {
    if n > 0 {
      KeptSame(posts, lost, posts', lost', n - 1);
    }
  }

  /** The device has sent as many frames as it took exactly if it lost none of them. */
  lemma {:induction false} KeptAllIff(posts: seq<Post>, lost: set<nat>, n: nat)
    requires n <= |posts|
    ensures |Kept(posts, lost, n)| == n <==> forall k :: 0 <= k < n ==> k !in lost
    ensures (forall k :: 0 <= k < n ==> k !in lost) ==>
              forall k :: 0 <= k < n ==> Kept(posts, lost, n)[k] == posts[k].frame
    decreases n
  {
    if n > 0 {
      KeptAllIff(posts, lost, n - 1);
    }
  }

  /** Nothing is lost exactly if no completion is an error. */
  lemma NothingLostIff(f: Fifo)
    requires f.Valid()
    ensures f.lost == {} <==> forall i :: 0 <= i < |f.outcomes| ==> f.outcomes[i]
  {
    SignalsAre(f.posts);
    forall k | k in f.lost ensures exists i :: 0 <= i < |f.outcomes| && !f.outcomes[i] {
      var s := Signals(f.posts);
      var i :| 0 <= i < |s| && s[i] == k;
      assert i < |f.outcomes| && !f.outcomes[i];
    }
  }

  /** Everything posted is announced and completed with success, the last frame is
      signalled, and the last completion consumed so far was a success. */
  ghost predicate FlushReady(f: Fifo, written: nat) {
    && f.Settled() && written == |Signals(f.posts)|
    && f.good == f.consumed
    && (forall i :: f.consumed <= i < |f.outcomes| ==> f.outcomes[i])
  }

  /** What a drained queue has behind it. */
  lemma DrainedHasConsumed(f: Fifo, written: nat)
    requires f.Valid() && f.consumed <= written <= |f.outcomes| && f.Freed() == |f.posts|
    ensures written == |Signals(f.posts)| && f.good == f.consumed == |f.outcomes|
  {
    SignalsAre(f.posts);
    SignalsRise(f.posts, f.good - 1);
    DrainedIsSettled(f);
  }

  lemma SignalsRise(posts: seq<Post>, i: int)
    ensures var s := Signals(posts); 0 <= i < |s| - 1 ==> s[i] < s[i + 1] < |posts|
  {
    SignalsAre(posts);
  }

  /** A wait that gives up before the queue is drained still lacks something. */
  lemma StalledLacks(f: Fifo, g: Fifo, written: nat)
    requires g.Valid() && g.Freed() < |g.posts| && Stalled(f, g, written)
    ensures !(g.Settled() && written == |Signals(g.posts)| && g.good == g.consumed)
  {
    if g.Settled() {
      SettledAwaitsCompletion(g);
    }
  }

  /** A queue ready to flush cannot stall before it is drained. */
  lemma ReadyDrains(f: Fifo, before: nat, g: Fifo, written: nat)
    requires f.Valid() && g.Valid() && FlushReady(f, before) && before <= written <= |g.outcomes|
    requires g.posts == f.posts && g.rung == f.rung
    requires f.outcomes <= g.outcomes && f.consumed <= g.consumed && f.good <= g.good
    requires before <= |f.outcomes| && Stalled(f, g, written)
    ensures g.Freed() == |g.posts|
  {
    assert g.outcomes == f.outcomes;
    var last := g.consumed - 1;
    assert f.consumed <= last < |f.outcomes| ==> f.outcomes[last];
    if g.Freed() < |g.posts| {
      SettledAwaitsCompletion(g);
    }
  }
}
