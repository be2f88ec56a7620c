/** When a client's cache stays wrong for good: the exact condition for one edit, by another writer or by itself. */
module Staleness {
  import opened Values
  import opened Paths
  import opened Names
  import opened PropertyMap
  import opened CacheTables
  import opened Protocol
  import opened Convergence
  import opened PendingCalls

  /** Steps that only let what is waiting go on its way. */
  predicate Draining(trace: seq<Step>) {
    forall i :: 0 <= i < |trace| ==> trace[i] in {Serve, Emit, Deliver}
  }

  /** Nothing that is waiting or on its way concerns `k`. */
  ghost predicate Blind(s: State, k: Path) {
    && Paired(s.cache) && s.cache.undo == map[] && s.toDaemon == [] && k !in s.idles
    && Removed(k) !in s.toClient && forall v :: Changed(k, v) !in s.toClient
  }

  lemma BlindStep(s: State, a: Step, k: Path)
    requires Blind(s, k) && Enabled(s, a) && a in {Serve, Emit, Deliver}
    ensures Blind(Do(s, a), k) && Do(s, a).tree == s.tree && Entry(Do(s, a).cache, k) == Entry(s.cache, k)
  {
    if a == Deliver {
      assert s.toClient[0] in s.toClient && forall m :: m in s.toClient[1..] ==> m in s.toClient;
      NothingUndone(s.cache);
      MessageKeepsPaired(s.cache, s.toClient[0]);
    } else {
      assert s.idles[0] in s.idles && forall q :: q in s.idles[1..] ==> q in s.idles;
    }
  }

  lemma {:induction false} BlindRun(s: State, trace: seq<Step>, t: State, k: Path)
    requires Blind(s, k) && Draining(trace) && Reaches(s, trace, t)
    ensures t.tree == s.tree && Entry(t.cache, k) == Entry(s.cache, k)
    decreases |trace|
  {
    if trace != [] {
      BlindStep(s, trace[0], k);
      BlindRun(Do(s, trace[0]), trace[1..], t, k);
    }
  }

  /**
   Staleness for every input: whenever another writer's edit walks over a cached short-named property and uncovers its
   default, the client keeps the old value, however the notifications of that edit are drained.
   */
  lemma ShortNamesStayStale(s: State, e: Edit, k: Path, trace: seq<Step>, t: State)
    requires Paired(s.cache) && s.cache.undo == map[] && Quiescent(s) && Sound(s.tree, s.boot) && Possible(e, s.tree)
    requires k in s.cache.properties && Get(s.tree, k) == Some(s.cache.properties[k])
    requires Drops(e, s.tree, k) && !LongNamed(k)
    requires Draining(trace) && Reaches(Do(s, Other(e)), trace, t)
    ensures Entry(t.cache, k) == Entry(s.cache, k) && Get(t.tree, k) != Entry(t.cache, k)
  {
    ChangesAreDrops(e, s.tree, s.boot, k);
    NeverReported(e.order, k);
    BlindRun(Do(s, Other(e)), trace, t, k);
  }

  /* ---- Everything can be drained ---- */

  /** From every state, in or out of reach, the daemon and the bus alone can bring about a quiet one. */
  lemma {:induction false} CanDrain(s: State) returns (trace: seq<Step>, t: State)
    requires Paired(s.cache)
    ensures Draining(trace) && Reaches(s, trace, t) && Quiescent(t)
    decreases 4 * |s.toDaemon| + 2 * |s.idles| + |s.toClient|
  {
    if Quiescent(s) { return [], s; }
    var a := if s.toDaemon != [] then Serve else if s.idles != [] then Emit else Deliver;
    if a == Deliver { MessageKeepsPaired(s.cache, s.toClient[0]); }
    var rest, u := CanDrain(Do(s, a));
    assert ([a] + rest)[1..] == rest;
    trace, t := [a] + rest, u;
  }

  lemma {:induction false} DrainingSpares(s: State, trace: seq<Step>, t: State, k: Path)
    requires Draining(trace) && Reaches(s, trace, t)
    ensures ReachesSparing(s, trace, t, k)
    decreases |trace|
  {
    if trace != [] {
      assert trace[0] in {Serve, Emit, Deliver};
      DrainingSpares(Do(s, trace[0]), trace[1..], t, k);
    }
  }

  /* ---- What one edit does to a quiet state ---- */

  /** What is claimed of `k` holds in a quiet state where `k` is right, however the state came about. */
  lemma QuietKey(s0: State, before: seq<Step>, s: State, k: Path)
    requires Initial(s0) && Reaches(s0, before, s) && Quiescent(s) && Right(s, k)
    ensures Fits(s) && KeyInv(s, k) && s.cache.undo == map[]
  {
    InitialKey(s0, k);
    RunFits(s0, before, s);
    QuietNothingPending(s0, before, s);
  }

  /** A property that is not cached cannot go stale in a quiet state. */
  lemma UncachedKey(s: State, e: Edit, k: Path)
    requires KeyInv(s, k) && Quiescent(s) && k !in s.cache.properties
    ensures KeyInv(Edited(s, e), k)
  {
  }

  lemma EditedKey(s: State, e: Edit, k: Path)
    requires Fits(s) && KeyInv(s, k) && Quiescent(s) && Possible(e, s.tree)
    requires !(k in s.cache.properties && Drops(e, s.tree, k) && !LongNamed(k))
    ensures KeyInv(Edited(s, e), k) && Fits(Edited(s, e))
  {
    EditKeepsSound(e, s.tree, s.boot);
    if k in s.cache.properties { EditKey(s, e, k); } else { UncachedKey(s, e, k); }
  }

  lemma DrainedIsRight(s: State, trace: seq<Step>, t: State, k: Path)
    requires Fits(s) && KeyInv(s, k) && Draining(trace) && Reaches(s, trace, t) && Quiescent(t)
    ensures Right(t, k)
  {
    DrainingSpares(s, trace, t, k);
    RunKey(s, trace, t, k);
    QuietIsRight(t, k);
  }

  /**
   The exact condition for an edit by another writer, in every quiet reachable state where `k` is right: once the edit's
   notifications are drained `k` is right if and only if the edit did not walk over it, cached and with a one-character
   component, while its user value differed from its default.
   */
  lemma KeyRightAgainIff(s0: State, before: seq<Step>, s: State, e: Edit, trace: seq<Step>, t: State, k: Path)
    requires Initial(s0) && Reaches(s0, before, s) && Quiescent(s) && Right(s, k) && Possible(e, s.tree)
    requires Paired(s.cache) && Draining(trace) && Reaches(Do(s, Other(e)), trace, t) && Quiescent(t)
    ensures Right(t, k) <==> !(k in s.cache.properties && Drops(e, s.tree, k) && !LongNamed(k))
  {
    QuietKey(s0, before, s, k);
    if k in s.cache.properties && Drops(e, s.tree, k) && !LongNamed(k) {
      ShortNamesStayStale(s, e, k, trace, t);
    } else {
      EditedKey(s, e, k);
      DrainedIsRight(Do(s, Other(e)), trace, t, k);
    }
  }

  /** The same for the whole cache. */
  lemma RightAgainIff(s0: State, before: seq<Step>, s: State, e: Edit, trace: seq<Step>, t: State)
    requires Initial(s0) && Reaches(s0, before, s) && Quiescent(s) && (forall k :: Right(s, k)) && Possible(e, s.tree)
    requires Paired(s.cache) && Draining(trace) && Reaches(Do(s, Other(e)), trace, t) && Quiescent(t)
    ensures (forall k :: Right(t, k)) <==>
            !exists k :: k in s.cache.properties && Drops(e, s.tree, k) && !LongNamed(k)
  {
    forall k ensures Right(t, k) <==> !(k in s.cache.properties && Drops(e, s.tree, k) && !LongNamed(k)) {
      KeyRightAgainIff(s0, before, s, e, trace, t, k);
    }
  }

  /* ---- The client's own resets ---- */

  /** A recursive reset of the whole channel leaves a cache that is right as it is. */
  lemma RootResetKeepsCache(s: State, ok: bool)
    requires Sound(s.tree, s.boot) && forall k :: Right(s, k)
    ensures OnReset(s.cache, Root, true, ok) == s.cache
  {
    forall k | k in s.cache.properties ensures !Evicts(Root, true, k) {
      assert Right(s, k) && Get(s.tree, k).Some?;
      RootEvictsNothing(k);
    }
  }

  /** Any other reset evicts what its own edit misreports. */
  lemma OwnResetKey(s: State, base: Path, recursive: bool, e: Edit, ok: bool, k: Path)
    requires Fits(s) && KeyInv(s, k) && Quiescent(s) && Enabled(s, Reset(base, recursive, e, ok)) && base != Root
    ensures KeyInv(Do(s, Reset(base, recursive, e, ok)), k) && Fits(Do(s, Reset(base, recursive, e, ok)))
  {
    var cache := OnReset(s.cache, base, recursive, ok);
    StepFits(s, Reset(base, recursive, e, ok));
    if Drops(e, s.tree, k) {
      EvictsBelow(base, k);
      UncachedKey(s.(cache := cache), e, k);
    } else {
      EditKey(s, e, k);
      ReplaceKey(Edited(s, e), cache, k);
    }
  }

  /**
   The exact condition for the client's own resets: a reset below the root evicts whatever it misreports, so the cache
   is always right again; a reset of the whole channel evicts nothing, so it is right again if and only if the reset
   did not walk over a cached property with a one-character component whose user value differed from its default.
   */
  lemma OwnResetRightIff(s0: State, before: seq<Step>, s: State, base: Path, recursive: bool, e: Edit, ok: bool,
      trace: seq<Step>, t: State)
    requires Initial(s0) && Reaches(s0, before, s) && Quiescent(s) && (forall k :: Right(s, k)) && Paired(s.cache)
    requires Enabled(s, Reset(base, recursive, e, ok))
    requires Draining(trace) && Reaches(Do(s, Reset(base, recursive, e, ok)), trace, t) && Quiescent(t)
    ensures (forall k :: Right(t, k)) <==>
            !(base == Root && exists k :: k in s.cache.properties && Drops(e, s.tree, k) && !LongNamed(k))
  {
    assert Right(s, Root);
    QuietKey(s0, before, s, Root);
    if base == Root {
      RootResetKeepsCache(s, ok);
      assert Do(s, Reset(base, recursive, e, ok)) == Do(s, Other(e));
      RightAgainIff(s0, before, s, e, trace, t);
    } else {
      forall k ensures Right(t, k) {
        assert Right(s, k);
        QuietKey(s0, before, s, k);
        OwnResetKey(s, base, recursive, e, ok, k);
        DrainedIsRight(Do(s, Reset(base, recursive, e, ok)), trace, t, k);
      }
    }
  }
}
