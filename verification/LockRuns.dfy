/** Locks over whole runs of the backend, whatever the channel's files hold, and what becomes of a locked channel. */
module LockRuns {
  import opened Values
  import opened Paths
  import opened Names
  import opened PropertyMap
  import opened SettingsFile
  import opened LoadOrder
  import opened LoadRule
  import opened Writer
  import opened AnyFile
  import opened Durability

  /* ---- Lock safety ---- */

  /** In tree `m` every guarded lock of `boot` stands. */
  ghost predicate Stands(m: PMap, boot: PMap) {
    && Closed(m) && (forall q :: SystemOf(m, q) == SystemOf(boot, q))
    && forall q :: Locked(boot, q) && Guards(boot, q) ==> Locked(m, q) && UserOf(m, q) == None
  }

  ghost predicate Inv(w: World, s: Store, n: string) {
    && PlainFiles(w, s, n)
    && (n in s.channels ==>
          Stands(s.channels[n].m, Boot(w, n).m) && s.channels[n].locked == Boot(w, n).channelLocked)
  }

  lemma OpenStands(w: World, s: Store, n: string, k: string)
    requires Inv(w, s, n) && LowerName(k)
    ensures Inv(w, Opened(w, s, k), n) && KeyOf(s, k) == k
  {
    if k == n { Reloads(w, s, n); }
  }

  lemma SetStands(m: PMap, boot: PMap, p: Path, v: Value)
    requires Stands(m, boot) && p != Root && Spellable(p)
    ensures Stands(AfterSet(m, p, v), boot)
  {
    SpellableIsProper(p);
    SetEffect(m, p, v);
  }

  /** What guards a lock of `boot` guards it in a tree where the guarded locks stand. */
  lemma StillGuards(m: PMap, boot: PMap, q: Path)
    requires Stands(m, boot) && Guards(boot, q)
    ensures Guards(m, q)
  {
    forall r | Firm(boot, r) ensures Firm(m, r) {
      assert SystemOf(m, r) == SystemOf(boot, r) && Above(r, r);
    }
    GuardsSame(boot, m, q);
  }

  lemma ResetStands(m: PMap, boot: PMap, p: Path)
    requires Stands(m, boot) && HasUser(m, p) && Spellable(p)
    ensures Stands(AfterReset(m, p), boot)
  {
    ResetEffect(m, p);
    forall q | Locked(boot, q) && Guards(boot, q) ensures Locked(AfterReset(m, p), q) { StillGuards(m, boot, q); }
  }

  lemma ResetTreeStands(m: PMap, boot: PMap, p: Path)
    requires Stands(m, boot) && p != Root
    ensures Stands(AfterRecursiveReset(m, p), boot)
  {
    RecursiveResetEffect(m, p);
  }

  lemma FlushStands(w: World, s: Store, n: string, orders: map<string, Order>)
    requires Inv(w, s, n) && OrdersFit(s, orders)
    ensures Inv(w, Flushed(s, orders), n)
  {
    if n in s.channels && s.channels[n].dirty {
      WrittenIsPlain(n, s.channels[n].m, orders[n]);
      assert Flushed(s, orders).userFiles[n] == FileEvents(FileOf(n, s.channels[n].m, orders[n]));
    }
  }

  lemma StepStands(w: World, s: Store, op: Op, n: string)
    requires Inv(w, s, n) && Enabled(s, op)
    ensures Inv(w, Step(w, s, op), n)
  {
    var boot := Boot(w, n).m;
    match op {
      case Open(k) => OpenStands(w, s, n, k);
      case SetOp(k, p, v) =>
        OpenStands(w, s, n, k);
        if k == n { SetStands(Opened(w, s, k).channels[n].m, boot, p, v); }
      case ResetOp(k, p) =>
        OpenStands(w, s, n, k);
        if k == n && HasUser(Opened(w, s, k).channels[n].m, p) {
          ResetStands(Opened(w, s, k).channels[n].m, boot, p);
        }
      case ResetTree(k, p) =>
        OpenStands(w, s, n, k);
        if k == n { ResetTreeStands(Opened(w, s, k).channels[n].m, boot, p); }
      case ResetAll(k) => OpenStands(w, s, n, k);
      case Timer(orders) => FlushStands(w, s, n, orders);
      case Flush(orders) => FlushStands(w, s, n, orders);
    }
  }

  lemma {:induction false} RunStands(w: World, s0: Store, ops: seq<Op>, s: Store, n: string)
    requires Inv(w, s0, n) && Reaches(w, s0, ops, s)
    ensures Inv(w, s, n)
    decreases |ops|
  {
    if ops != [] {
      StepStands(w, s0, ops[0], n);
      RunStands(w, Step(w, s0, ops[0]), ops[1..], s, n);
    }
  }

  /**
   Lock safety: a guarded lock, one with a default or with a name outside the grammar at or below it, stands in every
   run, whatever the channel's other properties and its user file are like: the property stays in the tree, locked, and
   reads as its system default.
   */
  lemma LockSafety(w: World, s0: Store, ops: seq<Op>, s: Store, n: string, p: Path)
    requires s0.channels == map[] && PlainFiles(w, s0, n) && Reaches(w, s0, ops, s) && n in s.channels
    requires Locked(Boot(w, n).m, p) && Guards(Boot(w, n).m, p)
    ensures Locked(s.channels[n].m, p) && UserOf(s.channels[n].m, p) == None
    ensures Get(s.channels[n].m, p) == SystemOf(Boot(w, n).m, p)
  {
    RunStands(w, s0, ops, s, n);
    Layers(s.channels[n].m, p);
  }

  /* ---- Locked channels ---- */

  /** `fs` are the system files of channel `n`, and all are well-formed. */
  ghost predicate AreFiles(w: World, n: string, fs: seq<File>) {
    InLoadOrder(w.found(n)) == EventsOf(fs) && forall i :: 0 <= i < |fs| ==> GoodFile(Reader(true, w.inList), fs[i])
  }

  /**
   A locked channel is never read from the user's file, so what a client adds in memory is lost: at any time in any run,
   from any files, its files and its memory read the same if and only if no user value differs from its default; over
   well-formed system files, if and only if there is no user value at all.
   */
  lemma DurableWhenLocked(w: World, s0: Store, ops: seq<Op>, s: Store, n: string)
    requires s0.channels == map[] && PlainFiles(w, s0, n) && Reaches(w, s0, ops, s)
    requires n in s.channels && s.channels[n].locked
    ensures Agree(w, s, n) <==> forall p :: UserOf(s.channels[n].m, p) in {None, SystemOf(Boot(w, n).m, p)}
    ensures (exists fs :: AreFiles(w, n, fs)) ==>
              (Agree(w, s, n) <==> forall p :: UserOf(s.channels[n].m, p) == None)
  {
    var m, boot := s.channels[n].m, Boot(w, n).m;
    Reloads(w, s0, n);
    RunStands(w, s0, ops, s, n);
    assert Reload(w, s, n).m == boot;
    forall p ensures Get(boot, p) == Get(m, p) <==> UserOf(m, p) in {None, SystemOf(boot, p)} {
      Layers(boot, p);
      Layers(m, p);
    }
    if fs :| AreFiles(w, n, fs) {
      forall p ensures UserOf(m, p) in {None, SystemOf(boot, p)} <==> UserOf(m, p) == None {
        if SystemOf(boot, p).Some? { DefaultsAreLocked(w, n, fs, p); }
      }
    }
  }

  /** In a locked channel over well-formed files every default is locked, so its lock is guarded. */
  lemma DefaultsAreLocked(w: World, n: string, fs: seq<File>, p: Path)
    requires AreFiles(w, n, fs) && Boot(w, n).channelLocked && SystemOf(Boot(w, n).m, p).Some? && p != Root
    ensures Locked(Boot(w, n).m, p) && Guards(Boot(w, n).m, p)
  {
    SystemRule(w.inList, fs, p);
    LoadSystemIs(w.inList, fs);
    NoMentionNoValue(Counting(Reader(true, w.inList), fs), p);
    assert Above(p, p) && Firm(Boot(w, n).m, p);
  }

  /* ---- A lock that is not guarded can fall ---- */

  /** At and below `p` there is no value, and requests can spell whatever there is. */
  ghost predicate Bare(m: PMap, p: Path) {
    forall q :: Above(p, q) ==> UserOf(m, q) == None && SystemOf(m, q) == None && (q in m ==> Spellable(q))
  }

  lemma {:induction false} LeafBelow(m: PMap, p: Path, h: nat) returns (l: Path)
    requires p in m && forall q :: q in m ==> Depth(q) <= h
    ensures l in m && Above(p, l) && !HasChildren(m, l)
    decreases h - Depth(p)
  {
    if HasChildren(m, p) {
      var c :| c in m && c.Sub? && c.up == p;
      l := LeafBelow(m, c, h);
      assert Above(p, c.up);
      AboveTransitive(p, c, l);
    } else {
      l := p;
    }
  }

  /** Setting a new property below a bare leaf and resetting it again unlinks the leaf. */
  lemma SetAndReset(m: PMap, p: Path, l: Path, v: Value)
    requires Closed(m) && p != Root && Bare(m, p) && l in m && Above(p, l) && !HasChildren(m, l)
    ensures var r := Sub(l, "x");
            var m1 := AfterSet(m, r, v);
            && Spellable(r) && !Locked(m, r) && !SetIsNoop(m, r, v) && HasUser(m1, r)
            && var m2 := AfterReset(m1, r);
               Closed(m2) && Bare(m2, p) && l !in m2 && forall q :: q in m2 ==> q in m
  {
    var r := Sub(l, "x");
    assert r !in m && r.up in m && Spellable(l);
    SpellableIsProper(r);
    AddedStep(m, r, Rec(Some(v), None, false));
    SetEffect(m, r, v);
    var m1 := AfterSet(m, r, v);
    assert m1 == m[r := Rec(Some(v), None, false)];
    ResetEffect(m1, r);
    forall q | q in m1 && q.Sub? ensures q.up != r { assert q in m ==> q.up in m; }
    LeafIsPruned(m1, r);
    if Above(l, Root) { AboveTransitive(p, l, Root); AboveDepth(p, Root); }
    OnlyChild(m, m1, l, r);
    assert UserOf(m, l) == None && SystemOf(m, l) == None;
    assert Pruned(m1, r, l);
    var m2 := AfterReset(m1, r);
    forall q | Above(p, q) ensures UserOf(m2, q) == None && SystemOf(m2, q) == None && (q in m2 ==> Spellable(q)) {
      assert UserOf(m, q) == None && SystemOf(m, q) == None && (q in m ==> Spellable(q));
    }
  }

  lemma OnlyChild(m: PMap, m1: PMap, l: Path, r: Path)
    requires Closed(m) && l in m && !HasChildren(m, l) && r.Sub? && r.up == l && m1.Keys == m.Keys + {r}
    ensures forall q :: q in m1 && Above(l, q) ==> q == l || q == r
    ensures Above(l, r)
  {
    assert Above(l, r.up);
    forall q | q in m && Above(l, q) ensures q == l {
      if q != l { AncestorIn(m, Toward(l, q), q); }
    }
  }

  lemma Shrinks(a: set<Path>, b: set<Path>, p: Path, l: Path)
    requires b <= a && l in a && l !in b && Above(p, l)
    ensures |Below(b, p)| < |Below(a, p)|
  {
    assert Below(b, p) <= Below(a, p) - {l};
    Fewer(Below(b, p), Below(a, p), l);
  }

  lemma Fewer<T>(b: set<T>, a: set<T>, x: T)
    requires b <= a - {x} && x in a
    ensures |b| < |a|
  {
    var rest := a - {x};
    assert rest == b + (rest - b);
  }

  /** From a tree that is bare at and below `p`, sets and resets of new properties unlink `p`, locks or not. */
  lemma {:induction false} Fall(w: World, s: Store, n: string, p: Path, v: Value) returns (ops: seq<Op>, t: Store)
    requires LowerName(n) && n in s.channels && StorableValue(v)
    requires p != Root && Closed(s.channels[n].m) && Bare(s.channels[n].m, p)
    ensures Reaches(w, s, ops, t) && t.channels.Keys == s.channels.Keys
    ensures p !in t.channels[n].m && Closed(t.channels[n].m)
    decreases |Below(s.channels[n].m.Keys, p)|
  {
    var m := s.channels[n].m;
    if p !in m { return [], s; }
    var l := LeafBelow(m, p, MaxDepth(m.Keys));
    SetAndReset(m, p, l, v);
    var r := Sub(l, "x");
    var a, b := SetOp(n, r, v), ResetOp(n, r);
    var s1 := Step(w, s, a);
    var s2 := Step(w, s1, b);
    assert s1.channels[n].m == AfterSet(m, r, v);
    assert s2.channels[n].m == AfterReset(AfterSet(m, r, v), r);
    Shrinks(m.Keys, s2.channels[n].m.Keys, p, l);
    ops, t := Fall(w, s2, n, p, v);
    OneMore(w, s1, b, ops, t);
    OneMore(w, s, a, [b] + ops, t);
    ops := [a] + ([b] + ops);
  }

  lemma OneMore(w: World, s: Store, a: Op, ops: seq<Op>, t: Store)
    requires Enabled(s, a) && Reaches(w, Step(w, s, a), ops, t)
    ensures Reaches(w, s, [a] + ops, t)
  {
    assert ([a] + ops)[1..] == ops;
  }

  lemma {:induction false} Onward(w: World, s: Store, ops: seq<Op>, t: Store, a: Op)
    requires Reaches(w, s, ops, t) && Enabled(t, a)
    ensures Reaches(w, s, ops + [a], Step(w, t, a))
    decreases |ops|
  {
    if ops == [] {
      assert ops + [a] == [a] + [];
    } else {
      Onward(w, Step(w, s, ops[0]), ops[1..], t, a);
      assert (ops + [a])[1..] == ops[1..] + [a];
    }
  }

  ghost predicate Reachable(w: World, s0: Store, s: Store) {
    exists ops :: Reaches(w, s0, ops, s)
  }

  /**
   The exact condition: a lock stands in every run of validated requests if and only if it is guarded: at or below it
   there is a default, or a locked property that no request can spell.
   */
  lemma LockStandsIff(w: World, s0: Store, n: string, p: Path)
    requires s0.channels == map[] && PlainFiles(w, s0, n) && LowerName(n) && Locked(Boot(w, n).m, p)
    ensures (exists q :: Above(p, q) &&
              (SystemOf(Boot(w, n).m, q).Some? || (Locked(Boot(w, n).m, q) && !Spellable(q)))) <==>
            forall s :: Reachable(w, s0, s) && n in s.channels ==> Locked(s.channels[n].m, p)
  {
    var boot := Boot(w, n).m;
    assert Guards(boot, p) <==>
           exists q :: Above(p, q) && (SystemOf(boot, q).Some? || (Locked(boot, q) && !Spellable(q)));
    if Guards(boot, p) {
      forall s | Reachable(w, s0, s) && n in s.channels ensures Locked(s.channels[n].m, p) {
        var ops :| Reaches(w, s0, ops, s);
        LockSafety(w, s0, ops, s, n, p);
      }
    } else {
      var ops, t := UnguardedFalls(w, s0, n, p);
      assert Reachable(w, s0, t) && n in t.channels && !Locked(t.channels[n].m, p);
    }
  }

  /** A recursive reset first, then sets and resets below. */
  lemma UnguardedFalls(w: World, s0: Store, n: string, p: Path) returns (ops: seq<Op>, t: Store)
    requires s0.channels == map[] && PlainFiles(w, s0, n) && LowerName(n)
    requires Locked(Boot(w, n).m, p) && !Guards(Boot(w, n).m, p)
    ensures Reaches(w, s0, ops, t) && t.channels.Keys == {n}
    ensures p != Root && Spellable(p) && p !in t.channels[n].m && Closed(t.channels[n].m)
  {
    Reloads(w, s0, n);
    var m, boot := Reload(w, s0, n).m, Boot(w, n).m;
    assert Locked(m, p) && p != Root && Above(p, p);
    assert Spellable(p) by { assert !Firm(boot, p); }
    var a := ResetTree(n, p);
    var s1 := Step(w, s0, a);
    assert s1.channels[n].m == AfterRecursiveReset(m, p);
    ResetBares(m, boot, p);
    ops, t := Fall(w, s1, n, p, Single(Bool(true)));
    OneMore(w, s0, a, ops, t);
    ops := [a] + ops;
  }

  /** After a recursive reset only what leads to a lock remains below an unguarded one, and requests can spell it. */
  lemma ResetBares(m: PMap, boot: PMap, p: Path)
    requires Closed(m) && SameDefaults(m, boot) && p != Root && !Guards(boot, p)
    ensures Closed(AfterRecursiveReset(m, p)) && Bare(AfterRecursiveReset(m, p), p)
  {
    var m1 := AfterRecursiveReset(m, p);
    RecursiveResetEffect(m, p);
    forall q | Above(p, q) ensures UserOf(m1, q) == None && SystemOf(m1, q) == None && (q in m1 ==> Spellable(q)) {
      assert !Firm(boot, q) && SystemOf(m1, q) == SystemOf(m, q) == SystemOf(boot, q);
      if q in m1 {
        RecursiveResetSurvivors(m, p, q);
        var r :| r in m && Above(q, r) && (m[r].system.Some? || m[r].locked);
        AboveTransitive(p, q, r);
        assert !Firm(boot, r) && SystemOf(m, r) == SystemOf(boot, r) && Locked(m, r) == Locked(boot, r);
        SpellableAbove(q, r);
      }
    }
  }

  /* ---- Durability needs every lock guarded ---- */

  ghost function Listed(names: set<string>): (s: seq<string>)
    ensures forall x :: x in s <==> x in names
  {
    if names == {} then [] else
      var x :| x in names;
      [x] + Listed(names - {x})
  }

  ghost function ChildrenOf(m: PMap, p: Path): set<string> {
    set q | q in m && q.Sub? && q.up == p :: q.last
  }

  /** Some order of its nodes fits every tree. */
  ghost function SomeOrder(m: PMap): (kids: Order)
    requires Root in m
    ensures Ordered(m, kids)
  {
    var kids := map p | p in m :: Listed(ChildrenOf(m, p));
    assert forall p | p in m :: Branches(m, kids, p) by {
      forall p, x | p in m ensures x in kids[p] <==> Sub(p, x) in m {
        if Sub(p, x) in m { assert Sub(p, x).last in ChildrenOf(m, p); }
      }
    }
    kids
  }

  /**
   The exact condition for durability: an unlocked channel reads the same from its files as from memory whenever it is
   clean, in every run, if and only if every lock in its system files is guarded.
   */
  lemma DurableIff(w: World, s0: Store, n: string)
    requires s0.channels == map[] && PlainFiles(w, s0, n) && LowerName(n) && !Boot(w, n).channelLocked
    ensures AllGuarded(w, n) <==>
            forall s :: Reachable(w, s0, s) && n in s.channels && !s.channels[n].dirty ==> Agree(w, s, n)
  {
    if AllGuarded(w, n) {
      forall s | Reachable(w, s0, s) && n in s.channels && !s.channels[n].dirty ensures Agree(w, s, n) {
        var ops :| Reaches(w, s0, ops, s);
        Durable(w, s0, ops, s, n);
        RunStands(w, s0, ops, s, n);
      }
    } else {
      var p :| Locked(Boot(w, n).m, p) && !Guards(Boot(w, n).m, p);
      var ops, t := FallenIsLost(w, s0, n, p, Single(Bool(true)));
      assert Reachable(w, s0, t);
    }
  }

  /** Once the lock has fallen the property can be set and is written, but the reader of the file obeys the lock. */
  lemma FallenIsLost(w: World, s0: Store, n: string, p: Path, v: Value) returns (ops: seq<Op>, t: Store)
    requires s0.channels == map[] && PlainFiles(w, s0, n) && LowerName(n) && !Boot(w, n).channelLocked
    requires Locked(Boot(w, n).m, p) && !Guards(Boot(w, n).m, p) && StorableValue(v)
    ensures Reaches(w, s0, ops, t) && n in t.channels && !t.channels[n].dirty && !Agree(w, t, n)
  {
    var t0;
    ops, t0 := UnguardedFalls(w, s0, n, p);
    var m := t0.channels[n].m;
    SpellableIsProper(p);
    SetEffect(m, p, v);
    var t1 := Step(w, t0, SetOp(n, p, v));
    Onward(w, s0, ops, t0, SetOp(n, p, v));
    assert t1.channels[n].m == AfterSet(m, p, v) && t1.channels.Keys == {n};
    var orders := map[n := SomeOrder(t1.channels[n].m)];
    Onward(w, s0, ops + [SetOp(n, p, v)], t1, Flush(orders));
    ops, t := ops + [SetOp(n, p, v)] + [Flush(orders)], Flushed(t1, orders);
    RunStands(w, s0, ops, t, n);
    Reloads(w, t, n);
    assert !Firm(Boot(w, n).m, p) by { assert Above(p, p); }
    Layers(Reload(w, t, n).m, p);
    assert Get(Reload(w, t, n).m, p) == None && Get(t.channels[n].m, p) == Some(v);
  }
}
