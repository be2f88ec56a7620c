/** The store seen as a map from paths to records, and what each tree operation does to it. */
module PropertyMap {
  import opened Values
  import opened Paths
  import opened Names

  datatype Rec = Rec(user: Option<Value>, system: Option<Value>, locked: bool)

  type PMap = map<Path, Rec>

  const BLANK := Rec(None, None, false)

  /** Which paths exist, and in which order the children of each were appended. */
  type Order = map<Path, seq<string>>

  ghost predicate Shape(keys: set<Path>, kids: Order) {
    && Root in keys && kids.Keys == keys
    && (forall p :: p in keys && p.Sub? ==> p.up in keys && p.last in kids[p.up])
    && (forall p, x :: p in keys && x in kids[p] ==> Sub(p, x) in keys)
    && (forall p :: p in keys ==> Distinct(kids[p]))
  }

  predicate Distinct<T(==)>(s: seq<T>) {
    forall i, j :: 0 <= i < j < |s| ==> s[i] != s[j]
  }

  function Without<T(==)>(s: seq<T>, x: T): seq<T> {
    if s == [] then [] else if s[0] == x then s[1..] else [s[0]] + Without(s[1..], x)
  }

  lemma {:induction false} WithoutAt<T>(s: seq<T>, i: nat)
    requires i < |s| && Distinct(s)
    ensures |Without(s, s[i])| == |s| - 1 && Distinct(Without(s, s[i]))
    ensures forall j {:trigger Without(s, s[i])[j]} :: 0 <= j < |s| - 1 ==>
              Without(s, s[i])[j] == s[if j < i then j else j + 1] && Without(s, s[i])[j] != s[i]
  {
    if i > 0 {
      WithoutAt(s[1..], i - 1);
      assert s[1..][i - 1] == s[i];
      assert Without(s, s[i]) == [s[0]] + Without(s[1..], s[i]);
    }
  }

  lemma {:induction false} WithoutKeeps<T>(s: seq<T>, x: T, y: T)
    requires y in s && y != x
    ensures y in Without(s, x)
  {
    if s[0] != x && s[0] != y { WithoutKeeps(s[1..], x, y); }
  }

  /** Every node's parent is a node, and every node can be named. */
  ghost predicate Closed(m: PMap) {
    Root in m && m[Root] == BLANK && forall p :: p in m ==> Proper(p) && (p.Sub? ==> p.up in m)
  }

  lemma {:induction false} AncestorIn(m: PMap, p: Path, q: Path)
    requires Closed(m) && q in m && Above(p, q)
    ensures p in m
  {
    if p != q { AncestorIn(m, p, q.up); }
  }

  /** What a reader sees: the user's value, else the system default. */
  function Effective(r: Rec): Option<Value> {
    if r.user.Some? then r.user else r.system
  }

  function Get(m: PMap, p: Path): Option<Value> {
    if p in m then Effective(m[p]) else None
  }

  /** Insert `p`; ancestors that are missing come into being without values. */
  function Added(m: PMap, p: Path, r: Rec): PMap {
    map q | q in m.Keys + AncestorsOf(p) :: if q == p then r else if q in m then m[q] else BLANK
  }

  lemma AddedStep(m: PMap, p: Path, r: Rec)
    requires Closed(m) && p !in m && p.Sub?
    ensures p.up in m ==> Added(m, p, r) == m[p := r]
    ensures p.up !in m ==> Added(m, p, r) == Added(m, p.up, BLANK)[p := r]
    ensures p !in Added(m, p.up, BLANK)
  {
    forall q | Above(q, p.up) && p.up in m ensures q in m { AncestorIn(m, q, p.up); }
    if Above(p, p.up) { AboveDepth(p, p.up); }
  }

  /** The child of `c` on the way down to `r`. */
  function Toward(c: Path, r: Path): (t: Path)
    requires Above(c, r) && c != r
    ensures t.Sub? && t.up == c && Above(t, r)
  {
    if r.up == c then r else Toward(c, r.up)
  }

  lemma AboveAntisymmetric(p: Path, q: Path)
    requires Above(p, q) && Above(q, p)
    ensures p == q
  {
    AboveDepth(p, q);
    AboveDepth(q, p);
  }

  /* ---- The three layers of a property ---- */

  function UserOf(m: PMap, p: Path): Option<Value> {
    if p in m then m[p].user else None
  }

  function SystemOf(m: PMap, p: Path): Option<Value> {
    if p in m then m[p].system else None
  }

  predicate Locked(m: PMap, p: Path) {
    p in m && m[p].locked
  }

  /** Same system default and same lock at every path. */
  ghost predicate SameDefaults(m: PMap, n: PMap) {
    forall p :: SystemOf(m, p) == SystemOf(n, p) && Locked(m, p) == Locked(n, p)
  }

  /** What no request can prune: a node with a system default, or a locked one whose name no request can spell. */
  ghost predicate Firm(m: PMap, q: Path) {
    SystemOf(m, q).Some? || (Locked(m, q) && !Spellable(q))
  }

  /** At or below `p` there is a node that no request can prune. */
  ghost predicate Guards(m: PMap, p: Path) {
    exists q :: Above(p, q) && Firm(m, q)
  }

  /** Every lock is guarded, and no user value hides it. */
  ghost predicate LocksHold(m: PMap) {
    forall p :: Locked(m, p) ==> Guards(m, p) && UserOf(m, p).None?
  }

  lemma GuardsSame(m: PMap, n: PMap, p: Path)
    requires Guards(m, p) && forall q :: Firm(m, q) ==> Firm(n, q)
    ensures Guards(n, p)
  {
    var q :| Above(p, q) && Firm(m, q);
    assert Firm(n, q);
  }

  /* ---- Setting a property ---- */

  /** The stored effective value already equals the new one, so nothing is written. */
  predicate SetIsNoop(m: PMap, p: Path, v: Value) {
    Get(m, p).Some? && GEqual(Get(m, p).value, v)
  }

  function AfterSet(m: PMap, p: Path, v: Value): PMap {
    if Locked(m, p) || SetIsNoop(m, p, v) then m
    else if p in m then m[p := m[p].(user := Some(v))]
    else Added(m, p, Rec(Some(v), None, false))
  }

  /** A set writes the user layer of its own path and nothing else. */
  lemma SetEffect(m: PMap, p: Path, v: Value)
    requires Closed(m) && p != Root && Proper(p)
    ensures Closed(AfterSet(m, p, v)) && SameDefaults(m, AfterSet(m, p, v))
    ensures forall q :: UserOf(AfterSet(m, p, v), q) ==
                        if q == p && !Locked(m, p) && !SetIsNoop(m, p, v) then Some(v) else UserOf(m, q)
    ensures !Locked(m, p) ==> Get(AfterSet(m, p, v), p) == Some(v)
  {
    if p !in m {
      forall q | Above(q, p) ensures Proper(q) && (q.Sub? ==> Above(q.up, p)) { AboveProper(q, p); }
      if p.Sub? && Above(Root, p) { RootAbove(p); }
    }
  }

  lemma {:induction false} AboveProper(q: Path, p: Path)
    requires Above(q, p) && Proper(p)
    ensures Proper(q) && (q.Sub? ==> Above(q.up, p))
  {
    if q != p { AboveProper(q, p.up); }
    else if p.Sub? { assert Above(p.up, p.up); }
  }

  /* ---- Resetting one property ---- */

  predicate HasUser(m: PMap, p: Path) { p in m && m[p].user.Some? }

  predicate HasValue(r: Rec) { r.user.Some? || r.system.Some? }

  ghost predicate HasChildren(m: PMap, p: Path) {
    exists q :: q in m && q.Sub? && q.up == p
  }

  /** `q` goes with `p`: at or below `q` there is nothing but valueless nodes leading down to `p`. */
  ghost predicate Pruned(m: PMap, p: Path, q: Path) {
    q != Root && Above(q, p) && forall r :: r in m && Above(q, r) ==> Above(r, p) && (r == p || !HasValue(m[r]))
  }

  ghost function AfterReset(m: PMap, p: Path): PMap
    requires p in m
  {
    if HasChildren(m, p) || m[p].system.Some? then m[p := m[p].(user := None)]
    else map q | q in m && !Pruned(m, p, q) :: m[q]
  }

  /** The map while the chain from `p` upwards has been unlinked as far as below `c`. */
  ghost function CutTo(m: PMap, p: Path, c: Path): PMap {
    map q | q in m && !(Above(q, p) && Above(c, q) && q != c) :: m[q]
  }

  lemma CutStart(m: PMap, p: Path)
    requires p.Sub?
    ensures CutTo(m, p, p.up) == m - {p}
  {
    assert Above(p.up, p.up);
    forall q | Above(q, p) && Above(p.up, q) && q != p.up ensures q == p {
      AboveDepth(q, p);
      AboveDepth(p.up, q);
    }
  }

  lemma CutStep(m: PMap, p: Path, c: Path)
    requires c.Sub? && Above(c, p)
    ensures CutTo(m, p, c) - {c} == CutTo(m, p, c.up)
  {
    forall q | Above(q, p) && Above(c.up, q) && q != c.up ensures Above(c, q) {
      AboveLinear(q, c, p);
      if !Above(c, q) { AboveAntisymmetric(q, c.up); }
    }
    forall q | Above(c, q) ensures Above(c.up, q) && q != c.up {
      AboveTransitive(c.up, c, q);
      AboveDepth(c, q);
    }
  }

  /** Seen from one level higher, the way down to `p` starts with `c`. */
  lemma AboveStep(c: Path, p: Path)
    requires c.Sub? && Above(c, p)
    ensures Above(c.up, p) && c.up != p && Toward(c.up, p) == c
  {
    AboveTransitive(c.up, c, p);
    AboveDepth(c, p);
    UnderChild(c.up, c.last, p);
  }

  lemma LeafIsPruned(m: PMap, p: Path)
    requires Closed(m) && p != Root && !HasChildren(m, p)
    ensures Pruned(m, p, p)
  {
    forall r | r in m && Above(p, r) ensures r == p {
      if r != p { AncestorIn(m, Toward(p, r), r); }
    }
  }

  lemma PruneStep(m: PMap, p: Path, c: Path)
    requires Closed(m) && Above(c, p) && c != p && c in m && c != Root && !HasValue(m[c])
    requires !HasChildren(CutTo(m, p, c), c) && Pruned(m, p, Toward(c, p))
    ensures Pruned(m, p, c)
  {
    var t := Toward(c, p);
    forall r | r in m && Above(c, r) ensures Above(r, p) && (r == p || !HasValue(m[r])) {
      if r != c {
        var d := Toward(c, r);
        AncestorIn(m, d, r);
        assert d !in CutTo(m, p, c);
        AboveLinear(d, t, p);
        AboveDepth(if Above(d, t) then d else t, if Above(d, t) then t else d);
      }
    }
  }

  lemma PruneStop(m: PMap, p: Path, c: Path)
    requires Closed(m) && p in m && Above(c, p) && c != p && c in m && Pruned(m, p, Toward(c, p))
    requires c == Root || HasValue(m[c]) || HasChildren(CutTo(m, p, c), c)
    requires !HasChildren(m, p) && m[p].system.None?
    ensures AfterReset(m, p) == CutTo(m, p, c)
  {
    var t := Toward(c, p);
    forall q | q in m ensures Pruned(m, p, q) <==> Above(q, p) && Above(c, q) && q != c {
      if Above(q, p) {
        AboveLinear(q, c, p);
        if Above(c, q) && q != c { PruneBelow(m, p, t, c, q); }
        if Above(q, c) { PruneAbove(m, p, c, q); }
      }
    }
  }

  lemma PruneBelow(m: PMap, p: Path, t: Path, c: Path, q: Path)
    requires Pruned(m, p, t) && t.Sub? && t.up == c && Above(c, q) && q != c && Above(q, p)
    ensures Pruned(m, p, q)
  {
    AboveLinear(q, t, p);
    if !Above(t, q) { AboveAntisymmetric(q, c); }
    forall r | r in m && Above(q, r) ensures Above(t, r) { AboveTransitive(t, q, r); }
    if q == Root { AboveAntisymmetric(q, c) by { RootAbove(c); } }
  }

  lemma PruneAbove(m: PMap, p: Path, c: Path, q: Path)
    requires Above(q, c) && Above(c, p) && c != p && c in m
    requires c == Root || HasValue(m[c]) || HasChildren(CutTo(m, p, c), c)
    ensures !Pruned(m, p, q)
  {
    if c != Root && !HasValue(m[c]) {
      var d :| d in CutTo(m, p, c) && d.Sub? && d.up == c;
      AboveTransitive(q, c, d);
    }
  }

  /** A reset removes the named user value; every other value and default stays where it was. */
  lemma ResetEffect(m: PMap, p: Path)
    requires Closed(m) && HasUser(m, p)
    ensures Closed(AfterReset(m, p))
    ensures forall q :: SystemOf(AfterReset(m, p), q) == SystemOf(m, q)
    ensures forall q :: UserOf(AfterReset(m, p), q) == if q == p then None else UserOf(m, q)
    ensures forall q :: Locked(AfterReset(m, p), q) ==> Locked(m, q)
    ensures forall q, r :: Locked(m, q) && Above(q, r) && SystemOf(m, r).Some? ==> Locked(AfterReset(m, p), q)
    ensures Spellable(p) ==> forall q :: Locked(m, q) && Guards(m, q) ==> Locked(AfterReset(m, p), q)
    ensures Spellable(p) && LocksHold(m) ==> SameDefaults(m, AfterReset(m, p)) && LocksHold(AfterReset(m, p))
  {
    var m' := AfterReset(m, p);
    if !HasChildren(m, p) { LeafIsPruned(m, p); }
    forall q | q in m && q.Sub? && Pruned(m, p, q.up) ensures Pruned(m, p, q) {
      AboveTransitive(q.up, q, q);
      assert Above(q.up, q.up);
      forall r | Above(q, r) ensures Above(q.up, r) { AboveTransitive(q.up, q, r); }
    }
    forall q | q in m && q !in m' ensures Above(q, p) && (q == p || !HasValue(m[q])) { assert Above(q, q); }
    forall q, r | Locked(m, q) && Above(q, r) && SystemOf(m, r).Some? ensures Locked(m', q) {
      assert SystemOf(m', r) == SystemOf(m, r);
      AncestorIn(m', q, r);
    }
    if Spellable(p) { ResetKeepsFirm(m, p); }
  }

  /** A request can spell all that it prunes, so a lock with a name outside the grammar stays. */
  lemma ResetKeepsFirm(m: PMap, p: Path)
    requires Closed(m) && HasUser(m, p) && Spellable(p) && Closed(AfterReset(m, p))
    requires forall q :: SystemOf(AfterReset(m, p), q) == SystemOf(m, q)
    requires forall q :: q in m && q !in AfterReset(m, p) ==> Above(q, p)
    ensures forall q :: Locked(m, q) && Guards(m, q) ==> Locked(AfterReset(m, p), q) && Guards(AfterReset(m, p), q)
  {
    var m' := AfterReset(m, p);
    forall q | Firm(m, q) ensures Firm(m', q) {
      if Above(q, p) { SpellableAbove(q, p); }
    }
    forall q | Locked(m, q) && Guards(m, q) ensures Locked(m', q) && Guards(m', q) {
      var r :| Above(q, r) && Firm(m, r);
      assert Firm(m', r);
      AncestorIn(m', q, r);
    }
  }

  /** On the way from `q` down to `p` some node above `p` has a value, or a child that leads elsewhere. */
  ghost predicate Propped(m: PMap, p: Path, q: Path) {
    exists c {:trigger Prop(m, p, c)} :: c in m && Above(q, c) && Prop(m, p, c)
  }

  ghost predicate Prop(m: PMap, p: Path, c: Path)
    requires c in m
  {
    Above(c, p) && c != p && (HasValue(m[c]) || exists t :: t in m && t.Sub? && t.up == c && !Above(t, p))
  }

  /** The branch where the way up from `r` joins the way up from `p`. */
  lemma {:induction false} Joins(m: PMap, p: Path, r: Path, q: Path)
    requires Closed(m) && p in m && !HasChildren(m, p) && r in m && Above(q, r) && Above(q, p) && !Above(r, p)
    ensures Propped(m, p, q)
  {
    if Above(r.up, p) {
      assert r.up in m && Above(q, r.up) && Prop(m, p, r.up);
    } else {
      Joins(m, p, r.up, q);
    }
  }

  lemma ProppedStays(m: PMap, p: Path, q: Path)
    requires Closed(m) && p in m && q in m && q != Root && Above(q, p) && !HasChildren(m, p)
    ensures Pruned(m, p, q) <==> !Propped(m, p, q)
  {
    if Propped(m, p, q) {
      var c :| c in m && Above(q, c) && Prop(m, p, c);
      if !HasValue(m[c]) {
        var t :| t in m && t.Sub? && t.up == c && !Above(t, p);
        assert Above(c, t.up);
        AboveTransitive(q, c, t);
      }
    }
    if !Pruned(m, p, q) {
      var r :| r in m && Above(q, r) && !(Above(r, p) && (r == p || !HasValue(m[r])));
      if Above(r, p) { assert Prop(m, p, r); } else { Joins(m, p, r, q); }
    }
  }

  /**
   Pruning does not look at locks.  A reset keeps every lock if and only if the node itself stays, or each locked node
   at or above it is propped up by a value or by another branch.
   */
  lemma ResetKeepsLocks(m: PMap, p: Path)
    requires Closed(m) && HasUser(m, p)
    ensures (forall q :: Locked(m, q) ==> Locked(AfterReset(m, p), q)) <==>
            HasChildren(m, p) || m[p].system.Some? || forall q :: Locked(m, q) && Above(q, p) ==> Propped(m, p, q)
  {
    if !HasChildren(m, p) {
      forall q | Locked(m, q) && Above(q, p) ensures Pruned(m, p, q) <==> !Propped(m, p, q) { ProppedStays(m, p, q); }
    }
  }

  /** A lock without a default goes with the last property below it. */
  lemma LockLost(v: Value) returns (m: PMap, p: Path, q: Path)
    ensures Closed(m) && HasUser(m, p) && Locked(m, q) && !Guards(m, q) && q !in AfterReset(m, p)
  {
    q := Sub(Root, "ab");
    p := Sub(q, "cd");
    m := map[Root := BLANK, q := Rec(None, None, true), p := Rec(Some(v), None, false)];
    assert Above(q, p.up);
    forall r | r in m && Above(q, r) ensures Above(r, p) && (r == p || !HasValue(m[r])) {
      if r == Root { AboveDepth(q, Root); }
    }
    assert Pruned(m, p, q);
  }

  /* ---- Resetting a subtree ---- */

  ghost function Below(keys: set<Path>, p: Path): set<Path> {
    set q | q in keys && Above(p, q)
  }

  /** The keys at or below one of the children `names` of `p`. */
  ghost function Reached(keys: set<Path>, p: Path, names: seq<string>): set<Path> {
    if names == [] then {} else Reached(keys, p, names[..|names| - 1]) + Below(keys, Sub(p, names[|names| - 1]))
  }

  lemma {:induction false} ReachedIs(keys: set<Path>, p: Path, names: seq<string>, q: Path)
    ensures q in Reached(keys, p, names) <==> q in keys && Above(p, q) && q != p && Toward(p, q).last in names
  {
    if names != [] {
      var x := names[|names| - 1];
      ReachedIs(keys, p, names[..|names| - 1], q);
      assert names == names[..|names| - 1] + [x];
      UnderChild(p, x, q);
    }
  }

  lemma {:induction false} UnderChild(p: Path, x: string, q: Path)
    ensures Above(Sub(p, x), q) <==> Above(p, q) && q != p && Toward(p, q).last == x
  {
    if Above(Sub(p, x), q) {
      AboveTransitive(p, Sub(p, x), q);
      AboveDepth(Sub(p, x), q);
      AboveLinear(Toward(p, q), Sub(p, x), q);
      AboveDepth(p, q);
      if Above(Toward(p, q), Sub(p, x)) { AboveDepth(Toward(p, q), Sub(p, x)); }
      else { AboveDepth(Sub(p, x), Toward(p, q)); }
    }
  }

  lemma ReachedAll(m: PMap, p: Path, names: seq<string>)
    requires Closed(m) && forall x :: x in names <==> Sub(p, x) in m
    ensures Reached(m.Keys, p, names) == Below(m.Keys, p) - {p}
  {
    forall q ensures q in Reached(m.Keys, p, names) <==> q in m && Above(p, q) && q != p {
      ReachedIs(m.Keys, p, names, q);
      if q in m && Above(p, q) && q != p { AncestorIn(m, Toward(p, q), q); }
    }
  }

  lemma ReachedStep(keys: set<Path>, p: Path, names: seq<string>, i: nat)
    requires i < |names| && Distinct(names)
    ensures Reached(keys, p, names[..i + 1]) == Reached(keys, p, names[..i]) + Below(keys, Sub(p, names[i]))
    ensures Reached(keys, p, names[..i]) !! Below(keys, Sub(p, names[i]))
  {
    assert names[..i + 1][..i] == names[..i];
    forall q | q in Reached(keys, p, names[..i]) && Above(Sub(p, names[i]), q) ensures false {
      ReachedIs(keys, p, names[..i], q);
      UnderChild(p, names[i], q);
    }
  }

  ghost function Cleared(m: PMap, s: set<Path>): PMap {
    map q | q in m :: if q in s then m[q].(user := None) else m[q]
  }

  /** The properties in `s` that the user has set. */
  ghost function UsersIn(m: PMap, s: set<Path>): set<Path> {
    set q | q in s && HasUser(m, q)
  }

  /** `order` names each element of `s` once. */
  ghost predicate Lists(order: seq<Path>, s: set<Path>) {
    Distinct(order) && forall q :: q in order <==> q in s
  }

  lemma ListsAppend(a: seq<Path>, s: set<Path>, b: seq<Path>, t: set<Path>)
    requires Lists(a, s) && Lists(b, t) && s !! t
    ensures Lists(a + b, s + t)
  {
    forall i, j | 0 <= i < j < |a + b| ensures (a + b)[i] != (a + b)[j] {
      if i < |a| <= j { assert a[i] in s && b[j - |a|] in t; }
    }
  }

  /** One more child's subtree cleared, and its notifications appended. */
  lemma ClearStep(m: PMap, p: Path, names: seq<string>, i: nat, order: seq<Path>, tail: seq<Path>)
    requires i < |names| && Distinct(names)
    requires Lists(order, UsersIn(m, Reached(m.Keys, p, names[..i])))
    requires Lists(tail, UsersIn(Cleared(m, Reached(m.Keys, p, names[..i])), Below(m.Keys, Sub(p, names[i]))))
    ensures Cleared(Cleared(m, Reached(m.Keys, p, names[..i])), Below(m.Keys, Sub(p, names[i]))) ==
            Cleared(m, Reached(m.Keys, p, names[..i + 1]))
    ensures Lists(order + tail, UsersIn(m, Reached(m.Keys, p, names[..i + 1])))
  {
    ReachedStep(m.Keys, p, names, i);
    var s, b := Reached(m.Keys, p, names[..i]), Below(m.Keys, Sub(p, names[i]));
    assert UsersIn(Cleared(m, s), b) == UsersIn(m, b);
    ListsAppend(order, UsersIn(m, s), tail, UsersIn(m, b));
    assert UsersIn(m, s + b) == UsersIn(m, s) + UsersIn(m, b);
  }

  lemma ClearLast(m: PMap, p: Path, order: seq<Path>)
    requires p in m && Lists(order, UsersIn(m, Below(m.Keys, p) - {p}))
    ensures Cleared(Cleared(m, Below(m.Keys, p) - {p}), {p}) == Cleared(m, Below(m.Keys, p))
    ensures Lists(if HasUser(m, p) then order + [p] else order, UsersIn(m, Below(m.Keys, p)))
  {
    var s := Below(m.Keys, p);
    if HasUser(m, p) {
      ListsAppend(order, UsersIn(m, s - {p}), [p], {p});
      assert UsersIn(m, s) == UsersIn(m, s - {p}) + {p};
    } else {
      assert UsersIn(m, s) == UsersIn(m, s - {p});
    }
  }

  predicate Kept(r: Rec) { r.user.Some? || r.system.Some? || r.locked }

  ghost predicate Needed(m: PMap, q: Path) {
    exists r :: r in m && Above(q, r) && Kept(m[r])
  }

  ghost function Dead(m: PMap): set<Path> {
    set q | q in m && !Needed(m, q)
  }

  /** The dead nodes among `s` unlinked. */
  ghost function Swept(m: PMap, s: set<Path>): PMap {
    m - (Dead(m) * s)
  }

  ghost function AfterRecursiveReset(m: PMap, p: Path): PMap {
    Swept(Cleared(m, Below(m.Keys, p)), Below(m.Keys, p))
  }

  /** Removing dead nodes changes no other node's standing. */
  lemma DeadStable(m: PMap, s: set<Path>)
    requires s <= Dead(m)
    ensures Dead(m - s) == Dead(m) - s
  {
    forall r | r in m && Kept(m[r]) ensures r in m - s { assert Above(r, r) && Needed(m, r); }
    forall q | q in m - s ensures Needed(m - s, q) <==> Needed(m, q) {
      if Needed(m, q) {
        var r :| r in m && Above(q, r) && Kept(m[r]);
        assert r in m - s;
      }
    }
  }

  /** An unkept node is dead exactly when all its children are. */
  lemma DeadByChildren(m: PMap, p: Path)
    requires Closed(m) && p in m
    ensures p in Dead(m) <==> !Kept(m[p]) && forall q :: q in m && q.Sub? && q.up == p ==> q in Dead(m)
  {
    if Needed(m, p) && !Kept(m[p]) {
      var r :| r in m && Above(p, r) && Kept(m[r]);
      AncestorIn(m, Toward(p, r), r);
      assert Needed(m, Toward(p, r));
    }
    forall q | q in m && q.Sub? && q.up == p && Needed(m, q) ensures Needed(m, p) {
      var r :| r in m && Above(q, r) && Kept(m[r]);
      AboveTransitive(p, q, r);
    }
    if Kept(m[p]) { assert Above(p, p); }
  }

  /** One more child's subtree cleaned up. */
  lemma CleanStep(m: PMap, p: Path, names: seq<string>, i: nat)
    requires i < |names| && Distinct(names) && Sub(p, names[i]) in m
    ensures var cur := Swept(m, Reached(m.Keys, p, names[..i]));
            && Sub(p, names[i]) in cur
            && Swept(cur, Below(cur.Keys, Sub(p, names[i]))) == Swept(m, Reached(m.Keys, p, names[..i + 1]))
  {
    ReachedStep(m.Keys, p, names, i);
    assert Sub(p, names[i]) in Below(m.Keys, Sub(p, names[i]));
    DeadStable(m, Dead(m) * Reached(m.Keys, p, names[..i]));
  }

  /** With its children cleaned up, `p` itself goes exactly when it is dead. */
  lemma CleanLast(m: PMap, p: Path, names: seq<string>, i: nat)
    requires Closed(m) && p in m && i == |names| && forall x :: x in names <==> Sub(p, x) in m
    ensures var cur := Swept(m, Reached(m.Keys, p, names[..i]));
            && p in cur && cur[p] == m[p]
            && Swept(m, Below(m.Keys, p)) == if Kept(m[p]) || HasChildren(cur, p) then cur else cur - {p}
  {
    assert names[..i] == names;
    ReachedAll(m, p, names);
    CleanSelf(m, p);
  }

  lemma CleanSelf(m: PMap, p: Path)
    requires Closed(m) && p in m
    ensures var cur := Swept(m, Below(m.Keys, p) - {p});
            && p in cur && cur[p] == m[p]
            && Swept(m, Below(m.Keys, p)) == if Kept(m[p]) || HasChildren(cur, p) then cur else cur - {p}
  {
    var cur := Swept(m, Below(m.Keys, p) - {p});
    DeadByChildren(m, p);
    forall q | q in m && q.Sub? && q.up == p ensures Above(p, q) && q != p {
      assert Above(p, p);
    }
    assert forall q :: q in cur && q.Sub? && q.up == p ==> q in m && q !in Dead(m);
  }

  /** A recursive reset empties the user layer at and below `p` and touches no value elsewhere. */
  lemma RecursiveResetEffect(m: PMap, p: Path)
    requires Closed(m) && p != Root
    ensures Closed(AfterRecursiveReset(m, p)) && SameDefaults(m, AfterRecursiveReset(m, p))
    ensures forall q :: UserOf(AfterRecursiveReset(m, p), q) == if Above(p, q) then None else UserOf(m, q)
    ensures LocksHold(m) ==> LocksHold(AfterRecursiveReset(m, p))
  {
    var c, m' := Cleared(m, Below(m.Keys, p)), AfterRecursiveReset(m, p);
    forall q | q in m && q.Sub? && Needed(c, q) ensures Needed(c, q.up) {
      var r :| r in c && Above(q, r) && Kept(c[r]);
      assert Above(q.up, q.up);
      AboveTransitive(q.up, q, r);
    }
    forall q | q in c && Kept(c[q]) ensures q in m' { assert Above(q, q); }
    if Above(p, Root) { AboveDepth(p, Root); }
  }

  /** Below the base exactly those nodes survive that lead to a system default or a lock; elsewhere all do. */
  lemma RecursiveResetSurvivors(m: PMap, p: Path, q: Path)
    requires Closed(m) && q in m
    ensures q in AfterRecursiveReset(m, p) <==>
            !Above(p, q) || exists r :: r in m && Above(q, r) && (m[r].system.Some? || m[r].locked)
  {
    var c := Cleared(m, Below(m.Keys, p));
    if Above(p, q) {
      forall r | r in m && Above(q, r) ensures Kept(c[r]) <==> m[r].system.Some? || m[r].locked {
        AboveTransitive(p, q, r);
      }
      assert Needed(c, q) <==> exists r :: r in m && Above(q, r) && (m[r].system.Some? || m[r].locked);
    }
  }

  /* ---- Flattening ---- */

  /** The names of the properties among `s` that have a value. */
  ghost function ValueNames(m: PMap, s: set<Path>): set<string> {
    set q | q in s && Get(m, q).Some? :: Join(q)
  }

  /** Name-to-value table of the properties among `s`. */
  ghost function Named(m: PMap, s: set<Path>): map<string, Value> {
    map k | k in ValueNames(m, s) && Get(m, PathOf(k)).Some? :: Get(m, PathOf(k)).value
  }

  lemma NamedUnion(m: PMap, s: set<Path>, t: set<Path>)
    ensures Named(m, s + t) == Named(m, s) + Named(m, t)
  {
    assert ValueNames(m, s + t) == ValueNames(m, s) + ValueNames(m, t);
  }

  lemma NamedSelf(m: PMap, p: Path)
    requires Proper(p)
    ensures Named(m, {p}) == if Get(m, p).Some? then map[Join(p) := Get(m, p).value] else map[]
  {
    PathOfJoin(p);
    if Get(m, p).Some? {
      assert p in {p};
      assert ValueNames(m, {p}) == {Join(p)};
    }
  }

  lemma MergeAssociative<K, V>(a: map<K, V>, b: map<K, V>, c: map<K, V>)
    ensures (a + b) + c == a + (b + c)
  {
  }

  lemma MergeOne<K, V>(a: map<K, V>, k: K, v: V)
    ensures a + map[k := v] == a[k := v] && a + map[] == a
  {
  }

  lemma NamedStep(m: PMap, p: Path, names: seq<string>, i: nat, hash: map<string, Value>)
    requires i < |names| && Distinct(names)
    ensures hash + Named(m, Reached(m.Keys, p, names[..i])) + Named(m, Below(m.Keys, Sub(p, names[i]))) ==
            hash + Named(m, Reached(m.Keys, p, names[..i + 1]))
  {
    ReachedStep(m.Keys, p, names, i);
    var a, b := Named(m, Reached(m.Keys, p, names[..i])), Named(m, Below(m.Keys, Sub(p, names[i])));
    NamedUnion(m, Reached(m.Keys, p, names[..i]), Below(m.Keys, Sub(p, names[i])));
    MergeAssociative(hash, a, b);
  }

  lemma NamedLast(m: PMap, p: Path, hash: map<string, Value>)
    requires p in m && Proper(p)
    ensures hash + Named(m, Below(m.Keys, p)) ==
            (if Get(m, p).Some? then hash[Join(p) := Get(m, p).value] else hash) + Named(m, Below(m.Keys, p) - {p})
  {
    NamedSelf(m, p);
    NamedUnion(m, {p}, Below(m.Keys, p) - {p});
    assert {p} + (Below(m.Keys, p) - {p}) == Below(m.Keys, p);
    MergeAssociative(hash, Named(m, {p}), Named(m, Below(m.Keys, p) - {p}));
    if Get(m, p).Some? { MergeOne(hash, Join(p), Get(m, p).value); }
    else { assert hash + Named(m, {p}) == hash; }
  }

  /** What blconf_proptree_lookup and the value choice of a read find under a name. */
  function GetNamed(m: PMap, name: string): Option<Value> {
    if NameIsValid(name) then Get(m, PathOf(name)) else None
  }

  /** `name` is the base, or continues it after a '/'; "" and "/" are the base of everything. */
  predicate Under(base: string, name: string) {
    |base| < 2 || name == base || base + "/" <= name
  }

  lemma UnderIsBelow(m: PMap, base: string, p: Path, q: Path)
    requires Closed(m) && p in m && q in m && q != Root
    requires if |base| < 2 then p == Root else p != Root && Join(p) == base
    ensures Under(base, Join(q)) <==> Above(p, q)
  {
    RootAbove(q);
    if |base| >= 2 {
      if Above(p, q) && p != q { JoinAbove(p, q); }
      if Join(q) == base { JoinInjective(p, q); }
      else if base + "/" <= Join(q) { BelowByName(p, q); }
    }
  }

  /** The flattened table holds exactly what reads by name find at and under the base. */
  lemma FlattenedIsRead(m: PMap, base: string, p: Path, k: string)
    requires Closed(m) && p in m && if |base| < 2 then p == Root else p != Root && Join(p) == base
    ensures var t := Named(m, Below(m.Keys, p));
            (if k in t then Some(t[k]) else None) == if Under(base, k) then GetNamed(m, k) else None
  {
    var s := Below(m.Keys, p);
    if k in ValueNames(m, s) {
      var q :| q in s && Get(m, q).Some? && Join(q) == k;
      PathOfJoin(q);
      JoinIsValid(q);
      UnderIsBelow(m, base, p, q);
    }
    if Under(base, k) && GetNamed(m, k).Some? {
      JoinPathOf(k);
      UnderIsBelow(m, base, p, PathOf(k));
      assert PathOf(k) in s && Join(PathOf(k)) == k;
    }
  }

  ghost function MaxDepth(keys: set<Path>): (h: nat)
    ensures forall q :: q in keys ==> Depth(q) <= h
  {
    if keys == {} then 0 else
      var q :| q in keys;
      var h := MaxDepth(keys - {q});
      if Depth(q) < h then h else Depth(q)
  }
}
