/**
 Property names and the paths they denote.

 A name such as "/panel/size" is a string; its path is the chain of parent links
 Sub(Sub(Root, "panel"), "size").  Both views are needed: the daemon follows links,
 but it also builds and cuts names as character buffers at their last '/'.
 */
module Paths {

  datatype Path = Root | Sub(up: Path, last: string)

  predicate SlashFree(s: string) {
    forall i :: 0 <= i < |s| ==> s[i] != '/'
  }

  /** A path that a valid name can spell: no component is empty or holds a '/'. */
  predicate Proper(p: Path) {
    p.Sub? ==> p.last != "" && SlashFree(p.last) && Proper(p.up)
  }

  /** `p` is `q` or one of its ancestors. */
  predicate Above(p: Path, q: Path) {
    p == q || (q.Sub? && Above(p, q.up))
  }

  function Depth(p: Path): nat {
    if p == Root then 0 else Depth(p.up) + 1
  }

  lemma {:induction false} AboveTransitive(p: Path, q: Path, r: Path)
    requires Above(p, q) && Above(q, r)
    ensures Above(p, r)
  {
    if q != r { AboveTransitive(p, q, r.up); }
  }

  lemma {:induction false} AboveDepth(p: Path, q: Path)
    requires Above(p, q)
    ensures Depth(p) <= Depth(q) && (Depth(p) == Depth(q) ==> p == q)
  {
    if p != q { AboveDepth(p, q.up); }
  }

  lemma {:induction false} RootAbove(p: Path)
    ensures Above(Root, p)
  {
    if p.Sub? { RootAbove(p.up); }
  }

  /** Two ancestors of one path are comparable. */
  lemma {:induction false} AboveLinear(p: Path, q: Path, r: Path)
    requires Above(p, r) && Above(q, r)
    ensures Above(p, q) || Above(q, p)
  {
    if p != r && q != r { AboveLinear(p, q, r.up); }
  }

  function AncestorsOf(p: Path): (s: set<Path>)
    ensures forall q :: q in s <==> Above(q, p)
  {
    if p == Root then {Root} else {p} + AncestorsOf(p.up)
  }

  /** The name of a path: every component preceded by '/'. */
  function Join(p: Path): string {
    if p == Root then "" else Join(p.up) + "/" + p.last
  }

  /** Index of the last '/' (strrchr), or -1. */
  function LastSlash(s: string): (i: int)
    ensures -1 <= i < |s|
    ensures 0 <= i ==> s[i] == '/'
    ensures forall j :: i < j < |s| ==> s[j] != '/'
  {
    if s == "" then -1
    else if s[|s| - 1] == '/' then |s| - 1
    else LastSlash(s[..|s| - 1])
  }

  /** Cut a buffer at its last '/', if it has one. */
  function CutAtLastSlash(s: string): string {
    if LastSlash(s) < 0 then s else s[..LastSlash(s)]
  }

  /** The path a name spells; the name is read up to its last '/', then its prefix. */
  function PathOf(s: string): Path
    decreases |s|
  {
    var i := LastSlash(s);
    if i < 0 then Root else Sub(PathOf(s[..i]), s[i + 1..])
  }

  /** g_strsplit(s, "/", -1) of a non-empty string: the pieces between the slashes. */
  function Split(s: string): seq<string>
    decreases |s|
  {
    var i := LastSlash(s);
    if i < 0 then [s] else Split(s[..i]) + [s[i + 1..]]
  }

  /** g_strjoinv("/", pieces) */
  function Rejoined(pieces: seq<string>): string {
    if pieces == [] then ""
    else if |pieces| == 1 then pieces[0]
    else Rejoined(pieces[..|pieces| - 1]) + "/" + pieces[|pieces| - 1]
  }

  /** The components of a path from the root downwards. */
  function Parts(p: Path): (parts: seq<string>)
    ensures |parts| == Depth(p)
  {
    if p == Root then [] else Parts(p.up) + [p.last]
  }

  lemma PathBelow(up: Path, x: string)
    requires Proper(up) && SlashFree(x)
    ensures PathOf(Join(up) + "/" + x) == Sub(up, x)
  {
    PathOfJoin(up);
    PathOfAppend(Join(up), x);
  }

  lemma SplitAppend(a: string, x: string)
    requires SlashFree(x)
    ensures Split(a + "/" + x) == Split(a) + [x]
  {
    LastSlashOfAppend(a, x);
    SplitAt(a, x);
  }

  /** Splitting a name after its leading '/' gives the components of its path. */
  lemma {:induction false} SplitParts(name: string)
    requires |name| >= 1 && name[0] == '/'
    ensures Split(name[1..]) == Parts(PathOf(name))
    decreases |name|
  {
    var i := LastSlash(name);
    var a, x := name[..i], name[i + 1..];
    assert name == a + "/" + x;
    PathOfAppend(a, x);
    if i == 0 {
      assert name[1..] == x;
      NoSlash(x);
    } else {
      assert name[1..] == a[1..] + "/" + x;
      SplitAppend(a[1..], x);
      SplitParts(a);
    }
  }

  lemma NoSlash(x: string)
    requires SlashFree(x)
    ensures Split(x) == [x] && Parts(Sub(PathOf(""), x)) == [x]
  {
    assert Parts(PathOf("")) == [];
  }

  lemma {:induction false} RejoinSplit(s: string)
    ensures Rejoined(Split(s)) == s
    decreases |s|
  {
    var i := LastSlash(s);
    if i >= 0 {
      RejoinSplit(s[..i]);
      assert (Split(s[..i]) + [s[i + 1..]])[..|Split(s[..i])|] == Split(s[..i]);
      assert s == s[..i] + "/" + s[i + 1..];
    }
  }

  /** The path that follows the first `i` components. */
  function Follow(parts: seq<string>, i: nat): Path
    requires i <= |parts|
  {
    if i == 0 then Root else Sub(Follow(parts, i - 1), parts[i - 1])
  }

  lemma {:induction false} FollowPrefix(a: seq<string>, b: seq<string>, i: nat)
    requires i <= |a| <= |b| && a == b[..|a|]
    ensures Follow(a, i) == Follow(b, i)
  {
    if i > 0 { FollowPrefix(a, b, i - 1); }
  }

  lemma {:induction false} FollowParts(p: Path)
    ensures Follow(Parts(p), Depth(p)) == p
  {
    if p.Sub? {
      FollowParts(p.up);
      FollowPrefix(Parts(p.up), Parts(p), Depth(p.up));
    }
  }

  lemma {:induction false} FollowAbove(parts: seq<string>, i: nat, j: nat)
    requires i <= j <= |parts|
    ensures Above(Follow(parts, i), Follow(parts, j))
  {
    if i < j { FollowAbove(parts, i, j - 1); }
  }

  /** ASCII lower case of one character. */
  function Lower(c: char): char {
    if 'A' <= c <= 'Z' then (c as int + 32) as char else c
  }

  /** g_ascii_strdown */
  function Down(s: string): string {
    seq(|s|, i requires 0 <= i < |s| => Lower(s[i]))
  }

  /** Lower-casing brings together exactly the two cases of each of the 26 letters. */
  lemma LowerMeaning(c: char, d: char)
    ensures Lower(c) == Lower(d) <==>
            c == d || ('A' <= c <= 'Z' && d as int == c as int + 32) || ('A' <= d <= 'Z' && c as int == d as int + 32)
  {
  }

  /** A name is its own lower-case form exactly when it has no upper-case letter. */
  lemma DownMeaning(s: string)
    ensures Down(s) == s <==> forall i :: 0 <= i < |s| ==> !('A' <= s[i] <= 'Z')
  {
    if Down(s) == s {
      forall i | 0 <= i < |s| ensures !('A' <= s[i] <= 'Z') { assert Down(s)[i] == s[i]; }
    }
  }

  /** PROP_NAME_IS_VALID: leading '/', something after it, no "//". */
  predicate NameIsValid(s: string) {
    |s| >= 2 && s[0] == '/' && forall i :: 0 <= i < |s| - 1 ==> !(s[i] == '/' && s[i + 1] == '/')
  }

  lemma {:induction false} LastSlashOfAppend(s: string, x: string)
    requires SlashFree(x)
    ensures LastSlash(s + "/" + x) == |s|
  {
    var t := s + "/" + x;
    if x != "" {
      var y := x[..|x| - 1];
      assert t[..|t| - 1] == s + "/" + y;
      assert t[|t| - 1] == x[|x| - 1];
      LastSlashOfAppend(s, y);
    }
  }

  /** Cutting a joined name at its last '/' drops exactly the last component. */
  lemma CutJoin(p: Path)
    requires p.Sub? && SlashFree(p.last)
    ensures CutAtLastSlash(Join(p)) == Join(p.up)
  {
    LastSlashOfAppend(Join(p.up), p.last);
  }

  lemma {:induction false} PathOfJoin(p: Path)
    requires Proper(p)
    ensures PathOf(Join(p)) == p
  {
    if p.Sub? {
      PathOfJoin(p.up);
      LastSlashOfAppend(Join(p.up), p.last);
      SplitAt(Join(p.up), p.last);
    }
  }

  lemma SplitAt(a: string, x: string)
    ensures (a + "/" + x)[..|a|] == a && (a + "/" + x)[|a| + 1..] == x
  {
  }

  lemma {:induction false} JoinPathOf(s: string)
    requires s == "" || s[0] == '/'
    ensures Join(PathOf(s)) == s
    decreases |s|
  {
    var i := LastSlash(s);
    if s != "" {
      assert i >= 0;
      JoinPathOf(s[..i]);
      assert s == s[..i] + "/" + s[i + 1..];
    }
  }

  lemma JoinInjective(p: Path, q: Path)
    requires Proper(p) && Proper(q) && Join(p) == Join(q)
    ensures p == q
  {
    PathOfJoin(p);
    PathOfJoin(q);
  }

  lemma {:induction false} JoinAbove(base: Path, k: Path)
    requires Above(base, k) && k != base
    ensures Join(base) + "/" <= Join(k)
  {
    if k.up != base {
      JoinAbove(base, k.up);
      assert Join(k.up) <= Join(k.up) + ("/" + k.last);
      assert Join(k) == Join(k.up) + ("/" + k.last);
    } else {
      assert Join(k) == (Join(base) + "/") + k.last;
    }
  }

  /** Between names, "below" is a prefix up to a '/'. */
  lemma {:induction false} BelowByName(p: Path, q: Path)
    requires Proper(p) && Proper(q) && q != p && Join(p) + "/" <= Join(q)
    ensures Above(p, q)
  {
    var a, b := Join(p), Join(q.up);
    SplitAt(b, q.last);
    assert Join(q)[|a|] == (a + "/")[|a|];
    if |a| > |b| {
      assert false;
    } else if |a| == |b| {
      assert a == Join(q)[..|a|];
      JoinInjective(p, q.up);
    } else {
      assert b == Join(q)[..|b|];
      assert a + "/" <= b;
      BelowByName(p, q.up);
    }
  }

  /** The name blconf_proptree_build_propname rebuilds: the walk up ends at any one-character component. */
  function BuiltName(p: Path): string {
    if p == Root || |p.last| <= 1 then "" else BuiltName(p.up) + "/" + p.last
  }

  /** The path of the rebuilt name. */
  function BuiltPath(p: Path): Path {
    if p == Root || |p.last| <= 1 then Root else Sub(BuiltPath(p.up), p.last)
  }

  /** No component is a single character. */
  predicate LongNamed(p: Path) {
    p.Sub? ==> |p.last| >= 2 && LongNamed(p.up)
  }

  /** The rebuilt name is the property's name exactly when no component is a single character. */
  lemma {:induction false} BuiltNameIsJoin(p: Path)
    ensures |BuiltName(p)| <= |Join(p)|
    ensures BuiltName(p) == Join(p) <==> LongNamed(p)
  {
    if p.Sub? {
      BuiltNameIsJoin(p.up);
      if |p.last| > 1 { SplitAt(BuiltName(p.up), p.last); SplitAt(Join(p.up), p.last); }
    }
  }

  /** Between `a` and `p` no component is a single character. */
  predicate LongBelow(a: Path, p: Path) {
    p == a || (p.Sub? && |p.last| >= 2 && LongBelow(a, p.up))
  }

  /** Wherever the walk stops, the rebuilt name is the rest of the full name below that point. */
  lemma {:induction false} BuiltNameIsRest(a: Path, p: Path)
    requires (a == Root || |a.last| <= 1) && LongBelow(a, p)
    ensures Join(a) + BuiltName(p) == Join(p)
  {
    if p != a { BuiltNameIsRest(a, p.up); }
  }

  lemma {:induction false} BuiltPathIs(p: Path)
    ensures Join(BuiltPath(p)) == BuiltName(p)
    ensures LongNamed(BuiltPath(p)) && (LongNamed(p) ==> BuiltPath(p) == p)
  {
    if p.Sub? { BuiltPathIs(p.up); }
  }

  /** The name of a nameable path satisfies PROP_NAME_IS_VALID. */
  lemma {:induction false} JoinIsValid(p: Path)
    requires p != Root && Proper(p)
    ensures NameIsValid(Join(p)) && Join(p)[|Join(p)| - 1] != '/'
  {
    if p.up != Root { JoinIsValid(p.up); }
    ValidAppend(Join(p.up), p.last);
  }

  lemma ValidAppend(a: string, x: string)
    requires (a == "" || (NameIsValid(a) && a[|a| - 1] != '/')) && x != "" && SlashFree(x)
    ensures NameIsValid(a + "/" + x) && (a + "/" + x)[|a| + |x|] != '/'
  {
    var s := a + "/" + x;
    assert s[|s| - 1] == x[|x| - 1];
    forall i | 0 <= i < |s| - 1 ensures !(s[i] == '/' && s[i + 1] == '/') {
      if i >= |a| { assert s[i + 1] == x[i - |a|]; }
    }
  }

  /** Looking the rebuilt name up leads back to the property exactly when no component is a single character. */
  lemma BuiltNameFinds(p: Path)
    requires p != Root && Proper(p)
    ensures NameIsValid(BuiltName(p)) && PathOf(BuiltName(p)) == p <==> LongNamed(p)
  {
    BuiltNameIsJoin(p);
    if LongNamed(p) {
      JoinIsValid(p);
      PathOfJoin(p);
    } else if NameIsValid(BuiltName(p)) {
      JoinPathOf(BuiltName(p));
    }
  }

  /** Appending "/" and a component to a name appends the component to its path. */
  lemma PathOfAppend(s: string, x: string)
    requires SlashFree(x)
    ensures PathOf(s + "/" + x) == Sub(PathOf(s), x)
  {
    LastSlashOfAppend(s, x);
    SplitAt(s, x);
  }

  /** Cutting the name of a path at its last '/' leaves the name of a path. */
  lemma CutIsProper(s: string)
    requires Proper(PathOf(s)) && s == Join(PathOf(s))
    ensures Proper(PathOf(CutAtLastSlash(s))) && CutAtLastSlash(s) == Join(PathOf(CutAtLastSlash(s)))
  {
    if PathOf(s).Sub? { CutJoin(PathOf(s)); PathOfJoin(PathOf(s).up); }
  }

  /** What may follow a '/' in a name: one or more non-empty components. */
  predicate Nameable(x: string) {
    Proper(PathOf("/" + x))
  }

  lemma OneComponent(x: string)
    requires SlashFree(x)
    ensures PathOf("/" + x) == Sub(Root, x) && (Nameable(x) <==> x != "")
  {
    assert "/" + x == "" + "/" + x;
    PathOfAppend("", x);
    assert PathOf("") == Root && Proper(Root);
    assert Proper(Sub(Root, x)) <==> x != "";
  }

  /** A nameable path extended by a nameable rest is nameable. */
  lemma {:induction false} ExtendPath(a: string, x: string)
    requires a == Join(PathOf(a)) && Proper(PathOf(a)) && Nameable(x)
    ensures var s := a + "/" + x; Proper(PathOf(s)) && PathOf(s) != Root && s == Join(PathOf(s))
    decreases |x|
  {
    var i := LastSlash(x);
    if i < 0 {
      PathOfAppend(a, x);
      OneComponent(x);
    } else {
      var x0, y := x[..i], x[i + 1..];
      CutAt(x, i);
      Regroup("", x0, y);
      Regroup(a, x0, y);
      PathOfAppend("/" + x0, y);
      ExtendPath(a, x0);
      ExtendOne(a + "/" + x0, y);
    }
  }

  lemma CutAt(x: string, i: nat)
    requires i < |x| && x[i] == '/'
    ensures x == x[..i] + "/" + x[i + 1..]
  {
  }

  lemma Regroup(a: string, x: string, y: string)
    ensures a + "/" + (x + "/" + y) == (a + "/" + x) + "/" + y
    ensures "/" + (x + "/" + y) == ("/" + x) + "/" + y
  {
  }

  lemma ExtendOne(a: string, y: string)
    requires a == Join(PathOf(a)) && Proper(PathOf(a)) && y != "" && SlashFree(y)
    ensures var s := a + "/" + y; Proper(PathOf(s)) && PathOf(s) != Root && s == Join(PathOf(s))
  {
    PathOfAppend(a, y);
  }
}
