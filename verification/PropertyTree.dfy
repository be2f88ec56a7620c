/** The tree of properties as linked nodes, and the operations that link and unlink them in place. */
module PropertyTree {
  import opened Values
  import opened Paths
  import opened Sequences
  import opened PropertyMap

  class GNode {
    var name: string
    var value: Option<Value>
    var system: Option<Value>
    var locked: bool
    var parent: GNode?
    var children: seq<GNode>
    ghost var path: Path

    constructor (name: string, value: Option<Value>, locked: bool, parent: GNode?, ghost path: Path)
      ensures View() == NodeView(path, name, Rec(value, None, locked), parent, [])
    {
      this.name, this.value, this.system, this.locked := name, value, None, locked;
      this.path, this.parent, children := path, parent, [];
    }

    ghost function View(): NodeView
      reads this
    {
      NodeView(path, name, Rec(value, system, locked), parent, children)
    }
  }

  /** The fields of a node, as a value. */
  datatype NodeView = NodeView(path: Path, name: string, rec: Rec, parent: GNode?, children: seq<GNode>)

  /** Where each node is, in what order its children stand, and what it holds. */
  datatype Layout = Layout(at: map<Path, GNode>, kids: Order, m: PMap) {
    ghost predicate SameKeys() {
      Root in at && kids.Keys == at.Keys && m.Keys == at.Keys && m[Root] == BLANK
    }

    /** `p` can be named, hangs below its parent, and its children are nodes with different names. */
    ghost predicate Placed(p: Path)
      requires SameKeys() && p in at
    {
      && Proper(p) && (p.Sub? ==> p.up in at && p.last in kids[p.up]) && Distinct(kids[p])
      && forall i :: 0 <= i < |kids[p]| ==> Sub(p, kids[p][i]) in at
    }

    /** What the fields of the node at `p` must be. */
    ghost function ViewOf(p: Path): NodeView
      requires SameKeys() && p in at && Placed(p)
    {
      NodeView(p, if p == Root then "/" else p.last, m[p], if p == Root then null else at[p.up],
               seq(|kids[p]|, i requires 0 <= i < |kids[p]| => at[Sub(p, kids[p][i])]))
    }

    ghost function Appended(p: Path, name: string, node: GNode, r: Rec): Layout
      requires SameKeys() && p in at
    {
      Layout(at[Sub(p, name) := node], kids[p := kids[p] + [name]][Sub(p, name) := []], m[Sub(p, name) := r])
    }

    lemma AppendedPlaced(p: Path, name: string, node: GNode, r: Rec, q: Path)
      requires SameKeys() && p in at && Sub(p, name) !in at && q in at && Placed(q)
      ensures Appended(p, name, node, r).SameKeys() && Appended(p, name, node, r).Placed(q)
      ensures q != p ==> Appended(p, name, node, r).ViewOf(q) == ViewOf(q)
      ensures q == p ==> Appended(p, name, node, r).ViewOf(q) == ViewOf(q).(children := ViewOf(q).children + [node])
    {
    }

    lemma AppendedNew(p: Path, name: string, node: GNode, r: Rec)
      requires SameKeys() && p in at && Sub(p, name) !in at && Proper(Sub(p, name))
      ensures Appended(p, name, node, r).SameKeys() && Appended(p, name, node, r).Placed(Sub(p, name))
      ensures Appended(p, name, node, r).ViewOf(Sub(p, name)) == NodeView(Sub(p, name), name, r, at[p], [])
    {
    }

    ghost function Stored(p: Path, r: Rec): Layout {
      this.(m := m[p := r])
    }

    lemma StoredPlaced(p: Path, r: Rec, q: Path)
      requires SameKeys() && p in at && p != Root && q in at && Placed(q)
      ensures Stored(p, r).SameKeys() && Stored(p, r).Placed(q)
      ensures Stored(p, r).ViewOf(q) == if q == p then ViewOf(q).(rec := r) else ViewOf(q)
    {
    }

    ghost function Unlinked(p: Path): Layout
      requires SameKeys() && p in at && p != Root && p.up in at
    {
      Layout(at - {p}, kids[p.up := Without(kids[p.up], p.last)] - {p}, m - {p})
    }

    /** What unlinking a leaf `p` needs to know of it. */
    ghost predicate Leaf(p: Path, i: nat)
      requires SameKeys()
    {
      p in at && p != Root && p.up in at && kids[p] == [] && i < |kids[p.up]| && kids[p.up][i] == p.last
    }

    lemma UnlinkedPlaced(p: Path, i: nat, q: Path)
      requires SameKeys() && Leaf(p, i) && q in at && q != p && q != p.up && Placed(q)
      ensures Unlinked(p).SameKeys() && Unlinked(p).Placed(q)
      ensures Unlinked(p).ViewOf(q) == ViewOf(q)
    {
      if q.Sub? && q.up == p.up { WithoutKeeps(kids[q.up], p.last, q.last); }
    }

    lemma UnlinkedParent(p: Path, i: nat)
      requires SameKeys() && Leaf(p, i) && Placed(p.up)
      ensures Unlinked(p).SameKeys() && Unlinked(p).Placed(p.up)
      ensures Unlinked(p).ViewOf(p.up) ==
              ViewOf(p.up).(children := ViewOf(p.up).children[..i] + ViewOf(p.up).children[i + 1..])
    {
      WithoutAt(kids[p.up], i);
    }
  }

  /** Every node of `a` is still where it was in `b`. */
  ghost predicate Extends(a: map<Path, GNode>, b: map<Path, GNode>) {
    forall q :: q in a ==> q in b && b[q] == a[q]
  }

  class PropTree {
    const root: GNode
    ghost var lay: Layout
    ghost var repr: set<GNode>

    ghost predicate Valid()
      reads this, repr
    {
      && lay.SameKeys() && lay.at[Root] == root
      && (forall p {:trigger Linked(p)} :: p in lay.at ==> Linked(p))
    }

    ghost predicate Linked(p: Path)
      requires lay.SameKeys() && p in lay.at
      reads this, repr
    {
      lay.at[p] in repr && lay.Placed(p) && lay.at[p].View() == lay.ViewOf(p)
    }

    constructor ()
      ensures Valid() && fresh(repr)
      ensures lay.m == map[Root := BLANK]
    {
      root := new GNode("/", None, false, null, Root);
      lay := Layout(map[Root := root], map[Root := []], map[Root := BLANK]);
      repr := {root};
    }

    lemma IsClosed()
      requires Valid()
      ensures Closed(lay.m)
    {
      forall p | p in lay.at ensures Proper(p) && (p.Sub? ==> p.up in lay.at) { assert Linked(p); }
    }

    lemma HasShape()
      requires Valid()
      ensures Shape(lay.at.Keys, lay.kids)
    {
      forall p | p in lay.at ensures Distinct(lay.kids[p]) { assert Linked(p); }
      forall p | p in lay.at && p.Sub? ensures p.up in lay.at && p.last in lay.kids[p.up] { assert Linked(p); }
      forall p, x | p in lay.at && x in lay.kids[p] ensures Sub(p, x) in lay.at { assert Linked(p); }
    }

    method FindChild(parent: GNode, ghost p: Path, part: string) returns (child: GNode?)
      requires Valid() && p in lay.at && lay.at[p] == parent
      ensures child != null <==> Sub(p, part) in lay.at
      ensures child != null ==> child == lay.at[Sub(p, part)]
    {
      assert Linked(p);
      if Sub(p, part) in lay.at { assert Linked(Sub(p, part)); }
      var j := 0;
      while j < |parent.children|
        invariant 0 <= j <= |parent.children|
        invariant part !in lay.kids[p][..j]
      {
        child := parent.children[j];
        assert Linked(Sub(p, lay.kids[p][j]));
        if child.name == part { return; }
        j := j + 1;
      }
      child := null;
    }

    method LookupNode(name: string) returns (found: GNode?)
      requires Valid()
      ensures found != null <==> NameIsValid(name) && PathOf(name) in lay.at
      ensures found != null ==> found == lay.at[PathOf(name)]
    {
      found := null;
      if !NameIsValid(name) { return; }
      var parts := Split(name[1..]);
      found := root;
      SplitParts(name);
      FollowParts(PathOf(name));
      for i := 0 to |parts|
        invariant Follow(parts, i) in lay.at && found == lay.at[Follow(parts, i)]
      {
        found := FindChild(found, Follow(parts, i), parts[i]);
        if found == null {
          FollowAbove(parts, i + 1, |parts|);
          IsClosed();
          if PathOf(name) in lay.m { AncestorIn(lay.m, Follow(parts, i + 1), PathOf(name)); }
          return;
        }
      }
    }

    /** g_node_append_data(parent, prop) */
    method Append(parent: GNode, ghost p: Path, name: string, value: Option<Value>, locked: bool) returns (node: GNode)
      requires Valid() && p in lay.at && lay.at[p] == parent
      requires Sub(p, name) !in lay.at && name != "" && SlashFree(name)
      modifies this, parent
      ensures Valid() && fresh(node) && forall n :: n in repr ==> n == node || n in old(repr)
      ensures lay == old(lay).Appended(p, name, node, Rec(value, None, locked))
    {
      ghost var r := Rec(value, None, locked);
      assert Linked(p);
      node := new GNode(name, value, locked, parent, Sub(p, name));
      parent.children := parent.children + [node];
      repr := repr + {node};
      lay := lay.Appended(p, name, node, r);
      old(lay).AppendedNew(p, name, node, r);
      forall q | q in lay.at ensures Linked(q) {
        if q != Sub(p, name) {
          assert old(Linked(q));
          old(lay).AppendedPlaced(p, name, node, r, q);
        }
      }
    }

    /** The parent of the node that `name` will denote, created with its own ancestors when missing. */
    method ParentFor(name: string) returns (parent: GNode)
      requires Valid() && NameIsValid(name) && Proper(PathOf(name)) && PathOf(name) !in lay.at
      modifies this, repr
      ensures Valid() && (forall n :: n in repr && n !in old(repr) ==> fresh(n)) && Extends(old(lay.at), lay.at)
      ensures parent in repr && PathOf(name).Sub? && PathOf(name).up in lay.at && parent == lay.at[PathOf(name).up]
      ensures lay.m == if PathOf(name).up in old(lay.m) then old(lay.m) else Added(old(lay.m), PathOf(name).up, BLANK)
      decreases |name|, 0
    {
      var i := LastSlash(name);
      if i == 0 {
        parent := root;
      } else {
        var tmp := name[..i];
        var known := LookupNode(tmp);
        if known == null {
          parent := AddProperty(tmp, None, false);
        } else {
          parent := known;
        }
      }
      assert Linked(PathOf(name).up);
    }

    method AddProperty(name: string, value: Option<Value>, locked: bool) returns (node: GNode)
      requires Valid() && NameIsValid(name) && Proper(PathOf(name)) && PathOf(name) !in lay.at
      modifies this, repr
      ensures Valid() && (forall n :: n in repr && n !in old(repr) ==> fresh(n)) && Extends(old(lay.at), lay.at)
      ensures PathOf(name) in lay.at && node == lay.at[PathOf(name)]
      ensures lay.m == Added(old(lay.m), PathOf(name), Rec(value, None, locked))
      decreases |name|, 1
    {
      IsClosed();
      AddedStep(lay.m, PathOf(name), Rec(value, None, locked));
      var parent := ParentFor(name);
      node := Append(parent, PathOf(name).up, name[LastSlash(name) + 1..], value, locked);
    }

    /**
     blconf_backend_perchannel_xml_set on a loaded channel; `written` tells whether a save and a notification follow.
     */
    method SetProperty(name: string, v: Value) returns (ok: bool, written: bool)
      requires Valid() && NameIsValid(name) && Proper(PathOf(name)) && PathOf(name) != Root
      modifies this, repr
      ensures Valid() && forall n :: n in repr && n !in old(repr) ==> fresh(n)
      ensures ok <==> !Locked(old(lay.m), PathOf(name))
      ensures written <==> ok && !SetIsNoop(old(lay.m), PathOf(name), v)
      ensures written <==> ok && !(v.Single? && Get(old(lay.m), PathOf(name)) == Some(v))
      ensures lay.m == AfterSet(old(lay.m), PathOf(name), v)
    {
      var prop := LookupNode(name);
      ghost var p := PathOf(name);
      if prop == null {
        var node := AddProperty(name, Some(v), false);
        return true, true;
      }
      assert Linked(p);
      if prop.locked { return false, false; }
      var current := if prop.value.Some? then prop.value else prop.system;
      if current.Some? && GEqual(current.value, v) { return true, false; }
      Store(prop, p, Some(v), prop.system, prop.locked);
      ok, written := true, true;
    }

    /** The property lookup and value choice of blconf_backend_perchannel_xml_get. */
    method GetProperty(name: string) returns (found: Option<Value>)
      requires Valid()
      ensures found == GetNamed(lay.m, name)
    {
      var prop := LookupNode(name);
      if prop == null { return None; }
      assert Linked(PathOf(name));
      found := if prop.value.Some? then prop.value else prop.system;
    }

    /** The property's own lock, as blconf_backend_perchannel_xml_is_property_locked reads it. */
    method PropertyLocked(name: string) returns (locked: bool)
      requires Valid()
      ensures locked <==> NameIsValid(name) && Locked(lay.m, PathOf(name))
    {
      var prop := LookupNode(name);
      if prop == null { return false; }
      assert Linked(PathOf(name));
      locked := prop.locked;
    }

    /** Write the record of one node. */
    method Store(node: GNode, ghost p: Path, value: Option<Value>, system: Option<Value>, locked: bool)
      requires Valid() && p in lay.at && lay.at[p] == node && p != Root
      modifies this, repr
      ensures Valid() && repr == old(repr)
      ensures lay == old(lay).Stored(p, Rec(value, system, locked))
    {
      assert Linked(p);
      node.value, node.system, node.locked := value, system, locked;
      lay := lay.Stored(p, Rec(value, system, locked));
      forall q | q in lay.at ensures Linked(q) {
        assert old(Linked(q));
        old(lay).StoredPlaced(p, Rec(value, system, locked), q);
      }
    }

    /** g_node_unlink of a node that has no children. */
    method Unlink(node: GNode, ghost p: Path)
      requires Valid() && p in lay.at && lay.at[p] == node && p != Root
      requires node.children == []
      modifies this, repr
      ensures p.up in old(lay.at)
      ensures Valid() && repr == old(repr) && lay == old(lay).Unlinked(p)
      ensures node.parent == null
    {
      assert Linked(p) && Linked(p.up);
      var up := node.parent;
      var i := IndexOf(up, p.up, node, p);
      up.children := up.children[..i] + up.children[i + 1..];
      node.parent := null;
      lay := lay.Unlinked(p);
      assert old(lay).Leaf(p, i);
      old(lay).UnlinkedParent(p, i);
      forall q | q in lay.at ensures Linked(q) {
        assert old(Linked(q));
        if q != p.up {
          old(lay).UnlinkedPlaced(p, i, q);
        }
      }
    }

    method IndexOf(up: GNode, ghost p: Path, node: GNode, ghost c: Path) returns (i: nat)
      requires Valid() && p in lay.at && c in lay.at && lay.at[p] == up && lay.at[c] == node
      requires c != Root && c.up == p
      ensures i < |up.children| && up.children[i] == node
      ensures |lay.kids[p]| == |up.children| && lay.kids[p][i] == c.last
    {
      assert Linked(p) && Linked(c);
      i := 0;
      while up.children[i] != node
        invariant i < |up.children|
        invariant c.last !in lay.kids[p][..i]
        decreases |up.children| - i
      {
        assert Linked(Sub(p, lay.kids[p][i]));
        i := i + 1;
      }
      assert Linked(Sub(p, lay.kids[p][i]));
    }

    /** blconf_proptree_reset */
    method Reset(name: string) returns (done: bool)
      requires Valid()
      modifies this, repr
      ensures Valid() && repr == old(repr)
      ensures done <==> NameIsValid(name) && HasUser(old(lay.m), PathOf(name))
      ensures lay.m == if done then AfterReset(old(lay.m), PathOf(name)) else old(lay.m)
    {
      done := false;
      var node := LookupNode(name);
      if node == null { return; }
      ghost var p := PathOf(name);
      assert Linked(p);
      if node.value.Some? {
        done := true;
        ChildrenOf(p);
        if node.children != [] || node.system.Some? {
          Store(node, p, None, node.system, node.locked);
        } else {
          UnlinkChain(node, p);
        }
      }
    }

    lemma ChildrenOf(p: Path)
      requires Valid() && p in lay.at
      ensures lay.at[p].children != [] <==> HasChildren(lay.m, p)
      ensures forall x :: x in lay.kids[p] <==> Sub(p, x) in lay.at
    {
      assert Linked(p);
      HasShape();
      if lay.kids[p] != [] { assert Sub(p, lay.kids[p][0]) in lay.m; }
      forall q | q in lay.m && q.Sub? && q.up == p ensures lay.kids[p] != [] { assert q.last in lay.kids[p]; }
    }

    /**
     The children of a node are the nodes below it, one for each name in order, and between them reach all below it.
     */
    lemma AllChildren(p: Path)
      requires Valid() && p in lay.at
      ensures p in lay.m && |lay.at[p].children| == |lay.kids[p]| && Distinct(lay.kids[p])
      ensures lay.kids[p][..|lay.kids[p]|] == lay.kids[p]
      ensures Reached(lay.m.Keys, p, lay.kids[p]) == Below(lay.m.Keys, p) - {p}
    {
      IsClosed();
      ChildrenOf(p);
      assert Linked(p);
      ReachedAll(lay.m, p, lay.kids[p]);
      TakeAll(lay.kids[p]);
    }

    lemma ChildAt(p: Path, i: nat)
      requires Valid() && p in lay.at && i < |lay.kids[p]|
      ensures |lay.at[p].children| == |lay.kids[p]| && Sub(p, lay.kids[p][i]) in lay.m
      ensures lay.at[p].children[i] == lay.at[Sub(p, lay.kids[p][i])]
    {
      assert Linked(p);
    }

    /** Only the root is called "/". */
    lemma NotTheRoot(c: Path)
      requires Proper(c)
      ensures c.Sub? ==> c.last != "/"
    {
      if c.Sub? { assert c.last[0] != '/'; }
    }

    /** Unlink a leaf, then every ancestor left without values and children, up to the root. */
    method UnlinkChain(node: GNode, ghost p: Path)
      requires Valid() && p in lay.at && lay.at[p] == node && p != Root
      requires node.children == [] && node.system == None
      modifies this, repr
      ensures Valid() && repr == old(repr)
      ensures lay.m == AfterReset(old(lay.m), p)
    {
      ghost var m0 := lay.m;
      ghost var c := p.up;
      assert Linked(p) && Linked(c);
      IsClosed();
      ChildrenOf(p);
      LeafIsPruned(m0, p);
      CutStart(m0, p);
      var parent := node.parent;
      Unlink(node, p);
      while parent != null
        invariant Valid() && repr == old(repr)
        invariant parent != null ==> Above(c, p) && c != p && c in lay.at && parent == lay.at[c]
        invariant parent != null ==> lay.m == CutTo(m0, p, c) && Pruned(m0, p, Toward(c, p))
        invariant parent == null ==> lay.m == AfterReset(m0, p)
        decreases parent != null, Depth(c)
      {
        assert Linked(c) && lay.m[c] == m0[c];
        ChildrenOf(c);
        NotTheRoot(c);
        if parent.value.None? && parent.system.None? && parent.children == [] && parent.name != "/" {
          PruneStep(m0, p, c);
          CutStep(m0, p, c);
          var tmp := parent;
          parent := parent.parent;
          Unlink(tmp, c);
          AboveStep(c, p);
          c := c.up;
        } else {
          PruneStop(m0, p, c);
          parent := null;
        }
      }
    }

    /** blconf_proptree_build_propname */
    method BuildPropName(node: GNode, ghost p: Path) returns (name: string)
      requires Valid() && p in lay.at && lay.at[p] == node
      ensures name == BuiltName(p)
    {
      var components := ComponentsUp(node, p);
      name := "";
      for i := 0 to |components|
        invariant name + Concat(components[i..]) == Concat(components)
      {
        ConcatTail(name, components, i);
        name := name + "/";
        name := name + components[i];
      }
    }

    /** The walk towards the root, which prepends each name until it meets one that is a single character. */
    method ComponentsUp(node: GNode, ghost p: Path) returns (components: seq<string>)
      requires Valid() && p in lay.at && lay.at[p] == node
      ensures Concat(components) == BuiltName(p)
    {
      var cur: GNode? := node;
      ghost var q := p;
      components := [];
      while cur != null
        invariant cur != null ==> q in lay.at && cur == lay.at[q] && BuiltName(p) == BuiltName(q) + Concat(components)
        invariant cur == null ==> BuiltName(p) == Concat(components)
        decreases cur != null, Depth(q)
      {
        assert Linked(q);
        if |cur.name| <= 1 {
          cur := null;
        } else {
          ConcatHead(q, components);
          components := [cur.name] + components;
          cur := cur.parent;
          q := q.up;
        }
      }
    }

    /** Post-order walk with nodes_do_prop_reset: drop the user values at and below `p`, reporting each. */
    method ClearUsers(node: GNode, ghost p: Path, ghost h: nat) returns (changed: seq<string>, ghost order: seq<Path>)
      requires Valid() && p in lay.at && lay.at[p] == node && forall q :: q in lay.m ==> Depth(q) <= h
      modifies this, repr
      ensures Valid() && repr == old(repr)
      ensures lay == old(lay).(m := Cleared(old(lay.m), Below(old(lay.m).Keys, p)))
      ensures changed == BuiltNames(order) && Lists(order, UsersIn(old(lay.m), Below(old(lay.m).Keys, p)))
      decreases h - Depth(p), 1
    {
      ghost var m0 := lay.m;
      changed, order := ClearChildren(node, p, h);
      ClearLast(m0, p, order);
      var own := DoPropReset(node, p);
      BuiltNamesAppend(order, [p]);
      if HasUser(m0, p) { order := order + [p]; }
      changed := changed + own;
    }

    method ClearChildren(node: GNode, ghost p: Path, ghost h: nat)
        returns (changed: seq<string>, ghost order: seq<Path>)
      requires Valid() && p in lay.at && lay.at[p] == node && forall q :: q in lay.m ==> Depth(q) <= h
      modifies this, repr
      ensures Valid() && repr == old(repr)
      ensures lay == old(lay).(m := Cleared(old(lay.m), Below(old(lay.m).Keys, p) - {p}))
      ensures changed == BuiltNames(order) && Lists(order, UsersIn(old(lay.m), Below(old(lay.m).Keys, p) - {p}))
      decreases h - Depth(p), 0
    {
      ghost var m0, names := lay.m, lay.kids[p];
      AllChildren(p);
      changed, order := [], [];
      var i := 0;
      while i < |node.children|
        invariant Valid() && repr == old(repr) && i <= |names| == |node.children|
        invariant lay == old(lay).(m := Cleared(m0, Reached(m0.Keys, p, names[..i])))
        invariant changed == BuiltNames(order) && Lists(order, UsersIn(m0, Reached(m0.Keys, p, names[..i])))
      {
        ChildAt(p, i);
        var more, tail := ClearUsers(node.children[i], Sub(p, names[i]), h);
        ClearStep(m0, p, names, i, order, tail);
        BuiltNamesAppend(order, tail);
        changed, order, i := changed + more, order + tail, i + 1;
        AllChildren(p);
      }
      assert names[..i] == names;
    }

    /** nodes_do_prop_reset: the notifications it issues for one node. */
    method DoPropReset(node: GNode, ghost p: Path) returns (changed: seq<string>)
      requires Valid() && p in lay.at && lay.at[p] == node
      modifies this, repr
      ensures Valid() && repr == old(repr)
      ensures lay == old(lay).(m := Cleared(old(lay.m), {p}))
      ensures changed == if HasUser(old(lay.m), p) then [BuiltName(p)] else []
    {
      assert Linked(p);
      changed := [];
      if node.value.Some? {
        Store(node, p, None, node.system, node.locked);
        var name := BuildPropName(node, p);
        changed := [name];
      }
    }

    /** Post-order walk with nodes_clean_up: unlink what has no value, no lock and nothing below it. */
    method CleanUp(node: GNode, ghost p: Path, ghost h: nat)
      requires Valid() && p in lay.at && lay.at[p] == node && p != Root && forall q :: q in lay.m ==> Depth(q) <= h
      modifies this, repr
      ensures Valid() && repr == old(repr)
      ensures lay.m == Swept(old(lay.m), Below(old(lay.m).Keys, p))
      ensures Extends(lay.at, old(lay.at))
      decreases h - Depth(p)
    {
      ghost var m0, names := lay.m, lay.kids[p];
      IsClosed();
      ChildrenOf(p);
      assert Linked(p);
      var children := node.children;
      var i := 0;
      while i < |children|
        invariant Valid() && repr == old(repr) && i <= |names| == |children|
        invariant lay.m == Swept(m0, Reached(m0.Keys, p, names[..i]))
        invariant Extends(lay.at, old(lay.at))
      {
        CleanStep(m0, p, names, i);
        CleanUp(children[i], Sub(p, names[i]), h);
        i := i + 1;
      }
      CleanLast(m0, p, names, i);
      assert p in lay.m && lay.at[p] == node;
      CleanUpNode(node, p);
    }

    /** nodes_clean_up */
    method CleanUpNode(node: GNode, ghost p: Path)
      requires Valid() && p in lay.at && lay.at[p] == node && p != Root
      modifies this, repr
      ensures Valid() && repr == old(repr)
      ensures lay.m == if Kept(old(lay.m)[p]) || HasChildren(old(lay.m), p) then old(lay.m) else old(lay.m) - {p}
      ensures Extends(lay.at, old(lay.at))
    {
      assert Linked(p);
      ChildrenOf(p);
      if node.children == [] && node.value.None? && node.system.None? && !node.locked {
        assert Linked(p.up);
        Unlink(node, p);
      }
    }

    /** The recursive branch of a reset below the channel root. */
    method ResetBelow(name: string) returns (done: bool, changed: seq<string>, ghost order: seq<Path>)
      requires Valid()
      modifies this, repr
      ensures Valid() && repr == old(repr)
      ensures done <==> NameIsValid(name) && PathOf(name) in old(lay.m)
      ensures lay.m == if done then AfterRecursiveReset(old(lay.m), PathOf(name)) else old(lay.m)
      ensures changed == BuiltNames(order)
      ensures Lists(order, if done then UsersIn(old(lay.m), Below(old(lay.m).Keys, PathOf(name))) else {})
    {
      done, changed, order := false, [], [];
      var top := LookupNode(name);
      if top == null { return; }
      done := true;
      ghost var p, h := PathOf(name), MaxDepth(lay.m.Keys);
      changed, order := ClearUsers(top, p, h);
      CleanUp(top, p, h);
    }

    /** The traversal of do_reset_channel. */
    method ClearAll() returns (changed: seq<string>, ghost order: seq<Path>)
      requires Valid()
      modifies this, repr
      ensures Valid() && repr == old(repr)
      ensures lay.m == Cleared(old(lay.m), old(lay.m).Keys)
      ensures changed == BuiltNames(order) && Lists(order, UsersIn(old(lay.m), old(lay.m).Keys))
    {
      assert Linked(Root);
      forall q | q in lay.m ensures Above(Root, q) { RootAbove(q); }
      assert Below(lay.m.Keys, Root) == lay.m.Keys;
      changed, order := ClearUsers(root, Root, MaxDepth(lay.m.Keys));
    }

    /** blconf_proptree_node_to_hash_table: add the values at and below `p`, under their names. */
    method NodeToHashTable(node: GNode, ghost p: Path, ghost h: nat, hash: map<string, Value>, buffer: Buffer)
        returns (r: map<string, Value>)
      requires Valid() && p in lay.m && lay.at[p] == node && forall q :: q in lay.m ==> Depth(q) <= h
      requires buffer.text == if p == Root then "" else Join(p.up)
      modifies buffer
      ensures buffer.text == old(buffer.text)
      ensures r == hash + Named(lay.m, Below(lay.m.Keys, p))
      decreases h - Depth(p), 2
    {
      assert Linked(p);
      NamedLast(lay.m, p, hash);
      r := OwnEntry(node, p, hash, buffer.text);
      if node.children != [] {
        r := Descend(node, p, h, r, buffer);
      } else {
        AllChildren(p);
      }
    }

    /** Append the node's name to the buffer, visit the children, and cut the buffer at its last '/'. */
    method Descend(node: GNode, ghost p: Path, ghost h: nat, hash: map<string, Value>, buffer: Buffer)
        returns (r: map<string, Value>)
      requires Valid() && p in lay.m && lay.at[p] == node && forall q :: q in lay.m ==> Depth(q) <= h
      requires node.children != [] && buffer.text == if p == Root then "" else Join(p.up)
      modifies buffer
      ensures buffer.text == old(buffer.text)
      ensures r == hash + Named(lay.m, Below(lay.m.Keys, p) - {p})
      decreases h - Depth(p), 1
    {
      assert Linked(p);
      if node.name[0] != '/' {
        buffer.text := buffer.text + "/";
        buffer.text := buffer.text + node.name;
      }
      r := ChildEntries(node, p, h, hash, buffer);
      if p.Sub? { CutJoin(p); }
      buffer.text := CutAtLastSlash(buffer.text);
    }

    /** The node's own value, if it has one, under its full name. */
    method OwnEntry(node: GNode, ghost p: Path, hash: map<string, Value>, path: string) returns (r: map<string, Value>)
      requires Valid() && p in lay.m && lay.at[p] == node && path == if p == Root then "" else Join(p.up)
      ensures r == if Get(lay.m, p).Some? then hash[Join(p) := Get(lay.m, p).value] else hash
    {
      assert Linked(p);
      r := hash;
      if node.value.Some? {
        r := r[path + "/" + node.name := node.value.value];
      } else if node.system.Some? {
        r := r[path + "/" + node.name := node.system.value];
      }
    }

    method ChildEntries(node: GNode, ghost p: Path, ghost h: nat, hash: map<string, Value>, buffer: Buffer)
        returns (r: map<string, Value>)
      requires Valid() && p in lay.m && lay.at[p] == node && forall q :: q in lay.m ==> Depth(q) <= h
      requires buffer.text == Join(p)
      modifies buffer
      ensures buffer.text == old(buffer.text)
      ensures r == hash + Named(lay.m, Below(lay.m.Keys, p) - {p})
      decreases h - Depth(p), 0
    {
      ghost var names := lay.kids[p];
      AllChildren(p);
      r := hash;
      var i := 0;
      while i < |node.children|
        invariant i <= |names| == |node.children| && buffer.text == Join(p)
        invariant r == hash + Named(lay.m, Reached(lay.m.Keys, p, names[..i]))
      {
        ChildAt(p, i);
        NamedStep(lay.m, p, names, i, hash);
        r := NodeToHashTable(node.children[i], Sub(p, names[i]), h, r, buffer);
        i := i + 1;
      }
      assert names[..i] == names;
    }

    /** blconf_backend_perchannel_xml_get_all on a loaded channel. */
    method GetAll(base: string) returns (ok: bool, properties: map<string, Value>)
      requires Valid()
      ensures ok <==> |base| < 2 || (NameIsValid(base) && PathOf(base) in lay.m)
      ensures ok ==> forall k :: (if k in properties then Some(properties[k]) else None) ==
                                 if Under(base, k) then GetNamed(lay.m, k) else None
    {
      var top: GNode? := root;
      var buffer := new Buffer("");
      ghost var p := Root;
      if |base| >= 2 {
        top := LookupNode(base);
        if top == null { return false, map[]; }
        p := PathOf(base);
        JoinPathOf(base);
        assert Linked(p);
        CutJoin(p);
        buffer.text := CutAtLastSlash(base);
      }
      IsClosed();
      properties := NodeToHashTable(top, p, MaxDepth(lay.m.Keys), map[], buffer);
      assert properties == Named(lay.m, Below(lay.m.Keys, p));
      forall k
        ensures (if k in properties then Some(properties[k]) else None) ==
                if Under(base, k) then GetNamed(lay.m, k) else None
      {
        FlattenedIsRead(lay.m, base, p, k);
      }
      ok := true;
    }
  }

  /** The character buffer that the flattening walk shares between its calls. */
  class Buffer {
    var text: string

    constructor (text: string)
      ensures this.text == text
    {
      this.text := text;
    }
  }

  function Concat(components: seq<string>): string {
    if components == [] then "" else "/" + components[0] + Concat(components[1..])
  }

  lemma ConcatTail(name: string, components: seq<string>, i: nat)
    requires i < |components|
    ensures name + Concat(components[i..]) == name + "/" + components[i] + Concat(components[i + 1..])
  {
    assert components[i..][1..] == components[i + 1..];
    assert Concat(components[i..]) == "/" + components[i] + Concat(components[i + 1..]);
  }

  lemma ConcatHead(q: Path, components: seq<string>)
    requires q.Sub? && |q.last| > 1
    ensures BuiltName(q) + Concat(components) == BuiltName(q.up) + Concat([q.last] + components)
  {
    assert ([q.last] + components)[1..] == components;
    assert Concat([q.last] + components) == "/" + q.last + Concat(components);
  }

  function BuiltNames(order: seq<Path>): (names: seq<string>)
  {
    seq(|order|, i requires 0 <= i < |order| => BuiltName(order[i]))
  }

  lemma BuiltNamesAppend(a: seq<Path>, b: seq<Path>)
    ensures BuiltNames(a + b) == BuiltNames(a) + BuiltNames(b)
  {
  }
}
