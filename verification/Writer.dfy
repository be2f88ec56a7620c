/** Writing a channel's user layer as a settings file, and reading it back. */
module Writer {
  import opened Values
  import opened Paths
  import opened Sequences
  import opened PropertyMap
  import opened Numerals
  import opened SettingsFile
  import opened LoadOrder
  import opened LoadRule

  function TypeText(kind: Kind): string {
    match kind
    case StrKind => "string"
    case UCharKind => "uchar"
    case UIntKind => "uint"
    case IntKind => "int"
    case UInt64Kind => "uint64"
    case Int64Kind => "int64"
    case BoolKind => "bool"
  }

  function ScalarAttrs(x: Scalar): Attrs {
    [("type", TypeText(KindOf(x))), ("value", ToString(x))]
  }

  /** blconf_format_xml_tag: the attributes and <value> children of one property. */
  function ValueAttrs(v: Option<Value>): Attrs {
    match v
    case None => [("type", "empty")]
    case Some(Single(x)) => ScalarAttrs(x)
    case Some(Array(_)) => [("type", "array")]
  }

  function ItemAttrs(xs: seq<Scalar>): seq<Attrs> {
    if xs == [] then [] else ItemAttrs(xs[..|xs| - 1]) + [ScalarAttrs(xs[|xs| - 1])]
  }

  function ValueItems(v: Option<Value>): seq<Attrs> {
    if v.Some? && v.value.Array? then ItemAttrs(v.value.items) else []
  }

  /** `kids` lists the children of every node. */
  ghost predicate Ordered(m: PMap, kids: Order) {
    Root in m && kids.Keys == m.Keys && forall p {:trigger Branches(m, kids, p)} :: p in m ==> Branches(m, kids, p)
  }

  ghost predicate Branches(m: PMap, kids: Order, p: Path) {
    p in kids && forall x :: x in kids[p] <==> Sub(p, x) in m
  }

  /** Only the user layer is written; a node without a user value is a branch. */
  ghost function DocOf(m: PMap, kids: Order, p: Path, h: nat): Doc
    requires Ordered(m, kids) && p in m && p != Root && forall q :: q in m ==> Depth(q) <= h
    decreases h - Depth(p), 1, 0
  {
    assert Branches(m, kids, p);
    Doc([("name", p.last)] + ValueAttrs(m[p].user), ValueItems(m[p].user), DocsOf(m, kids, p, kids[p], h))
  }

  ghost function DocsOf(m: PMap, kids: Order, p: Path, names: seq<string>, h: nat): seq<Doc>
    requires Ordered(m, kids) && (forall q :: q in m ==> Depth(q) <= h) && forall x :: x in names ==> Sub(p, x) in m
    decreases h - Depth(p), 0, |names|
  {
    if names == [] then [] else
      assert Depth(Sub(p, names[|names| - 1])) <= h;
      DocsOf(m, kids, p, names[..|names| - 1], h) + [DocOf(m, kids, Sub(p, names[|names| - 1]), h)]
  }

  /** The file that a flush writes. */
  ghost function FileOf(channel: string, m: PMap, kids: Order): File
    requires Ordered(m, kids)
  {
    assert Branches(m, kids, Root);
    File([("name", channel), ("version", "1.0")], DocsOf(m, kids, Root, kids[Root], MaxDepth(m.Keys)))
  }

  predicate StorableValue(v: Value) {
    match v
    case Single(x) => InRange(x)
    case Array(xs) => forall i :: 0 <= i < |xs| ==> InRange(xs[i])
  }

  /** Every user value fits its type. */
  ghost predicate Storable(m: PMap) {
    forall p :: UserOf(m, p).Some? ==> StorableValue(UserOf(m, p).value)
  }

  lemma TypeBack(kind: Kind)
    ensures TypeNamed(TypeText(kind)) == ScalarType(kind) && TypeText(kind) != ""
  {
  }

  lemma ItemBack(x: Scalar)
    requires InRange(x)
    ensures Item(ScalarAttrs(x)) == Some(x)
  {
    var t, v := ("type", TypeText(KindOf(x))), ("value", ToString(x));
    assert ScalarAttrs(x) == [t] + [v] && [] + [t] == [t];
    GivenLast([], t);
    GivenLast([t], v);
    TypeBack(KindOf(x));
    RoundTrip(x);
  }

  lemma GivenScalar(x: Scalar, name: string)
    ensures var a := [("name", name)] + ScalarAttrs(x);
            && Given(a, "name") == name && Given(a, "type") == TypeText(KindOf(x)) && Given(a, "value") == ToString(x)
            && !Directed(a) && Only(a, PROPERTY_ATTRS)
  {
    var n, t, v := ("name", name), ("type", TypeText(KindOf(x))), ("value", ToString(x));
    assert [n] + ScalarAttrs(x) == [n] + [t] + [v] && [] + [n] == [n];
    GivenLast([], n);
    GivenLast([n], t);
    GivenLast([n] + [t], v);
  }

  lemma GivenLast(a: Attrs, x: (string, string))
    ensures forall k :: Given(a + [x], k) == if x.0 == k then x.1 else Given(a, k)
  {
    assert (a + [x])[..|a|] == a;
  }

  lemma GivenOther(t: string, name: string)
    requires name != ""
    ensures var a := [("name", name)] + [("type", t)];
            && Given(a, "name") == name && Given(a, "type") == t && !Directed(a) && Only(a, PROPERTY_ATTRS)
  {
    GivenLast([], ("name", name));
    GivenLast([("name", name)], ("type", t));
    assert [] + [("name", name)] == [("name", name)];
  }

  lemma {:induction false} ItemsBack(xs: seq<Scalar>)
    requires forall i :: 0 <= i < |xs| ==> InRange(xs[i])
    ensures |ItemAttrs(xs)| == |xs| && forall i :: 0 <= i < |xs| ==> Item(ItemAttrs(xs)[i]) == Some(xs[i])
    ensures Items(ItemAttrs(xs)) == xs
    decreases |xs|
  {
    if xs != [] {
      var ys, x := xs[..|xs| - 1], xs[|xs| - 1];
      InLast(xs);
      ItemsBack(ys);
      ItemBack(x);
      ItemsAppend(ItemAttrs(ys), ScalarAttrs(x));
    }
  }

  lemma {:induction false} ItemsAppend(vs: seq<Attrs>, v: Attrs)
    requires Item(v).Some?
    ensures Items(vs + [v]) == Items(vs) + [Item(v).value]
    decreases |vs|
  {
    if vs != [] {
      assert (vs + [v])[1..] == vs[1..] + [v];
      ItemsAppend(vs[1..], v);
    }
  }

  /** One written element parses, and mentions exactly the user value it was written for. */
  lemma WrittenTag(reader: Reader, p: Path, v: Option<Value>, kids: seq<Doc>)
    requires p != Root && Proper(p) && (v.Some? ==> StorableValue(v.value))
    ensures var d := Doc([("name", p.last)] + ValueAttrs(v), ValueItems(v), kids);
            GoodTag(reader, d) && DocMention(reader, p.up, d) == Mention(p, v, None)
  {
    match v
    case None => GivenOther("empty", p.last);
    case Some(Single(x)) => GivenScalar(x, p.last); TypeBack(KindOf(x)); RoundTrip(x);
    case Some(Array(xs)) => GivenOther("array", p.last); ItemsBack(xs);
  }

  lemma {:induction false} MentionsAppend(reader: Reader, up: Path, a: seq<Doc>, d: Doc)
    ensures Mentions(reader, up, a + [d]) == Mentions(reader, up, a) + Mentions(reader, up, [d])
    decreases |a|
  {
    if a == [] {
      assert a + [d] == [d];
    } else {
      assert (a + [d])[1..] == a[1..] + [d];
      MentionsAppend(reader, up, a[1..], d);
      var x, k := DocMention(reader, up, a[0]), Mentions(reader, Sub(up, Given(a[0].attrs, "name")), a[0].kids);
      Regroup([x], k, Mentions(reader, up, a[1..]), Mentions(reader, up, [d]));
    }
  }

  lemma Regroup<T>(a: seq<T>, b: seq<T>, c: seq<T>, d: seq<T>)
    ensures a + (b + (c + d)) == (a + (b + c)) + d
  {
  }

  lemma {:induction false} GoodAppend(reader: Reader, m: PMap, up: Path, a: seq<Doc>, d: Doc)
    requires Good(reader, a) && Good(reader, [d]) && NoLockedArrays(reader, m, up, a)
             && NoLockedArrays(reader, m, up, [d])
    ensures Good(reader, a + [d]) && NoLockedArrays(reader, m, up, a + [d])
    decreases |a|
  {
    if a == [] {
      assert a + [d] == [d];
    } else {
      assert (a + [d])[1..] == a[1..] + [d];
      GoodAppend(reader, m, up, a[1..], d);
    }
  }

  /** What the written documents mention: each property of the map below `up`, with its user value. */
  ghost predicate Reflects(m: PMap, xs: seq<Mention>) {
    forall x :: x in xs ==> x.p in m && x.value == m[x.p].user && x.lock == None
  }

  lemma {:induction false} LastReflected(m: PMap, xs: seq<Mention>, q: Path)
    requires Reflects(m, xs) && Mentioned(xs, q)
    ensures LastValue(xs, q) == UserOf(m, q)
    decreases |xs|
  {
    var x := xs[|xs| - 1];
    assert x in xs;
    if x.p != q {
      MentionedLast(xs, q);
      assert forall y :: y in xs[..|xs| - 1] ==> y in xs;
      LastReflected(m, xs[..|xs| - 1], q);
    }
  }

  ghost predicate Writable(m: PMap, kids: Order, h: nat) {
    Closed(m) && Ordered(m, kids) && Storable(m) && forall q :: q in m ==> Depth(q) <= h
  }

  lemma MentionsOne(reader: Reader, up: Path, d: Doc)
    ensures Mentions(reader, up, [d]) ==
            [DocMention(reader, up, d)] + Mentions(reader, Sub(up, Given(d.attrs, "name")), d.kids)
  {
    var ks := Mentions(reader, Sub(up, Given(d.attrs, "name")), d.kids);
    assert Mentions(reader, up, []) == [] && ks + [] == ks;
  }

  lemma {:induction false} WrittenDoc(reader: Reader, m: PMap, n: PMap, kids: Order, p: Path, h: nat, q: Path)
    requires Writable(m, kids, h) && p in m && p != Root && forall k :: Locked(n, k) ==> UserOf(m, k) == None
    ensures var ds := [DocOf(m, kids, p, h)];
            && Good(reader, ds) && NoLockedArrays(reader, n, p.up, ds)
            && Reflects(m, Mentions(reader, p.up, ds))
            && (Mentioned(Mentions(reader, p.up, ds), q) <==> q in m && Above(p, q))
    decreases h - Depth(p), 1, 0
  {
    var d := DocOf(m, kids, p, h);
    var x, ks := DocMention(reader, p.up, d), Mentions(reader, p, d.kids);
    assert UserOf(m, p) == m[p].user && Branches(m, kids, p);
    WrittenTag(reader, p, m[p].user, d.kids);
    WrittenDocs(reader, m, n, kids, p, kids[p], h, q);
    MentionsOne(reader, p.up, d);
    MentionedAppend([x], ks, q);
    assert Mentioned([x], q) <==> q == p by { assert [x][0] == x; }
    if q in m && Above(p, q) && q != p { AncestorIn(m, Toward(p, q), q); }
    assert Above(p, p);
  }

  /** One more written element keeps the documents well-formed and the mentions truthful. */
  lemma WrittenAppend(reader: Reader, m: PMap, n: PMap, p: Path, a: seq<Doc>, d: Doc, q: Path)
    requires Good(reader, a) && NoLockedArrays(reader, n, p, a) && Reflects(m, Mentions(reader, p, a))
    requires Good(reader, [d]) && NoLockedArrays(reader, n, p, [d]) && Reflects(m, Mentions(reader, p, [d]))
    ensures Good(reader, a + [d]) && NoLockedArrays(reader, n, p, a + [d]) && Reflects(m, Mentions(reader, p, a + [d]))
    ensures Mentioned(Mentions(reader, p, a + [d]), q) <==>
            Mentioned(Mentions(reader, p, a), q) || Mentioned(Mentions(reader, p, [d]), q)
  {
    GoodAppend(reader, n, p, a, d);
    MentionsAppend(reader, p, a, d);
    MentionedAppend(Mentions(reader, p, a), Mentions(reader, p, [d]), q);
  }

  lemma {:induction false} WrittenDocs(reader: Reader, m: PMap, n: PMap, kids: Order, p: Path, names: seq<string>,
      h: nat, q: Path)
    requires Writable(m, kids, h) && p in m && (forall x :: x in names ==> Sub(p, x) in m)
    requires forall k :: Locked(n, k) ==> UserOf(m, k) == None
    ensures var ds := DocsOf(m, kids, p, names, h);
            && Good(reader, ds) && NoLockedArrays(reader, n, p, ds)
            && Reflects(m, Mentions(reader, p, ds))
            && (Mentioned(Mentions(reader, p, ds), q) <==>
                q in m && Above(p, q) && q != p && Toward(p, q).last in names)
    decreases h - Depth(p), 0, |names|
  {
    if names != [] {
      var x, rest := names[|names| - 1], names[..|names| - 1];
      var c := Sub(p, x);
      assert Depth(c) <= h;
      WrittenDocs(reader, m, n, kids, p, rest, h, q);
      WrittenDoc(reader, m, n, kids, c, h, q);
      WrittenAppend(reader, m, n, p, DocsOf(m, kids, p, rest, h), DocOf(m, kids, c, h), q);
      UnderChild(p, x, q);
      InLast(names);
    }
  }

  /** A written file is well-formed over the defaults it was written against. */
  lemma WrittenFileGood(inList: string -> bool, channel: string, base: PMap, m: PMap, kids: Order)
    requires channel != "" && Closed(m) && Ordered(m, kids) && Storable(m)
    requires forall p :: Locked(base, p) ==> UserOf(m, p) == None
    ensures GoodFile(Reader(false, inList), FileOf(channel, m, kids))
    ensures NoLockedArrays(Reader(false, inList), base, Root, FileOf(channel, m, kids).docs)
  {
    assert Branches(m, kids, Root);
    WrittenDocs(Reader(false, inList), m, base, kids, Root, kids[Root], MaxDepth(m.Keys), Root);
    HeaderGiven(channel);
  }

  /**
   Writing and reading back: for any well-formed tree over the defaults of an unlocked channel, whose locked properties
   carry no user value, the written file read over those defaults restores every user value, default and lock.
   */
  lemma WriteThenRead(inList: string -> bool, channel: string, base: PMap, m: PMap, kids: Order)
    requires channel != "" && Closed(m) && Ordered(m, kids) && Storable(m)
    requires SameDefaults(m, base) && forall p :: UserOf(base, p) == None && (Locked(m, p) ==> UserOf(m, p) == None)
    ensures var l := MergeFile(Reader(false, inList), Loaded(base, false), FileEvents(FileOf(channel, m, kids)));
            && !l.channelLocked && SameDefaults(l.m, m) && forall p :: UserOf(l.m, p) == UserOf(m, p)
  {
    var reader, f, h := Reader(false, inList), FileOf(channel, m, kids), MaxDepth(m.Keys);
    var xs := Mentions(reader, Root, f.docs);
    assert Branches(m, kids, Root);
    WrittenFileGood(inList, channel, base, m, kids);
    WrittenDocs(reader, m, base, kids, Root, kids[Root], h, Root);
    HeaderGiven(channel);
    MergeMeaning(reader, Loaded(base, false), f);
    var l := ApplyMentions(reader, base, false, xs);
    forall p ensures UserOf(l, p) == UserOf(m, p) && SystemOf(l, p) == SystemOf(m, p) && Locked(l, p) == Locked(m, p) {
      WrittenDocs(reader, m, base, kids, Root, kids[Root], h, p);
      UserMentions(reader, base, xs, p);
      if Mentioned(xs, p) { LastReflected(m, xs, p); }
      RootAbove(p);
      if p in m && p != Root { AncestorIn(m, Toward(Root, p), p); }
    }
  }

  lemma HeaderGiven(channel: string)
    ensures var a := [("name", channel), ("version", "1.0")];
            Given(a, "name") == channel && VersionAccepted(Given(a, "version")) && !Directed(a)
              && Only(a, CHANNEL_ATTRS)
  {
    GivenLast([], ("name", channel));
    GivenLast([("name", channel)], ("version", "1.0"));
    assert [] + [("name", channel)] == [("name", channel)];
    assert [("name", channel)] + [("version", "1.0")] == [("name", channel), ("version", "1.0")];
  }

  /* ---- What is written can be read ---- */

  lemma {:induction false} DocsEventsAppend(a: seq<Doc>, d: Doc)
    ensures DocsEvents(a + [d]) == DocsEvents(a) + DocEvents(d)
    decreases |a|
  {
    if a == [] {
      assert a + [d] == [d];
    } else {
      assert (a + [d])[1..] == a[1..] + [d];
      DocsEventsAppend(a[1..], d);
    }
  }

  /** Written files name their properties by single components. */
  lemma {:induction false} DocPlain(m: PMap, kids: Order, p: Path, h: nat)
    requires Closed(m) && Ordered(m, kids) && p in m && p != Root && forall q :: q in m ==> Depth(q) <= h
    ensures PlainNames(DocEvents(DocOf(m, kids, p, h)))
    decreases h - Depth(p), 1, 0
  {
    assert Branches(m, kids, p);
    var v := m[p].user;
    match v {
      case None => GivenOther("empty", p.last);
      case Some(Single(x)) => GivenScalar(x, p.last);
      case Some(Array(xs)) => GivenOther("array", p.last); ValuesPlain(ItemAttrs(xs));
    }
    OneComponent(p.last);
    DocsPlain(m, kids, p, kids[p], h);
  }

  lemma {:induction false} ValuesPlain(vs: seq<Attrs>)
    ensures PlainNames(ValueEvents(vs))
    decreases |vs|
  {
    if vs != [] { ValuesPlain(vs[1..]); }
  }

  lemma {:induction false} DocsPlain(m: PMap, kids: Order, p: Path, names: seq<string>, h: nat)
    requires Closed(m) && Ordered(m, kids) && p in m && forall q :: q in m ==> Depth(q) <= h
    requires forall x :: x in names ==> Sub(p, x) in m
    ensures PlainNames(DocsEvents(DocsOf(m, kids, p, names, h)))
    decreases h - Depth(p), 0, |names|
  {
    if names != [] {
      var c := Sub(p, names[|names| - 1]);
      assert Depth(c) <= h;
      DocsPlain(m, kids, p, names[..|names| - 1], h);
      DocPlain(m, kids, c, h);
      DocsEventsAppend(DocsOf(m, kids, p, names[..|names| - 1], h), DocOf(m, kids, c, h));
    }
  }

  lemma WrittenIsPlain(name: string, m: PMap, kids: Order)
    requires Closed(m) && Ordered(m, kids)
    ensures PlainNames(FileEvents(FileOf(name, m, kids)))
  {
    assert Branches(m, kids, Root);
    DocsPlain(m, kids, Root, kids[Root], MaxDepth(m.Keys));
  }
}
