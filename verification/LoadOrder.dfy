/** Loading a channel from its files, and the declarative rule the result meets. */
module LoadOrder {
  import opened Values
  import opened Paths
  import opened PropertyMap
  import opened Numerals
  import opened SettingsFile

  /* ---- A well-formed document is a list of mentions ---- */

  /** A property's appearance in a file: its value, none if it is "empty", and its lock directive. */
  datatype Mention = Mention(p: Path, value: Option<Value>, lock: Option<bool>)

  function Items(vs: seq<Attrs>): seq<Scalar> {
    if vs == [] then [] else (if Item(vs[0]).Some? then [Item(vs[0]).value] else []) + Items(vs[1..])
  }

  function DocValue(d: Doc): Option<Value> {
    match TypeNamed(Given(d.attrs, "type"))
    case ArrayType => Some(Array(Items(d.values)))
    case ScalarType(kind) =>
      var x := FromString(kind, Given(d.attrs, "value"));
      if x.Some? then Some(Single(x.value)) else None
    case _ => None
  }

  function Directive(reader: Reader, attrs: Attrs): Option<bool> {
    if Directed(attrs) then Some(LockedBy(reader, attrs)) else None
  }

  function DocMention(reader: Reader, up: Path, d: Doc): Mention {
    Mention(Sub(up, Given(d.attrs, "name")), DocValue(d), Directive(reader, d.attrs))
  }

  function Mentions(reader: Reader, up: Path, ds: seq<Doc>): seq<Mention>
    decreases ds
  {
    if ds == [] then []
    else [DocMention(reader, up, ds[0])]
         + (Mentions(reader, Sub(up, Given(ds[0].attrs, "name")), ds[0].kids) + Mentions(reader, up, ds[1..]))
  }

  /** The element by itself parses; a user file may not direct locks. */
  predicate GoodTag(reader: Reader, d: Doc) {
    var t := TypeNamed(Given(d.attrs, "type"));
    && Only(d.attrs, PROPERTY_ATTRS) && Given(d.attrs, "name") != "" && SlashFree(Given(d.attrs, "name"))
    && Given(d.attrs, "type") != "" && t != UnknownType
    && (t.ScalarType? ==> FromString(t.kind, Given(d.attrs, "value")).Some?)
    && (d.values != [] ==> t.ArrayType?) && (forall i :: 0 <= i < |d.values| ==> Item(d.values[i]).Some?)
    && (Directed(d.attrs) ==> reader.isSystem)
  }

  predicate Good(reader: Reader, ds: seq<Doc>)
    decreases ds
  {
    ds == [] || (GoodTag(reader, ds[0]) && Good(reader, ds[0].kids) && Good(reader, ds[1..]))
  }

  /** No array with items stands where the reader would skip it for a lock. */
  predicate NoLockedArrays(reader: Reader, m: PMap, up: Path, ds: seq<Doc>)
    decreases ds
  {
    ds == [] ||
    (var p := Sub(up, Given(ds[0].attrs, "name"));
     && (ds[0].values != [] && !reader.isSystem ==> !Locked(m, p))
     && NoLockedArrays(reader, m, p, ds[0].kids) && NoLockedArrays(reader, m, up, ds[1..]))
  }

  function ApplyMention(reader: Reader, m: PMap, channelLocked: bool, x: Mention): PMap {
    if !channelLocked && !reader.isSystem && Locked(m, x.p) then m
    else
      var blank := Wiped(reader, m, channelLocked, x.p);
      var r := blank.(locked := if x.lock.None? then blank.locked else channelLocked || x.lock.value);
      Added(m, x.p, if x.value.Some? then Put(reader, r, x.value.value) else r)
  }

  function ApplyMentions(reader: Reader, m: PMap, channelLocked: bool, xs: seq<Mention>): PMap
    decreases |xs|
  {
    if xs == [] then m else ApplyMentions(reader, ApplyMention(reader, m, channelLocked, xs[0]), channelLocked, xs[1..])
  }

  lemma {:induction false} ApplyMentionsAppend(reader: Reader, m: PMap, channelLocked: bool, a: seq<Mention>,
      b: seq<Mention>)
    ensures ApplyMentions(reader, m, channelLocked, a + b) ==
            ApplyMentions(reader, ApplyMentions(reader, m, channelLocked, a), channelLocked, b)
    decreases |a|
  {
    if a == [] { assert a + b == b; } else {
      assert (a + b)[1..] == a[1..] + b;
      ApplyMentionsAppend(reader, ApplyMention(reader, m, channelLocked, a[0]), channelLocked, a[1..], b);
    }
  }

  lemma {:induction false} ValuesAppend(reader: Reader, m: PMap, p: Path, vs: seq<Attrs>, xs: seq<Scalar>)
    requires p in m && Slot(reader, m[p]) == Some(Array(xs)) && forall i :: 0 <= i < |vs| ==> Item(vs[i]).Some?
    ensures ApplyValues(reader, m, p, vs) == (m[p := Put(reader, m[p], Array(xs + Items(vs)))], true)
    decreases |vs|
  {
    if vs == [] {
      assert xs + Items(vs) == xs;
      assert m[p := m[p]] == m;
    } else {
      assert Item(vs[0]).Some?;
      var x := Item(vs[0]).value;
      ItemStep(reader, m, p, xs, x, Items(vs[1..]));
      ValuesAppend(reader, WithItem(reader, m, p, x), p, vs[1..], xs + [x]);
    }
  }

  lemma ItemStep(reader: Reader, m: PMap, p: Path, xs: seq<Scalar>, x: Scalar, rest: seq<Scalar>)
    requires p in m && Slot(reader, m[p]) == Some(Array(xs))
    ensures var m1 := WithItem(reader, m, p, x);
            && p in m1 && Slot(reader, m1[p]) == Some(Array(xs + [x]))
            && m1[p := Put(reader, m1[p], Array(xs + [x] + rest))] ==
               m[p := Put(reader, m[p], Array(xs + ([x] + rest)))]
  {
    assert xs + [x] + rest == xs + ([x] + rest);
    UpdateTwice(m, p, Put(reader, m[p], Array(xs + [x])), Put(reader, m[p], Array(xs + ([x] + rest))));
  }

  lemma UpdateTwice(m: PMap, p: Path, a: Rec, b: Rec)
    ensures m[p := a][p := b] == m[p := b]
    ensures Added(m, p, a)[p := b] == Added(m, p, b)
  {
    assert Above(p, p);
  }

  /** One good element, its items included, applies as its mention. */
  lemma TagIsMention(reader: Reader, m: PMap, channelLocked: bool, up: Path, d: Doc)
    requires GoodTag(reader, d) && (channelLocked ==> reader.isSystem)
    requires d.values != [] && !reader.isSystem ==> !Locked(m, Sub(up, Given(d.attrs, "name")))
    ensures var p := Sub(up, Given(d.attrs, "name"));
            var o := Declare(reader, m, channelLocked, p, d.attrs);
            && o.status != Failed && (d.values != [] ==> o.status == Listing)
            && ApplyValues(reader, o.m, p, d.values) ==
               (ApplyMention(reader, m, channelLocked, DocMention(reader, up, d)), true)
  {
    var p := Sub(up, Given(d.attrs, "name"));
    var o := Declare(reader, m, channelLocked, p, d.attrs);
    if o.status != Skipped {
      var blank, x := Wiped(reader, m, channelLocked, p), DocMention(reader, up, d);
      var r := blank.(locked := if x.lock.None? then blank.locked else channelLocked || x.lock.value);
      assert Above(p, p);
      if o.status == Listing {
        ValuesAppend(reader, o.m, p, d.values, []);
        assert [] + Items(d.values) == Items(d.values);
        UpdateTwice(Added(m, p, blank), p, o.m[p], Put(reader, r, x.value.value));
      }
      UpdateTwice(m, p, blank, if x.value.Some? then Put(reader, r, x.value.value) else r);
    }
  }

  lemma {:induction false} Undirected(reader: Reader, up: Path, ds: seq<Doc>)
    requires Good(reader, ds)
    ensures !reader.isSystem ==> forall x :: x in Mentions(reader, up, ds) ==> x.lock == None
    decreases ds
  {
    if ds != [] {
      Undirected(reader, Sub(up, Given(ds[0].attrs, "name")), ds[0].kids);
      Undirected(reader, up, ds[1..]);
    }
  }

  lemma OneLockStays(reader: Reader, m: PMap, x: Mention)
    ensures !reader.isSystem && x.lock == None ==>
            forall q :: Locked(ApplyMention(reader, m, false, x), q) == Locked(m, q)
  {
  }

  /** Reading a user file leaves every lock as it is. */
  lemma {:induction false} LocksStay(reader: Reader, m: PMap, xs: seq<Mention>)
    requires !reader.isSystem ==> forall x :: x in xs ==> x.lock == None
    ensures !reader.isSystem ==> forall q :: Locked(ApplyMentions(reader, m, false, xs), q) == Locked(m, q)
    decreases |xs|
  {
    if xs != [] && !reader.isSystem {
      assert xs[0] in xs;
      OneLockStays(reader, m, xs[0]);
      LocksStay(reader, ApplyMention(reader, m, false, xs[0]), xs[1..]);
    }
  }

  lemma {:induction false} NoLockedArraysStable(reader: Reader, m: PMap, n: PMap, up: Path, ds: seq<Doc>)
    requires NoLockedArrays(reader, m, up, ds)
    requires !reader.isSystem ==> forall q :: Locked(n, q) == Locked(m, q)
    ensures NoLockedArrays(reader, n, up, ds)
    decreases ds
  {
    if ds != [] {
      NoLockedArraysStable(reader, m, n, Sub(up, Given(ds[0].attrs, "name")), ds[0].kids);
      NoLockedArraysStable(reader, m, n, up, ds[1..]);
    }
  }

  /** An element whose children apply without error applies so itself. */
  lemma DocApplies(reader: Reader, m: PMap, channelLocked: bool, up: Path, d: Doc, m2: PMap)
    requires GoodTag(reader, d) && (channelLocked ==> reader.isSystem)
    requires d.values != [] && !reader.isSystem ==> !Locked(m, Sub(up, Given(d.attrs, "name")))
    requires var p := Sub(up, Given(d.attrs, "name"));
             var m1 := ApplyMention(reader, m, channelLocked, DocMention(reader, up, d));
             AllReadable(reader, m1, channelLocked, p, d.kids)
               && ApplyDocs(reader, m1, channelLocked, p, d.kids) == (m2, true)
    ensures Readable(reader, m, channelLocked, up, d) && ApplyDoc(reader, m, channelLocked, up, d) == (m2, true)
  {
    TagIsMention(reader, m, channelLocked, up, d);
  }

  /** A well-formed document applies without error, as the list of its mentions. */
  lemma {:induction false} DocsAreMentions(reader: Reader, m: PMap, channelLocked: bool, up: Path, ds: seq<Doc>)
    requires Good(reader, ds) && NoLockedArrays(reader, m, up, ds) && (channelLocked ==> reader.isSystem)
    ensures AllReadable(reader, m, channelLocked, up, ds)
    ensures ApplyDocs(reader, m, channelLocked, up, ds) ==
            (ApplyMentions(reader, m, channelLocked, Mentions(reader, up, ds)), true)
    decreases ds
  {
    if ds != [] {
      var d, p := ds[0], Sub(up, Given(ds[0].attrs, "name"));
      var m1 := ApplyMention(reader, m, channelLocked, DocMention(reader, up, d));
      var m2 := ApplyMentions(reader, m1, channelLocked, Mentions(reader, p, d.kids));
      MentionsSplit(reader, m, channelLocked, up, ds);
      Undirected(reader, up, ds);
      Undirected(reader, p, d.kids);
      OneLockStays(reader, m, DocMention(reader, up, d));
      LocksStay(reader, m1, Mentions(reader, p, d.kids));
      NoLockedArraysStable(reader, m, m1, p, d.kids);
      NoLockedArraysStable(reader, m, m2, up, ds[1..]);
      DocsAreMentions(reader, m1, channelLocked, p, d.kids);
      DocApplies(reader, m, channelLocked, up, d, m2);
      DocsAreMentions(reader, m2, channelLocked, up, ds[1..]);
    }
  }

  lemma MentionsSplit(reader: Reader, m: PMap, channelLocked: bool, up: Path, ds: seq<Doc>)
    requires ds != []
    ensures var d, p := ds[0], Sub(up, Given(ds[0].attrs, "name"));
            var m1 := ApplyMention(reader, m, channelLocked, DocMention(reader, up, d));
            ApplyMentions(reader, m, channelLocked, Mentions(reader, up, ds)) ==
            ApplyMentions(reader, ApplyMentions(reader, m1, channelLocked, Mentions(reader, p, d.kids)),
              channelLocked, Mentions(reader, up, ds[1..]))
  {
    var d, p := ds[0], Sub(up, Given(ds[0].attrs, "name"));
    var x, a, b := DocMention(reader, up, d), Mentions(reader, p, d.kids), Mentions(reader, up, ds[1..]);
    ApplyMentionsFirst(reader, m, channelLocked, x, a + b);
    ApplyMentionsAppend(reader, ApplyMention(reader, m, channelLocked, x), channelLocked, a, b);
  }

  lemma ApplyMentionsFirst(reader: Reader, m: PMap, channelLocked: bool, x: Mention, xs: seq<Mention>)
    ensures ApplyMentions(reader, m, channelLocked, [x] + xs) ==
            ApplyMentions(reader, ApplyMention(reader, m, channelLocked, x), channelLocked, xs)
  {
    assert ([x] + xs)[1..] == xs;
  }
}
