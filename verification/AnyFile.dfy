/** What the files of a channel, well-formed or not, can do to its tree. */
module AnyFile {
  import opened Values
  import opened Paths
  import opened PropertyMap
  import opened Numerals
  import opened SettingsFile
  import opened LoadRule
  import opened Writer

  lemma AddedClosed(m: PMap, p: Path, r: Rec)
    requires Closed(m) && p != Root && Proper(p)
    ensures Closed(Added(m, p, r))
  {
    forall q | Above(q, p) ensures Proper(q) && (q.Sub? ==> Above(q.up, p)) { AboveProper(q, p); }
    RootAbove(p);
  }

  lemma FromStringInRange(kind: Kind, s: string)
    ensures FromString(kind, s).Some? ==> InRange(FromString(kind, s).value)
  {
  }

  ghost predicate NoUsers(m: PMap) {
    forall p :: UserOf(m, p) == None
  }

  /** No user value stands at a lock. */
  ghost predicate LocksHide(m: PMap) {
    forall p :: Locked(m, p) ==> UserOf(m, p) == None
  }

  /** A buffer that spells a path. */
  ghost predicate IsName(path: string) {
    Proper(PathOf(path)) && path == Join(PathOf(path))
  }

  /** The tree is closed and the buffer spells a path. */
  ghost predicate Spelled(s: Parser) {
    Closed(s.m) && IsName(s.curPath) && (s.list.Some? ==> s.list.value != Root)
  }

  lemma DeclareKeeps(reader: Reader, m: PMap, channelLocked: bool, p: Path, attrs: Attrs)
    requires Closed(m) && p != Root && Proper(p)
    ensures Closed(Declare(reader, m, channelLocked, p, attrs).m)
  {
    AddedClosed(m, p, Wiped(reader, m, channelLocked, p));
    assert Above(p, p);
  }

  lemma ItemKeeps(reader: Reader, m: PMap, p: Path, x: Scalar)
    requires Closed(m) && p != Root
    ensures Closed(WithItem(reader, m, p, x))
  {
  }

  lemma EventKeepsSpelled(reader: Reader, s: Parser, e: Event)
    requires Spelled(s) && PlainName(e)
    ensures Spelled(OnEvent(reader, s, e))
  {
    match e {
      case End => EndKeepsSpelled(s);
      case Start(element, attrs) =>
        if s.elem == ElemNone && element == "channel" {
          ChannelKeepsSpelled(reader, s, attrs);
        } else if (s.elem == ElemChannel || s.elem == ElemProperty) && element == "property" {
          PropertyKeepsSpelled(reader, s, attrs);
        } else if s.elem == ElemProperty && s.list.Some? && element == "value" {
          ValueKeepsSpelled(reader, s, attrs);
        }
    }
  }

  lemma EndKeepsSpelled(s: Parser)
    requires Spelled(s)
    ensures Spelled(OnEnd(s))
  {
    CutIsName(s.curPath);
    EndPath(s);
  }

  lemma CutIsName(path: string)
    requires IsName(path)
    ensures IsName(CutAtLastSlash(path)) && IsName("")
  {
    CutIsProper(path);
    assert PathOf("") == Root;
  }

  lemma EndPath(s: Parser)
    ensures OnEnd(s).m == s.m && OnEnd(s).curPath in {"", s.curPath, CutAtLastSlash(s.curPath)}
    ensures OnEnd(s).list == None || OnEnd(s).list == s.list
  {
  }

  lemma ChannelKeepsSpelled(reader: Reader, s: Parser, attrs: Attrs)
    requires Spelled(s)
    ensures Spelled(OnChannel(reader, s, attrs))
  {
    assert Closed(map[Root := BLANK]);
  }

  lemma ValueKeepsSpelled(reader: Reader, s: Parser, attrs: Attrs)
    requires Spelled(s) && s.list.Some?
    ensures Spelled(OnValue(reader, s, attrs))
  {
    if Item(attrs).Some? { ItemKeeps(reader, s.m, s.list.value, Item(attrs).value); }
  }

  lemma PropertyKeepsSpelled(reader: Reader, s: Parser, attrs: Attrs)
    requires Spelled(s) && (Given(attrs, "name") == "" || Nameable(Given(attrs, "name")))
    ensures Spelled(OnProperty(reader, s, attrs))
  {
    var name := Given(attrs, "name");
    if name != "" {
      var p := PathOf(s.curPath + "/" + name);
      ExtendPath(s.curPath, name);
      DeclareKeeps(reader, s.m, s.channelLocked, p, attrs);
      EnteredIsSpelled(s, p, name, Declare(reader, s.m, s.channelLocked, p, attrs));
    }
  }

  lemma EnteredIsSpelled(s: Parser, p: Path, name: string, o: Outcome)
    requires Spelled(s) && Closed(o.m) && p != Root && IsName(s.curPath + "/" + name)
    ensures Spelled(Entered(s, p, name, o))
  {
    var t := Entered(s, p, name, o);
    assert t.m == o.m && (t.curPath == s.curPath || t.curPath == s.curPath + "/" + name);
  }

  lemma EventKeepsNoUsers(reader: Reader, s: Parser, e: Event)
    requires reader.isSystem && NoUsers(s.m)
    ensures NoUsers(OnEvent(reader, s, e).m)
  {
    if e.Start? && (s.elem == ElemChannel || s.elem == ElemProperty) && e.element == "property" {
      DeclareKeepsNoUsers(reader, s.m, s.channelLocked, PathOf(s.curPath + "/" + Given(e.attrs, "name")), e.attrs);
    } else if e.Start? && s.elem == ElemProperty && s.list.Some? && e.element == "value" && Item(e.attrs).Some? {
      ItemKeepsNoUsers(reader, s.m, s.list.value, Item(e.attrs).value);
    }
  }

  lemma ItemKeepsNoUsers(reader: Reader, m: PMap, p: Path, x: Scalar)
    requires reader.isSystem && NoUsers(m)
    ensures NoUsers(WithItem(reader, m, p, x))
  {
    forall q ensures UserOf(WithItem(reader, m, p, x), q) == None { assert UserOf(m, q) == None; }
  }

  lemma DeclareKeepsNoUsers(reader: Reader, m: PMap, channelLocked: bool, p: Path, attrs: Attrs)
    requires reader.isSystem && NoUsers(m)
    ensures NoUsers(Declare(reader, m, channelLocked, p, attrs).m)
  {
    var o := Declare(reader, m, channelLocked, p, attrs);
    var blank := Wiped(reader, m, channelLocked, p);
    var m1 := Added(m, p, blank);
    forall q ensures UserOf(o.m, q) == None && UserOf(m1, q) == None { assert UserOf(m, q) == None; }
  }

  /** A user's file is being read over the defaults and locks of `boot`. */
  ghost predicate UserReads(s: Parser, boot: PMap) {
    && !s.channelLocked && SameDefaults(s.m, boot) && LocksHide(s.m) && Storable(s.m)
    && (s.list.Some? ==> !Locked(boot, s.list.value))
  }

  lemma EventKeepsReads(reader: Reader, s: Parser, e: Event, boot: PMap)
    requires !reader.isSystem && UserReads(s, boot)
    ensures UserReads(OnEvent(reader, s, e), boot)
  {
    if e.Start? && (s.elem == ElemChannel || s.elem == ElemProperty) && e.element == "property" {
      DeclareKeepsReads(reader, s.m, PathOf(s.curPath + "/" + Given(e.attrs, "name")), e.attrs, boot);
      DeclareKeepsStorable(reader, s.m, PathOf(s.curPath + "/" + Given(e.attrs, "name")), e.attrs);
    } else if e.Start? && s.elem == ElemProperty && s.list.Some? && e.element == "value" && Item(e.attrs).Some? {
      ItemKeepsReads(reader, s.m, s.list.value, e.attrs, boot);
    }
  }

  lemma DeclareKeepsReads(reader: Reader, m: PMap, p: Path, attrs: Attrs, boot: PMap)
    requires !reader.isSystem && SameDefaults(m, boot) && LocksHide(m)
    ensures var o := Declare(reader, m, false, p, attrs);
            SameDefaults(o.m, boot) && LocksHide(o.m) && (o.status == Listing ==> !Locked(boot, p))
  {
    assert Locked(m, p) == Locked(boot, p);
  }

  /** A user value is given by the element itself, or was there before. */
  lemma DeclareGives(reader: Reader, m: PMap, p: Path, attrs: Attrs, q: Path)
    requires !reader.isSystem
    ensures UserOf(Declare(reader, m, false, p, attrs).m, q) in
            {None, UserOf(m, q), Parsed(Given(attrs, "type"), Given(attrs, "value")).1}
  {
  }

  lemma DeclareKeepsStorable(reader: Reader, m: PMap, p: Path, attrs: Attrs)
    requires !reader.isSystem && Storable(m)
    ensures Storable(Declare(reader, m, false, p, attrs).m)
  {
    var o, t := Declare(reader, m, false, p, attrs), TypeNamed(Given(attrs, "type"));
    var content := Parsed(Given(attrs, "type"), Given(attrs, "value")).1;
    assert content.Some? ==> StorableValue(content.value) by {
      if t.ScalarType? { FromStringInRange(t.kind, Given(attrs, "value")); }
    }
    forall q | UserOf(o.m, q).Some? ensures StorableValue(UserOf(o.m, q).value) {
      DeclareGives(reader, m, p, attrs, q);
    }
  }

  lemma ItemKeepsReads(reader: Reader, m: PMap, p: Path, attrs: Attrs, boot: PMap)
    requires !reader.isSystem && SameDefaults(m, boot) && LocksHide(m) && Storable(m) && !Locked(boot, p)
    requires Item(attrs).Some?
    ensures var m' := WithItem(reader, m, p, Item(attrs).value);
            SameDefaults(m', boot) && LocksHide(m') && Storable(m')
  {
    var m' := WithItem(reader, m, p, Item(attrs).value);
    FromStringInRange(TypeNamed(Given(attrs, "type")).kind, Given(attrs, "value"));
    assert Locked(m, p) == Locked(boot, p);
    forall q | UserOf(m', q).Some? ensures StorableValue(UserOf(m', q).value) {
      assert UserOf(m, q).Some? && StorableValue(UserOf(m, q).value);
    }
  }

  lemma {:induction false} FeedKeeps(reader: Reader, s: Parser, events: seq<Event>, boot: PMap)
    requires Spelled(s) && PlainNames(events)
    ensures Closed(Feed(reader, s, events).m)
    ensures reader.isSystem && NoUsers(s.m) ==> NoUsers(Feed(reader, s, events).m)
    ensures !reader.isSystem && UserReads(s, boot) ==> UserReads(Feed(reader, s, events), boot)
    decreases |events|
  {
    if !s.failed && events != [] {
      var e := events[0];
      assert e in events && forall x :: x in events[1..] ==> x in events;
      EventKeepsSpelled(reader, s, e);
      if reader.isSystem && NoUsers(s.m) { EventKeepsNoUsers(reader, s, e); }
      if !reader.isSystem && UserReads(s, boot) { EventKeepsReads(reader, s, e, boot); }
      FeedKeeps(reader, OnEvent(reader, s, e), events[1..], boot);
    }
  }

  /** System files, well-formed or not, load into a closed tree without user values. */
  lemma {:induction false} SystemLoads(inList: string -> bool, files: seq<seq<Event>>)
    requires forall f :: f in files ==> PlainNames(f)
    ensures Closed(LoadSystem(inList, files).m) && NoUsers(LoadSystem(inList, files).m)
    decreases |files|
  {
    if files != [] {
      var init, last := files[..|files| - 1], files[|files| - 1];
      assert last in files && forall f :: f in init ==> f in files;
      SystemLoads(inList, init);
      var c := LoadSystem(inList, init);
      FeedKeeps(Reader(true, inList), Parser(c.m, c.channelLocked, ElemNone, "", None, false), last, c.m);
    }
  }

  lemma {:induction false} InFound(found: seq<seq<Event>>)
    ensures forall f :: f in InLoadOrder(found) ==> f in found
    decreases |found|
  {
    if found != [] { InFound(found[1..]); }
  }

  /**
   Whatever the files hold: the system files give a closed tree without user values, and the user's file, read over it,
   changes no default and no lock, puts no user value at a lock, and leaves values that fit their types.
   */
  lemma AnyFileLoads(inList: string -> bool, files: seq<seq<Event>>, user: Option<seq<Event>>)
    requires (forall f :: f in files ==> PlainNames(f)) && (user.Some? ==> PlainNames(user.value))
    ensures var boot, l := LoadSystem(inList, files), Load(inList, files, user);
            && Closed(boot.m) && NoUsers(boot.m) && l.channelLocked == boot.channelLocked
            && Closed(l.m) && SameDefaults(l.m, boot.m) && LocksHide(l.m) && Storable(l.m)
  {
    SystemLoads(inList, files);
    var c := LoadSystem(inList, files);
    if !c.channelLocked && user.Some? {
      FeedKeeps(Reader(false, inList), Parser(c.m, false, ElemNone, "", None, false), user.value, c.m);
    }
  }
}
