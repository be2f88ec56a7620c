/** What the files of a channel amount to, stated without the order of merging. */
module LoadRule {
  import opened Values
  import opened Paths
  import opened PropertyMap
  import opened SettingsFile
  import opened LoadOrder

  /* ---- Later mentions win ---- */

  predicate Mentioned(xs: seq<Mention>, p: Path) {
    exists i :: 0 <= i < |xs| && xs[i].p == p
  }

  /** The value of the last mention of `p`, none if there is no mention or the last one is "empty". */
  function LastValue(xs: seq<Mention>, p: Path): Option<Value> {
    if xs == [] then None
    else if xs[|xs| - 1].p == p then xs[|xs| - 1].value
    else LastValue(xs[..|xs| - 1], p)
  }

  /** The last lock directive for `p`. */
  function LastLock(xs: seq<Mention>, p: Path): Option<bool> {
    if xs == [] then None
    else if xs[|xs| - 1].p == p && xs[|xs| - 1].lock.Some? then xs[|xs| - 1].lock
    else LastLock(xs[..|xs| - 1], p)
  }

  lemma ApplyLast(reader: Reader, m: PMap, channelLocked: bool, xs: seq<Mention>)
    requires xs != []
    ensures ApplyMentions(reader, m, channelLocked, xs) ==
            ApplyMention(reader, ApplyMentions(reader, m, channelLocked, xs[..|xs| - 1]), channelLocked, xs[|xs| - 1])
  {
    var a, x := xs[..|xs| - 1], xs[|xs| - 1];
    assert xs == a + [x];
    ApplyMentionsAppend(reader, m, channelLocked, a, [x]);
    ApplyMentionsFirst(reader, ApplyMentions(reader, m, channelLocked, a), channelLocked, x, []);
    assert [x] + [] == [x];
  }

  lemma MentionedLast(xs: seq<Mention>, p: Path)
    requires xs != []
    ensures Mentioned(xs, p) <==> xs[|xs| - 1].p == p || Mentioned(xs[..|xs| - 1], p)
  {
    if Mentioned(xs[..|xs| - 1], p) {
      var i :| 0 <= i < |xs| - 1 && xs[..|xs| - 1][i].p == p;
      assert xs[i].p == p;
    }
    if Mentioned(xs, p) && xs[|xs| - 1].p != p {
      var i :| 0 <= i < |xs| && xs[i].p == p;
      assert xs[..|xs| - 1][i].p == p;
    }
  }

  /** System mentions: the last one gives the default, and user values fall away where anything is mentioned. */
  lemma {:induction false} SystemMentions(reader: Reader, m: PMap, channelLocked: bool, xs: seq<Mention>, q: Path)
    requires reader.isSystem
    ensures var m' := ApplyMentions(reader, m, channelLocked, xs);
            && SystemOf(m', q) == (if Mentioned(xs, q) then LastValue(xs, q) else SystemOf(m, q))
            && UserOf(m', q) == (if Mentioned(xs, q) then None else UserOf(m, q))
            && (!channelLocked ==> Locked(m', q) == LastLock(xs, q).GetOr(Locked(m, q)))
    decreases |xs|
  {
    if xs != [] {
      SystemMentions(reader, m, channelLocked, xs[..|xs| - 1], q);
      ApplyLast(reader, m, channelLocked, xs);
      MentionedLast(xs, q);
    }
  }

  /** User mentions: the last one gives the user value, except at locked properties. */
  lemma {:induction false} UserMentions(reader: Reader, m: PMap, xs: seq<Mention>, q: Path)
    requires !reader.isSystem && forall x :: x in xs ==> x.lock == None
    ensures var m' := ApplyMentions(reader, m, false, xs);
            && SystemOf(m', q) == SystemOf(m, q) && Locked(m', q) == Locked(m, q)
            && UserOf(m', q) == (if Mentioned(xs, q) && !Locked(m, q) then LastValue(xs, q) else UserOf(m, q))
    decreases |xs|
  {
    if xs != [] {
      assert xs[|xs| - 1] in xs && forall x :: x in xs[..|xs| - 1] ==> x in xs;
      UserMentions(reader, m, xs[..|xs| - 1], q);
      UserMentions(reader, m, xs[..|xs| - 1], xs[|xs| - 1].p);
      ApplyLast(reader, m, false, xs);
      MentionedLast(xs, q);
    }
  }

  /** In a locked channel every property is locked. */
  ghost predicate AllLocked(m: PMap) {
    Root in m && forall p :: p in m && p != Root ==> m[p].locked
  }

  /** Documents read into a locked channel add exactly the properties they mention, all locked. */
  lemma {:induction false} LockedChannelKeeps(reader: Reader, m: PMap, up: Path, ds: seq<Doc>, q: Path)
    requires AllLocked(m) && up in m && forall p :: p in m && p.Sub? ==> p.up in m
    ensures var m' := ApplyMentions(reader, m, true, Mentions(reader, up, ds));
            && AllLocked(m') && (forall p :: p in m' && p.Sub? ==> p.up in m')
            && (forall p :: p in m ==> p in m')
            && (q in m' <==> q in m || Mentioned(Mentions(reader, up, ds), q))
    decreases ds
  {
    if ds != [] {
      var d, p := ds[0], Sub(up, Given(ds[0].attrs, "name"));
      var x := DocMention(reader, up, d);
      var m1 := ApplyMention(reader, m, true, x);
      AddedUnderNode(m, p, m1[p]);
      LockedChannelKeeps(reader, m1, p, d.kids, q);
      LockedChannelKeeps(reader, ApplyMentions(reader, m1, true, Mentions(reader, p, d.kids)), up, ds[1..], q);
      MentionsSplit(reader, m, true, up, ds);
      MentionedAppend([x], Mentions(reader, p, d.kids) + Mentions(reader, up, ds[1..]), q);
      MentionedAppend(Mentions(reader, p, d.kids), Mentions(reader, up, ds[1..]), q);
      assert [x][0].p == p;
    }
  }

  lemma {:induction false} AllAbove(m: PMap, q: Path, p: Path)
    requires (forall p :: p in m && p.Sub? ==> p.up in m) && p in m && Above(q, p)
    ensures q in m
  {
    if q != p { AllAbove(m, q, p.up); }
  }

  lemma AddedUnderNode(m: PMap, p: Path, r: Rec)
    requires p.Sub? && p.up in m && forall p :: p in m && p.Sub? ==> p.up in m
    ensures Added(m, p, r) == m[p := r]
  {
    forall q | Above(q, p) && q != p ensures q in m { AllAbove(m, q, p.up); }
    assert Above(p, p);
  }

  lemma MentionedAppend(a: seq<Mention>, b: seq<Mention>, q: Path)
    ensures Mentioned(a + b, q) <==> Mentioned(a, q) || Mentioned(b, q)
  {
    if Mentioned(a, q) {
      var i :| 0 <= i < |a| && a[i].p == q;
      assert (a + b)[i].p == q;
    }
    if Mentioned(b, q) {
      var i :| 0 <= i < |b| && b[i].p == q;
      assert (a + b)[|a| + i].p == q;
    }
  }

  /* ---- Files ---- */

  datatype File = File(attrs: Attrs, docs: seq<Doc>)

  function FileEvents(f: File): seq<Event> {
    [Start("channel", f.attrs)] + (DocsEvents(f.docs) + [End])
  }

  predicate GoodFile(reader: Reader, f: File) {
    && Only(f.attrs, CHANNEL_ATTRS) && Given(f.attrs, "name") != "" && VersionAccepted(Given(f.attrs, "version"))
    && (Directed(f.attrs) ==> reader.isSystem) && Good(reader, f.docs)
  }

  datatype Loaded = Loaded(m: PMap, channelLocked: bool)

  const NOTHING_LOADED := Loaded(map[Root := BLANK], false)

  /** merge_file: what was merged before an error stays. */
  function MergeFile(reader: Reader, c: Loaded, events: seq<Event>): Loaded {
    var t := Feed(reader, Parser(c.m, c.channelLocked, ElemNone, "", None, false), events);
    Loaded(t.m, t.channelLocked)
  }

  /** The system files in load order: the most important one comes last. */
  function LoadSystem(inList: string -> bool, files: seq<seq<Event>>): Loaded {
    if files == [] then NOTHING_LOADED
    else MergeFile(Reader(true, inList), LoadSystem(inList, files[..|files| - 1]), files[|files| - 1])
  }

  /** Files are found with the most important one first, and read from the last to the first. */
  function InLoadOrder(found: seq<seq<Event>>): seq<seq<Event>> {
    if found == [] then [] else InLoadOrder(found[1..]) + [found[0]]
  }

  /** The user's file is read last, and only into a channel that is not locked. */
  function Load(inList: string -> bool, files: seq<seq<Event>>, user: Option<seq<Event>>): Loaded {
    var c := LoadSystem(inList, files);
    if !c.channelLocked && user.Some? then MergeFile(Reader(false, inList), c, user.value) else c
  }

  /** What merging one well-formed file does to the channel. */
  lemma MergeMeaning(reader: Reader, c: Loaded, f: File)
    requires GoodFile(reader, f) && (c.channelLocked ==> reader.isSystem)
    requires NoLockedArrays(reader, c.m, Root, f.docs)
    ensures var d, xs := Directive(reader, f.attrs), Mentions(reader, Root, f.docs);
            MergeFile(reader, c, FileEvents(f)) ==
            if d == Some(false) && c.channelLocked then c
            else if d == Some(true) && !c.channelLocked
            then Loaded(ApplyMentions(reader, map[Root := BLANK], true, xs), true)
            else Loaded(ApplyMentions(reader, c.m, c.channelLocked, xs), c.channelLocked)
  {
    var s := Parser(c.m, c.channelLocked, ElemNone, "", None, false);
    var t := OnStart(reader, s, "channel", f.attrs);
    assert FileEvents(f)[1..] == DocsEvents(f.docs) + [End];
    assert Feed(reader, s, FileEvents(f)) == Feed(reader, t, DocsEvents(f.docs) + [End]);
    if !t.failed {
      if reader.isSystem { SystemReadsAll(reader, t.m, Root, f.docs); }
      MergeBody(reader, t, f.docs);
    }
  }

  /** After the channel's start tag, the documents apply as their mentions. */
  lemma MergeBody(reader: Reader, t: Parser, ds: seq<Doc>)
    requires At(t, Root) && Good(reader, ds) && NoLockedArrays(reader, t.m, Root, ds)
             && (t.channelLocked ==> reader.isSystem)
    ensures var u := Feed(reader, t, DocsEvents(ds) + [End]);
            u.m == ApplyMentions(reader, t.m, t.channelLocked, Mentions(reader, Root, ds))
              && u.channelLocked == t.channelLocked
  {
    DocsAreMentions(reader, t.m, t.channelLocked, Root, ds);
    ParserReadsDocs(reader, t, Root, ds);
    FeedAppend(reader, t, DocsEvents(ds), [End]);
    var u := Feed(reader, t, DocsEvents(ds));
    assert Feed(reader, OnEnd(u), [End][1..]) == OnEnd(u);
  }

  lemma {:induction false} SystemReadsAll(reader: Reader, m: PMap, up: Path, ds: seq<Doc>)
    requires reader.isSystem
    ensures NoLockedArrays(reader, m, up, ds)
    decreases ds
  {
    if ds != [] {
      SystemReadsAll(reader, m, Sub(up, Given(ds[0].attrs, "name")), ds[0].kids);
      SystemReadsAll(reader, m, up, ds[1..]);
    }
  }

  predicate Locks(reader: Reader, f: File) { Directive(reader, f.attrs) == Some(true) }

  predicate Unlocks(reader: Reader, f: File) { Directive(reader, f.attrs) == Some(false) }

  predicate AnyLocks(reader: Reader, fs: seq<File>) {
    exists i :: 0 <= i < |fs| && Locks(reader, fs[i])
  }

  /** The first file that locks the channel. */
  function FirstLock(reader: Reader, fs: seq<File>): (i: nat)
    requires AnyLocks(reader, fs)
    ensures i < |fs| && Locks(reader, fs[i]) && forall j :: 0 <= j < i ==> !Locks(reader, fs[j])
  {
    if AnyLocks(reader, fs[..|fs| - 1]) then FirstLock(reader, fs[..|fs| - 1]) else |fs| - 1
  }

  /** All mentions from file `i` on, `kept` leaving out the files that direct an unlock. */
  function MentionsFrom(reader: Reader, fs: seq<File>, i: nat, kept: bool): seq<Mention> {
    if |fs| <= i then []
    else
      var f := fs[|fs| - 1];
      MentionsFrom(reader, fs[..|fs| - 1], i, kept)
      + (if kept && Unlocks(reader, f) then [] else Mentions(reader, Root, f.docs))
  }

  /** The mentions that count: all, or those from the first locking file on in files that do not direct an unlock. */
  function Counting(reader: Reader, fs: seq<File>): seq<Mention> {
    if AnyLocks(reader, fs) then MentionsFrom(reader, fs, FirstLock(reader, fs), true)
      else MentionsFrom(reader, fs, 0, false)
  }

  function EventsOf(fs: seq<File>): seq<seq<Event>> {
    seq(|fs|, i requires 0 <= i < |fs| => FileEvents(fs[i]))
  }

  /** One more file: what it adds to the mentions that count. */
  lemma CountingStep(reader: Reader, fs: seq<File>)
    requires fs != []
    ensures var init, f := fs[..|fs| - 1], fs[|fs| - 1];
            var xs := Mentions(reader, Root, f.docs);
            && (AnyLocks(reader, fs) <==> AnyLocks(reader, init) || Locks(reader, f))
            && Counting(reader, fs) ==
               if AnyLocks(reader, init) && Unlocks(reader, f) then Counting(reader, init)
               else if !AnyLocks(reader, init) && Locks(reader, f) then xs
               else Counting(reader, init) + xs
  {
    var init, f := fs[..|fs| - 1], fs[|fs| - 1];
    var xs := Mentions(reader, Root, f.docs);
    AnyLocksLast(reader, fs);
    if AnyLocks(reader, init) {
      var i := FirstLock(reader, init);
      assert MentionsFrom(reader, fs, i, true) ==
             MentionsFrom(reader, init, i, true) + if Unlocks(reader, f) then [] else xs;
      assert MentionsFrom(reader, init, i, true) + [] == MentionsFrom(reader, init, i, true);
    } else if Locks(reader, f) {
      assert MentionsFrom(reader, fs, |init|, true) == MentionsFrom(reader, init, |init|, true) + xs;
      assert [] + xs == xs;
    }
  }

  lemma AnyLocksLast(reader: Reader, fs: seq<File>)
    requires fs != []
    ensures AnyLocks(reader, fs) <==> AnyLocks(reader, fs[..|fs| - 1]) || Locks(reader, fs[|fs| - 1])
  {
    var init := fs[..|fs| - 1];
    if AnyLocks(reader, init) {
      var i :| 0 <= i < |init| && Locks(reader, init[i]);
      assert Locks(reader, fs[i]);
    }
    if AnyLocks(reader, fs) && !Locks(reader, fs[|fs| - 1]) {
      var i :| 0 <= i < |fs| && Locks(reader, fs[i]);
      assert Locks(reader, init[i]);
    }
  }

  /** The counting mentions `xs` applied to an empty channel, all locked once one file locks. */
  ghost predicate LoadedFrom(reader: Reader, c: Loaded, xs: seq<Mention>) {
    && c.m == ApplyMentions(reader, NOTHING_LOADED.m, c.channelLocked, xs)
    && (c.channelLocked ==>
          && AllLocked(c.m) && (forall p :: p in c.m && p.Sub? ==> p.up in c.m)
          && forall q :: q in c.m <==> q == Root || Mentioned(xs, q))
  }

  ghost predicate LoadedAs(reader: Reader, c: Loaded, fs: seq<File>) {
    c.channelLocked == AnyLocks(reader, fs) && LoadedFrom(reader, c, Counting(reader, fs))
  }

  lemma {:induction false} LoadSystemIs(inList: string -> bool, fs: seq<File>)
    requires forall i :: 0 <= i < |fs| ==> GoodFile(Reader(true, inList), fs[i])
    ensures LoadedAs(Reader(true, inList), LoadSystem(inList, EventsOf(fs)), fs)
    decreases |fs|
  {
    if fs != [] {
      var reader, init, f := Reader(true, inList), fs[..|fs| - 1], fs[|fs| - 1];
      LoadSystemIs(inList, init);
      assert EventsOf(fs)[..|fs| - 1] == EventsOf(init);
      var c := LoadSystem(inList, EventsOf(init));
      SystemReadsAll(reader, c.m, Root, f.docs);
      MergeMeaning(reader, c, f);
      CountingStep(reader, fs);
      MergeKeeps(reader, c, init, f, fs);
    }
  }

  lemma MergeKeeps(reader: Reader, c: Loaded, init: seq<File>, f: File, fs: seq<File>)
    requires reader.isSystem && fs != [] && init == fs[..|fs| - 1] && f == fs[|fs| - 1] && LoadedAs(reader, c, init)
    ensures var xs := Mentions(reader, Root, f.docs);
            LoadedAs(reader,
              if AnyLocks(reader, init) && Unlocks(reader, f) then c
              else if Locks(reader, f) && !c.channelLocked then
                Loaded(ApplyMentions(reader, NOTHING_LOADED.m, true, xs), true)
              else Loaded(ApplyMentions(reader, c.m, c.channelLocked, xs), c.channelLocked), fs)
  {
    CountingStep(reader, fs);
    if AnyLocks(reader, init) && Unlocks(reader, f) {
    } else if Locks(reader, f) && !c.channelLocked {
      LoadedAppend(reader, Loaded(NOTHING_LOADED.m, true), [], f.docs);
      assert [] + Mentions(reader, Root, f.docs) == Mentions(reader, Root, f.docs);
    } else {
      LoadedAppend(reader, c, Counting(reader, init), f.docs);
    }
  }

  /** Reading one more file's documents appends its mentions to those that count. */
  lemma LoadedAppend(reader: Reader, c: Loaded, ys: seq<Mention>, ds: seq<Doc>)
    requires LoadedFrom(reader, c, ys)
    ensures LoadedFrom(reader,
            Loaded(ApplyMentions(reader, c.m, c.channelLocked, Mentions(reader, Root, ds)), c.channelLocked),
                       ys + Mentions(reader, Root, ds))
  {
    var xs := Mentions(reader, Root, ds);
    ApplyMentionsAppend(reader, NOTHING_LOADED.m, c.channelLocked, ys, xs);
    if c.channelLocked {
      forall q ensures q in ApplyMentions(reader, c.m, true, xs) <==> q == Root || Mentioned(ys + xs, q) {
        MentionedAppend(ys, xs, q);
        LockedChannelKeeps(reader, c.m, Root, ds, q);
      }
      LockedChannelKeeps(reader, c.m, Root, ds, Root);
    }
  }

  /**
   The rule for system files.  The channel is locked if one of them locks it.  A property's default is its last
   counting mention; in a locked channel exactly the mentioned properties are locked, else the last directive decides.
   */
  lemma SystemRule(inList: string -> bool, fs: seq<File>, q: Path)
    requires q != Root && forall i :: 0 <= i < |fs| ==> GoodFile(Reader(true, inList), fs[i])
    ensures var reader, c := Reader(true, inList), LoadSystem(inList, EventsOf(fs));
            && (c.channelLocked <==> AnyLocks(reader, fs))
            && SystemOf(c.m, q) == LastValue(Counting(reader, fs), q) && UserOf(c.m, q) == None
            && (Locked(c.m, q) <==> if c.channelLocked then Mentioned(Counting(reader, fs), q)
                                    else LastLock(Counting(reader, fs), q) == Some(true))
  {
    var reader, c := Reader(true, inList), LoadSystem(inList, EventsOf(fs));
    LoadSystemIs(inList, fs);
    SystemMentions(reader, NOTHING_LOADED.m, c.channelLocked, Counting(reader, fs), q);
    NoMentionNoValue(Counting(reader, fs), q);
  }

  lemma {:induction false} NoMentionNoValue(xs: seq<Mention>, q: Path)
    ensures !Mentioned(xs, q) ==> LastValue(xs, q) == None && LastLock(xs, q) == None
    decreases |xs|
  {
    if xs != [] {
      MentionedLast(xs, q);
      NoMentionNoValue(xs[..|xs| - 1], q);
    }
  }

  /**
   The rule for the user's file on top: a locked channel ignores it; else it supplies the last value it mentions at
   every property that is not locked, and it changes no default and no lock.
   */
  lemma UserRule(inList: string -> bool, fs: seq<File>, user: File, q: Path)
    requires q != Root && forall i :: 0 <= i < |fs| ==> GoodFile(Reader(true, inList), fs[i])
    requires GoodFile(Reader(false, inList), user)
    requires NoLockedArrays(Reader(false, inList), LoadSystem(inList, EventsOf(fs)).m, Root, user.docs)
    ensures var c, l := LoadSystem(inList, EventsOf(fs)), Load(inList, EventsOf(fs), Some(FileEvents(user)));
            && l.channelLocked == c.channelLocked
            && SystemOf(l.m, q) == SystemOf(c.m, q) && Locked(l.m, q) == Locked(c.m, q)
            && UserOf(l.m, q) == if c.channelLocked || Locked(c.m, q) then None
                                 else LastValue(Mentions(Reader(false, inList), Root, user.docs), q)
  {
    var reader, c := Reader(false, inList), LoadSystem(inList, EventsOf(fs));
    SystemRule(inList, fs, q);
    if !c.channelLocked {
      MergeMeaning(reader, c, user);
      Undirected(reader, Root, user.docs);
      UserMentions(reader, c.m, Mentions(reader, Root, user.docs), q);
      NoMentionNoValue(Mentions(reader, Root, user.docs), q);
    }
  }
}
