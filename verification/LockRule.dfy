/** Whom the lock directives of a channel's system files lock out. */
module LockRule {
  import opened Values
  import opened Paths
  import opened PropertyMap
  import opened SettingsFile
  import opened LoadOrder
  import opened LoadRule

  /** The attributes of the last element for `q` that says anything about its lock, in document order. */
  function LastDirected(up: Path, ds: seq<Doc>, q: Path): Option<Attrs>
    decreases ds
  {
    if ds == [] then None
    else
      var a, p := ds[0].attrs, Sub(up, Given(ds[0].attrs, "name"));
      var later := LastDirected(up, ds[1..], q);
      var inner := LastDirected(p, ds[0].kids, q);
      if later.Some? then later
      else if inner.Some? then inner
      else if p == q && (Given(a, "locked") != "" || Given(a, "unlocked") != "") then Some(a)
      else None
  }

  /** The same over a list of files, the most important one last. */
  function LastDirectedIn(fs: seq<File>, q: Path): Option<Attrs> {
    if fs == [] then None
    else
      var last := LastDirected(Root, fs[|fs| - 1].docs, q);
      if last.Some? then last else LastDirectedIn(fs[..|fs| - 1], q)
  }

  lemma {:induction false} LastLockAppend(a: seq<Mention>, b: seq<Mention>, q: Path)
    ensures LastLock(a + b, q) == if LastLock(b, q).Some? then LastLock(b, q) else LastLock(a, q)
    decreases |b|
  {
    if b == [] {
      assert a + b == a;
    } else {
      assert (a + b)[..|a + b| - 1] == a + b[..|b| - 1];
      LastLockAppend(a, b[..|b| - 1], q);
    }
  }

  /** What a document's mentions say last about a lock is what its last directed element says of the user. */
  lemma {:induction false} DocsLastLock(reader: Reader, up: Path, ds: seq<Doc>, q: Path)
    ensures LastLock(Mentions(reader, up, ds), q) ==
            match LastDirected(up, ds, q)
            case None => None
            case Some(a) => Some(if Given(a, "unlocked") != "" then !reader.inList(Given(a, "unlocked"))
                                 else reader.inList(Given(a, "locked")))
    decreases ds
  {
    if ds != [] {
      var p := Sub(up, Given(ds[0].attrs, "name"));
      var x, k, r := DocMention(reader, up, ds[0]), Mentions(reader, p, ds[0].kids), Mentions(reader, up, ds[1..]);
      DocsLastLock(reader, p, ds[0].kids, q);
      DocsLastLock(reader, up, ds[1..], q);
      LastLockAppend([x], k + r, q);
      LastLockAppend(k, r, q);
      assert LastLock([x], q) == if x.p == q then x.lock else None by { assert [x][..0] == []; }
    }
  }

  lemma {:induction false} FilesLastLock(reader: Reader, fs: seq<File>, q: Path)
    ensures LastLock(MentionsFrom(reader, fs, 0, false), q) ==
            match LastDirectedIn(fs, q)
            case None => None
            case Some(a) => Some(if Given(a, "unlocked") != "" then !reader.inList(Given(a, "unlocked"))
                                 else reader.inList(Given(a, "locked")))
    decreases |fs|
  {
    if fs != [] {
      var f := fs[|fs| - 1];
      FilesLastLock(reader, fs[..|fs| - 1], q);
      DocsLastLock(reader, Root, f.docs, q);
      LastLockAppend(MentionsFrom(reader, fs[..|fs| - 1], 0, false), Mentions(reader, Root, f.docs), q);
    }
  }

  /**
   Who is locked out.  A channel is locked for the user if and only if some system file either gives "unlocked" and does
   not list the user in it, or gives only "locked" and lists the user in it.  In a channel that is not locked, a
   property is locked for the user by the same test on its last element that gives either attribute.
   */
  lemma WhoIsLockedOut(inList: string -> bool, fs: seq<File>, q: Path)
    requires q != Root && forall i :: 0 <= i < |fs| ==> GoodFile(Reader(true, inList), fs[i])
    ensures LoadSystem(inList, EventsOf(fs)).channelLocked <==>
            exists i :: 0 <= i < |fs| &&
              if Given(fs[i].attrs, "unlocked") != "" then !inList(Given(fs[i].attrs, "unlocked"))
              else Given(fs[i].attrs, "locked") != "" && inList(Given(fs[i].attrs, "locked"))
    ensures !LoadSystem(inList, EventsOf(fs)).channelLocked ==>
              (Locked(LoadSystem(inList, EventsOf(fs)).m, q) <==>
                match LastDirectedIn(fs, q)
                case None => false
                case Some(a) => if Given(a, "unlocked") != "" then !inList(Given(a, "unlocked"))
                                else inList(Given(a, "locked")))
  {
    var reader := Reader(true, inList);
    SystemRule(inList, fs, q);
    forall i | 0 <= i < |fs|
      ensures Locks(reader, fs[i]) <==>
              if Given(fs[i].attrs, "unlocked") != "" then !inList(Given(fs[i].attrs, "unlocked"))
              else Given(fs[i].attrs, "locked") != "" && inList(Given(fs[i].attrs, "locked")) {
    }
    if !AnyLocks(reader, fs) { FilesLastLock(reader, fs, q); }
  }

  /* ---- Which file comes last ---- */

  /** The file found first, the most important one, is read last. */
  lemma {:induction false} FoundFirstReadLast(found: seq<seq<Event>>, i: nat)
    requires i < |found|
    ensures |InLoadOrder(found)| == |found| && InLoadOrder(found)[i] == found[|found| - 1 - i]
    decreases |found|
  {
    if |found| > 1 {
      FoundFirstReadLast(found[1..], if i < |found| - 1 then i else 0);
    } else {
      assert InLoadOrder(found[1..]) == [];
    }
  }

  lemma FoundInReverse(fs: seq<File>, found: seq<seq<Event>>)
    requires |found| == |fs| > 0 && forall i :: 0 <= i < |fs| ==> found[i] == FileEvents(fs[|fs| - 1 - i])
    ensures InLoadOrder(found) == EventsOf(fs)
  {
    FoundFirstReadLast(found, 0);
    forall i | 0 <= i < |fs| ensures InLoadOrder(found)[i] == EventsOf(fs)[i] { FoundFirstReadLast(found, i); }
  }

  /**
   What the most important file says of a property is its default, whatever the other files say, as long as no file
   directs a channel lock.
   */
  lemma MostImportantWins(inList: string -> bool, fs: seq<File>, found: seq<seq<Event>>, q: Path)
    requires fs != [] && q != Root && forall i :: 0 <= i < |fs| ==> GoodFile(Reader(true, inList), fs[i])
    requires |found| == |fs| && forall i :: 0 <= i < |fs| ==> found[i] == FileEvents(fs[|fs| - 1 - i])
    requires forall i :: 0 <= i < |fs| ==> !Directed(fs[i].attrs)
    requires Mentioned(Mentions(Reader(true, inList), Root, fs[|fs| - 1].docs), q)
    ensures found[0] == FileEvents(fs[|fs| - 1])
    ensures SystemOf(LoadSystem(inList, InLoadOrder(found)).m, q) ==
            LastValue(Mentions(Reader(true, inList), Root, fs[|fs| - 1].docs), q)
  {
    var reader := Reader(true, inList);
    FoundInReverse(fs, found);
    SystemRule(inList, fs, q);
    LastValueAppend(MentionsFrom(reader, fs[..|fs| - 1], 0, false), Mentions(reader, Root, fs[|fs| - 1].docs), q);
  }

  lemma {:induction false} LastValueAppend(a: seq<Mention>, b: seq<Mention>, q: Path)
    requires Mentioned(b, q)
    ensures LastValue(a + b, q) == LastValue(b, q)
    decreases |b|
  {
    assert (a + b)[..|a + b| - 1] == a + b[..|b| - 1];
    if b[|b| - 1].p != q {
      MentionedLast(b, q);
      LastValueAppend(a, b[..|b| - 1], q);
    }
  }
}
