/** Runs of the backend: loading, setting, resetting and saving channels. */
module Durability {
  import opened Values
  import opened Paths
  import opened Names
  import opened PropertyMap
  import opened SettingsFile
  import opened LoadOrder
  import opened LoadRule
  import opened Writer
  import opened AnyFile

  /**
   The system files found for each channel, the most important first, and the user lists that name the current user.
   */
  datatype World = World(found: string -> seq<seq<Event>>, inList: string -> bool)

  datatype Chan = Chan(m: PMap, locked: bool, dirty: bool)

  datatype Store = Store(channels: map<string, Chan>, saveScheduled: bool, userFiles: map<string, seq<Event>>)

  function Boot(w: World, n: string): Loaded {
    LoadSystem(w.inList, InLoadOrder(w.found(n)))
  }

  function UserFile(s: Store, n: string): Option<seq<Event>> {
    if n in s.userFiles then Some(s.userFiles[n]) else None
  }

  function Reload(w: World, s: Store, n: string): Loaded {
    Load(w.inList, InLoadOrder(w.found(n)), UserFile(s, n))
  }

  /* ---- Operations ---- */

  /** Channels are looked up by the name given, and inserted under its lower-case form. */
  function KeyOf(s: Store, n: string): string {
    if n in s.channels then n else Down(n)
  }

  function Opened(w: World, s: Store, n: string): (t: Store)
    ensures KeyOf(s, n) in t.channels
  {
    if n in s.channels then s
    else s.(channels := s.channels[Down(n) := Chan(Reload(w, s, n).m, Reload(w, s, n).channelLocked, false)])
  }

  /** schedule_save */
  function Saving(s: Store, n: string, m: PMap): Store
    requires n in s.channels
  {
    s.(channels := s.channels[n := s.channels[n].(m := m, dirty := true)], saveScheduled := true)
  }

  /** The store with another tree for one of its channels. */
  function WithTree(s: Store, n: string, m: PMap): Store
    requires n in s.channels
  {
    s.(channels := s.channels[n := s.channels[n].(m := m)])
  }

  /** A tree is written first and its save scheduled after. */
  lemma SavingIs(s: Store, n: string, m: PMap)
    requires n in s.channels
    ensures Saving(WithTree(s, n, m), n, m) == Saving(s, n, m)
    ensures WithTree(s, n, s.channels[n].m) == s
  {
    assert s.channels[n].(m := s.channels[n].m) == s.channels[n];
    assert s.channels[n := s.channels[n]] == s.channels;
  }

  /** The tree an operation on channel `n` works on. */
  function TreeOf(w: World, s: Store, n: string): PMap {
    Opened(w, s, n).channels[KeyOf(s, n)].m
  }

  function Saved(w: World, s: Store, n: string, m: PMap): Store {
    Saving(Opened(w, s, n), KeyOf(s, n), m)
  }

  function SetIn(w: World, s: Store, n: string, p: Path, v: Value): Store {
    var m := TreeOf(w, s, n);
    if Locked(m, p) || SetIsNoop(m, p, v) then Opened(w, s, n) else Saved(w, s, n, AfterSet(m, p, v))
  }

  ghost function ResetIn(w: World, s: Store, n: string, p: Path): Store {
    var m := TreeOf(w, s, n);
    if HasUser(m, p) then Saved(w, s, n, AfterReset(m, p)) else Opened(w, s, n)
  }

  ghost function ResetTreeIn(w: World, s: Store, n: string, p: Path): Store {
    var m := TreeOf(w, s, n);
    if p in m then Saved(w, s, n, AfterRecursiveReset(m, p)) else Opened(w, s, n)
  }

  /** A request that changes nothing leaves the channel as it was loaded; any other makes a save due. */
  lemma WhatIsSaved(w: World, s: Store, n: string, p: Path, v: Value)
    ensures var m, k := TreeOf(w, s, n), KeyOf(s, n);
            && (Locked(m, p) || (v.Single? && Get(m, p) == Some(v)) ==> SetIn(w, s, n, p, v) == Opened(w, s, n))
            && (!Locked(m, p) && !(v.Single? && Get(m, p) == Some(v)) ==> Due(SetIn(w, s, n, p, v), k))
            && (if HasUser(m, p) then Due(ResetIn(w, s, n, p), k) else ResetIn(w, s, n, p) == Opened(w, s, n))
            && (if p in m then Due(ResetTreeIn(w, s, n, p), k) else ResetTreeIn(w, s, n, p) == Opened(w, s, n))
  {
  }

  predicate Due(s: Store, k: string) {
    k in s.channels && s.channels[k].dirty && s.saveScheduled
  }

  /** do_reset_channel: the tree is emptied of user values, then forgotten with its file under the name given. */
  ghost function Forgotten(w: World, s: Store, n: string): Store {
    var t, k, m := Opened(w, s, n), KeyOf(s, n), TreeOf(w, s, n);
    t.(channels := t.channels[k := t.channels[k].(m := Cleared(m, m.Keys))] - {n}, userFiles := s.userFiles - {n})
  }

  /** What a flush writes of each dirty channel among `names`; `orders` gives the order of each tree's nodes. */
  ghost function FilesOf(s: Store, orders: map<string, Order>, names: set<string>): map<string, seq<Event>>
    requires OrdersFit(s, orders)
  {
    map n | n in s.channels && n in names && s.channels[n].dirty :: FileEvents(FileOf(n, s.channels[n].m, orders[n]))
  }

  ghost function FlushedIn(s: Store, orders: map<string, Order>, names: set<string>): Store
    requires OrdersFit(s, orders)
  {
    s.(channels := map n | n in s.channels :: if n in names then s.channels[n].(dirty := false) else s.channels[n],
       userFiles := s.userFiles + FilesOf(s, orders, names))
  }

  ghost function Flushed(s: Store, orders: map<string, Order>): Store
    requires OrdersFit(s, orders)
  {
    FlushedIn(s, orders, s.channels.Keys)
  }

  lemma FlushedNone(s: Store, orders: map<string, Order>)
    requires OrdersFit(s, orders)
    ensures FlushedIn(s, orders, {}) == s
  {
    assert FilesOf(s, orders, {}) == map[];
    assert s.userFiles + map[] == s.userFiles;
  }

  lemma FilesOfOne(s: Store, orders: map<string, Order>, names: set<string>, n: string)
    requires OrdersFit(s, orders) && n in s.channels
    ensures FilesOf(s, orders, names + {n}) ==
            if s.channels[n].dirty then
              FilesOf(s, orders, names)[n := FileEvents(FileOf(n, s.channels[n].m, orders[n]))]
            else FilesOf(s, orders, names)
  {
  }

  lemma OverlayOne<K, V>(a: map<K, V>, b: map<K, V>, k: K, v: V)
    ensures a + b[k := v] == (a + b)[k := v]
  {
  }

  /** One channel more: it is written if it is dirty. */
  lemma FlushedOne(s: Store, orders: map<string, Order>, names: set<string>, n: string)
    requires OrdersFit(s, orders) && n in s.channels && n !in names
    ensures var t, u := FlushedIn(s, orders, names), FlushedIn(s, orders, names + {n});
            && t.channels[n] == s.channels[n]
            && u == if !s.channels[n].dirty then t
                    else t.(channels := t.channels[n := s.channels[n].(dirty := false)],
                            userFiles := t.userFiles[n := FileEvents(FileOf(n, s.channels[n].m, orders[n]))])
  {
    var t, u := FlushedIn(s, orders, names), FlushedIn(s, orders, names + {n});
    FilesOfOne(s, orders, names, n);
    OverlayOne(s.userFiles, FilesOf(s, orders, names), n, FileEvents(FileOf(n, s.channels[n].m, orders[n])));
    assert s.channels[n].dirty || s.channels[n].(dirty := false) == s.channels[n];
    assert u.channels == t.channels[n := s.channels[n].(dirty := false)];
  }

  /** A flush writes exactly the dirty channels, each under its name and from its tree; everything is clean then. */
  lemma FlushWrites(s: Store, orders: map<string, Order>, n: string)
    requires OrdersFit(s, orders)
    ensures var t := Flushed(s, orders);
            && (UserFile(t, n) == if n in s.channels && s.channels[n].dirty
                                  then Some(FileEvents(FileOf(n, s.channels[n].m, orders[n]))) else UserFile(s, n))
            && (n in t.channels <==> n in s.channels)
            && (n in s.channels ==> t.channels[n] == s.channels[n].(dirty := false))
            && t.saveScheduled == s.saveScheduled
  {
  }

  ghost predicate OrdersFit(s: Store, orders: map<string, Order>) {
    forall n :: n in s.channels ==> n in orders && Ordered(s.channels[n].m, orders[n])
  }

  datatype Op =
    | Open(n: string)
    | SetOp(n: string, p: Path, v: Value)
    | ResetOp(n: string, p: Path)
    | ResetTree(n: string, p: Path)
    | ResetAll(n: string)
    | Timer(orders: map<string, Order>)
    | Flush(orders: map<string, Order>)

  /** Requests have passed the validators of channel and property names. */
  ghost predicate Enabled(s: Store, op: Op) {
    match op
    case Open(n) => LowerName(n)
    case SetOp(n, p, v) => LowerName(n) && p != Root && Spellable(p) && StorableValue(v)
    case ResetOp(n, p) => LowerName(n) && p != Root && Spellable(p)
    case ResetTree(n, p) => LowerName(n) && p != Root && Spellable(p)
    case ResetAll(n) => LowerName(n)
    case Timer(orders) => s.saveScheduled && OrdersFit(s, orders)
    case Flush(orders) => OrdersFit(s, orders)
  }

  predicate LowerName(n: string) {
    IsChannelName(n) && Down(n) == n
  }

  ghost function Step(w: World, s: Store, op: Op): Store
    requires Enabled(s, op)
  {
    match op
    case Open(n) => Opened(w, s, n)
    case SetOp(n, p, v) => SetIn(w, s, n, p, v)
    case ResetOp(n, p) => ResetIn(w, s, n, p)
    case ResetTree(n, p) => ResetTreeIn(w, s, n, p)
    case ResetAll(n) => Forgotten(w, s, n)
    case Timer(orders) => Flushed(s, orders).(saveScheduled := false)
    case Flush(orders) => Flushed(s, orders)
  }

  ghost predicate Reaches(w: World, s0: Store, ops: seq<Op>, s: Store)
    decreases |ops|
  {
    if ops == [] then s == s0
    else Enabled(s0, ops[0]) && Reaches(w, Step(w, s0, ops[0]), ops[1..], s)
  }

  /* ---- Invariants ---- */

  /** All files of channel `n` name their properties by non-empty components; nothing else is asked of them. */
  ghost predicate PlainFiles(w: World, s: Store, n: string) {
    (forall f :: f in w.found(n) ==> PlainNames(f)) && (n in s.userFiles ==> PlainNames(s.userFiles[n]))
  }

  /** Every lock that the system files of channel `n` set is guarded. */
  ghost predicate AllGuarded(w: World, n: string) {
    forall p :: Locked(Boot(w, n).m, p) ==> Guards(Boot(w, n).m, p)
  }

  /** The file is a well-formed user file over the channel's defaults. */
  ghost predicate WellFormedUser(w: World, n: string, events: seq<Event>) {
    exists f :: events == FileEvents(f) && GoodFile(Reader(false, w.inList), f) &&
                NoLockedArrays(Reader(false, w.inList), Boot(w, n).m, Root, f.docs)
  }

  /** A tree over the channel's defaults that a flush can write. */
  ghost predicate Tree(w: World, n: string, m: PMap) {
    Closed(m) && SameDefaults(m, Boot(w, n).m) && LocksHold(m) && Storable(m)
  }

  ghost predicate ChanInv(w: World, s: Store, n: string)
    requires n in s.channels
  {
    var c := s.channels[n];
    && Tree(w, n, c.m) && c.locked == Boot(w, n).channelLocked
    && (c.dirty ==> s.saveScheduled)
    && (!c.dirty && !c.locked ==> forall p :: UserOf(Reload(w, s, n).m, p) == UserOf(c.m, p))
  }

  /** What holds of channel `n` and of its user file, whatever the other channels are like. */
  ghost predicate Inv(w: World, s: Store, n: string) {
    PlainFiles(w, s, n) && (n in s.channels ==> ChanInv(w, s, n))
  }

  /* ---- Loading ---- */

  /** Loading a channel, whatever its files hold. */
  lemma Reloads(w: World, s: Store, n: string)
    requires PlainFiles(w, s, n)
    ensures var boot, l := Boot(w, n), Reload(w, s, n);
            && Closed(boot.m) && NoUsers(boot.m) && l.channelLocked == boot.channelLocked
            && Closed(l.m) && SameDefaults(l.m, boot.m) && LocksHide(l.m) && Storable(l.m)
  {
    InFound(w.found(n));
    AnyFileLoads(w.inList, InLoadOrder(w.found(n)), UserFile(s, n));
  }

  /** With every lock guarded, loading gives a tree that a flush can write. */
  lemma ReloadIsTree(w: World, s: Store, n: string)
    requires AllGuarded(w, n) && PlainFiles(w, s, n)
    ensures Tree(w, n, Reload(w, s, n).m) && Reload(w, s, n).channelLocked == Boot(w, n).channelLocked
  {
    Reloads(w, s, n);
    forall p | Locked(Reload(w, s, n).m, p) ensures Guards(Reload(w, s, n).m, p) {
      GuardsSame(Boot(w, n).m, Reload(w, s, n).m, p);
    }
  }

  /* ---- Every operation keeps the invariant ---- */

  /** A step that leaves channel `n` and its file alone, and drops no scheduled save. */
  lemma OthersKeep(w: World, s: Store, t: Store, n: string)
    requires Inv(w, s, n) && (n in t.channels <==> n in s.channels)
             && (n in s.channels ==> t.channels[n] == s.channels[n])
    requires UserFile(t, n) == UserFile(s, n) && (s.saveScheduled ==> t.saveScheduled)
    ensures Inv(w, t, n)
  {
    assert Reload(w, t, n) == Reload(w, s, n);
  }

  /** Opening channel `k`, be it `n` or another. */
  lemma OpenKeeps(w: World, s: Store, n: string, k: string)
    requires AllGuarded(w, n) && Inv(w, s, n) && LowerName(k)
    ensures Inv(w, Opened(w, s, k), n) && k in Opened(w, s, k).channels && KeyOf(s, k) == k
    ensures k == n ==> Tree(w, n, Opened(w, s, k).channels[k].m)
  {
    if k == n {
      ReloadIsTree(w, s, n);
      assert Reload(w, Opened(w, s, n), n) == Reload(w, s, n);
    } else {
      OthersKeep(w, s, Opened(w, s, k), n);
    }
  }

  lemma SavingKeeps(w: World, s: Store, n: string, k: string, m: PMap)
    requires Inv(w, s, n) && k in s.channels && (k == n ==> Tree(w, n, m))
    ensures Inv(w, Saving(s, k, m), n)
  {
    if k == n { assert Reload(w, Saving(s, k, m), n) == Reload(w, s, n); }
    else { OthersKeep(w, s, Saving(s, k, m), n); }
  }

  lemma SetKeepsTree(w: World, n: string, m: PMap, p: Path, v: Value)
    requires Tree(w, n, m) && p != Root && Spellable(p) && StorableValue(v)
    ensures Tree(w, n, AfterSet(m, p, v))
  {
    SpellableIsProper(p);
    SetEffect(m, p, v);
  }

  lemma ResetKeepsTree(w: World, n: string, m: PMap, p: Path)
    requires Tree(w, n, m) && HasUser(m, p) && Spellable(p)
    ensures Tree(w, n, AfterReset(m, p))
  {
    ResetEffect(m, p);
  }

  lemma ResetTreeKeepsTree(w: World, n: string, m: PMap, p: Path)
    requires Tree(w, n, m) && p != Root
    ensures Tree(w, n, AfterRecursiveReset(m, p))
  {
    RecursiveResetEffect(m, p);
  }

  lemma FlushKeeps(w: World, s: Store, n: string, orders: map<string, Order>)
    requires AllGuarded(w, n) && LowerName(n) && Inv(w, s, n) && OrdersFit(s, orders)
    ensures Inv(w, Flushed(s, orders), n)
    ensures n in Flushed(s, orders).channels ==> !Flushed(s, orders).channels[n].dirty
  {
    var t := Flushed(s, orders);
    if n in s.channels && s.channels[n].dirty {
      WrittenReloads(w, t, n, s.channels[n].m, orders[n]);
    } else {
      assert UserFile(t, n) == UserFile(s, n);
      OthersKeep(w, s, t, n);
    }
  }

  /** What a flush writes for a tree is well-formed, and reads back as the tree. */
  lemma WrittenReloads(w: World, t: Store, n: string, m: PMap, kids: Order)
    requires AllGuarded(w, n) && LowerName(n) && Tree(w, n, m) && Ordered(m, kids) && n in t.userFiles
    requires t.userFiles[n] == FileEvents(FileOf(n, m, kids))
    requires forall f :: f in w.found(n) ==> PlainNames(f)
    ensures WellFormedUser(w, n, t.userFiles[n]) && PlainNames(t.userFiles[n])
    ensures !Boot(w, n).channelLocked ==> forall p :: UserOf(Reload(w, t, n).m, p) == UserOf(m, p)
  {
    InFound(w.found(n));
    SystemLoads(w.inList, InLoadOrder(w.found(n)));
    WrittenIsPlain(n, m, kids);
    WrittenFileGood(w.inList, n, Boot(w, n).m, m, kids);
    WriteThenRead(w.inList, n, Boot(w, n).m, m, kids);
  }

  lemma StepKeeps(w: World, s: Store, op: Op, n: string)
    requires AllGuarded(w, n) && LowerName(n) && Inv(w, s, n) && Enabled(s, op)
    ensures Inv(w, Step(w, s, op), n)
  {
    match op {
      case Open(k) => OpenKeeps(w, s, n, k);
      case SetOp(k, p, v) =>
        OpenKeeps(w, s, n, k);
        var t := Opened(w, s, k);
        if k == n { SetKeepsTree(w, n, t.channels[n].m, p, v); }
        SavingKeeps(w, t, n, k, AfterSet(t.channels[k].m, p, v));
      case ResetOp(k, p) =>
        OpenKeeps(w, s, n, k);
        var t := Opened(w, s, k);
        if HasUser(t.channels[k].m, p) {
          if k == n { ResetKeepsTree(w, n, t.channels[n].m, p); }
          SavingKeeps(w, t, n, k, AfterReset(t.channels[k].m, p));
        }
      case ResetTree(k, p) =>
        OpenKeeps(w, s, n, k);
        var t := Opened(w, s, k);
        if k == n { ResetTreeKeepsTree(w, n, t.channels[n].m, p); }
        SavingKeeps(w, t, n, k, AfterRecursiveReset(t.channels[k].m, p));
      case ResetAll(k) => ForgetKeeps(w, s, n, k);
      case Timer(orders) => TimerKeeps(w, s, n, orders);
      case Flush(orders) => FlushKeeps(w, s, n, orders);
    }
  }

  lemma ForgetKeeps(w: World, s: Store, n: string, k: string)
    requires Inv(w, s, n) && LowerName(k)
    ensures Inv(w, Forgotten(w, s, k), n)
  {
    if k != n { OthersKeep(w, s, Forgotten(w, s, k), n); }
  }

  /** The timer may drop the scheduled save, because it has written what was dirty. */
  lemma TimerKeeps(w: World, s: Store, n: string, orders: map<string, Order>)
    requires AllGuarded(w, n) && LowerName(n) && Inv(w, s, n) && OrdersFit(s, orders)
    ensures Inv(w, Flushed(s, orders).(saveScheduled := false), n)
  {
    var t := Flushed(s, orders);
    FlushKeeps(w, s, n, orders);
    assert Reload(w, t.(saveScheduled := false), n) == Reload(w, t, n);
  }

  lemma {:induction false} RunKeeps(w: World, s0: Store, ops: seq<Op>, s: Store, n: string)
    requires AllGuarded(w, n) && LowerName(n) && Inv(w, s0, n) && Reaches(w, s0, ops, s)
    ensures Inv(w, s, n)
    decreases |ops|
  {
    if ops != [] {
      StepKeeps(w, s0, ops[0], n);
      RunKeeps(w, Step(w, s0, ops[0]), ops[1..], s, n);
    }
  }

  lemma {:induction false} KeysAreLower(w: World, s0: Store, ops: seq<Op>, s: Store)
    requires Reaches(w, s0, ops, s) && forall n :: n in s0.channels ==> LowerName(n)
    ensures forall n :: n in s.channels ==> LowerName(n)
    decreases |ops|
  {
    if ops != [] { KeysAreLower(w, Step(w, s0, ops[0]), ops[1..], s); }
  }

  /* ---- The results ---- */

  /** What the channel's files and its memory read is the same at every path. */
  ghost predicate Agree(w: World, s: Store, n: string)
    requires n in s.channels
  {
    forall p :: Get(Reload(w, s, n).m, p) == Get(s.channels[n].m, p)
  }

  /**
   Durability: in every run from any files, if every lock in the channel's system files is guarded, the channel has a
   save scheduled while it is dirty; and when it is neither dirty nor locked it reads the same, at every path, from its
   files as from memory.  Nothing is asked of the other channels.
   */
  lemma Durable(w: World, s0: Store, ops: seq<Op>, s: Store, n: string)
    requires s0.channels == map[] && PlainFiles(w, s0, n) && AllGuarded(w, n)
    requires Reaches(w, s0, ops, s) && n in s.channels
    ensures s.channels[n].dirty ==> s.saveScheduled
    ensures !s.channels[n].dirty && !s.channels[n].locked ==> Agree(w, s, n)
  {
    KeysAreLower(w, s0, ops, s);
    RunKeeps(w, s0, ops, s, n);
    ReloadIsTree(w, s, n);
    forall p | !s.channels[n].dirty && !s.channels[n].locked
           ensures Get(Reload(w, s, n).m, p) == Get(s.channels[n].m, p) {
      Layers(Reload(w, s, n).m, p);
      Layers(s.channels[n].m, p);
    }
  }

  lemma Layers(m: PMap, p: Path)
    ensures Get(m, p) == if UserOf(m, p).Some? then UserOf(m, p) else SystemOf(m, p)
  {
  }

  /**
   A locked channel keeps nothing a client adds: a set is refused only at a node that is in the tree, so a property the
   system files do not mention can be set, yet no reload, whatever the user's file holds, brings it back.
   */
  lemma LockedChannelForgets(inList: string -> bool, fs: seq<File>, user: Option<seq<Event>>, p: Path, v: Value)
    requires p != Root && Proper(p) && forall i :: 0 <= i < |fs| ==> GoodFile(Reader(true, inList), fs[i])
    requires AnyLocks(Reader(true, inList), fs)
    ensures var m := Load(inList, EventsOf(fs), user).m;
            Mentioned(Counting(Reader(true, inList), fs), p) ==> AfterSet(m, p, v) == m
    ensures var m := Load(inList, EventsOf(fs), user).m;
            !Mentioned(Counting(Reader(true, inList), fs), p) ==>
              Get(AfterSet(m, p, v), p) == Some(v) && Get(m, p) == None
  {
    SystemRule(inList, fs, p);
    NoMentionNoValue(Counting(Reader(true, inList), fs), p);
    var m := Load(inList, EventsOf(fs), user).m;
    Layers(m, p);
    assert Above(p, p);
  }

  /**
   Forgetting a channel by a name with upper-case letters misses its entry in the table: the channel stays at hand under
   its lower-case name, without user values.
   */
  lemma ForgottenUnderItsName(w: World, s: Store, n: string)
    ensures n !in Forgotten(w, s, n).channels && n !in Forgotten(w, s, n).userFiles
    ensures n !in s.channels && (exists i :: 0 <= i < |n| && 'A' <= n[i] <= 'Z') ==>
              && Down(n) in Forgotten(w, s, n).channels
              && forall p :: UserOf(Forgotten(w, s, n).channels[Down(n)].m, p) == None
  {
    DownMeaning(n);
  }

  /**
   A set that is not refused is read back by the next request for the same channel, except that a channel asked for by
   a name with upper-case letters is filed under another name: it is loaded anew each time, and what was set is gone.
   */
  lemma ReadBack(w: World, s: Store, n: string, p: Path, v: Value)
    requires p != Root && Proper(p) && Closed(TreeOf(w, s, n)) && !Locked(TreeOf(w, s, n), p)
    ensures Get(TreeOf(w, SetIn(w, s, n, p, v), n), p) == Some(v) <==>
            || n in s.channels || Get(TreeOf(w, s, n), p) == Some(v)
            || forall i :: 0 <= i < |n| ==> !('A' <= n[i] <= 'Z')
  {
    DownMeaning(n);
    SetEffect(TreeOf(w, s, n), p, v);
    var t := SetIn(w, s, n, p, v);
    if n !in s.channels && Down(n) != n { assert Reload(w, t, n) == Reload(w, s, n); }
  }
}
