/**
 One client cache, the daemon and the bus between them, as a step system.

 Requests travel to the daemon in order, replies and signals travel back in order.  A blocking call is one
 step: the daemon has served every earlier request of this client, and its reply overtakes the signals that
 are already queued.  Any other writer may change the daemon's store between two steps.
 */
module Protocol {
  import opened Values
  import opened Paths
  import opened Names
  import opened PropertyMap
  import opened CacheTables

  datatype Request = SetProperty(call: Call, key: Path, value: Value)

  datatype Message =
    | Reply(call: Call, ok: bool)
    | Changed(key: Path, value: Value)
    | Removed(key: Path)

  /**
   `begun` is the property each call was begun for, `cancelled` the calls that a later set of their property superseded;
   `boot` is what loading the system files alone yields, and never changes.
   */
  datatype State = State(
    cache: Tables,
    next: Call,
    begun: map<Call, Path>,
    cancelled: set<Call>,
    toDaemon: seq<Request>,
    toClient: seq<Message>,
    idles: seq<Path>,
    tree: PMap,
    boot: PMap)

  /* ---- What the daemon does to its tree, and which notifications it queues ---- */

  datatype Edit =
    | SetEdit(p: Path, v: Value)
    | ResetEdit(p: Path)
    | RecursiveEdit(p: Path, order: seq<Path>)
    | ChannelEdit(order: seq<Path>)

  /** Whose user values an edit that walks the tree reports, in some order. */
  ghost predicate Possible(e: Edit, m: PMap) {
    match e
    case SetEdit(p, _) => p != Root && Spellable(p)
    case ResetEdit(p) => p != Root && Spellable(p)
    case RecursiveEdit(p, order) => p != Root && Spellable(p)
         && Lists(order, if p in m then UsersIn(m, Below(m.Keys, p)) else {})
    case ChannelEdit(order) => Lists(order, UsersIn(m, m.Keys))
  }

  /** A walk reports each user value it drops, once, and nothing else. */
  lemma WalkReports(e: Edit, m: PMap, k: Path)
    requires Possible(e, m) && (e.RecursiveEdit? || e.ChannelEdit?)
    ensures forall i, j :: 0 <= i < j < |e.order| ==> e.order[i] != e.order[j]
    ensures k in e.order <==> UserOf(m, k).Some? && (e.RecursiveEdit? ==> e.p in m && Above(e.p, k))
  {
  }

  ghost function AfterEdit(e: Edit, m: PMap, boot: PMap): PMap {
    match e
    case SetEdit(p, v) => AfterSet(m, p, v)
    case ResetEdit(p) => if HasUser(m, p) then AfterReset(m, p) else m
    case RecursiveEdit(p, _) => if p in m then AfterRecursiveReset(m, p) else m
    case ChannelEdit(_) => boot
  }

  /** The properties a walk names, each by its rebuilt name. */
  ghost function Reports(order: seq<Path>): seq<Path> {
    seq(|order|, i requires 0 <= i < |order| => BuiltPath(order[i]))
  }

  /** The property named in each notification that an edit queues. */
  ghost function Notified(e: Edit, m: PMap): seq<Path> {
    match e
    case SetEdit(p, v) => if Locked(m, p) || SetIsNoop(m, p, v) then [] else [p]
    case ResetEdit(p) => if HasUser(m, p) then [p] else []
    case RecursiveEdit(_, order) => Reports(order)
    case ChannelEdit(order) => Reports(order)
  }

  /** The edit changes what readers see of `k`. */
  ghost predicate Changes(e: Edit, m: PMap, boot: PMap, k: Path) {
    Get(AfterEdit(e, m, boot), k) != Get(m, k)
  }

  /** The user's value of `k` differs from what readers see without it. */
  predicate Uncovers(m: PMap, k: Path) {
    UserOf(m, k).Some? && UserOf(m, k) != SystemOf(m, k)
  }

  /** The edit walks over `k` and uncovers its default. */
  ghost predicate Drops(e: Edit, m: PMap, k: Path) {
    match e
    case RecursiveEdit(p, _) => p in m && Above(p, k) && Uncovers(m, k)
    case ChannelEdit(_) => Uncovers(m, k)
    case _ => false
  }

  /** The edit walks over a user value, other than its default, of a property with a one-character component. */
  ghost predicate Misreports(e: Edit, m: PMap) {
    exists k :: Drops(e, m, k) && !LongNamed(k)
  }

  /** The store's standing invariant against its boot tree. */
  ghost predicate Sound(m: PMap, boot: PMap) {
    && Closed(m) && Closed(boot) && SameDefaults(m, boot) && LocksHold(m)
    && forall p :: UserOf(boot, p) == None
  }

  lemma EditKeepsSound(e: Edit, m: PMap, boot: PMap)
    requires Sound(m, boot) && Possible(e, m)
    ensures Sound(AfterEdit(e, m, boot), boot)
  {
    match e
    case SetEdit(p, v) => SpellableIsProper(p); SetEffect(m, p, v);
    case ResetEdit(p) => if HasUser(m, p) { ResetEffect(m, p); }
    case RecursiveEdit(p, _) => RecursiveResetEffect(m, p);
    case ChannelEdit(_) =>
  }

  /** What an edit changes has no lock and, if the edit walks the tree, is among the properties walked over. */
  lemma EditChanges(e: Edit, m: PMap, boot: PMap, k: Path)
    requires Sound(m, boot) && Possible(e, m) && Changes(e, m, boot, k)
    ensures !Locked(boot, k)
    ensures match e
            case SetEdit(p, _) => k in Notified(e, m)
            case ResetEdit(p) => k in Notified(e, m)
            case RecursiveEdit(_, order) => k in order
            case ChannelEdit(order) => k in order
  {
    GetLayers(m, k);
    GetLayers(AfterEdit(e, m, boot), k);
    match e {
      case SetEdit(p, v) => SpellableIsProper(p); SetEffect(m, p, v);
      case ResetEdit(p) => if HasUser(m, p) { ResetEffect(m, p); }
      case RecursiveEdit(p, order) => RecursiveResetEffect(m, p);
      case ChannelEdit(order) =>
    }
  }

  /** Which properties an edit that walks the tree changes can be read off before it. */
  lemma ChangesAreDrops(e: Edit, m: PMap, boot: PMap, k: Path)
    requires Sound(m, boot) && Possible(e, m) && (e.RecursiveEdit? || e.ChannelEdit?)
    ensures Changes(e, m, boot, k) <==> Drops(e, m, k)
  {
    GetLayers(m, k);
    GetLayers(AfterEdit(e, m, boot), k);
    if e.RecursiveEdit? { RecursiveResetEffect(m, e.p); }
  }

  /**
   A changed property is named in a notification exactly when the edit does not walk over a short name to change it.
   */
  lemma ChangeIsNotified(e: Edit, m: PMap, boot: PMap, k: Path)
    requires Sound(m, boot) && Possible(e, m) && Changes(e, m, boot, k)
    ensures k in Notified(e, m) <==> !(Drops(e, m, k) && !LongNamed(k))
  {
    EditChanges(e, m, boot, k);
    if e.RecursiveEdit? || e.ChannelEdit? {
      ChangesAreDrops(e, m, boot, k);
      if LongNamed(k) { Reported(e.order, k); } else { NeverReported(e.order, k); }
    }
  }

  /** Every changed property is named in a notification if and only if the edit misreports none. */
  lemma EditNotifies(e: Edit, m: PMap, boot: PMap)
    requires Sound(m, boot) && Possible(e, m)
    ensures (forall k :: Changes(e, m, boot, k) ==> k in Notified(e, m)) <==> !Misreports(e, m)
  {
    forall k | Changes(e, m, boot, k) ensures k in Notified(e, m) <==> !(Drops(e, m, k) && !LongNamed(k)) {
      ChangeIsNotified(e, m, boot, k);
    }
    if Misreports(e, m) {
      var k :| Drops(e, m, k) && !LongNamed(k);
      ChangesAreDrops(e, m, boot, k);
    }
  }

  lemma GetLayers(m: PMap, k: Path)
    ensures Get(m, k) == if UserOf(m, k).Some? then UserOf(m, k) else SystemOf(m, k)
  {
  }

  lemma Reported(order: seq<Path>, k: Path)
    requires k in order && LongNamed(k)
    ensures k in Reports(order)
  {
    var i :| 0 <= i < |order| && order[i] == k;
    BuiltPathIs(k);
    assert Reports(order)[i] == k;
  }

  lemma NeverReported(order: seq<Path>, k: Path)
    requires !LongNamed(k)
    ensures k !in Reports(order)
  {
    forall i | 0 <= i < |order| ensures BuiltPath(order[i]) != k { BuiltPathIs(order[i]); }
  }

  /* ---- Steps ---- */

  datatype Step =
    | Set(k: Path, v: Value)
    | Lookup(k: Path)
    | Reset(base: Path, recursive: bool, edit: Edit, ok: bool)
    | Prefetch(base: Path)
    | Deliver
    | Serve
    | Emit
    | Other(edit: Edit)

  /** GetProperty as the daemon answers it; a name outside the grammar is an error. */
  function Answer(m: PMap, k: Path): Remote {
    if k == Root || !Spellable(k) then Failed
    else if Get(m, k).Some? then Found(Get(m, k).value) else NotFound
  }

  ghost function Edited(s: State, e: Edit): State {
    s.(tree := AfterEdit(e, s.tree, s.boot), idles := s.idles + Notified(e, s.tree))
  }

  /** Blocking steps wait until the daemon has served every request of this client. */
  ghost predicate Enabled(s: State, a: Step) {
    match a
    case Set(k, v) => k != Root && Spellable(k) && (k !in s.cache.properties ==> s.toDaemon == [])
    case Lookup(k) => k !in s.cache.properties ==> s.toDaemon == []
    case Reset(base, recursive, e, ok) =>
      && s.toDaemon == [] && Possible(e, s.tree)
      && (if !recursive then e == ResetEdit(base) && ok == HasUser(s.tree, base)
          else if base == Root then e.ChannelEdit?
          else e.RecursiveEdit? && e.p == base && ok == (base in s.tree))
    case Prefetch(base) => s.toDaemon == [] && s.cache.properties == map[]
    case Deliver => s.toClient != []
    case Serve => s.toDaemon != []
    case Emit => s.idles != []
    case Other(e) => Possible(e, s.tree)
  }

  ghost function Do(s: State, a: Step): State
    requires Enabled(s, a) && Paired(s.cache)
  {
    match a
    case Set(k, v) =>
      var remote := Answer(s.tree, k);
      var t := s.(cache := OnSet(s.cache, k, v, remote, s.next));
      if Sends(s.cache, k, v, remote)
      then t.(next := s.next + 1, begun := s.begun[s.next := k], cancelled := Cancelling(s.cancelled, s.cache, k),
              toDaemon := s.toDaemon + [SetProperty(s.next, k, v)])
      else t
    case Lookup(k) => s.(cache := OnLookup(s.cache, k, Answer(s.tree, k)))
    case Reset(base, recursive, e, ok) => Edited(s, e).(cache := OnReset(s.cache, base, recursive, ok))
    case Prefetch(base) =>
      s.(cache := s.cache.(properties :=
           map k | k in Below(s.tree.Keys, base) && Get(s.tree, k).Some? :: Get(s.tree, k).value))
    case Deliver => s.(cache := Received(s, s.toClient[0]), toClient := s.toClient[1..])
    case Serve =>
      var r := s.toDaemon[0];
      var t := Edited(s, SetEdit(r.key, r.value));
      t.(toDaemon := s.toDaemon[1..], toClient := s.toClient + [Reply(r.call, !Locked(s.tree, r.key))])
    case Emit => s.(idles := s.idles[1..], toClient := s.toClient + [Signal(s.tree, s.idles[0])])
    case Other(e) => Edited(s, e)
  }

  /** A prefetch caches exactly what the daemon holds at and below the base. */
  lemma PrefetchFills(s: State, base: Path, k: Path)
    requires s.toDaemon == [] && s.cache.properties == map[] && Paired(s.cache)
    ensures Entry(Do(s, Prefetch(base)).cache, k) == if Above(base, k) then Get(s.tree, k) else None
  {
  }

  /** A message reaches its handler, unless it is the reply to a cancelled call. */
  function Received(s: State, m: Message): Tables
    requires Paired(s.cache)
  {
    if m.Reply? && m.call in s.cancelled then s.cache else OnMessage(s.cache, m)
  }

  function OnMessage(t: Tables, m: Message): Tables
    requires Paired(t)
  {
    match m
    case Reply(c, ok) => OnReply(t, c, ok)
    case Changed(k, v) => OnChanged(t, k, v)
    case Removed(k) => OnRemoved(t, k)
  }

  /**
   blconf_daemon_emit_property_changed_idled: the value is read when the notification fires, as a client would read it.
   */
  function Signal(m: PMap, k: Path): Message {
    if Spellable(k) && Get(m, k).Some? then Changed(k, Get(m, k).value) else Removed(k)
  }

  /** The daemon's edit in a step, if any, does not walk over `k` under a short name to uncover its default. */
  ghost predicate Spares(s: State, a: Step, k: Path) {
    match a
    case Reset(_, _, e, _) => !(Drops(e, s.tree, k) && !LongNamed(k))
    case Other(e) => !(Drops(e, s.tree, k) && !LongNamed(k))
    case _ => true
  }

  /** The daemon's edit in a step, if any, reports every property it changes. */
  ghost predicate Faithful(s: State, a: Step) {
    match a
    case Reset(_, _, e, _) => !Misreports(e, s.tree)
    case Other(e) => !Misreports(e, s.tree)
    case _ => true
  }

  ghost predicate Initial(s: State) {
    && s.cache == Tables(map[], map[], map[]) && s.next == 0 && s.begun == map[] && s.cancelled == {}
       && s.toDaemon == [] && s.toClient == [] && s.idles == []
    && Sound(s.tree, s.boot)
  }

  /** `s` is reachable from `s0` by the steps `trace`. */
  ghost predicate Reaches(s0: State, trace: seq<Step>, s: State)
    decreases |trace|
  {
    if trace == [] then s == s0
    else Paired(s0.cache) && Enabled(s0, trace[0]) && Reaches(Do(s0, trace[0]), trace[1..], s)
  }

  /** As Reaches, by steps that report every change. */
  ghost predicate ReachesFaithfully(s0: State, trace: seq<Step>, s: State)
    decreases |trace|
  {
    if trace == [] then s == s0
    else Paired(s0.cache) && Enabled(s0, trace[0]) && Faithful(s0, trace[0])
         && ReachesFaithfully(Do(s0, trace[0]), trace[1..], s)
  }

  /** As Reaches, by steps that spare `k`. */
  ghost predicate ReachesSparing(s0: State, trace: seq<Step>, s: State, k: Path)
    decreases |trace|
  {
    if trace == [] then s == s0
    else Paired(s0.cache) && Enabled(s0, trace[0]) && Spares(s0, trace[0], k)
         && ReachesSparing(Do(s0, trace[0]), trace[1..], s, k)
  }
}
