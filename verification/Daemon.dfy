/** The daemon between the bus and one backend: requests it serves, and the notifications it queues and emits. */
module Daemon {
  import opened Values
  import opened Paths
  import opened Sequences
  import opened Names
  import opened PropertyMap
  import opened PropertyTree
  import opened Durability
  import opened Backend
  import P = Protocol
  import CacheTables

  /** PropertyChanged or PropertyRemoved, as it goes out on the bus. */
  datatype Signal = Signal(channel: string, property: string, value: Option<Value>)

  /** Idle notifications for the properties in `queue`, each under its name. */
  function Queue(n: string, queue: seq<Path>): (idles: seq<(string, string)>)
    ensures |idles| == |queue|
  {
    seq(|queue|, i requires 0 <= i < |queue| => (n, Join(queue[i])))
  }

  lemma QueueAppend(n: string, a: seq<Path>, b: seq<Path>)
    ensures Queue(n, a + b) == Queue(n, a) + Queue(n, b)
  {
  }

  /** What the backend's store becomes when an edit is made on channel `n`. */
  ghost function StoreAfter(w: World, s: Store, n: string, e: P.Edit): Store {
    match e
    case SetEdit(p, v) => SetIn(w, s, n, p, v)
    case ResetEdit(p) => ResetIn(w, s, n, p)
    case RecursiveEdit(p, _) => ResetTreeIn(w, s, n, p)
    case ChannelEdit(_) => Forgotten(w, s, n)
  }

  class BlconfDaemon {
    const backend: XmlBackend
    var idles: seq<(string, string)>

    ghost predicate Valid()
      reads this, backend, backend.owner.Keys
    {
      backend.Valid() && this !in backend.owner
    }

    constructor (backend: XmlBackend)
      requires backend.Valid()
      ensures Valid() && this.backend == backend && idles == [] && backend.store == old(backend.store)
    {
      this.backend := backend;
      idles := [];
    }

    /** The request made edit `e` on channel `n`, and queued exactly the notifications the protocol expects of it. */
    twostate predicate Made(n: string, e: P.Edit)
      reads this, backend
    {
      var m := TreeOf(backend.world, old(backend.store), n);
      && P.Possible(e, m) && backend.store == StoreAfter(backend.world, old(backend.store), n, e)
      && idles == old(idles) + Queue(n, P.Notified(e, m))
    }

    twostate predicate Refused()
      reads this, backend
    {
      backend.store == old(backend.store) && idles == old(idles)
    }

    /** blconf_daemon_backend_property_changed, for each property a request reports. */
    method QueueAll(n: string, changed: seq<string>, ghost order: seq<Path>)
      requires changed == Joined(order)
      modifies this`idles
      ensures idles == old(idles) + Queue(n, order)
    {
      var i := 0;
      while i < |changed|
        invariant i <= |changed| == |order| && idles == old(idles) + Queue(n, order[..i])
      {
        TakeNext(order, i);
        QueueAppend(n, order[..i], [order[i]]);
        idles := idles + [(n, changed[i])];
        i := i + 1;
      }
      TakeAll(order);
    }

    /** blconf_set_property */
    method SetProperty(n: string, property: string, v: Value) returns (ok: bool)
      requires Valid()
      modifies this`idles, backend, backend.owner.Keys
      ensures Valid()
      ensures if IsChannelName(n) && IsPropertyName(property) then
                && Made(n, P.SetEdit(PathOf(property), v))
                && (ok <==> !Locked(TreeOf(backend.world, old(backend.store), n), PathOf(property)))
                && var was := Get(TreeOf(backend.world, old(backend.store), n), PathOf(property));
                   idles == old(idles) + if ok && !(v.Single? && was == Some(v)) then [(n, property)] else []
              else !ok && Refused()
    {
      var changed;
      ok, changed := backend.Set(n, property, v);
      ghost var order := [];
      if IsPropertyName(property) {
        AcceptedName(property);
        if changed != [] { order := [PathOf(property)]; }
      }
      QueueAll(n, changed, order);
    }

    /** blconf_get_property */
    method GetProperty(n: string, property: string) returns (found: Option<Value>)
      requires Valid()
      modifies backend`channels, backend`store, backend`owner
      ensures Valid()
      ensures if IsChannelName(n) && IsPropertyName(property) then
                && backend.store == Opened(backend.world, old(backend.store), n)
                && found == Get(TreeOf(backend.world, old(backend.store), n), PathOf(property))
              else found == None && backend.store == old(backend.store)
    {
      if IsPropertyName(property) { AcceptedName(property); }
      found := backend.Get(n, property);
    }

    /** blconf_reset_property; `order` is the order in which the tree was walked. */
    method ResetProperty(n: string, property: string, recursive: bool) returns (ok: bool, ghost order: seq<Path>)
      requires Valid()
      modifies this`idles, backend, backend.owner.Keys
      ensures Valid()
      ensures if !(IsChannelName(n) && if property == "/" then recursive else IsPropertyName(property)) then
                !ok && Refused()
              else if property == "/" then
                Made(n, P.ChannelEdit(order)) && (ok <==> n in old(backend.store).userFiles)
              else
                var p, m := PathOf(property), TreeOf(backend.world, old(backend.store), n);
                if recursive then Made(n, P.RecursiveEdit(p, order)) && (ok <==> p in m)
                else
                  && Made(n, P.ResetEdit(p)) && (ok <==> HasUser(m, p))
                  && idles == old(idles) + if ok then [(n, property)] else []
    {
      var changed;
      ok, changed, order := backend.Reset(n, property, recursive);
      ghost var names := [];
      if backend.ResetAllowed(n, property, recursive) {
        if property != "/" { AcceptedName(property); }
        if recursive { BuiltAreReports(order); names := P.Reports(order); }
        else if ok { names := [PathOf(property)]; }
      }
      QueueAll(n, changed, names);
    }

    /** blconf_daemon_emit_property_changed_idled: the value goes out as it is read now, not as it was when queued. */
    method EmitPropertyChanged() returns (signal: Signal)
      requires Valid() && idles != []
      modifies this`idles, backend`channels, backend`store, backend`owner
      ensures Valid() && idles == old(idles)[1..]
      ensures var (n, property) := old(idles)[0];
              && signal.channel == n && signal.property == property
              && signal.value == if IsChannelName(n) && IsPropertyName(property)
                                 then Get(TreeOf(backend.world, old(backend.store), n), PathOf(property)) else None
    {
      var (n, property) := idles[0];
      idles := idles[1..];
      var value := GetProperty(n, property);
      signal := Signal(n, property, value);
    }
  }

  function Joined(order: seq<Path>): (names: seq<string>)
  {
    seq(|order|, i requires 0 <= i < |order| => Join(order[i]))
  }

  lemma BuiltAreReports(order: seq<Path>)
    ensures BuiltNames(order) == Joined(P.Reports(order))
  {
    forall i | 0 <= i < |order| ensures BuiltNames(order)[i] == Joined(P.Reports(order))[i] { BuiltPathIs(order[i]); }
  }

  /* ---- The daemon plays its part in the protocol ---- */

  /** Channel `n` of the daemon is the protocol's: same tree, same notifications waiting. */
  ghost predicate Plays(w: World, s: Store, idles: seq<(string, string)>, n: string, p: P.State) {
    && LowerName(n) && TreeOf(w, s, n) == p.tree && Boot(w, n).m == p.boot
    && idles == Queue(n, p.idles)
  }

  /** An edit made by a request takes the protocol's state where the protocol takes it. */
  lemma EditPlays(w: World, s: Store, idles: seq<(string, string)>, n: string, p: P.State, e: P.Edit)
    requires Plays(w, s, idles, n, p) && P.Possible(e, p.tree)
    ensures Plays(w, StoreAfter(w, s, n, e), idles + Queue(n, P.Notified(e, p.tree)), n, P.Edited(p, e))
  {
    QueueAppend(n, p.idles, P.Notified(e, p.tree));
  }

  lemma {:induction false} BuiltIsProper(p: Path)
    requires Proper(p)
    ensures Proper(BuiltPath(p))
  {
    if p.Sub? { BuiltIsProper(p.up); }
  }

  /** Whatever is notified has a name that leads back to it. */
  lemma NotifiedIsProper(m: PMap, e: P.Edit)
    requires Closed(m) && P.Possible(e, m)
    ensures forall q :: q in P.Notified(e, m) ==> Proper(q)
  {
    match e {
      case SetEdit(p, _) => SpellableIsProper(p);
      case ResetEdit(p) => SpellableIsProper(p);
      case RecursiveEdit(_, order) => ReportsAreProper(m, order);
      case ChannelEdit(order) => ReportsAreProper(m, order);
    }
  }

  lemma ReportsAreProper(m: PMap, order: seq<Path>)
    requires Closed(m) && forall q :: q in order ==> q in m
    ensures forall q :: q in P.Reports(order) ==> Proper(q)
  {
    forall i | 0 <= i < |order| ensures Proper(P.Reports(order)[i]) {
      assert order[i] in order;
      BuiltIsProper(order[i]);
    }
  }

  /** What a client reads under the property's name, if the name is accepted at all, is what the protocol signals. */
  lemma SignalIsRead(m: PMap, q: Path)
    requires Proper(q) && Get(m, Root) == None
    ensures (if IsPropertyName(Join(q)) then Get(m, PathOf(Join(q))) else None) == SignalValue(P.Signal(m, q))
  {
    PathOfJoin(q);
    if IsPropertyName(Join(q)) { AcceptedName(Join(q)); }
    assert Spellable(q) && q != Root ==> IsPropertyName(Join(q));
  }

  /** The protocol answers a read as GetProperty does. */
  lemma AnswerPlays(w: World, s: Store, idles: seq<(string, string)>, n: string, p: P.State, k: Path)
    requires Plays(w, s, idles, n, p) && Proper(k) && Get(p.tree, Root) == None
    ensures (match P.Answer(p.tree, k) case Found(v) => Some(v) case _ => None) ==
            if IsPropertyName(Join(k)) then Get(TreeOf(w, s, n), PathOf(Join(k))) else None
  {
    PathOfJoin(k);
    if IsPropertyName(Join(k)) { AcceptedName(Join(k)); }
    assert Spellable(k) && k != Root ==> IsPropertyName(Join(k));
  }

  function SignalValue(m: P.Message): Option<Value> {
    match m
    case Changed(_, v) => Some(v)
    case _ => None
  }

  /** An emission sends the protocol's message. */
  lemma EmitPlays(w: World, s: Store, idles: seq<(string, string)>, n: string, p: P.State)
    requires Plays(w, s, idles, n, p) && p.idles != [] && Proper(p.idles[0]) && Get(p.tree, Root) == None
    ensures var q := p.idles[0];
            && idles[0] == (n, Join(q)) && idles[1..] == Queue(n, p.idles[1..])
            && (if IsChannelName(n) && IsPropertyName(Join(q)) then Get(TreeOf(w, s, n), PathOf(Join(q))) else None) ==
               SignalValue(P.Signal(p.tree, q))
  {
    SignalIsRead(p.tree, p.idles[0]);
  }
}
