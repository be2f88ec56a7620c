/** In every interleaving, a cache with nothing in flight agrees with the daemon. */
module Convergence {
  import opened Values
  import opened Paths
  import opened Names
  import opened PropertyMap
  import opened CacheTables
  import opened Protocol

  /* ---- One key at a time ---- */

  /** The cache's tables as one key sees them. */
  datatype Slot = Slot(value: Option<Value>, undo: Option<Undo>)

  function SlotOf(t: Tables, k: Path): Slot {
    Slot(Entry(t, k), if k in t.undo then Some(t.undo[k]) else None)
  }

  function SlotStep(s: Slot, k: Path, m: Message): Slot {
    match m
    case Changed(q, v) => if q == k && s.undo.None? then s.(value := Some(v)) else s
    case Removed(q) => if q == k then s.(value := None) else s
    case Reply(c, ok) =>
      if s.undo.None? || s.undo.value.call != c then s
      else Slot(if s.value.None? || ok then s.value else s.undo.value.item, None)
  }

  lemma DeliverSlot(t: Tables, m: Message, k: Path)
    requires Paired(t)
    ensures SlotOf(OnMessage(t, m), k) == SlotStep(SlotOf(t, k), k, m)
  {
  }

  /** The slot once every queued message has been delivered. */
  function Run(s: Slot, k: Path, q: seq<Message>): Slot {
    if q == [] then s else SlotStep(Run(s, k, q[..|q| - 1]), k, q[|q| - 1])
  }

  lemma {:induction false} RunHead(s: Slot, k: Path, q: seq<Message>)
    requires q != []
    ensures Run(s, k, q) == Run(SlotStep(s, k, q[0]), k, q[1..])
  {
    if |q| > 1 {
      RunHead(s, k, q[..|q| - 1]);
      assert q[..|q| - 1][1..] == q[1..][..|q| - 2];
    }
  }

  lemma RunAppend(s: Slot, k: Path, q: seq<Message>, m: Message)
    ensures Run(s, k, q + [m]) == SlotStep(Run(s, k, q), k, m)
  {
    assert (q + [m])[..|q|] == q;
  }

  predicate Replied(q: seq<Message>, c: Call) {
    Reply(c, true) in q || Reply(c, false) in q
  }

  /** A pending set survives unreplied messages: its value stays, or is removed, but never replaced. */
  lemma {:induction false} RunPending(s: Slot, k: Path, q: seq<Message>)
    requires s.undo.Some? && !Replied(q, s.undo.value.call)
    ensures Run(s, k, q).undo == s.undo && (Run(s, k, q).value == None || Run(s, k, q).value == s.value)
  {
    if q != [] {
      assert forall m :: m in q[..|q| - 1] ==> m in q;
      RunPending(s, k, q[..|q| - 1]);
    }
  }

  predicate Agrees(x: Option<Value>, effective: Option<Value>) {
    x == None || x == effective
  }

  /** Whatever fails for this record falls back to the effective value. */
  predicate FallsBack(s: Slot, q: seq<Message>, effective: Option<Value>) {
    s.undo.Some? && Reply(s.undo.value.call, false) in q ==> Agrees(s.undo.value.item, effective)
  }

  /** Replacing a slot's value by an agreeing one cannot spoil the outcome. */
  lemma {:induction false} RunAgrees(s: Slot, x: Option<Value>, k: Path, q: seq<Message>, effective: Option<Value>)
    requires Agrees(x, effective) && FallsBack(s, q, effective)
    ensures Run(s.(value := x), k, q).undo == Run(s, k, q).undo
    ensures Run(s, k, q).undo.Some? ==> Run(s, k, q).undo == s.undo
    ensures Run(s.(value := x), k, q) == Run(s, k, q) || Agrees(Run(s.(value := x), k, q).value, effective)
  {
    if q != [] {
      RunAgrees(s, x, k, q[..|q| - 1], effective);
    }
  }

  /* ---- The invariant ---- */

  predicate Requested(d: seq<Request>, k: Path) {
    exists i :: 0 <= i < |d| && d[i].key == k
  }

  /** The last request for `k`. */
  function LastRequest(d: seq<Request>, k: Path): (r: Request)
    requires Requested(d, k)
    ensures r in d && r.key == k
  {
    var n := |d| - 1;
    if d[n].key == k then d[n] else LastRequest(d[..n], k)
  }

  /** Calls travel to the daemon and back in the order they were begun. */
  ghost predicate InOrder(s: State) {
    && (forall i, j :: 0 <= i < j < |s.toDaemon| ==> s.toDaemon[i].call < s.toDaemon[j].call)
    && (forall i :: 0 <= i < |s.toDaemon| ==>
          s.toDaemon[i].call < s.next && s.toDaemon[i].key != Root && Spellable(s.toDaemon[i].key))
    && (forall c: Call, ok :: Reply(c, ok) in s.toClient ==>
          c < s.next && forall i :: 0 <= i < |s.toDaemon| ==> c < s.toDaemon[i].call)
    && (forall c: Call :: c in s.cache.pending ==> c < s.next && c !in s.cancelled)
    && (forall c: Call :: c in s.cancelled ==> c < s.next)
  }

  ghost function Future(s: State, k: Path): Slot {
    Run(SlotOf(s.cache, k), k, s.toClient)
  }

  ghost predicate KeyInv(s: State, k: Path) {
    var slot, future, effective := SlotOf(s.cache, k), Future(s, k), Get(s.tree, k);
    // Nothing more is asked for: the slot settles, and it agrees unless a notification is still to fire.
    && (!Requested(s.toDaemon, k) ==> future.undo.None? && (k in s.idles || Agrees(future.value, effective)))
    // A set is on its way: it is the pending one, and only its value can be cached.
    && (Requested(s.toDaemon, k) ==>
          var r := LastRequest(s.toDaemon, k);
          future.undo.Some? && future.undo.value.call == r.call && Agrees(future.value, Some(r.value)))
    // Replies tell whether the property is locked.
    && (forall c: Call, ok :: slot.undo.Some? && slot.undo.value.call == c && Reply(c, ok) in s.toClient ==>
        ok == !Locked(s.boot, k))
    // A locked property never changes, so what is cached, remembered or announced of it is its value.
    && (Locked(s.boot, k) ==>
          && (if slot.undo.Some? then Agrees(slot.undo.value.item, effective) else Agrees(slot.value, effective))
          && (forall v :: Changed(k, v) in s.toClient ==> Some(v) == effective))
  }

  /** What holds of the store and the bus, whatever the properties are called. */
  ghost predicate Fits(s: State) {
    Paired(s.cache) && Sound(s.tree, s.boot) && InOrder(s)
  }

  lemma InitialKey(s: State, k: Path)
    requires Initial(s)
    ensures Fits(s) && KeyInv(s, k)
  {
  }

  /* ---- Every step keeps it ---- */

  /** The reply to a cancelled call would find no record anyway. */
  lemma ReceivedIsHandled(s: State)
    requires s.toClient != [] && Paired(s.cache) && InOrder(s)
    ensures Received(s, s.toClient[0]) == OnMessage(s.cache, s.toClient[0])
  {
  }

  lemma DeliverKey(s: State, k: Path)
    requires s.toClient != [] && Paired(s.cache) && KeyInv(s, k)
    requires Received(s, s.toClient[0]) == OnMessage(s.cache, s.toClient[0])
    ensures KeyInv(Do(s, Deliver), k)
  {
    DeliverSlot(s.cache, s.toClient[0], k);
    RunHead(SlotOf(s.cache, k), k, s.toClient);
    assert forall m :: m in s.toClient[1..] ==> m in s.toClient;
    assert s.toClient[0] in s.toClient;
  }

  lemma EmitKey(s: State, k: Path)
    requires s.idles != [] && Paired(s.cache) && KeyInv(s, k)
    ensures KeyInv(Do(s, Emit), k)
  {
    RunAppend(SlotOf(s.cache, k), k, s.toClient, Signal(s.tree, s.idles[0]));
    assert forall q :: q in s.idles && q != s.idles[0] ==> q in s.idles[1..];
  }

  /** The daemon's tree changes while the client and the bus stand still. */
  lemma EditKey(s: State, e: Edit, k: Path)
    requires Sound(s.tree, s.boot) && Possible(e, s.tree) && KeyInv(s, k) && !(Drops(e, s.tree, k) && !LongNamed(k))
    ensures KeyInv(Edited(s, e), k)
  {
    if Changes(e, s.tree, s.boot, k) {
      ChangeIsNotified(e, s.tree, s.boot, k);
      EditChanges(e, s.tree, s.boot, k);
    }
  }

  /** The client replaces a cached value by an agreeing one, or drops it. */
  lemma ReplaceKey(s: State, t: Tables, k: Path)
    requires KeyInv(s, k) && t.undo == s.cache.undo && s.toDaemon == []
    requires Entry(t, k) != Entry(s.cache, k) ==> Agrees(Entry(t, k), Get(s.tree, k))
    ensures KeyInv(s.(cache := t), k)
  {
    var slot := SlotOf(s.cache, k);
    if Entry(t, k) != slot.value {
      RunAgrees(slot, Entry(t, k), k, s.toClient, Get(s.tree, k));
      assert SlotOf(t, k) == slot.(value := Entry(t, k));
    }
  }

  lemma {:induction false} RequestedTail(d: seq<Request>, k: Path)
    requires d != []
    ensures Requested(d, k) <==> d[0].key == k || Requested(d[1..], k)
    ensures Requested(d[1..], k) ==> LastRequest(d[1..], k) == LastRequest(d, k)
  {
    assert forall i :: 0 < i < |d| ==> d[i] == d[1..][i - 1];
    if |d| > 1 && d[|d| - 1].key != k && Requested(d[1..], k) {
      var e := d[..|d| - 1];
      assert e[1..] == d[1..][..|d| - 2];
      assert forall i :: 0 <= i < |d| - 1 ==> d[1..][i] == d[i + 1];
      var i :| 0 <= i < |d[1..]| && d[1..][i].key == k;
      assert e[1..][i].key == k;
      RequestedTail(e, k);
    }
  }

  /** The pending call of `k` is either answered already or that of its last request. */
  lemma PendingIs(s: State, k: Path)
    requires KeyInv(s, k) && SlotOf(s.cache, k).undo.Some?
    ensures var c := SlotOf(s.cache, k).undo.value.call;
            Replied(s.toClient, c) || (Requested(s.toDaemon, k) && LastRequest(s.toDaemon, k).call == c)
  {
    var slot := SlotOf(s.cache, k);
    if !Replied(s.toClient, slot.undo.value.call) { RunPending(slot, k, s.toClient); }
  }

  /** The state once the first request has been answered, the tree apart. */
  function Answered(s: State, ok: bool): State
    requires s.toDaemon != []
  {
    s.(toDaemon := s.toDaemon[1..], toClient := s.toClient + [Reply(s.toDaemon[0].call, ok)])
  }

  lemma AnsweredInOrder(s: State, ok: bool)
    requires s.toDaemon != [] && InOrder(s)
    ensures InOrder(Answered(s, ok))
  {
    assert forall i :: 0 <= i < |s.toDaemon| - 1 ==> s.toDaemon[1..][i] == s.toDaemon[i + 1];
  }

  /** The reply to a served request reaches only the key that still waits for it. */
  lemma ServeOther(s: State, k: Path, ok: bool)
    requires s.toDaemon != [] && s.toDaemon[0].key != k && InOrder(s) && KeyInv(s, k)
    ensures KeyInv(Answered(s, ok), k)
  {
    var c := s.toDaemon[0].call;
    RequestedTail(s.toDaemon, k);
    RunAppend(SlotOf(s.cache, k), k, s.toClient, Reply(c, ok));
    if SlotOf(s.cache, k).undo.Some? { PendingIs(s, k); }
    if Requested(s.toDaemon, k) {
      var i :| 0 <= i < |s.toDaemon| && s.toDaemon[i] == LastRequest(s.toDaemon, k);
      assert s.toDaemon[i].call != c;
    }
  }

  /** A superseded request is answered, but nobody waits for it. */
  lemma ServeSuperseded(s: State, k: Path, ok: bool)
    requires s.toDaemon != [] && s.toDaemon[0].key == k && InOrder(s) && KeyInv(s, k)
    requires Requested(s.toDaemon[1..], k)
    ensures KeyInv(Answered(s, ok), k)
  {
    var c := s.toDaemon[0].call;
    RequestedTail(s.toDaemon, k);
    RunAppend(SlotOf(s.cache, k), k, s.toClient, Reply(c, ok));
    if SlotOf(s.cache, k).undo.Some? { PendingIs(s, k); }
    var i :| 0 <= i < |s.toDaemon[1..]| && s.toDaemon[1..][i] == LastRequest(s.toDaemon, k);
    assert s.toDaemon[i + 1].call != c;
  }

  /** The last request of `k` is answered: a success leaves its value, a failure the remembered one. */
  lemma ServeLast(s: State, k: Path, tree: PMap, idles: seq<Path>)
    requires s.toDaemon != [] && s.toDaemon[0].key == k && InOrder(s) && KeyInv(s, k)
    requires !Requested(s.toDaemon[1..], k) && k != Root
    requires tree == AfterSet(s.tree, k, s.toDaemon[0].value) && SameDefaults(s.tree, s.boot)
    requires Locked(s.boot, k) ==> Get(tree, k) == Get(s.tree, k)
    requires idles == s.idles + Notified(SetEdit(k, s.toDaemon[0].value), s.tree)
    ensures KeyInv(Answered(s, !Locked(s.tree, k)).(tree := tree, idles := idles), k)
  {
    var r := s.toDaemon[0];
    var ok := !Locked(s.tree, k);
    var slot := SlotOf(s.cache, k);
    RequestedTail(s.toDaemon, k);
    LastIsFirst(s.toDaemon, k);
    RunAppend(slot, k, s.toClient, Reply(r.call, ok));
    if slot.undo.Some? { PendingIs(s, k); }
    RunAgrees(slot, None, k, s.toClient, Get(s.tree, k));
  }

  lemma {:induction false} LastIsFirst(d: seq<Request>, k: Path)
    requires d != [] && d[0].key == k && !Requested(d[1..], k)
    ensures LastRequest(d, k) == d[0]
  {
    if |d| > 1 {
      assert d[1..][|d| - 2] == d[|d| - 1];
      var e := d[..|d| - 1];
      assert forall i :: 0 <= i < |e[1..]| ==> e[1..][i] == d[1..][i];
      LastIsFirst(e, k);
    }
  }

  lemma ServeKey(s: State, k: Path)
    requires s.toDaemon != [] && Fits(s) && KeyInv(s, k)
    ensures KeyInv(Do(s, Serve), k)
  {
    if s.toDaemon[0].key != k || Requested(s.toDaemon[1..], k) { ServeEarlier(s, k); } else { ServeFinal(s, k); }
  }

  lemma ServeEarlier(s: State, k: Path)
    requires s.toDaemon != [] && Fits(s) && KeyInv(s, k)
    requires s.toDaemon[0].key != k || Requested(s.toDaemon[1..], k)
    ensures KeyInv(Do(s, Serve), k)
  {
    var r := s.toDaemon[0];
    var ok := !Locked(s.tree, r.key);
    if r.key != k { ServeOther(s, k, ok); } else { ServeSuperseded(s, k, ok); }
    EditKey(Answered(s, ok), SetEdit(r.key, r.value), k);
  }

  lemma ServeFinal(s: State, k: Path)
    requires s.toDaemon != [] && Fits(s) && KeyInv(s, k)
    requires s.toDaemon[0].key == k && !Requested(s.toDaemon[1..], k)
    ensures KeyInv(Do(s, Serve), k)
  {
    var e := SetEdit(k, s.toDaemon[0].value);
    if Changes(e, s.tree, s.boot, k) { EditChanges(e, s.tree, s.boot, k); }
    ServeLast(s, k, AfterEdit(e, s.tree, s.boot), s.idles + Notified(e, s.tree));
  }

  /** The client sends a set: the key now waits for the new call and for nothing else. */
  lemma SendKey(s: State, q: Path, v: Value, remote: Remote, k: Path)
    requires Paired(s.cache) && InOrder(s) && KeyInv(s.(cache := OnLookup(s.cache, q, remote)), k)
    requires Sends(s.cache, q, v, remote)
    ensures var t := s.(cache := OnSet(s.cache, q, v, remote, s.next), next := s.next + 1,
                        begun := s.begun[s.next := q], cancelled := Cancelling(s.cancelled, s.cache, q),
                        toDaemon := s.toDaemon + [SetProperty(s.next, q, v)]);
            KeyInv(t, k)
  {
    var t := OnSet(s.cache, q, v, remote, s.next);
    var d, r := s.toDaemon, SetProperty(s.next, q, v);
    assert (d + [r])[..|d|] == d;
    assert forall i :: 0 <= i < |d| ==> (d + [r])[i] == d[i];
    if k == q {
      assert (d + [r])[|d|].key == k;
      assert LastRequest(d + [r], k) == r;
      assert !Replied(s.toClient, s.next);
      RunPending(SlotOf(t, k), k, s.toClient);
    } else {
      assert SlotOf(t, k) == SlotOf(OnLookup(s.cache, q, remote), k);
    }
  }

  /** Every step keeps what is claimed of `k`, unless its edit drops that very property under a short name. */
  lemma StepKey(s: State, a: Step, k: Path)
    requires Fits(s) && KeyInv(s, k) && Enabled(s, a) && Spares(s, a, k)
    ensures KeyInv(Do(s, a), k)
  {
    match a {
      case Set(q, v) =>
        var remote := Answer(s.tree, q);
        var t := OnLookup(s.cache, q, remote);
        if t != s.cache { ReplaceKey(s, t, k); }
        if Sends(s.cache, q, v, remote) { SendKey(s, q, v, remote, k); }
      case Lookup(q) =>
        var t := OnLookup(s.cache, q, Answer(s.tree, q));
        if t != s.cache { ReplaceKey(s, t, k); }
      case Reset(base, recursive, e, ok) =>
        EditKey(s, e, k);
        ReplaceKey(Edited(s, e), OnReset(s.cache, base, recursive, ok), k);
      case Prefetch(base) =>
        ReplaceKey(s, Do(s, a).cache, k);
      case Deliver => ReceivedIsHandled(s); DeliverKey(s, k);
      case Serve => ServeKey(s, k);
      case Emit => EmitKey(s, k);
      case Other(e) => EditKey(s, e, k);
    }
  }

  lemma MessageKeepsPaired(t: Tables, m: Message)
    requires Paired(t)
    ensures Paired(OnMessage(t, m)) && OnMessage(t, m).pending.Keys <= t.pending.Keys
  {
    match m {
      case Reply(c, ok) => HandlersKeepPaired(t, Root, Array([]), NotFound, c, ok, true);
      case _ =>
    }
  }

  lemma DeliverInOrder(s: State)
    requires s.toClient != [] && InOrder(s) && Paired(s.cache)
    ensures InOrder(Do(s, Deliver)) && Paired(Do(s, Deliver).cache)
  {
    assert forall m :: m in s.toClient[1..] ==> m in s.toClient;
    ReceivedIsHandled(s);
    MessageKeepsPaired(s.cache, s.toClient[0]);
  }

  lemma SetInOrder(s: State, q: Path, v: Value)
    requires Fits(s) && Enabled(s, Set(q, v))
    ensures InOrder(Do(s, Set(q, v))) && Paired(Do(s, Set(q, v)).cache)
  {
    HandlersKeepPaired(s.cache, q, v, Answer(s.tree, q), s.next, true, true);
  }

  lemma StepInOrder(s: State, a: Step)
    requires Fits(s) && Enabled(s, a)
    ensures InOrder(Do(s, a)) && Paired(Do(s, a).cache)
  {
    match a {
      case Set(q, v) => SetInOrder(s, q, v);
      case Lookup(q) => HandlersKeepPaired(s.cache, q, Array([]), Answer(s.tree, q), s.next, true, true);
      case Reset(base, recursive, e, ok) => HandlersKeepPaired(s.cache, base, Array([]), NotFound, s.next, ok,
           recursive);
      case Deliver => DeliverInOrder(s);
      case Serve => AnsweredInOrder(s, !Locked(s.tree, s.toDaemon[0].key));
      case _ =>
    }
  }

  lemma StepSound(s: State, a: Step)
    requires Fits(s) && Enabled(s, a)
    ensures Sound(Do(s, a).tree, s.boot) && Do(s, a).boot == s.boot
  {
    match a {
      case Reset(_, _, e, _) => EditKeepsSound(e, s.tree, s.boot);
      case Other(e) => EditKeepsSound(e, s.tree, s.boot);
      case Serve => EditKeepsSound(SetEdit(s.toDaemon[0].key, s.toDaemon[0].value), s.tree, s.boot);
      case _ =>
    }
  }

  lemma StepFits(s: State, a: Step)
    requires Fits(s) && Enabled(s, a)
    ensures Fits(Do(s, a)) && Do(s, a).boot == s.boot
  {
    StepInOrder(s, a);
    StepSound(s, a);
  }

  lemma {:induction false} RunFits(s0: State, trace: seq<Step>, s: State)
    requires Fits(s0) && Reaches(s0, trace, s)
    ensures Fits(s)
    decreases |trace|
  {
    if trace != [] {
      StepFits(s0, trace[0]);
      RunFits(Do(s0, trace[0]), trace[1..], s);
    }
  }

  lemma {:induction false} RunKey(s0: State, trace: seq<Step>, s: State, k: Path)
    requires Fits(s0) && KeyInv(s0, k) && ReachesSparing(s0, trace, s, k)
    ensures Fits(s) && KeyInv(s, k)
    decreases |trace|
  {
    if trace != [] {
      StepKey(s0, trace[0], k);
      StepFits(s0, trace[0]);
      RunKey(Do(s0, trace[0]), trace[1..], s, k);
    }
  }

  lemma NothingUndone(t: Tables)
    requires Paired(t)
    ensures t.pending != map[] ==> t.undo != map[]
  {
    if t.pending != map[] {
      var c :| c in t.pending;
      assert t.pending[c] in t.undo;
    }
  }

  ghost predicate Quiescent(s: State) {
    s.toDaemon == [] && s.toClient == [] && s.idles == []
  }

  /** What is cached of `k`, if anything, is what the daemon holds. */
  ghost predicate Right(s: State, k: Path) {
    Agrees(Entry(s.cache, k), Get(s.tree, k))
  }

  lemma QuietIsRight(s: State, k: Path)
    requires KeyInv(s, k) && Quiescent(s)
    ensures k !in s.cache.undo && Right(s, k)
  {
  }

  /**
   Convergence, property by property: however sets, lookups, resets, replies and signals interleave with the daemon and
   other writers, once nothing is in flight no call for `k` is pending and what is cached of it is the daemon's
   effective value, in every run whose edits drop other properties as they please but not `k` under a short name.
   */
  lemma ConvergesFor(s0: State, trace: seq<Step>, s: State, k: Path)
    requires Initial(s0) && ReachesSparing(s0, trace, s, k) && Quiescent(s)
    ensures k !in s.cache.undo && Right(s, k)
  {
    InitialKey(s0, k);
    RunKey(s0, trace, s, k);
    QuietIsRight(s, k);
  }

  lemma {:induction false} LongNamesAreSpared(s0: State, trace: seq<Step>, s: State, k: Path)
    requires Reaches(s0, trace, s) && LongNamed(k)
    ensures ReachesSparing(s0, trace, s, k)
    decreases |trace|
  {
    if trace != [] { LongNamesAreSpared(Do(s0, trace[0]), trace[1..], s, k); }
  }

  /** For a property without one-character components, convergence holds in every run whatsoever. */
  lemma ConvergesForLong(s0: State, trace: seq<Step>, s: State, k: Path)
    requires Initial(s0) && Reaches(s0, trace, s) && Quiescent(s) && LongNamed(k)
    ensures k !in s.cache.undo && Right(s, k)
  {
    LongNamesAreSpared(s0, trace, s, k);
    ConvergesFor(s0, trace, s, k);
  }

  lemma {:induction false} FaithfulSpares(s0: State, trace: seq<Step>, s: State, k: Path)
    requires ReachesFaithfully(s0, trace, s)
    ensures ReachesSparing(s0, trace, s, k)
    decreases |trace|
  {
    if trace != [] {
      FaithfulSpares(Do(s0, trace[0]), trace[1..], s, k);
    }
  }

  /** In a run whose edits report all that they change, the whole cache converges. */
  lemma Converges(s0: State, trace: seq<Step>, s: State)
    requires Initial(s0) && ReachesFaithfully(s0, trace, s) && Quiescent(s)
    ensures s.cache.undo == map[] && s.cache.pending == map[]
    ensures forall k :: k in s.cache.properties ==> Get(s.tree, k) == Some(s.cache.properties[k])
  {
    forall k ensures Fits(s) && k !in s.cache.undo && Right(s, k) {
      InitialKey(s0, k);
      FaithfulSpares(s0, trace, s, k);
      RunKey(s0, trace, s, k);
      QuietIsRight(s, k);
    }
    forall k | k in s.cache.properties ensures Get(s.tree, k) == Some(s.cache.properties[k]) { assert Right(s, k); }
    NothingUndone(s.cache);
  }

  /**
   Without faithful reports convergence fails.  A client caches "/a"; another writer resets it recursively; the
   notification goes out under an empty name, and the client keeps the old value with nothing left in flight.
   */
  lemma ShortNameStaysStale(v: Value) returns (s0: State, trace: seq<Step>, s: State)
    ensures Initial(s0) && Reaches(s0, trace, s) && Quiescent(s)
    ensures exists k :: k in s.cache.properties && Get(s.tree, k) == None
  {
    var k, e := Sub(Root, "a"), RecursiveEdit(Sub(Root, "a"), [Sub(Root, "a")]);
    var boot, tree, tree' := ShortTree(v);
    var none, cached := Tables(map[], map[], map[]), Tables(map[k := v], map[], map[]);
    s0 := State(none, 0, map[], {}, [], [], [], tree, boot);
    var s1 := State(cached, 0, map[], {}, [], [], [], tree, boot);
    var s2 := State(cached, 0, map[], {}, [], [], [Root], tree', boot);
    var s3 := State(cached, 0, map[], {}, [], [Removed(Root)], [], tree', boot);
    s := State(cached, 0, map[], {}, [], [], [], tree', boot);
    trace := [Lookup(k), Other(e), Emit, Deliver];
    FourSteps(s0, s1, s2, s3, s, Lookup(k), Other(e), Emit, Deliver);
  }

  lemma ShortTree(v: Value) returns (boot: PMap, tree: PMap, tree': PMap)
    ensures Sound(tree, boot)
    ensures var k := Sub(Root, "a");
            && Get(tree, k) == Some(v) && k in tree && Lists([k], UsersIn(tree, Below(tree.Keys, k)))
               && Reports([k]) == [Root]
            && tree' == AfterRecursiveReset(tree, k) && Get(tree', k) == None && Get(tree', Root) == None
  {
    var k := Sub(Root, "a");
    boot := map[Root := BLANK];
    tree := boot[k := Rec(Some(v), None, false)];
    assert Closed(tree);
    RecursiveResetEffect(tree, k);
    tree' := AfterRecursiveReset(tree, k);
    GetLayers(tree', k);
    GetLayers(tree', Root);
    assert UsersIn(tree, Below(tree.Keys, k)) == {k};
  }

  lemma FourSteps(s0: State, s1: State, s2: State, s3: State, s4: State, a0: Step, a1: Step, a2: Step, a3: Step)
    requires Paired(s0.cache) && Enabled(s0, a0) && Do(s0, a0) == s1 && Paired(s1.cache) && Enabled(s1, a1)
             && Do(s1, a1) == s2
    requires Paired(s2.cache) && Enabled(s2, a2) && Do(s2, a2) == s3 && Paired(s3.cache) && Enabled(s3, a3)
             && Do(s3, a3) == s4
    ensures Reaches(s0, [a0, a1, a2, a3], s4)
  {
    assert [a0, a1, a2, a3][1..] == [a1, a2, a3] && [a1, a2, a3][1..] == [a2, a3] && [a2, a3][1..] == [a3];
    assert Reaches(s4, [a3][1..], s4);
    assert Reaches(s3, [a3], s4);
    assert Reaches(s2, [a2, a3], s4);
  }
}
