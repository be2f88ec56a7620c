/** What a client reads between a set and its reply, and what a failing reply restores. */
module Rollback {
  import opened Values
  import opened Paths
  import opened CacheTables

  datatype Event =
    | SetBegun(k: Path, v: Value, remote: Remote, call: Call)
    | LookedUp(k: Path, remote: Remote)
    | ChangedSignal(k: Path, v: Value)
    | RemovedSignal(k: Path)
    | SetReplied(call: Call, ok: bool)
    | ResetDone(base: Path, recursive: bool, ok: bool)

  function Handle(t: Tables, e: Event): Tables
    requires Paired(t)
  {
    match e
    case SetBegun(k, v, remote, c) => OnSet(t, k, v, remote, c)
    case LookedUp(k, remote) => OnLookup(t, k, remote)
    case ChangedSignal(k, v) => OnChanged(t, k, v)
    case RemovedSignal(k) => OnRemoved(t, k)
    case SetReplied(c, ok) => OnReply(t, c, ok)
    case ResetDone(base, recursive, ok) => OnReset(t, base, recursive, ok)
  }

  /** The event neither decides the pending set of `k` nor evicts it; new sets use unused calls. */
  predicate Spares(t: Tables, k: Path, e: Event) {
    match e
    case SetBegun(_, _, _, c) => c !in t.pending
    case RemovedSignal(q) => q != k
    case SetReplied(c, _) => k in t.undo ==> t.undo[k].call != c
    case ResetDone(base, recursive, ok) =>
      ok ==> k != base && !(recursive && Down(NameOf(base)) + "/" <= Down(Join(k)))
    case _ => true
  }

  ghost predicate Chain(t: Tables, k: Path, events: seq<Event>)
    decreases |events|
  {
    Paired(t) && (events == [] || (Spares(t, k, events[0]) && Chain(Handle(t, events[0]), k, events[1..])))
  }

  ghost function After(t: Tables, k: Path, events: seq<Event>): Tables
    requires Chain(t, k, events)
    decreases |events|
  {
    if events == [] then t else After(Handle(t, events[0]), k, events[1..])
  }

  /** The value most recently set for `k`. */
  function LastSet(k: Path, v: Value, events: seq<Event>): Value
    decreases |events|
  {
    if events == [] then v
    else LastSet(k, if events[0].SetBegun? && events[0].k == k then events[0].v else v, events[1..])
  }

  /** Read your writes: while a set of `k` is pending, lookups return the last value set, whatever signals arrive. */
  lemma {:induction false} ReadYourWrites(t: Tables, k: Path, events: seq<Event>)
    requires Chain(t, k, events) && k in t.undo && k in t.properties
    ensures var u := After(t, k, events);
            && Paired(u) && Entry(u, k) == Some(LastSet(k, t.properties[k], events))
            && k in u.undo && u.undo[k].item == t.undo[k].item
    decreases |events|
  {
    if events != [] {
      OneEvent(t, k, events[0]);
      ReadYourWrites(Handle(t, events[0]), k, events[1..]);
    }
  }

  lemma OneEvent(t: Tables, k: Path, e: Event)
    requires Paired(t) && Spares(t, k, e) && k in t.undo && k in t.properties
    ensures var u := Handle(t, e);
            && Entry(u, k) == Some(if e.SetBegun? && e.k == k then e.v else t.properties[k])
            && k in u.undo && u.undo[k].item == t.undo[k].item
  {
    if e.ResetDone? { ResetLeaves(t, e.base, e.recursive, e.ok, k); }
  }

  /**
   After a first set of `k` and any chain of superseding ones, a failing reply to the last restores the value,
   or the absence, that was cached before the first; a successful one leaves the last value set.
   */
  lemma FailureRestores(t: Tables, k: Path, v: Value, remote: Remote, c: Call, events: seq<Event>)
    requires Paired(t) && k !in t.undo && c !in t.pending && Sends(t, k, v, remote)
    requires Chain(OnSet(t, k, v, remote, c), k, events)
    ensures var u := After(OnSet(t, k, v, remote, c), k, events);
            && Entry(u, k) == Some(LastSet(k, v, events)) && Paired(u) && k in u.undo
            && Entry(OnReply(u, u.undo[k].call, false), k) == Entry(OnLookup(t, k, remote), k)
            && Entry(OnReply(u, u.undo[k].call, true), k) == Some(LastSet(k, v, events))
  {
    ReadYourWrites(OnSet(t, k, v, remote, c), k, events);
  }
}
