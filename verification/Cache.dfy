/**
 The client's cache of one channel: what every handler does to its three tables.

 Names and valid paths are in bijection (Paths.PathOfJoin, Paths.JoinPathOf), so the tables are keyed by paths.
 */
module CacheTables {
  import opened Values
  import opened Paths

  type Call = nat

  /** What a pending set must restore if it fails, and the call whose reply decides. */
  datatype Undo = Undo(call: Call, item: Option<Value>)

  datatype Tables = Tables(
    properties: map<Path, Value>,
    undo: map<Path, Undo>,
    pending: map<Call, Path>)

  /** The outcome of a blocking GetProperty call. */
  datatype Remote = Found(value: Value) | NotFound | Failed

  function Entry(t: Tables, k: Path): Option<Value> {
    if k in t.properties then Some(t.properties[k]) else None
  }

  /** `undo` and `pending` hold the same records, each under its property and under its call. */
  ghost predicate Paired(t: Tables) {
    && (forall k :: k in t.undo ==> t.undo[k].call in t.pending && t.pending[t.undo[k].call] == k)
    && (forall c :: c in t.pending ==> t.pending[c] in t.undo && t.undo[t.pending[c]].call == c)
  }

  function OnChanged(t: Tables, k: Path, v: Value): Tables {
    if k in t.undo then t else t.(properties := t.properties[k := v])
  }

  function OnRemoved(t: Tables, k: Path): Tables {
    t.(properties := t.properties - {k})
  }

  function OnReply(t: Tables, c: Call, ok: bool): Tables
    requires Paired(t)
  {
    if c !in t.pending then t else
      var k := t.pending[c];
      var u := Tables(t.properties, t.undo - {k}, t.pending - {c});
      if k !in t.properties || ok then u
      else if t.undo[k].item.Some? then u.(properties := t.properties[k := t.undo[k].item.value])
      else u.(properties := t.properties - {k})
  }

  function OnLookup(t: Tables, k: Path, remote: Remote): Tables {
    if k !in t.properties && remote.Found? then t.(properties := t.properties[k := remote.value]) else t
  }

  /** The set goes on to the daemon: the value differs from the cached one and no error stops it. */
  predicate Sends(t: Tables, k: Path, v: Value, remote: Remote) {
    var u := OnLookup(t, k, remote);
    !(k !in t.properties && remote.Failed?) && !(k in u.properties && GEqual(u.properties[k], v))
  }

  function OnSet(t: Tables, k: Path, v: Value, remote: Remote, c: Call): Tables
    requires Paired(t)
  {
    var u := OnLookup(t, k, remote);
    if !Sends(t, k, v, remote) then u else
      WithCall(u, k, c, Entry(u, k)).(properties := u.properties[k := v])
  }

  /** A call for `k` supersedes the pending one, whose fall-back value it inherits; else it falls back to `item`. */
  function WithCall(t: Tables, k: Path, c: Call, item: Option<Value>): Tables {
    Tables(
      t.properties,
      t.undo[k := Undo(c, if k in t.undo then t.undo[k].item else item)],
      (if k in t.undo then t.pending - {t.undo[k].call} else t.pending)[c := k])
  }

  /** The calls cancelled once `k` is set anew. */
  function Cancelling(cancelled: set<Call>, t: Tables, k: Path): set<Call> {
    if k in t.undo then cancelled + {t.undo[k].call} else cancelled
  }

  lemma WithCallPaired(t: Tables, k: Path, c: Call, item: Option<Value>)
    requires Paired(t) && c !in t.pending
    ensures Paired(WithCall(t, k, c, item))
  {
  }

  /** !g_ascii_strncasecmp(prefix, name, strlen(prefix)) */
  predicate StartsWithNoCase(name: string, prefix: string) {
    |prefix| <= |name| && forall i :: 0 <= i < |prefix| ==> Lower(name[i]) == Lower(prefix[i])
  }

  /** The name a client passes for a path; the channel root is called "/". */
  function NameOf(p: Path): string {
    if p == Root then "/" else Join(p)
  }

  predicate Evicts(base: Path, recursive: bool, k: Path) {
    k == base || (recursive && StartsWithNoCase(Join(k), NameOf(base) + "/"))
  }

  function OnReset(t: Tables, base: Path, recursive: bool, ok: bool): Tables {
    if ok then t.(properties := map k | k in t.properties && !Evicts(base, recursive, k) :: t.properties[k]) else t
  }

  /**
   What a reset leaves: nothing changes if it failed; if it succeeded the base is gone, and with it, if the reset was
   recursive, exactly the names that continue the base's name after a '/', ASCII case ignored.
   */
  lemma ResetLeaves(t: Tables, base: Path, recursive: bool, ok: bool, k: Path)
    ensures Entry(OnReset(t, base, recursive, ok), k) ==
            if ok && (k == base || (recursive && Down(NameOf(base)) + "/" <= Down(Join(k)))) then None else Entry(t, k)
    ensures OnReset(t, base, recursive, ok).undo == t.undo && OnReset(t, base, recursive, ok).pending == t.pending
  {
    PrefixNoCase(Join(k), NameOf(base));
  }

  /** Comparing the first characters without case is comparing the lower-case forms. */
  lemma PrefixNoCase(name: string, base: string)
    ensures StartsWithNoCase(name, base + "/") <==> Down(base) + "/" <= Down(name)
  {
    var prefix := base + "/";
    assert Down(prefix) == Down(base) + "/";
    if |prefix| <= |name| {
      assert forall i :: 0 <= i < |prefix| ==> Down(name)[i] == Lower(name[i]) && Down(prefix)[i] == Lower(prefix[i]);
      if StartsWithNoCase(name, prefix) { assert Down(name)[..|prefix|] == Down(prefix); }
      if Down(prefix) <= Down(name) {
        forall i | 0 <= i < |prefix| ensures Lower(name[i]) == Lower(prefix[i]) {
          assert Down(name)[i] == Down(name)[..|prefix|][i];
        }
      }
    }
  }

  /** A removal drops the value, pending set or not, and nothing else. */
  lemma RemovalDrops(t: Tables, k: Path, q: Path)
    ensures Entry(OnRemoved(t, k), q) == if q == k then None else Entry(t, q)
    ensures OnRemoved(t, k).undo == t.undo && OnRemoved(t, k).pending == t.pending
  {
  }

  /** A reply changes a cached value only if it is a failure the value waits for: then the remembered one is back. */
  lemma ReplyEffect(t: Tables, c: Call, ok: bool, k: Path)
    requires Paired(t)
    ensures Entry(OnReply(t, c, ok), k) ==
            if !ok && c in t.pending && t.pending[c] == k && Entry(t, k).Some? then t.undo[k].item else Entry(t, k)
  {
  }

  /** The bookkeeping holds in every reachable state: each handler keeps it, a set with any unused call. */
  lemma HandlersKeepPaired(t: Tables, k: Path, v: Value, remote: Remote, c: Call, ok: bool, recursive: bool)
    requires Paired(t)
    ensures Paired(OnChanged(t, k, v)) && Paired(OnRemoved(t, k)) && Paired(OnReply(t, c, ok))
    ensures Paired(OnLookup(t, k, remote)) && Paired(OnReset(t, k, recursive, ok))
    ensures c !in t.pending ==> Paired(OnSet(t, k, v, remote, c))
  {
    if c !in t.pending { WithCallPaired(OnLookup(t, k, remote), k, c, Entry(OnLookup(t, k, remote), k)); }
  }

  /** Evicting recursively really empties the cache at and below the base, unless the base is the root. */
  lemma {:induction false} EvictsBelow(base: Path, k: Path)
    requires Above(base, k) && base != Root
    ensures Evicts(base, true, k)
  {
    if k != base {
      JoinAbove(base, k);
    }
  }

  /** A recursive reset of the root evicts no named property: the prefix it looks for is "//". */
  lemma RootEvictsNothing(k: Path)
    requires Proper(k) && k != Root
    ensures !Evicts(Root, true, k)
  {
    if StartsWithNoCase(Join(k), "/" + "/") {
      JoinSecond(k);
    }
  }

  lemma {:induction false} JoinSecond(k: Path)
    requires Proper(k) && k != Root
    ensures |Join(k)| >= 2 && Join(k)[0] == '/' && Lower(Join(k)[1]) != '/'
  {
    if k.up == Root {
      assert Join(k) == "/" + k.last;
      assert Join(k)[1] == k.last[0];
    } else {
      JoinSecond(k.up);
    }
  }
}

module Cache {
  import opened Values
  import opened Paths
  import opened CacheTables

  /** BlconfCacheOldItem */
  class OldItem {
    const property: Path
    const item: Option<Value>
    var call: Option<Call>

    constructor (property: Path, item: Option<Value>)
      ensures this.property == property && this.item == item && call == None
    {
      this.property, this.item, this.call := property, item, None;
    }
  }

  /**
   The part of the D-Bus proxy the cache uses: calls are numbered and recorded in the order they are begun; a call that
   was cancelled gets no reply, and every other call gets one at most.
   */
  class Proxy {
    var next: Call
    var begun: seq<(Call, Path, Value)>
    var cancelled: set<Call>
    var replied: set<Call>

    ghost predicate Valid()
      reads this
    {
      forall c :: c in cancelled || c in replied ==> c < next
    }

    /** Among the calls `mine`, exactly the `pending` ones may still get a reply. */
    ghost predicate CanReply(pending: set<Call>, mine: set<Call>)
      reads this
    {
      && Valid() && (forall c :: c in mine ==> c < next)
      && forall c: Call {:trigger c in pending} :: c in pending <==> c in mine && c !in cancelled && c !in replied
    }

    lemma CanReplyMore(pending: set<Call>, mine: set<Call>, c: Call)
      requires CanReply(pending, mine) && c < next && c !in cancelled && c !in replied
      ensures CanReply(pending + {c}, mine + {c})
    {
    }

    constructor ()
      ensures Valid() && next == 0 && begun == [] && cancelled == {} && replied == {}
    {
      next, begun, cancelled, replied := 0, [], {}, {};
    }

    method BeginSetProperty(k: Path, v: Value) returns (c: Call)
      requires Valid()
      modifies this
      ensures Valid() && c == old(next) && next == old(next) + 1
      ensures begun == old(begun) + [(c, k, v)] && cancelled == old(cancelled) && replied == old(replied)
      ensures c !in cancelled && c !in replied
    {
      c := next;
      next := next + 1;
      begun := begun + [(c, k, v)];
    }

    method CancelCall(c: Call)
      requires Valid() && c < next
      modifies this`cancelled
      ensures Valid() && cancelled == old(cancelled) + {c}
    {
      cancelled := cancelled + {c};
    }

    /** The reply to a call has been taken. */
    method EndCall(c: Call)
      requires Valid() && c < next
      modifies this`replied
      ensures Valid() && replied == old(replied) + {c}
    {
      replied := replied + {c};
    }
  }

  class BlconfCache {
    var properties: map<Path, Value>
    var pendingCalls: map<Call, OldItem>
    var oldProperties: map<Path, OldItem>
    const proxy: Proxy
    ghost var view: Tables
    ghost var mine: set<Call>

    ghost predicate Valid()
      reads this, proxy, oldProperties.Values
    {
      Core() && CallsFit()
    }

    /** The tables hold what the view says. */
    ghost predicate Core()
      reads this`properties, this`pendingCalls, this`oldProperties, this`view, oldProperties.Values
    {
      && properties == view.properties && Paired(view)
      && oldProperties.Keys == view.undo.Keys && pendingCalls.Keys == view.pending.Keys
      && (forall k {:trigger Recorded(k)} :: k in oldProperties ==> Recorded(k))
      && (forall c :: c in pendingCalls ==> pendingCalls[c] == oldProperties[view.pending[c]])
    }

    /**
     The pending calls are those this cache has begun whose reply may still come: neither cancelled nor replied to.
     */
    ghost predicate CallsFit()
      reads this`pendingCalls, this`mine, proxy
    {
      proxy.CanReply(pendingCalls.Keys, mine)
    }

    /**
     A reply that the bus can still deliver finds its record, in both tables and waiting for that very call: the branch
     for a missing record is never taken.
     */
    lemma ReplyFindsItsRecord(c: Call)
      requires Valid() && c in mine && c !in proxy.cancelled && c !in proxy.replied
      ensures c in pendingCalls && pendingCalls[c].call == Some(c)
      ensures pendingCalls[c].property in oldProperties && oldProperties[pendingCalls[c].property] == pendingCalls[c]
    {
      assert c in pendingCalls;
      assert Recorded(view.pending[c]);
    }

    /** Two calls whose replies can still come are for different properties. */
    lemma OneCallPerProperty(c: Call, d: Call)
      requires Valid() && c in pendingCalls && d in pendingCalls && pendingCalls[c].property == pendingCalls[d].property
      ensures c == d
    {
      assert Recorded(view.pending[c]) && Recorded(view.pending[d]);
    }

    /** The record of `k` carries what the view says of it. */
    ghost predicate Recorded(k: Path)
      requires k in oldProperties && k in view.undo
      reads this`oldProperties, this`view, oldProperties.Values
    {
      var o := oldProperties[k];
      o.property == k && o.item == view.undo[k].item && o.call == Some(view.undo[k].call)
    }

    constructor (proxy: Proxy)
      requires proxy.Valid()
      ensures Valid() && view == Tables(map[], map[], map[]) && this.proxy == proxy && mine == {}
    {
      this.proxy, mine := proxy, {};
      properties, pendingCalls, oldProperties := map[], map[], map[];
      view := Tables(map[], map[], map[]);
    }

    /** A handler that only rewrites the cached values. */
    method Replace(properties: map<Path, Value>)
      requires Valid()
      modifies this`properties, this`view
      ensures Valid() && view == old(view).(properties := properties)
    {
      this.properties := properties;
      view := view.(properties := properties);
      forall k | k in oldProperties ensures Recorded(k) { assert old(Recorded(k)); }
    }

    /** blconf_cache_property_changed; `changed` tells whether the cache's own signal is emitted. */
    method PropertyChanged(k: Path, v: Value) returns (changed: bool)
      requires Valid()
      modifies this`properties, this`view
      ensures Valid() && view == OnChanged(old(view), k, v)
      ensures properties == if k in old(oldProperties) then old(properties) else old(properties)[k := v]
      ensures changed <==> k !in old(oldProperties) && !(v.Single? && Entry(old(view), k) == Some(v))
    {
      if k in oldProperties { return false; }
      changed := true;
      if k in properties {
        changed := !GEqual(properties[k], v);
        if changed { Replace(properties[k := v]); }
      } else {
        Replace(properties[k := v]);
      }
    }

    /** blconf_cache_property_removed */
    method PropertyRemoved(k: Path)
      requires Valid()
      modifies this`properties, this`view
      ensures Valid() && view == OnRemoved(old(view), k)
      ensures properties == old(properties) - {k}
    {
      Replace(properties - {k});
    }

    /** blconf_cache_set_property_reply_handler */
    method SetPropertyReply(c: Call, ok: bool)
      requires Valid()
      modifies this`properties, this`oldProperties, this`pendingCalls, this`view, proxy`replied, oldProperties.Values
      ensures Valid() && view == OnReply(old(view), c, ok)
      ensures proxy.replied == old(proxy.replied) + (if c in old(pendingCalls) then {c} else {})
    {
      if c !in pendingCalls { return; }
      var record := pendingCalls[c];
      var k := record.property;
      assert Recorded(view.pending[c]);
      TakeReply(c, record);
      if k in properties {
        if !ok { Restore(k, record.item); }
        Retire(record);
      }
    }

    /** The call is over, and so is its record. */
    method TakeReply(c: Call, record: OldItem)
      requires Valid() && c in pendingCalls && pendingCalls[c] == record
      modifies this`oldProperties, this`pendingCalls, this`view, proxy`replied
      ensures Valid() && record !in oldProperties.Values && proxy.replied == old(proxy.replied) + {c}
      ensures view == Tables(old(view).properties, old(view).undo - {old(view).pending[c]}, old(view).pending - {c})
    {
      Forget(c, record);
      proxy.EndCall(c);
    }

    /** Put back what was cached before, or its absence. */
    method Restore(k: Path, item: Option<Value>)
      requires Valid() && k in properties
      modifies this`properties, this`view
      ensures Valid()
              && view == old(view).(properties := if item.Some? then old(properties)[k := item.value]
                 else old(properties) - {k})
    {
      if item.Some? {
        if !GEqual(properties[k], item.value) {
          Replace(properties[k := item.value]);
        } else {
          assert properties[k := item.value] == properties;
        }
      } else {
        Replace(properties - {k});
      }
    }

    /** The record no longer waits for a call. */
    method Retire(record: OldItem)
      requires Valid() && record !in oldProperties.Values
      modifies record
      ensures Valid() && view == old(view)
    {
      record.call := None;
      forall k | k in oldProperties ensures Recorded(k) { assert old(Recorded(k)); }
    }

    /** Take a record out of both tables. */
    method Forget(c: Call, record: OldItem)
      requires Core() && c in pendingCalls && pendingCalls[c] == record
      modifies this`oldProperties, this`pendingCalls, this`view
      ensures Core() && record !in oldProperties.Values && pendingCalls == old(pendingCalls) - {c}
      ensures view == Tables(old(view).properties, old(view).undo - {old(view).pending[c]}, old(view).pending - {c})
    {
      assert Recorded(view.pending[c]);
      oldProperties := oldProperties - {record.property};
      pendingCalls := pendingCalls - {c};
      view := Tables(view.properties, view.undo - {view.pending[c]}, view.pending - {c});
      forall q | q in oldProperties ensures Recorded(q) { assert old(Recorded(q)); }
    }

    /** blconf_cache_lookup_locked; `remote` is the answer of the blocking call, made only if `k` is not cached. */
    method LookupLocked(k: Path, remote: Remote) returns (found: Option<Value>)
      requires Valid()
      modifies this`properties, this`view
      ensures Valid() && view == OnLookup(old(view), k, remote)
      ensures found == if k in old(properties) then Some(old(properties)[k])
                       else if remote.Found? then Some(remote.value) else None
      ensures found == Entry(view, k) && forall q :: q != k ==> Entry(view, q) == Entry(old(view), q)
    {
      if k !in properties && remote.Found? {
        Replace(properties[k := remote.value]);
      }
      found := if k in properties then Some(properties[k]) else None;
    }

    /** blconf_cache_set */
    method Set(k: Path, v: Value, remote: Remote) returns (ok: bool)
      requires Valid()
      modifies this, proxy, oldProperties.Values
      ensures Valid() && view == OnSet(old(view), k, v, remote, old(proxy.next))
      ensures ok <==> k in old(properties) || !remote.Failed?
      ensures var known := if k in old(properties) then Some(old(properties)[k])
                           else if remote.Found? then Some(remote.value) else None;
              ok ==>
                Entry(view, k) == Some(v) &&
                proxy.begun == old(proxy.begun) +
                               if v.Single? && known == Some(v) then [] else [(old(proxy.next), k, v)]
      ensures if Sends(old(view), k, v, remote) then Begun(old(view), k, v) && mine == old(mine) + {old(proxy.next)}
              else mine == old(mine) && proxy.begun == old(proxy.begun) && proxy.next == old(proxy.next)
                   && proxy.cancelled == old(proxy.cancelled)
    {
      var item: Option<Value> := None;
      if k in properties {
        item := Some(properties[k]);
      } else {
        item := LookupLocked(k, remote);
        if item.None? && remote.Failed? { return false; }
      }
      ghost var t := view;
      assert t == OnLookup(old(view), k, remote) && item == Entry(t, k);
      assert Sends(old(view), k, v, remote) <==> item.None? || !GEqual(item.value, v);
      ok := true;
      if item.None? || !GEqual(item.value, v) { SetAsync(k, v, item); }
    }

    /** The optimistic part: send the new value, and cache it at once. */
    method SetAsync(k: Path, v: Value, item: Option<Value>)
      requires Valid()
      modifies this, proxy, oldProperties.Values
      ensures Valid() && Begun(old(view), k, v) && mine == old(mine) + {old(proxy.next)}
      ensures view == WithCall(old(view), k, old(proxy.next), item).(properties := old(properties)[k := v])
    {
      BeginCall(k, v, item);
      Replace(properties[k := v]);
    }

    /** One more call was begun, for `k`; the one it supersedes, if any, was cancelled. */
    twostate predicate Begun(t: Tables, k: Path, v: Value)
      reads proxy
    {
      && proxy.begun == old(proxy.begun) + [(old(proxy.next), k, v)] && proxy.next == old(proxy.next) + 1
      && proxy.replied == old(proxy.replied)
      && proxy.cancelled == Cancelling(old(proxy.cancelled), t, k)
    }

    /** As Valid(), except that the record of `k` waits for a call. */
    ghost predicate Open(k: Path, item: Option<Value>, record: OldItem)
      reads this, oldProperties.Values
    {
      && properties == view.properties && Paired(view)
      && oldProperties.Keys == view.undo.Keys + {k} && oldProperties[k] == record
      && record.property == k && record.item == WithCall(view, k, 0, item).undo[k].item && record.call == None
      && pendingCalls.Keys == view.pending.Keys - (if k in view.undo then {view.undo[k].call} else {})
      && (forall q {:trigger Recorded(q)} :: q in oldProperties && q != k ==> Recorded(q))
      && (forall c :: c in pendingCalls ==> pendingCalls[c] == oldProperties[view.pending[c]])
    }

    /** The record of a pending set, its call cancelled, or a new one that keeps `item`. */
    method OpenRecord(k: Path, item: Option<Value>) returns (record: OldItem)
      requires Valid()
      modifies this`oldProperties, this`pendingCalls, proxy, oldProperties.Values
      ensures Open(k, item, record) && CallsFit() && view == old(view)
      ensures record in old(oldProperties.Values) || fresh(record)
      ensures proxy.begun == old(proxy.begun) && proxy.next == old(proxy.next) && proxy.replied == old(proxy.replied)
      ensures proxy.cancelled == Cancelling(old(proxy.cancelled), view, k)
    {
      if k in oldProperties {
        record := oldProperties[k];
        assert Recorded(k);
        if record.call.Some? { Supersede(k, item, record, record.call.value); }
      } else {
        record := new OldItem(k, item);
        oldProperties := oldProperties[k := record];
        forall q | q in oldProperties && q != k ensures Recorded(q) { assert old(Recorded(q)); }
      }
    }

    /** A previous set has not returned yet: its call is cancelled, its record kept. */
    method Supersede(k: Path, ghost item: Option<Value>, record: OldItem, c: Call)
      requires Valid() && k in oldProperties && oldProperties[k] == record && record.call == Some(c)
      modifies this`pendingCalls, proxy`cancelled, record
      ensures Open(k, item, record) && CallsFit() && proxy.cancelled == old(proxy.cancelled) + {c}
    {
      assert Recorded(k);
      proxy.CancelCall(c);
      pendingCalls := pendingCalls - {c};
      record.call := None;
      forall q | q in oldProperties && q != k ensures Recorded(q) { assert old(Recorded(q)); }
    }

    /** Replace the pending call for `k`, or record a first one together with the value to fall back to. */
    method BeginCall(k: Path, v: Value, item: Option<Value>)
      requires Valid()
      modifies this`oldProperties, this`pendingCalls, this`view, this`mine, proxy, oldProperties.Values
      ensures Valid() && Begun(old(view), k, v) && mine == old(mine) + {old(proxy.next)}
      ensures view == WithCall(old(view), k, old(proxy.next), item)
    {
      NextIsNew();
      WithCallPaired(view, k, proxy.next, item);
      var record := OpenRecord(k, item);
      SendFor(k, v, item, record);
    }

    /** Begin the call that the open record waits for. */
    method SendFor(k: Path, v: Value, item: Option<Value>, record: OldItem)
      requires Open(k, item, record) && CallsFit() && Paired(WithCall(view, k, proxy.next, item))
      modifies this`pendingCalls, this`view, this`mine, proxy, record
      ensures Valid() && view == WithCall(old(view), k, old(proxy.next), item) && mine == old(mine) + {old(proxy.next)}
      ensures proxy.begun == old(proxy.begun) + [(old(proxy.next), k, v)] && proxy.next == old(proxy.next) + 1
      ensures proxy.cancelled == old(proxy.cancelled) && proxy.replied == old(proxy.replied)
    {
      var c := Send(k, v);
      Close(k, item, record, c);
      Adopt(c);
    }

    lemma NextIsNew()
      requires Valid()
      ensures proxy.next !in view.pending
    {
      assert proxy.next !in pendingCalls;
    }

    /** dbus_g_proxy_begin_call */
    method Send(k: Path, v: Value) returns (c: Call)
      requires CallsFit()
      modifies proxy
      ensures c == old(proxy.next) && c !in pendingCalls && proxy.CanReply(pendingCalls.Keys + {c}, mine + {c})
      ensures proxy.begun == old(proxy.begun) + [(c, k, v)] && proxy.next == old(proxy.next) + 1
      ensures proxy.cancelled == old(proxy.cancelled) && proxy.replied == old(proxy.replied)
    {
      c := proxy.BeginSetProperty(k, v);
      assert CallsFit();
      proxy.CanReplyMore(pendingCalls.Keys, mine, c);
    }

    /** The new call is one of this cache's. */
    ghost method Adopt(c: Call)
      requires Core() && proxy.CanReply(pendingCalls.Keys, mine + {c})
      modifies this`mine
      ensures Valid() && mine == old(mine) + {c}
    {
      mine := mine + {c};
    }

    /** Give the waiting record its call. */
    method Close(k: Path, item: Option<Value>, record: OldItem, c: Call)
      requires Open(k, item, record) && c !in pendingCalls && Paired(WithCall(view, k, c, item))
      modifies this`pendingCalls, this`view, record
      ensures Core() && view == WithCall(old(view), k, c, item) && pendingCalls.Keys == old(pendingCalls.Keys) + {c}
    {
      SameRecords(k, c, item);
      record.call := Some(c);
      pendingCalls := pendingCalls[c := record];
      view := WithCall(view, k, c, item);
      forall q | q in oldProperties ensures Recorded(q) {
        if q != k { assert old(Recorded(q)); }
      }
    }

    /** The calls that stay pending are for other properties. */
    lemma SameRecords(k: Path, c: Call, item: Option<Value>)
      requires Paired(view)
               && pendingCalls.Keys == view.pending.Keys - (if k in view.undo then {view.undo[k].call} else {})
      ensures var t := WithCall(view, k, c, item);
              t.pending.Keys == pendingCalls.Keys + {c} &&
              forall b :: b in pendingCalls && b != c ==> t.pending[b] == view.pending[b] && t.pending[b] != k
    {
    }

    /** blconf_cache_reset; `ok` is the outcome of the blocking ResetProperty call. */
    method Reset(base: Path, recursive: bool, ok: bool)
      requires Valid()
      modifies this`properties, this`view
      ensures Valid() && view == OnReset(old(view), base, recursive, ok)
      ensures forall k ::
                Entry(view, k) ==
                if ok && (k == base || (recursive && Down(NameOf(base)) + "/" <= Down(Join(k)))) then None
                else Entry(old(view), k)
    {
      ghost var t := view;
      Evict(base, recursive, ok);
      forall k
        ensures Entry(view, k) ==
                if ok && (k == base || (recursive && Down(NameOf(base)) + "/" <= Down(Join(k)))) then None
                else Entry(t, k)
      {
        ResetLeaves(t, base, recursive, ok, k);
      }
    }

    /** Evict the base, and walk over the rest if the reset was recursive. */
    method Evict(base: Path, recursive: bool, ok: bool)
      requires Valid()
      modifies this`properties, this`view
      ensures Valid() && view == OnReset(old(view), base, recursive, ok)
    {
      if ok {
        Replace(properties - {base});
        if recursive {
          var prefix := NameOf(base) + "/";
          Replace(map k | k in properties && !StartsWithNoCase(Join(k), prefix) :: properties[k]);
        }
      }
    }
  }
}
