/** The per-channel XML backend: its table of channels, its pending save, and the requests it serves. */
module Backend {
  import opened Values
  import opened Paths
  import opened Names
  import opened PropertyMap
  import opened PropertyTree
  import opened SettingsFile
  import opened ChannelFiles
  import opened Durability
  import opened Writer
  import LoadRule

  /** BlconfBackendPerchannelXml, with the settings files of the user beside it. */
  class XmlBackend {
    const world: World
    var channels: map<string, Channel>
    var saveScheduled: bool
    var userFiles: map<string, seq<Event>>
    ghost var store: Store
    ghost var owner: map<object, string>

    ghost predicate Valid()
      reads this, owner.Keys
    {
      && saveScheduled == store.saveScheduled && Filed()
      && forall n {:trigger Held(n)} :: n in channels ==> Held(n)
    }

    /** The tables agree on their keys, and every file can be parsed. */
    ghost predicate Filed()
      reads this
    {
      && this !in owner && userFiles == store.userFiles && channels.Keys == store.channels.Keys
      && (forall n :: n in userFiles ==> PlainNames(userFiles[n]))
      && forall n, f :: f in world.found(n) ==> PlainNames(f)
    }

    /** All that channel `n` is made of belongs to it alone, and holds what the store says. */
    ghost predicate Held(n: string)
      requires n in channels && n in store.channels
      reads this, owner.Keys
    {
      var c := channels[n];
      && Owns(n, c) && Owns(n, c.properties) && (forall g :: g in c.properties.repr ==> Owns(n, g))
      && c.properties.Valid()
      && store.channels[n] == Chan(c.properties.lay.m, c.locked, c.dirty)
    }

    ghost predicate Owns(n: string, o: object)
      reads this
    {
      o in owner && owner[o] == n
    }

    /** Valid, except for what channel `n` holds. */
    ghost predicate ValidBut(n: string)
      reads this, owner.Keys
    {
      Filed() && forall k {:trigger Held(k)} :: k in channels && k != n ==> Held(k)
    }

    constructor (world: World, userFiles: map<string, seq<Event>>)
      requires forall n :: n in userFiles ==> PlainNames(userFiles[n])
      requires forall n, f :: f in world.found(n) ==> PlainNames(f)
      ensures Valid() && owner == map[]
      ensures this.world == world && store == Store(map[], false, userFiles)
    {
      this.world, this.userFiles := world, userFiles;
      channels, saveScheduled, owner := map[], false, map[];
      store := Store(map[], false, userFiles);
    }

    /**
     What does not belong to `n` has not changed, so every other channel holds what it held, and `n` what is its own.
     */
    twostate lemma OthersHold(n: string)
      requires old(Valid()) && unchanged(`channels, `store, `owner, `userFiles)
      requires forall o :: o in owner && owner[o] != n ==> unchanged(o)
      requires n in channels && channels[n].properties == old(channels[n].properties)
      requires forall g :: g in channels[n].properties.repr && g !in old(channels[n].properties.repr) ==> fresh(g)
      ensures ValidBut(n) && Owns(n, channels[n]) && Owns(n, channels[n].properties)
      ensures forall g :: g in channels[n].properties.repr ==> Owns(n, g) || g !in owner
    {
      forall k | k in channels && k != n ensures Held(k) { assert old(Held(k)); }
      assert old(Held(n));
    }

    /** `n` takes possession of new objects. */
    ghost method Own(n: string, objects: set<object>)
      requires ValidBut(n) && this !in objects && forall o :: o in objects ==> Owns(n, o) || o !in owner
      modifies this`owner
      ensures ValidBut(n) && forall o :: o in objects ==> Owns(n, o)
      ensures forall o :: o in old(owner) ==> o in owner && owner[o] == old(owner[o])
      ensures forall o :: o in owner ==> o in old(owner) || o in objects
    {
      owner := owner + map o: object | o in objects :: n;
      forall k | k in channels && k != n ensures Held(k) { assert old(Held(k)); }
    }

    /** Enter the channel just worked on into the books. */
    ghost method Settle(n: string)
      requires ValidBut(n) && n in channels && channels[n].properties.Valid()
      requires Owns(n, channels[n]) && Owns(n, channels[n].properties)
      requires forall g :: g in channels[n].properties.repr ==> Owns(n, g) || g !in owner
      modifies this`store, this`owner
      ensures Valid()
      ensures var c := channels[n];
              store == Store(old(store).channels[n := Chan(c.properties.lay.m, c.locked, c.dirty)], saveScheduled,
                userFiles)
      ensures forall o :: o in owner ==> o in old(owner) || o in channels[n].properties.repr
    {
      var c := channels[n];
      Own(n, c.properties.repr);
      Record(n);
    }

    ghost method Record(n: string)
      requires ValidBut(n) && n in channels && channels[n].properties.Valid()
      requires Owns(n, channels[n]) && Owns(n, channels[n].properties)
      requires forall g :: g in channels[n].properties.repr ==> Owns(n, g)
      modifies this`store
      ensures Valid()
      ensures var c := channels[n];
              store == Store(old(store).channels[n := Chan(c.properties.lay.m, c.locked, c.dirty)], saveScheduled,
                userFiles)
    {
      var c := channels[n];
      store := Store(store.channels[n := Chan(c.properties.lay.m, c.locked, c.dirty)], saveScheduled, userFiles);
      forall k | k in channels && k != n ensures Held(k) { assert old(Held(k)); }
      assert Held(n);
    }

    /** The channel named `n`, loaded from its files if it is not at hand. */
    method OpenChannel(n: string) returns (channel: Channel, ghost k: string)
      requires Valid()
      modifies this`channels, this`store, this`owner
      ensures Valid() && store == Opened(world, old(store), n)
      ensures k == KeyOf(old(store), n) && k in channels && channels[k] == channel
              && (channel in old(owner) || fresh(channel))
      ensures forall o :: o in owner ==> o in old(owner) || fresh(o)
    {
      k := KeyOf(store, n);
      if n in channels {
        assert Held(n);
        return channels[n], k;
      }
      channel := LoadChannel(world.inList, world.found(n), if n in userFiles then Some(userFiles[n]) else None);
      File(Down(n), channel);
    }

    /** g_hash_table_insert of a loaded channel. */
    method File(k: string, channel: Channel)
      requires Valid() && channel.properties.Valid() && channel !in owner && channel.properties !in owner
      requires forall g :: g in channel.properties.repr ==> g !in owner
      modifies this`channels, this`store, this`owner
      ensures Valid() && k in channels && channels[k] == channel
      ensures store ==
              old(store).(channels := old(store).channels[k := Chan(channel.properties.lay.m, channel.locked,
                channel.dirty)])
      ensures forall o :: o in owner ==>
              o in old(owner) || o == channel || o == channel.properties || o in channel.properties.repr
    {
      channels := channels[k := channel];
      store := store.(channels := store.channels[k := Chan(channel.properties.lay.m, channel.locked, channel.dirty)]);
      forall j | j in channels && j != k ensures Held(j) { assert old(Held(j)); }
      Own(k, {channel, channel.properties});
      Settle(k);
    }

    /** blconf_backend_perchannel_xml_schedule_save */
    method ScheduleSave(channel: Channel, ghost k: string)
      requires Valid() && k in channels && channels[k] == channel
      modifies this`saveScheduled, this`store, channel`dirty
      ensures Valid() && store == Saving(old(store), k, old(store).channels[k].m)
    {
      assert Held(k);
      channel.dirty := true;
      saveScheduled := true;
      OthersHold(k);
      Record(k);
    }

    /**
     Guarded blconf_backend_set: rejects malformed names, refuses locked properties, writes the user value otherwise.
     */
    method Set(n: string, property: string, v: Value) returns (ok: bool, changed: seq<string>)
      requires Valid()
      modifies this, owner.Keys
      ensures Valid() && forall o :: o in owner ==> o in old(owner) || fresh(o)
      ensures !(IsChannelName(n) && IsPropertyName(property)) ==> !ok && changed == [] && store == old(store)
      ensures IsChannelName(n) && IsPropertyName(property) ==>
                var p, m := PathOf(property), TreeOf(world, old(store), n);
                && store == SetIn(world, old(store), n, p, v) && (ok <==> !Locked(m, p))
                && changed == if Locked(m, p) || (v.Single? && PropertyMap.Get(m, p) == Some(v)) then [] else [property]
    {
      ok, changed := false, [];
      var named := ChannelIsValid(n);
      if !named { return; }
      var valid := PropertyIsValid(property);
      if !valid { return; }
      AcceptedName(property);
      ok, changed := SetValid(n, property, v);
    }

    method SetValid(n: string, property: string, v: Value) returns (ok: bool, changed: seq<string>)
      requires Valid() && NameIsValid(property) && Proper(PathOf(property)) && PathOf(property) != Root
      modifies this, owner.Keys
      ensures Valid() && forall o :: o in owner ==> o in old(owner) || fresh(o)
      ensures var p, m := PathOf(property), TreeOf(world, old(store), n);
              && store == SetIn(world, old(store), n, p, v) && (ok <==> !Locked(m, p))
              && changed == if Locked(m, p) || (v.Single? && PropertyMap.Get(m, p) == Some(v)) then [] else [property]
    {
      var channel, k := OpenChannel(n);
      var written;
      ok, written := SetHere(channel, k, property, v);
      SavingIs(Opened(world, old(store), n), k, AfterSet(TreeOf(world, old(store), n), PathOf(property), v));
      if written { ScheduleSave(channel, k); }
      changed := if written then [property] else [];
    }

    method SetHere(channel: Channel, ghost k: string, property: string, v: Value) returns (ok: bool, written: bool)
      requires Valid() && k in channels && channels[k] == channel
      requires NameIsValid(property) && Proper(PathOf(property)) && PathOf(property) != Root
      modifies this`store, this`owner, owner.Keys
      ensures Valid() && forall o :: o in owner ==> o in old(owner) || fresh(o)
      ensures var p, m := PathOf(property), old(store).channels[k].m;
              (ok <==> !Locked(m, p)) && (written <==> ok && !SetIsNoop(m, p, v))
                && store == WithTree(old(store), k, AfterSet(m, p, v))
    {
      assert Held(k);
      ok, written := channel.properties.SetProperty(property, v);
      OthersHold(k);
      Settle(k);
    }

    /** Guarded blconf_backend_get. */
    method Get(n: string, property: string) returns (found: Option<Value>)
      requires Valid()
      modifies this`channels, this`store, this`owner
      ensures Valid() && forall o :: o in owner ==> o in old(owner) || fresh(o)
      ensures !(IsChannelName(n) && IsPropertyName(property)) ==> found == None && store == old(store)
      ensures IsChannelName(n) && IsPropertyName(property) ==>
                store == Opened(world, old(store), n) && found == GetNamed(TreeOf(world, old(store), n), property)
    {
      found := None;
      var named := ChannelIsValid(n);
      if !named { return; }
      var valid := PropertyIsValid(property);
      if !valid { return; }
      var channel, k := OpenChannel(n);
      assert Held(k);
      found := channel.properties.GetProperty(property);
    }

    /** Guarded blconf_backend_get_all; "" and "/" ask for the whole channel. */
    method GetAll(n: string, base: string) returns (ok: bool, properties: map<string, Value>)
      requires Valid()
      modifies this`channels, this`store, this`owner
      ensures Valid() && forall o :: o in owner ==> o in old(owner) || fresh(o)
      ensures var allowed := IsChannelName(n) && (base == "" || base == "/" || IsPropertyName(base));
              var m := TreeOf(world, old(store), n);
              && store == (if allowed then Opened(world, old(store), n) else old(store))
              && (ok <==> allowed && (|base| < 2 || PathOf(base) in m))
              && (ok ==> forall k :: (if k in properties then Some(properties[k]) else None) ==
                                     if Under(base, k) then GetNamed(m, k) else None)
    {
      ok, properties := false, map[];
      var named := ChannelIsValid(n);
      if !named { return; }
      if base != "" && base != "/" {
        var valid := PropertyIsValid(base);
        if !valid { return; }
        AcceptedName(base);
      }
      var channel, k := OpenChannel(n);
      assert Held(k);
      ok, properties := channel.properties.GetAll(base);
    }

    /** Guarded blconf_backend_is_property_locked. */
    method IsPropertyLocked(n: string, property: string) returns (ok: bool, locked: bool)
      requires Valid()
      modifies this`channels, this`store, this`owner
      ensures Valid() && forall o :: o in owner ==> o in old(owner) || fresh(o)
      ensures ok <==> IsChannelName(n) && IsPropertyName(property)
      ensures store == if ok then Opened(world, old(store), n) else old(store)
      ensures ok ==>
              (locked <==>
                store.channels[KeyOf(old(store), n)].locked || Locked(TreeOf(world, old(store), n), PathOf(property)))
    {
      ok, locked := false, false;
      var named := ChannelIsValid(n);
      if !named { return; }
      var valid := PropertyIsValid(property);
      if !valid { return; }
      AcceptedName(property);
      var channel, k := OpenChannel(n);
      assert Held(k);
      locked := channel.locked;
      if !channel.locked { locked := channel.properties.PropertyLocked(property); }
      ok := true;
    }

    ghost predicate ResetAllowed(n: string, property: string, recursive: bool) {
      IsChannelName(n) && if property == "/" then recursive else IsPropertyName(property)
    }

    ghost function ResetEffectOn(s: Store, n: string, property: string, recursive: bool): Store {
      if property == "/" then Forgotten(world, s, n)
      else if recursive then ResetTreeIn(world, s, n, PathOf(property))
      else ResetIn(world, s, n, PathOf(property))
    }

    /**
     Whether a reset succeeds, and the notifications it queues: the name asked for, or one for every user value dropped.
     */
    ghost predicate Reports(s: Store, n: string, property: string, recursive: bool, ok: bool, changed: seq<string>,
        order: seq<Path>) {
      var p, m := PathOf(property), TreeOf(world, s, n);
      if property == "/" then
        && (ok <==> n in s.userFiles)
        && changed == BuiltNames(order) && Lists(order, UsersIn(m, m.Keys))
      else if recursive then
        && (ok <==> p in m)
        && changed == BuiltNames(order) && Lists(order, if ok then UsersIn(m, Below(m.Keys, p)) else {})
      else
        (ok <==> HasUser(m, p)) && changed == if ok then [property] else []
    }

    /**
     Guarded blconf_backend_reset: one property, a property with all below it, or ("/") the channel and its user file.
     */
    method Reset(n: string, property: string, recursive: bool)
        returns (ok: bool, changed: seq<string>, ghost order: seq<Path>)
      requires Valid()
      modifies this, owner.Keys
      ensures Valid() && forall o :: o in owner ==> o in old(owner) || fresh(o)
      ensures !ResetAllowed(n, property, recursive) ==> !ok && changed == [] && store == old(store)
      ensures ResetAllowed(n, property, recursive) ==>
                store == ResetEffectOn(old(store), n, property, recursive) &&
                Reports(old(store), n, property, recursive, ok, changed, order)
    {
      ok, changed, order := false, [], [];
      if property == "" { PassIsGrammar(property); return; }
      var named := ChannelIsValid(n);
      if !named { return; }
      if !recursive && property == "/" { return; }
      if property != "/" {
        var valid := PropertyIsValid(property);
        if !valid { return; }
        AcceptedName(property);
      }
      if !recursive { ok, changed := ResetOne(n, property); }
      else if property != "/" { ok, changed, order := ResetTree(n, property); }
      else { ok, changed, order := ResetChannel(n); }
    }

    method ResetOne(n: string, property: string) returns (ok: bool, changed: seq<string>)
      requires Valid() && NameIsValid(property)
      modifies this, owner.Keys
      ensures Valid() && forall o :: o in owner ==> o in old(owner) || fresh(o)
      ensures store == ResetIn(world, old(store), n, PathOf(property))
              && Reports(old(store), n, property, false, ok, changed, [])
    {
      var channel, k := OpenChannel(n);
      ok := ResetHere(channel, k, property);
      var m := TreeOf(world, old(store), n);
      SavingIs(Opened(world, old(store), n), k, if ok then AfterReset(m, PathOf(property)) else m);
      if ok { ScheduleSave(channel, k); }
      changed := if ok then [property] else [];
    }

    method ResetHere(channel: Channel, ghost k: string, property: string) returns (ok: bool)
      requires Valid() && k in channels && channels[k] == channel && NameIsValid(property)
      modifies this`store, this`owner, owner.Keys
      ensures Valid() && forall o :: o in owner ==> o in old(owner) || fresh(o)
      ensures var p, m := PathOf(property), old(store).channels[k].m;
              (ok <==> HasUser(m, p)) && store == WithTree(old(store), k, if ok then AfterReset(m, p) else m)
    {
      assert Held(k);
      ok := channel.properties.Reset(property);
      OthersHold(k);
      Settle(k);
    }

    method ResetTree(n: string, property: string) returns (ok: bool, changed: seq<string>, ghost order: seq<Path>)
      requires Valid() && NameIsValid(property)
      modifies this, owner.Keys
      ensures Valid() && forall o :: o in owner ==> o in old(owner) || fresh(o)
      ensures store == ResetTreeIn(world, old(store), n, PathOf(property))
              && Reports(old(store), n, property, true, ok, changed, order)
    {
      var channel, k := OpenChannel(n);
      ok, changed, order := ResetTreeHere(channel, k, property);
      var m := TreeOf(world, old(store), n);
      SavingIs(Opened(world, old(store), n), k, if ok then AfterRecursiveReset(m, PathOf(property)) else m);
      if ok { ScheduleSave(channel, k); }
    }

    method ResetTreeHere(channel: Channel, ghost k: string, property: string)
        returns (ok: bool, changed: seq<string>, ghost order: seq<Path>)
      requires Valid() && k in channels && channels[k] == channel && NameIsValid(property)
      modifies this`store, this`owner, owner.Keys
      ensures Valid() && forall o :: o in owner ==> o in old(owner) || fresh(o)
      ensures var p, m := PathOf(property), old(store).channels[k].m;
              && (ok <==> p in m) && store == WithTree(old(store), k, if ok then AfterRecursiveReset(m, p) else m)
              && changed == BuiltNames(order) && Lists(order, if ok then UsersIn(m, Below(m.Keys, p)) else {})
    {
      assert Held(k);
      ok, changed, order := channel.properties.ResetBelow(property);
      OthersHold(k);
      Settle(k);
    }

    method ResetChannel(n: string) returns (ok: bool, changed: seq<string>, ghost order: seq<Path>)
      requires Valid()
      modifies this, owner.Keys
      ensures Valid() && forall o :: o in owner ==> o in old(owner) || fresh(o)
      ensures store == Forgotten(world, old(store), n) && Reports(old(store), n, "/", true, ok, changed, order)
    {
      var channel, k := OpenChannel(n);
      changed, order := ClearHere(channel, k);
      ok := n in userFiles;
      Forget(n);
    }

    method ClearHere(channel: Channel, ghost k: string) returns (changed: seq<string>, ghost order: seq<Path>)
      requires Valid() && k in channels && channels[k] == channel
      modifies this`store, this`owner, owner.Keys
      ensures Valid() && forall o :: o in owner ==> o in old(owner) || fresh(o)
      ensures var c := old(store).channels[k];
              && store == old(store).(channels := old(store).channels[k := c.(m := Cleared(c.m, c.m.Keys))])
              && changed == BuiltNames(order) && Lists(order, UsersIn(c.m, c.m.Keys))
    {
      assert Held(k);
      changed, order := channel.properties.ClearAll();
      OthersHold(k);
      Settle(k);
    }

    /** Drop the channel from the table and unlink its file. */
    method Forget(n: string)
      requires Valid()
      modifies this`channels, this`userFiles, this`store
      ensures Valid()
      ensures store == old(store).(channels := old(store).channels - {n}, userFiles := old(store).userFiles - {n})
    {
      channels := channels - {n};
      userFiles := userFiles - {n};
      store := store.(channels := store.channels - {n}, userFiles := store.userFiles - {n});
      forall k | k in channels ensures Held(k) { assert old(Held(k)); }
    }

    /** blconf_backend_perchannel_xml_flush_channel; every write succeeds. */
    method FlushChannel(n: string, channel: Channel, ghost kids: Order)
      requires Valid() && n in channels && channels[n] == channel && kids == channel.properties.lay.kids
      requires Ordered(store.channels[n].m, kids)
      modifies this`userFiles, this`store, channel`dirty
      ensures Valid()
      ensures var c := old(store).channels[n];
              store == old(store).(channels := old(store).channels[n := c.(dirty := false)],
                                   userFiles := old(store).userFiles[n := LoadRule.FileEvents(FileOf(n, c.m, kids))])
      ensures SameTrees()
    {
      assert Held(n);
      channel.properties.IsClosed();
      var text := WriteFile(n, channel.properties);
      WrittenIsPlain(n, channel.properties.lay.m, kids);
      Replace(n, text);
      MarkClean(n, channel);
    }

    /** Every channel's tree keeps its shape and content. */
    twostate predicate SameTrees()
      reads this, channels.Values, set c | c in channels.Values :: c.properties
    {
      && channels == old(channels)
      && forall k :: k in channels ==> SameTree(channels[k])
    }

    twostate predicate SameTree(c: Channel)
      reads c, c.properties
    {
      c.properties == old(c.properties) && c.properties.lay == old(c.properties.lay)
    }

    /** rename() of the written file over the old one. */
    method Replace(n: string, text: seq<Event>)
      requires Valid() && PlainNames(text)
      modifies this`userFiles, this`store
      ensures Valid() && store == old(store).(userFiles := old(store).userFiles[n := text])
      ensures SameTrees()
    {
      userFiles := userFiles[n := text];
      store := store.(userFiles := store.userFiles[n := text]);
      forall k | k in channels ensures Held(k) { assert old(Held(k)); }
    }

    method MarkClean(n: string, channel: Channel)
      requires Valid() && n in channels && channels[n] == channel
      modifies this`store, channel`dirty
      ensures Valid()
              && store == old(store).(channels := old(store).channels[n := old(store).channels[n].(dirty := false)])
      ensures SameTrees()
    {
      assert Held(n);
      channel.dirty := false;
      OthersHold(n);
      Record(n);
    }

    lemma TreesAreOrdered(orders: map<string, Order>)
      requires Valid() && orders == map n | n in channels :: channels[n].properties.lay.kids
      ensures OrdersFit(store, orders)
    {
      forall n | n in channels ensures Ordered(store.channels[n].m, orders[n]) {
        assert Held(n);
        TreeIsOrdered(channels[n].properties);
      }
    }

    /** blconf_backend_perchannel_xml_flush; `orders` are the orders of the nodes in the channels' trees. */
    method Flush() returns (ghost orders: map<string, Order>)
      requires Valid()
      modifies this`userFiles, this`store, channels.Values`dirty
      ensures Valid() && OrdersFit(old(store), orders) && store == Flushed(old(store), orders)
    {
      orders := map n | n in channels :: channels[n].properties.lay.kids;
      TreesAreOrdered(orders);
      ghost var s0 := store;
      FlushedNone(s0, orders);
      var keys, done: set<string> := channels.Keys, {};
      while done != keys
        invariant Valid() && done <= keys == channels.Keys
        invariant forall k :: k in keys ==> channels[k].properties.lay.kids == orders[k]
        invariant store == FlushedIn(s0, orders, done)
        decreases keys - done
      {
        var n :| n in keys && n !in done;
        FlushIfDirty(n, channels[n], s0, orders, done);
        done := done + {n};
      }
    }

    method FlushIfDirty(n: string, channel: Channel, ghost s0: Store, ghost orders: map<string, Order>,
        ghost done: set<string>)
      requires Valid() && n in channels && channels[n] == channel
      requires OrdersFit(s0, orders) && store == FlushedIn(s0, orders, done) && n !in done
      requires n in orders && channel.properties.lay.kids == orders[n]
      modifies this`userFiles, this`store, channel`dirty
      ensures Valid() && store == FlushedIn(s0, orders, done + {n})
      ensures SameTrees()
    {
      FlushedOne(s0, orders, done, n);
      assert Held(n);
      if channel.dirty { FlushChannel(n, channel, orders[n]); }
    }

    /** blconf_backend_perchannel_xml_save_timeout */
    method SaveTimeout() returns (ghost orders: map<string, Order>)
      requires Valid()
      modifies this`saveScheduled, this`userFiles, this`store, channels.Values`dirty
      ensures Valid() && OrdersFit(old(store), orders) && store == Flushed(old(store), orders).(saveScheduled := false)
    {
      Unschedule();
      orders := Flush();
    }

    method Unschedule()
      requires Valid()
      modifies this`saveScheduled, this`store
      ensures Valid() && store == old(store).(saveScheduled := false)
    {
      saveScheduled := false;
      store := store.(saveScheduled := false);
      forall k | k in channels ensures Held(k) { assert old(Held(k)); }
    }
  }
}
