/** Writing a channel's tree as events, and the parser that merges events into it in place. */
module ChannelFiles {
  import opened Values
  import opened Paths
  import opened Sequences
  import opened PropertyMap
  import opened PropertyTree
  import opened Numerals
  import opened SettingsFile
  import opened Writer
  import LoadRule

  /* ---- Writing ---- */

  lemma {:induction false} ValueEventsAppend(a: seq<Attrs>, v: Attrs)
    ensures ValueEvents(a + [v]) == ValueEvents(a) + [Start("value", v), End]
    decreases |a|
  {
    if a == [] {
      assert a + [v] == [v];
    } else {
      assert (a + [v])[1..] == a[1..] + [v];
      ValueEventsAppend(a[1..], v);
    }
  }

  /** The <value> elements of an array. */
  method WriteItems(xs: seq<Scalar>) returns (out: seq<Event>)
    ensures out == ValueEvents(ItemAttrs(xs))
  {
    out := [];
    for i := 0 to |xs|
      invariant out == ValueEvents(ItemAttrs(xs[..i]))
    {
      TakeNext(xs, i);
      ValueEventsAppend(ItemAttrs(xs[..i]), ScalarAttrs(xs[i]));
      out := out + [Start("value", ScalarAttrs(xs[i])), End];
    }
    TakeAll(xs);
  }

  lemma TreeIsOrdered(tree: PropTree)
    requires tree.Valid()
    ensures Ordered(tree.lay.m, tree.lay.kids)
  {
    forall p | p in tree.lay.m ensures Branches(tree.lay.m, tree.lay.kids, p) { tree.ChildrenOf(p); }
  }

  /** blconf_backend_perchannel_xml_write_node */
  method WriteNode(tree: PropTree, node: GNode, ghost p: Path, ghost h: nat) returns (out: seq<Event>)
    requires tree.Valid() && p in tree.lay.m && p != Root && tree.lay.at[p] == node
    requires Ordered(tree.lay.m, tree.lay.kids) && forall q :: q in tree.lay.m ==> Depth(q) <= h
    ensures out == DocEvents(DocOf(tree.lay.m, tree.lay.kids, p, h))
    decreases h - Depth(p), 1
  {
    assert tree.Linked(p) && Branches(tree.lay.m, tree.lay.kids, p);
    out := [Start("property", [("name", node.name)] + ValueAttrs(node.value))];
    var items := [];
    if node.value.Some? && node.value.value.Array? {
      items := WriteItems(node.value.value.items);
    }
    var kids := WriteChildren(tree, node, p, h);
    out := out + items + kids + [End];
  }

  method WriteChildren(tree: PropTree, node: GNode, ghost p: Path, ghost h: nat) returns (out: seq<Event>)
    requires tree.Valid() && p in tree.lay.m && tree.lay.at[p] == node
    requires Ordered(tree.lay.m, tree.lay.kids) && forall q :: q in tree.lay.m ==> Depth(q) <= h
    requires Branches(tree.lay.m, tree.lay.kids, p)
    ensures out == DocsEvents(DocsOf(tree.lay.m, tree.lay.kids, p, tree.lay.kids[p], h))
    decreases h - Depth(p), 0
  {
    ghost var m, kids, names := tree.lay.m, tree.lay.kids, tree.lay.kids[p];
    assert tree.Linked(p);
    TakeAll(names);
    out := [];
    var i := 0;
    while i < |node.children|
      invariant i <= |names| == |node.children|
      invariant out == DocsEvents(DocsOf(m, kids, p, names[..i], h))
    {
      WrittenChild(m, kids, p, names, i, h);
      var one := WriteNode(tree, node.children[i], Sub(p, names[i]), h);
      out := out + one;
      i := i + 1;
    }
    assert names[..i] == names;
  }

  lemma WrittenChild(m: PMap, kids: Order, p: Path, names: seq<string>, i: nat, h: nat)
    requires Ordered(m, kids) && p in m && forall q :: q in m ==> Depth(q) <= h
    requires i < |names| && forall x :: x in names ==> Sub(p, x) in m
    ensures DocsEvents(DocsOf(m, kids, p, names[..i + 1], h)) ==
            DocsEvents(DocsOf(m, kids, p, names[..i], h)) + DocEvents(DocOf(m, kids, Sub(p, names[i]), h))
  {
    TakeNext(names, i);
    DocsEventsAppend(DocsOf(m, kids, p, names[..i], h), DocOf(m, kids, Sub(p, names[i]), h));
  }

  /** The part of a flush that writes the file. */
  method WriteFile(name: string, tree: PropTree) returns (out: seq<Event>)
    requires tree.Valid()
    ensures Ordered(tree.lay.m, tree.lay.kids) && out == LoadRule.FileEvents(FileOf(name, tree.lay.m, tree.lay.kids))
  {
    TreeIsOrdered(tree);
    assert Branches(tree.lay.m, tree.lay.kids, Root);
    var body := WriteChildren(tree, tree.root, Root, MaxDepth(tree.lay.m.Keys));
    out := [Start("channel", [("name", name), ("version", "1.0")])] + (body + [End]);
  }

  /* ---- Reading ---- */

  /** BlconfChannel */
  class Channel {
    var properties: PropTree
    var locked: bool
    var dirty: bool

    constructor ()
      ensures properties.Valid() && fresh(properties) && fresh(properties.repr)
      ensures properties.lay.m == map[Root := BLANK] && !locked && !dirty
    {
      properties := new PropTree();
      locked, dirty := false, false;
    }

    /** Lock the channel and start over with an empty tree. */
    method Restart()
      modifies this`properties, this`locked
      ensures properties.Valid() && fresh(properties) && fresh(properties.repr)
      ensures properties.lay.m == map[Root := BLANK] && locked
    {
      properties := new PropTree();
      locked := true;
    }

    /** The channel's tree is the one it had, grown by new nodes, or a new one. */
    twostate predicate Owned(tree: PropTree, repr: set<GNode>)
      reads this, properties
    {
      (properties == tree || fresh(properties)) && forall n :: n in properties.repr && n !in repr ==> fresh(n)
    }
  }

  ghost function Content(channel: Channel): LoadRule.Loaded
    reads channel, channel.properties
  {
    LoadRule.Loaded(channel.properties.lay.m, channel.locked)
  }

  /** The attributes of one element, by name. */
  datatype Tag = Tag(name: string, kind: string, value: string, version: string, locked: string, unlocked: string)

  ghost predicate TagOf(tag: Tag, attrs: Attrs) {
    && tag.name == Given(attrs, "name") && tag.kind == Given(attrs, "type") && tag.value == Given(attrs, "value")
    && tag.version == Given(attrs, "version") && tag.locked == Given(attrs, "locked")
       && tag.unlocked == Given(attrs, "unlocked")
  }

  /** One attribute more; later ones win. */
  function WithAttribute(tag: Tag, n: string, v: string): Tag {
    if n == "name" then tag.(name := v)
    else if n == "type" then tag.(kind := v)
    else if n == "value" then tag.(value := v)
    else if n == "version" then tag.(version := v)
    else if n == "locked" then tag.(locked := v)
    else if n == "unlocked" then tag.(unlocked := v)
    else tag
  }

  lemma TagOfOne(tag: Tag, attrs: Attrs, i: nat)
    requires i < |attrs| && TagOf(tag, attrs[..i])
    ensures TagOf(WithAttribute(tag, attrs[i].0, attrs[i].1), attrs[..i + 1])
  {
    GivenLast(attrs[..i], attrs[i]);
    TakeNext(attrs, i);
  }

  /** The attribute loop; an attribute that is not allowed ends it. */
  method ReadTag(attrs: Attrs, allowed: set<string>) returns (ok: bool, tag: Tag)
    ensures ok == Only(attrs, allowed)
    ensures ok ==> TagOf(tag, attrs)
  {
    tag := Tag("", "", "", "", "", "");
    ok := false;
    for i := 0 to |attrs|
      invariant Only(attrs[..i], allowed) && TagOf(tag, attrs[..i])
    {
      if attrs[i].0 !in allowed { return; }
      TagOfOne(tag, attrs, i);
      tag := WithAttribute(tag, attrs[i].0, attrs[i].1);
    }
    TakeAll(attrs);
    ok := true;
  }

  /** XmlParserState and its handlers. */
  class XmlParser {
    const channel: Channel
    const reader: Reader
    var curElem: Elem
    var curPath: string
    var listNode: GNode?
    ghost var listPath: Path
    var failed: bool

    ghost predicate Valid()
      reads this, channel, channel.properties, channel.properties.repr
    {
      && channel.properties.Valid()
      && Proper(PathOf(curPath)) && curPath == Join(PathOf(curPath))
      && (listNode != null ==>
            listPath in channel.properties.lay.m && channel.properties.lay.at[listPath] == listNode && listPath != Root)
      && (channel.locked ==> reader.isSystem)
    }

    ghost function View(): Parser
      reads this, channel, channel.properties
    {
      Parser(channel.properties.lay.m, channel.locked, curElem, curPath,
             if listNode == null then None else Some(listPath), failed)
    }

    constructor (channel: Channel, reader: Reader)
      requires channel.properties.Valid() && (channel.locked ==> reader.isSystem)
      ensures Valid() && this.channel == channel && this.reader == reader
      ensures View() == Parser(channel.properties.lay.m, channel.locked, ElemNone, "", None, false)
    {
      this.channel, this.reader := channel, reader;
      curElem, curPath, listNode, failed := ElemNone, "", null, false;
      listPath := Root;
    }

    /** The node of a property about to be read: wiped if it was found, else created. */
    method Prepare(found: GNode?, fullPath: string, ghost p: Path) returns (node: GNode)
      requires Valid() && p != Root && Proper(p) && fullPath == Join(p) && Found(found, p)
      modifies channel.properties, channel.properties.repr
      ensures Valid()
              && channel.properties.lay.m ==
                 Added(old(channel.properties.lay.m), p,
                   Wiped(reader, old(channel.properties.lay.m), channel.locked, p))
      ensures channel.properties.lay.at[p] == node
      ensures forall n :: n in channel.properties.repr && n !in old(channel.properties.repr) ==> fresh(n)
    {
      var tree := channel.properties;
      JoinIsValid(p);
      PathOfJoin(p);
      if found != null {
        assert tree.Linked(p);
        tree.IsClosed();
        AddedKnown(tree.lay.m, p, Wiped(reader, tree.lay.m, channel.locked, p));
        tree.Store(found, p, None, if channel.locked || reader.isSystem then None else found.system, found.locked);
        node := found;
      } else {
        node := tree.AddProperty(fullPath, None, channel.locked);
      }
    }

    ghost predicate Found(found: GNode?, p: Path)
      reads channel, channel.properties
    {
      (found != null <==> p in channel.properties.lay.at) && (found != null ==> channel.properties.lay.at[p] == found)
    }

    /** Merge one property element at `p`: create or wipe its node, apply its lock directive, parse its value. */
    method DeclareProperty(found: GNode?, fullPath: string, ghost p: Path, tag: Tag, ghost attrs: Attrs)
        returns (status: Status, node: GNode?)
      requires Valid() && p != Root && Proper(p) && fullPath == Join(p) && Found(found, p) && TagOf(tag, attrs)
      modifies channel.properties, channel.properties.repr
      ensures Valid()
              && Outcome(channel.properties.lay.m, status) ==
                 Declare(reader, old(channel.properties.lay.m), channel.locked, p, attrs)
      ensures status == Listing ==> p in channel.properties.lay.m && channel.properties.lay.at[p] == node
      ensures forall n :: n in channel.properties.repr && n !in old(channel.properties.repr) ==> fresh(n)
    {
      if found != null { assert channel.properties.Linked(p); }
      if !channel.locked && found != null && found.locked && !reader.isSystem { return Skipped, null; }
      DeclareInSteps(reader, channel.properties.lay.m, channel.locked, p, attrs);
      node := Prepare(found, fullPath, p);
      var directed := tag.locked != "" || tag.unlocked != "";
      if directed && !reader.isSystem { return Failed, null; }
      status := ParseContent(node, p, directed, tag);
    }

    /** Lock and value of a prepared node. */
    method ParseContent(node: GNode, ghost p: Path, directed: bool, tag: Tag) returns (status: Status)
      requires Valid() && p in channel.properties.lay.at && p != Root && channel.properties.lay.at[p] == node
      requires Slot(reader, channel.properties.lay.m[p]) == None
      modifies channel.properties, channel.properties.repr
      ensures Valid() && channel.properties.repr == old(channel.properties.repr)
      ensures channel.properties.lay.at == old(channel.properties.lay.at) && status == Parsed(tag.kind, tag.value).0
      ensures channel.properties.lay.m == old(channel.properties.lay.m)[p :=
                Filled(reader,
                  old(channel.properties.lay.m)[p].(locked := NewLock(old(channel.properties.lay.m)[p].locked,
                    directed, tag)),
                       Parsed(tag.kind, tag.value).1)]
    {
      var tree := channel.properties;
      assert tree.Linked(p);
      var locked := node.locked;
      if directed {
        locked := if channel.locked then true
                  else if tag.unlocked != "" then !reader.inList(tag.unlocked) else reader.inList(tag.locked);
      }
      var (outcome, content) := Parsed(tag.kind, tag.value);
      status := outcome;
      if reader.isSystem { tree.Store(node, p, node.value, content, locked); }
      else { tree.Store(node, p, content, node.system, locked); }
    }

    /** The lock a node gets from the element's directive. */
    ghost function NewLock(was: bool, directed: bool, tag: Tag): bool
      reads channel
    {
      if !directed then was
      else channel.locked || if tag.unlocked != "" then !reader.inList(tag.unlocked) else reader.inList(tag.locked)
    }

    lemma AddedKnown(m: PMap, p: Path, r: Rec)
      requires Closed(m) && p in m
      ensures Added(m, p, r) == m[p := r]
    {
      forall q | Above(q, p) ensures q in m { AncestorIn(m, q, p); }
      assert Above(p, p);
    }

    /** blconf_xml_handle_property */
    method HandleProperty(attrs: Attrs)
      requires Valid() && (Given(attrs, "name") == "" || Nameable(Given(attrs, "name")))
      modifies this, channel.properties, channel.properties.repr
      ensures Valid() && View() == OnProperty(reader, old(View()), attrs)
      ensures forall n :: n in channel.properties.repr && n !in old(channel.properties.repr) ==> fresh(n)
    {
      var ok, tag := ReadTag(attrs, PROPERTY_ATTRS);
      if !ok || tag.name == "" || tag.kind == "" {
        failed := true;
      } else {
        MergeProperty(tag, attrs);
      }
    }

    method MergeProperty(tag: Tag, ghost attrs: Attrs)
      requires Valid() && TagOf(tag, attrs) && Nameable(tag.name)
      modifies this, channel.properties, channel.properties.repr
      ensures var was, p := old(View()), PathOf(old(curPath) + "/" + tag.name);
              Valid() && View() == Entered(was, p, tag.name, Declare(reader, was.m, was.channelLocked, p, attrs))
      ensures forall n :: n in channel.properties.repr && n !in old(channel.properties.repr) ==> fresh(n)
    {
      var fullPath := curPath + "/" + tag.name;
      ExtendPath(curPath, tag.name);
      JoinIsValid(PathOf(fullPath));
      MergeAt(tag, attrs, fullPath, PathOf(fullPath));
    }

    method MergeAt(tag: Tag, ghost attrs: Attrs, fullPath: string, ghost p: Path)
      requires Valid() && TagOf(tag, attrs) && p != Root && Proper(p) && fullPath == Join(p) && PathOf(fullPath) == p
      requires NameIsValid(fullPath) && fullPath == curPath + "/" + tag.name
      modifies this, channel.properties, channel.properties.repr
      ensures var was := old(View());
              Valid() && View() == Entered(was, p, tag.name, Declare(reader, was.m, was.channelLocked, p, attrs))
      ensures forall n :: n in channel.properties.repr && n !in old(channel.properties.repr) ==> fresh(n)
    {
      ghost var was := View();
      var status, node := DeclareNamed(tag, attrs, fullPath, p);
      EnteredAfter(was, p, tag.name, Declare(reader, was.m, was.channelLocked, p, attrs));
      Enter(status, node, tag.name, fullPath, p);
    }

    lemma EnteredAfter(was: Parser, p: Path, name: string, o: Outcome)
      ensures Entered(was.(m := o.m), p, name, Outcome(o.m, o.status)) == Entered(was, p, name, o)
    {
    }

    method DeclareNamed(tag: Tag, ghost attrs: Attrs, fullPath: string, ghost p: Path)
        returns (status: Status, node: GNode?)
      requires Valid() && TagOf(tag, attrs) && p != Root && Proper(p) && fullPath == Join(p) && PathOf(fullPath) == p
      requires NameIsValid(fullPath)
      modifies channel.properties, channel.properties.repr
      ensures var was := old(View());
              var o := Declare(reader, was.m, was.channelLocked, p, attrs);
              Valid() && status == o.status && View() == was.(m := o.m)
      ensures status == Listing ==>
                node != null && p in channel.properties.lay.m && channel.properties.lay.at[p] == node
      ensures forall n :: n in channel.properties.repr && n !in old(channel.properties.repr) ==> fresh(n)
    {
      var prop := channel.properties.LookupNode(fullPath);
      status, node := DeclareProperty(prop, fullPath, p, tag, attrs);
    }

    method Enter(status: Status, node: GNode?, ghost name: string, fullPath: string, ghost p: Path)
      requires Valid() && p != Root && Proper(p) && fullPath == Join(p) && PathOf(fullPath) == p
      requires fullPath == curPath + "/" + name
      requires status == Listing ==>
                 node != null && p in channel.properties.lay.m && channel.properties.lay.at[p] == node
      modifies this
      ensures Valid() && View() == Entered(old(View()), p, name, Outcome(old(View()).m, status))
    {
      if status == Failed {
        failed := true;
      } else {
        if status == Listing { listNode, listPath := node, p; }
        curElem, curPath := ElemProperty, fullPath;
      }
    }

    /** blconf_xml_handle_value */
    method HandleValue(attrs: Attrs)
      requires Valid() && listNode != null
      modifies this, channel.properties, channel.properties.repr
      ensures Valid() && View() == OnValue(reader, old(View()), attrs)
      ensures channel.properties.repr == old(channel.properties.repr)
    {
      var ok, tag := ReadTag(attrs, VALUE_ATTRS);
      if !ok { failed := true; return; }
      var t := TypeNamed(tag.kind);
      if !t.ScalarType? { failed := true; return; }
      var x := FromString(t.kind, tag.value);
      if x.None? { failed := true; return; }
      AppendItem(x.value);
      curElem := ElemValue;
    }

    method AppendItem(x: Scalar)
      requires Valid() && listNode != null
      modifies channel.properties, channel.properties.repr
      ensures Valid() && channel.properties.repr == old(channel.properties.repr)
      ensures channel.properties.lay.m == WithItem(reader, old(channel.properties.lay.m), listPath, x)
    {
      var tree, node := channel.properties, listNode;
      assert tree.Linked(listPath);
      if reader.isSystem {
        if node.system.Some? && node.system.value.Array? {
          tree.Store(node, listPath, node.value, Some(Array(node.system.value.items + [x])), node.locked);
        }
      } else {
        if node.value.Some? && node.value.value.Array? {
          tree.Store(node, listPath, Some(Array(node.value.value.items + [x])), node.system, node.locked);
        }
      }
    }

    /** blconf_xml_handle_channel; a first lock throws away everything merged so far. */
    method HandleChannel(attrs: Attrs)
      requires Valid() && listNode == null
      modifies this`curElem, this`failed, channel
      ensures Valid() && View() == OnChannel(reader, old(View()), attrs)
      ensures channel.Owned(old(channel.properties), old(channel.properties.repr))
              && channel.dirty == old(channel.dirty)
    {
      var ok, tag := ReadTag(attrs, CHANNEL_ATTRS);
      if !ok || tag.name == "" || !VersionAccepted(tag.version) { failed := true; return; }
      if tag.locked != "" || tag.unlocked != "" {
        if !reader.isSystem { failed := true; return; }
        var state := if tag.unlocked != "" then !reader.inList(tag.unlocked) else reader.inList(tag.locked);
        if channel.locked && !state { failed := true; return; }
        if !channel.locked && state { channel.Restart(); }
      }
      curElem := ElemChannel;
    }

    /** blconf_backend_perchannel_xml_start_elem */
    method StartElement(element: string, attrs: Attrs)
      requires Valid() && PlainName(Start(element, attrs)) && (curElem == ElemNone ==> listNode == null)
      modifies this, channel, channel.properties, channel.properties.repr
      ensures Valid() && View() == OnStart(reader, old(View()), element, attrs)
      ensures channel.Owned(old(channel.properties), old(channel.properties.repr))
              && channel.dirty == old(channel.dirty)
    {
      if curElem == ElemNone && element == "channel" {
        HandleChannel(attrs);
      } else {
        StartInside(element, attrs);
      }
    }

    /** A start tag that does not open the channel element. */
    method StartInside(element: string, attrs: Attrs)
      requires Valid() && PlainName(Start(element, attrs)) && !(curElem == ElemNone && element == "channel")
      modifies this, channel.properties, channel.properties.repr
      ensures Valid() && View() == OnStart(reader, old(View()), element, attrs)
      ensures forall n :: n in channel.properties.repr && n !in old(channel.properties.repr) ==> fresh(n)
    {
      if (curElem == ElemChannel || curElem == ElemProperty) && element == "property" {
        HandleProperty(attrs);
      } else if curElem == ElemProperty && listNode != null && element == "value" {
        HandleValue(attrs);
      } else {
        failed := true;
      }
    }

    /** blconf_backend_perchannel_xml_end_elem */
    method EndElement()
      requires Valid()
      modifies this
      ensures Valid() && View() == OnEnd(old(View()))
    {
      match curElem {
        case ElemChannel => EndChannel();
        case ElemProperty => EndProperty();
        case ElemValue => curElem := ElemProperty;
        case ElemNone =>
      }
    }

    method EndChannel()
      requires Valid() && curElem == ElemChannel
      modifies this`curElem, this`curPath
      ensures Valid() && View() == OnEnd(old(View()))
    {
      curElem, curPath := ElemNone, "";
    }

    method EndProperty()
      requires Valid() && curElem == ElemProperty
      modifies this`curElem, this`curPath, this`listNode
      ensures Valid() && View() == OnEnd(old(View()))
    {
      CutIsProper(curPath);
      var i := LastSlash(curPath);
      var path := CutAtLastSlash(curPath);
      Leave(path, if i < 0 || path == "" then ElemChannel else ElemProperty);
    }

    method Leave(path: string, elem: Elem)
      requires Valid() && Proper(PathOf(path)) && path == Join(PathOf(path))
      modifies this`curElem, this`curPath, this`listNode
      ensures Valid() && View() == old(View()).(elem := elem, curPath := path, list := None)
    {
      listNode := null;
      curPath, curElem := path, elem;
    }

    /** One event, whichever it is. */
    method Handle(e: Event)
      requires Valid() && Settled(View()) && PlainName(e)
      modifies this, channel, channel.properties, channel.properties.repr
      ensures Valid() && View() == OnEvent(reader, old(View()), e)
      ensures channel.Owned(old(channel.properties), old(channel.properties.repr))
              && channel.dirty == old(channel.dirty)
    {
      match e {
        case Start(element, attrs) => StartElement(element, attrs);
        case End => EndElement();
      }
    }
  }

  /** The parse loop of blconf_backend_perchannel_xml_merge_file. */
  method MergeFile(channel: Channel, reader: Reader, events: seq<Event>)
    requires channel.properties.Valid() && (channel.locked ==> reader.isSystem) && PlainNames(events)
    modifies channel, channel.properties, channel.properties.repr
    ensures channel.properties.Valid() && channel.dirty == old(channel.dirty)
    ensures channel.Owned(old(channel.properties), old(channel.properties.repr))
    ensures Content(channel) == LoadRule.MergeFile(reader, old(Content(channel)), events)
  {
    var parser := new XmlParser(channel, reader);
    ghost var start := parser.View();
    var i := 0;
    while i < |events| && !parser.failed
      invariant i <= |events| && fresh(parser) && parser.channel == channel && parser.reader == reader
      invariant parser.Valid() && Settled(parser.View())
      invariant channel.Owned(old(channel.properties), old(channel.properties.repr))
                && channel.dirty == old(channel.dirty)
      invariant Feed(reader, start, events) == Feed(reader, parser.View(), events[i..])
    {
      assert events[i..][1..] == events[i + 1..];
      EventKeepsSettled(reader, parser.View(), events[i]);
      parser.Handle(events[i]);
      i := i + 1;
    }
  }

  /** The system files of a channel, the least important one first. */
  method LoadSystemFiles(inList: string -> bool, filenames: seq<seq<Event>>) returns (channel: Channel)
    requires forall f :: f in filenames ==> PlainNames(f)
    ensures fresh(channel) && channel.properties.Valid() && fresh(channel.properties) && fresh(channel.properties.repr)
    ensures !channel.dirty && Content(channel) == LoadRule.LoadSystem(inList, LoadRule.InLoadOrder(filenames))
  {
    channel := new Channel();
    for i := |filenames| downto 0
      invariant channel.properties.Valid() && fresh(channel) && fresh(channel.properties)
                && fresh(channel.properties.repr)
      invariant !channel.dirty && Content(channel) == LoadRule.LoadSystem(inList, LoadRule.InLoadOrder(filenames[i..]))
    {
      LoadOne(filenames, i);
      MergeFile(channel, Reader(true, inList), filenames[i]);
    }
    assert filenames[0..] == filenames;
  }

  /** The loading of blconf_backend_perchannel_xml_load_channel. */
  method LoadChannel(inList: string -> bool, filenames: seq<seq<Event>>, user: Option<seq<Event>>)
      returns (channel: Channel)
    requires forall f :: f in filenames ==> PlainNames(f)
    requires user.Some? ==> PlainNames(user.value)
    ensures fresh(channel) && channel.properties.Valid() && fresh(channel.properties) && fresh(channel.properties.repr)
    ensures !channel.dirty && Content(channel) == LoadRule.Load(inList, LoadRule.InLoadOrder(filenames), user)
  {
    channel := LoadSystemFiles(inList, filenames);
    if !channel.locked && user.Some? {
      MergeFile(channel, Reader(false, inList), user.value);
    }
  }

  lemma LoadOne(filenames: seq<seq<Event>>, i: nat)
    requires i < |filenames|
    ensures var all, init := LoadRule.InLoadOrder(filenames[i..]), LoadRule.InLoadOrder(filenames[i + 1..]);
            all != [] && all[|all| - 1] == filenames[i] && all[..|all| - 1] == init
  {
    assert filenames[i..][1..] == filenames[i + 1..];
  }
}
