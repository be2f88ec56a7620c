/** Settings files as start and end events, and the event-driven parser that merges one into a channel. */
module SettingsFile {
  import opened Values
  import opened Paths
  import opened PropertyMap
  import opened Numerals

  type Attrs = seq<(string, string)>

  datatype Event = Start(element: string, attrs: Attrs) | End

  /** The last value given for an attribute, "" if there is none. */
  function Given(attrs: Attrs, name: string): string {
    if attrs == [] then ""
    else if attrs[|attrs| - 1].0 == name then attrs[|attrs| - 1].1
    else Given(attrs[..|attrs| - 1], name)
  }

  predicate Only(attrs: Attrs, names: set<string>) {
    forall i :: 0 <= i < |attrs| ==> attrs[i].0 in names
  }

  const CHANNEL_ATTRS := {"name", "version", "locked", "unlocked"}
  const PROPERTY_ATTRS := {"name", "type", "value", "locked", "unlocked"}
  const VALUE_ATTRS := {"type", "value"}

  /** Who reads the file: is it a system file, and which user lists name the current user. */
  datatype Reader = Reader(isSystem: bool, inList: string -> bool)

  datatype TypeName = EmptyType | ArrayType | ScalarType(kind: Kind) | UnknownType

  /** _blconf_gtype_from_string, for the types of the model. */
  function TypeNamed(s: string): TypeName {
    if s == "empty" then EmptyType
    else if s == "string" then ScalarType(StrKind)
    else if s == "int" then ScalarType(IntKind)
    else if s == "bool" then ScalarType(BoolKind)
    else if s == "array" then ArrayType
    else if s == "uint" then ScalarType(UIntKind)
    else if s == "uchar" then ScalarType(UCharKind)
    else if s == "uint64" then ScalarType(UInt64Kind)
    else if s == "int64" then ScalarType(Int64Kind)
    else UnknownType
  }

  /** The content of a value that has been given a type but no content yet. */
  function Default(kind: Kind): Scalar {
    match kind
    case StrKind => Str("")
    case UCharKind => UChar(0)
    case UIntKind => UInt(0)
    case IntKind => Int(0)
    case UInt64Kind => UInt64(0)
    case Int64Kind => Int64(0)
    case BoolKind => Bool(false)
  }

  /* ---- One <property> element ---- */

  datatype Status = Failed | Skipped | Plain | Listing

  datatype Outcome = Outcome(m: PMap, status: Status)

  function Put(reader: Reader, r: Rec, v: Value): Rec {
    if reader.isSystem then r.(system := Some(v)) else r.(user := Some(v))
  }

  function Slot(reader: Reader, r: Rec): Option<Value> {
    if reader.isSystem then r.system else r.user
  }

  /** The record an element starts from: what the file kind may not overwrite stays. */
  function Wiped(reader: Reader, m: PMap, channelLocked: bool, p: Path): Rec {
    if p !in m then Rec(None, None, channelLocked)
    else Rec(None, if channelLocked || reader.isSystem then None else m[p].system, m[p].locked)
  }

  predicate Directed(attrs: Attrs) {
    Given(attrs, "locked") != "" || Given(attrs, "unlocked") != ""
  }

  function LockedBy(reader: Reader, attrs: Attrs): bool {
    if Given(attrs, "unlocked") != "" then !reader.inList(Given(attrs, "unlocked"))
      else reader.inList(Given(attrs, "locked"))
  }

  /** The content an element spells: none for "empty" or an unknown type, a default where the text does not parse. */
  function Parsed(kind: string, value: string): (Status, Option<Value>) {
    match TypeNamed(kind)
    case UnknownType => (Failed, None)
    case EmptyType => (Plain, None)
    case ArrayType => (Listing, Some(Array([])))
    case ScalarType(k) =>
      var x := FromString(k, value);
      if x.Some? then (Plain, Some(Single(x.value))) else (Failed, Some(Single(Default(k))))
  }

  /** The record with that content. */
  function Filled(reader: Reader, r: Rec, content: Option<Value>): Rec {
    if content.Some? then Put(reader, r, content.value) else r
  }

  function Declare(reader: Reader, m: PMap, channelLocked: bool, p: Path, attrs: Attrs): Outcome {
    if !channelLocked && !reader.isSystem && Locked(m, p) then Outcome(m, Skipped)
    else
      var blank := Wiped(reader, m, channelLocked, p);
      var m1 := Added(m, p, blank);
      if Directed(attrs) && !reader.isSystem then Outcome(m1, Failed)
      else
        var r := blank.(locked := if !Directed(attrs) then blank.locked else channelLocked || LockedBy(reader, attrs));
        var (status, content) := Parsed(Given(attrs, "type"), Given(attrs, "value"));
        Outcome(m1[p := Filled(reader, r, content)], status)
  }

  /** Merging in two steps: make the record blank, then lock it and fill it. */
  lemma DeclareInSteps(reader: Reader, m: PMap, channelLocked: bool, p: Path, attrs: Attrs)
    requires !(!channelLocked && !reader.isSystem && Locked(m, p))
    ensures var m1 := Added(m, p, Wiped(reader, m, channelLocked, p));
            && p in m1 && Slot(reader, m1[p]) == None
            && Declare(reader, m, channelLocked, p, attrs) ==
               if Directed(attrs) && !reader.isSystem then Outcome(m1, Failed)
               else Outcome(m1[p := Filled(reader,
                    m1[p].(locked := if Directed(attrs) then channelLocked || LockedBy(reader, attrs)
                      else m1[p].locked),
                                           Parsed(Given(attrs, "type"), Given(attrs, "value")).1)],
                            Parsed(Given(attrs, "type"), Given(attrs, "value")).0)
  {
    assert Above(p, p);
  }

  /* ---- One <value> element ---- */

  function Item(attrs: Attrs): Option<Scalar> {
    var t := TypeNamed(Given(attrs, "type"));
    if Only(attrs, VALUE_ATTRS) && t.ScalarType? then FromString(t.kind, Given(attrs, "value")) else None
  }

  /** The array being read at `p` with one more item. */
  function WithItem(reader: Reader, m: PMap, p: Path, x: Scalar): PMap {
    if p in m && Slot(reader, m[p]).Some? && Slot(reader, m[p]).value.Array?
    then m[p := Put(reader, m[p], Array(Slot(reader, m[p]).value.items + [x]))] else m
  }

  /* ---- The parser's state machine ---- */

  datatype Elem = ElemNone | ElemChannel | ElemProperty | ElemValue

  datatype Parser = Parser(m: PMap, channelLocked: bool, elem: Elem, curPath: string, list: Option<Path>, failed: bool)

  predicate VersionAccepted(version: string) {
    version == "1" || (|version| >= 2 && version[..2] == "1.")
  }

  function OnChannel(reader: Reader, s: Parser, attrs: Attrs): Parser {
    if !Only(attrs, CHANNEL_ATTRS) || Given(attrs, "name") == "" || !VersionAccepted(Given(attrs, "version")) then
      s.(failed := true)
    else if !Directed(attrs) then s.(elem := ElemChannel)
    else if !reader.isSystem || (s.channelLocked && !LockedBy(reader, attrs)) then s.(failed := true)
    else if !s.channelLocked && LockedBy(reader, attrs)
    then s.(m := map[Root := BLANK], channelLocked := true, elem := ElemChannel)
    else s.(elem := ElemChannel)
  }

  function OnProperty(reader: Reader, s: Parser, attrs: Attrs): Parser {
    var name := Given(attrs, "name");
    if !Only(attrs, PROPERTY_ATTRS) || name == "" || Given(attrs, "type") == "" then s.(failed := true)
    else
      var p := PathOf(s.curPath + "/" + name);
      Entered(s, p, name, Declare(reader, s.m, s.channelLocked, p, attrs))
  }

  /** The element is open, unless merging it failed. */
  function Entered(s: Parser, p: Path, name: string, o: Outcome): Parser {
    if o.status == Failed then s.(m := o.m, failed := true)
    else s.(m := o.m, elem := ElemProperty, curPath := s.curPath + "/" + name,
            list := if o.status == Listing then Some(p) else s.list)
  }

  function OnValue(reader: Reader, s: Parser, attrs: Attrs): Parser
    requires s.list.Some?
  {
    if Item(attrs).None? then s.(failed := true)
    else s.(m := WithItem(reader, s.m, s.list.value, Item(attrs).value), elem := ElemValue)
  }

  function OnStart(reader: Reader, s: Parser, element: string, attrs: Attrs): Parser {
    if s.elem == ElemNone && element == "channel" then OnChannel(reader, s, attrs)
    else if (s.elem == ElemChannel || s.elem == ElemProperty) && element == "property" then OnProperty(reader, s, attrs)
    else if s.elem == ElemProperty && s.list.Some? && element == "value" then OnValue(reader, s, attrs)
    else s.(failed := true)
  }

  function OnEnd(s: Parser): Parser {
    match s.elem
    case ElemChannel => s.(elem := ElemNone, curPath := "")
    case ElemProperty =>
      var path := CutAtLastSlash(s.curPath);
      s.(list := None, curPath := path,
         elem := if LastSlash(s.curPath) < 0 || path == "" then ElemChannel else ElemProperty)
    case ElemValue => s.(elem := ElemProperty)
    case ElemNone => s
  }

  /** A property's name can follow a '/': one component, or several joined by '/'. */
  predicate PlainName(e: Event) {
    e.Start? && e.element == "property" ==> Given(e.attrs, "name") == "" || Nameable(Given(e.attrs, "name"))
  }

  ghost predicate PlainNames(events: seq<Event>) {
    forall e :: e in events ==> PlainName(e)
  }

  function OnEvent(reader: Reader, s: Parser, e: Event): Parser {
    match e
    case Start(element, attrs) => OnStart(reader, s, element, attrs)
    case End => OnEnd(s)
  }

  /** Outside properties no array is open. */
  predicate Settled(s: Parser) {
    s.elem == ElemNone || s.elem == ElemChannel ==> s.list == None
  }

  lemma EventKeepsSettled(reader: Reader, s: Parser, e: Event)
    requires Settled(s)
    ensures Settled(OnEvent(reader, s, e))
  {
  }

  /** Parsing stops at the first error; what was merged before it stays. */
  function Feed(reader: Reader, s: Parser, events: seq<Event>): Parser
    decreases |events|
  {
    if s.failed || events == [] then s else Feed(reader, OnEvent(reader, s, events[0]), events[1..])
  }

  lemma {:induction false} FeedAppend(reader: Reader, s: Parser, a: seq<Event>, b: seq<Event>)
    ensures Feed(reader, s, a + b) == Feed(reader, Feed(reader, s, a), b)
    decreases |a|
  {
    if a == [] {
      assert a + b == b;
    } else if !s.failed {
      assert (a + b)[1..] == a[1..] + b;
      FeedAppend(reader, OnEvent(reader, s, a[0]), a[1..], b);
    }
  }

  /* ---- Documents ---- */

  /** A <property> element: its attributes, its <value> children, then its <property> children. */
  datatype Doc = Doc(attrs: Attrs, values: seq<Attrs>, kids: seq<Doc>)

  function DocEvents(d: Doc): seq<Event> {
    [Start("property", d.attrs)] + ValueEvents(d.values) + DocsEvents(d.kids) + [End]
  }

  function DocsEvents(ds: seq<Doc>): seq<Event> {
    if ds == [] then [] else DocEvents(ds[0]) + DocsEvents(ds[1..])
  }

  function ValueEvents(vs: seq<Attrs>): seq<Event> {
    if vs == [] then [] else [Start("value", vs[0]), End] + ValueEvents(vs[1..])
  }

  /** What a document means, without any buffer: elements apply in document order, each at its full path. */
  function ApplyDoc(reader: Reader, m: PMap, channelLocked: bool, up: Path, d: Doc): (PMap, bool)
    decreases d, 1
  {
    ApplyAt(reader, m, channelLocked, Sub(up, Given(d.attrs, "name")), d)
  }

  /** The document applied at the path `p`. */
  function ApplyAt(reader: Reader, m: PMap, channelLocked: bool, p: Path, d: Doc): (PMap, bool)
    decreases d, 0
  {
    if !Only(d.attrs, PROPERTY_ATTRS) || Given(d.attrs, "name") == "" || Given(d.attrs, "type") == "" then (m, false)
    else
      var o := Declare(reader, m, channelLocked, p, d.attrs);
      if o.status == Failed then (o.m, false)
      else
        var (m1, ok) := ApplyValues(reader, o.m, p, d.values);
        if !ok then (m1, false) else ApplyDocs(reader, m1, channelLocked, p, d.kids)
  }

  function ApplyDocs(reader: Reader, m: PMap, channelLocked: bool, up: Path, ds: seq<Doc>): (PMap, bool)
    decreases ds, 0
  {
    if ds == [] then (m, true)
    else
      var (m1, ok) := ApplyDoc(reader, m, channelLocked, up, ds[0]);
      if !ok then (m1, false) else ApplyDocs(reader, m1, channelLocked, up, ds[1..])
  }

  function ApplyValues(reader: Reader, m: PMap, p: Path, vs: seq<Attrs>): (PMap, bool)
    decreases vs
  {
    if vs == [] then (m, true)
    else if Item(vs[0]).None? then (m, false)
    else ApplyValues(reader, WithItem(reader, m, p, Item(vs[0]).value), p, vs[1..])
  }

  /** Names hold no '/', and only an array that the reader takes in has <value> children. */
  ghost predicate Readable(reader: Reader, m: PMap, channelLocked: bool, up: Path, d: Doc)
    decreases d, 1
  {
    SlashFree(Given(d.attrs, "name")) && ReadableAt(reader, m, channelLocked, Sub(up, Given(d.attrs, "name")), d)
  }

  ghost predicate ReadableAt(reader: Reader, m: PMap, channelLocked: bool, p: Path, d: Doc)
    decreases d, 0
  {
    var o := Declare(reader, m, channelLocked, p, d.attrs);
    && (d.values != [] ==> o.status == Listing)
    && AllReadable(reader, ApplyValues(reader, o.m, p, d.values).0, channelLocked, p, d.kids)
  }

  ghost predicate AllReadable(reader: Reader, m: PMap, channelLocked: bool, up: Path, ds: seq<Doc>)
    decreases ds, 0
  {
    ds != [] ==>
      && Readable(reader, m, channelLocked, up, ds[0])
      && AllReadable(reader, ApplyDoc(reader, m, channelLocked, up, ds[0]).0, channelLocked, up, ds[1..])
  }

  /** Between elements: the buffer spells the path of the innermost open element. */
  ghost predicate At(s: Parser, up: Path) {
    Proper(up) && s.curPath == Join(up) && !s.failed && s.elem == if up == Root then ElemChannel else ElemProperty
  }

  /** The machine is back where it was, with `r` merged; or it failed after merging `r`. */
  ghost predicate Ends(s: Parser, t: Parser, up: Path, r: (PMap, bool)) {
    && t.m == r.0 && t.failed == !r.1 && t.channelLocked == s.channelLocked
    && (r.1 ==> At(t, up))
  }

  /**
   <value> elements inside the property at `p` go to the array that was opened last, at `q`, whichever property that is.
   */
  lemma {:induction false} ParserReadsValues(reader: Reader, s: Parser, p: Path, q: Path, vs: seq<Attrs>)
    requires At(s, p) && p != Root && (vs != [] ==> s.list == Some(q))
    ensures var t := Feed(reader, s, ValueEvents(vs));
            Ends(s, t, p, ApplyValues(reader, s.m, q, vs)) && (!t.failed ==> t.list == s.list)
    decreases vs
  {
    if vs != [] {
      var evs := ValueEvents(vs);
      assert evs[0] == Start("value", vs[0]) && evs[1] == End && evs[1..][1..] == ValueEvents(vs[1..]);
      if Item(vs[0]).Some? {
        var t := OnEnd(OnStart(reader, s, "value", vs[0]));
        ParserReadsValues(reader, t, p, q, vs[1..]);
      }
    }
  }

  /**
   Why a property that is no array must have no <value> children: inside an array they are taken for its items, and
   anywhere else they make the file fail.
   */
  lemma StrayValues(reader: Reader, s: Parser, up: Path, d: Doc)
    requires At(s, up) && d.values != [] && d.kids == [] && SlashFree(Given(d.attrs, "name"))
    requires Only(d.attrs, PROPERTY_ATTRS) && Given(d.attrs, "name") != "" && Given(d.attrs, "type") != ""
    requires var o := Declare(reader, s.m, s.channelLocked, Sub(up, Given(d.attrs, "name")), d.attrs);
             o.status == Plain || o.status == Skipped
    ensures var o, t := Declare(reader, s.m, s.channelLocked, Sub(up, Given(d.attrs, "name")), d.attrs),
            Feed(reader, s, DocEvents(d));
            if s.list.Some? then t.m == ApplyValues(reader, o.m, s.list.value, d.values).0 else t.m == o.m && t.failed
  {
    var p, t := Sub(up, Given(d.attrs, "name")), OnStart(reader, s, "property", d.attrs);
    StartTag(reader, s, up, d);
    FeedDoc(reader, s, d);
    if s.list.Some? {
      ParserReadsValues(reader, t, p, s.list.value, d.values);
      if !Feed(reader, t, ValueEvents(d.values)).failed { EndTag(Feed(reader, t, ValueEvents(d.values)), p); }
    } else {
      assert ValueEvents(d.values)[0] == Start("value", d.values[0]);
    }
  }

  /** What the start tag of a document leaves behind. */
  lemma StartTag(reader: Reader, s: Parser, up: Path, d: Doc)
    requires At(s, up) && SlashFree(Given(d.attrs, "name"))
    ensures Started(reader, s, Sub(up, Given(d.attrs, "name")), d)
  {
    PathBelow(up, Given(d.attrs, "name"));
    if Given(d.attrs, "name") == "" { NamelessStarts(reader, s, Sub(up, ""), d); }
    else { StartsAt(reader, s, up, Sub(up, Given(d.attrs, "name")), d); }
  }

  lemma NamelessStarts(reader: Reader, s: Parser, p: Path, d: Doc)
    requires !s.failed && (s.elem == ElemChannel || s.elem == ElemProperty) && Given(d.attrs, "name") == ""
    ensures Started(reader, s, p, d)
  {
    assert OnStart(reader, s, "property", d.attrs) == s.(failed := true);
  }

  /** The start tag of `d` has been merged at `p`, or has failed. */
  ghost predicate Started(reader: Reader, s: Parser, p: Path, d: Doc) {
    var t, o := OnStart(reader, s, "property", d.attrs), Declare(reader, s.m, s.channelLocked, p, d.attrs);
    && t.channelLocked == s.channelLocked
    && if !Only(d.attrs, PROPERTY_ATTRS) || Given(d.attrs, "name") == "" || Given(d.attrs, "type") == "" then
         t.failed && t.m == s.m
       else if o.status == Failed then t.failed && t.m == o.m
       else At(t, p) && t.m == o.m && t.list == if o.status == Listing then Some(p) else s.list
  }

  lemma StartsAt(reader: Reader, s: Parser, up: Path, p: Path, d: Doc)
    requires At(s, up) && p == PathOf(s.curPath + "/" + Given(d.attrs, "name"))
    requires p != Root && Proper(p) && Join(p) == s.curPath + "/" + Given(d.attrs, "name")
    ensures Started(reader, s, p, d)
  {
    assert OnStart(reader, s, "property", d.attrs) == OnProperty(reader, s, d.attrs);
  }

  lemma EndTag(s: Parser, p: Path)
    requires At(s, p) && p != Root
    ensures OnEnd(s).m == s.m && OnEnd(s).channelLocked == s.channelLocked && At(OnEnd(s), p.up)
  {
    CutJoin(p);
    LastSlashOfAppend(Join(p.up), p.last);
    RootName(p.up);
  }

  /** The buffer machine computes the document's meaning, and leaves buffer and element kind as it found them. */
  lemma {:induction false} ParserReadsDoc(reader: Reader, s: Parser, up: Path, d: Doc)
    requires At(s, up) && Readable(reader, s.m, s.channelLocked, up, d)
    ensures Ends(s, Feed(reader, s, DocEvents(d)), up, ApplyDoc(reader, s.m, s.channelLocked, up, d))
    decreases d, 2
  {
    StartTag(reader, s, up, d);
    ParserReadsAt(reader, s, Sub(up, Given(d.attrs, "name")), d);
  }

  /** A document merged at `p` leaves the buffer at the parent of `p`, wherever it was before. */
  lemma {:induction false} ParserReadsAt(reader: Reader, s: Parser, p: Path, d: Doc)
    requires p != Root && !s.failed && Started(reader, s, p, d) && ReadableAt(reader, s.m, s.channelLocked, p, d)
    ensures Ends(s, Feed(reader, s, DocEvents(d)), p.up, ApplyAt(reader, s.m, s.channelLocked, p, d))
    decreases d, 1
  {
    var v, k := ValueEvents(d.values), DocsEvents(d.kids);
    var t := OnStart(reader, s, "property", d.attrs);
    FeedDoc(reader, s, d);
    if !t.failed {
      ParserReadsValues(reader, t, p, p, d.values);
      var t1 := Feed(reader, t, v);
      if !t1.failed {
        ParserReadsDocs(reader, t1, p, d.kids);
        if !Feed(reader, t1, k).failed { EndTag(Feed(reader, t1, k), p); }
      }
    }
  }

  /** A document is fed in four stages. */
  lemma FeedDoc(reader: Reader, s: Parser, d: Doc)
    requires !s.failed
    ensures var t2 := Feed(reader, Feed(reader, OnStart(reader, s, "property", d.attrs), ValueEvents(d.values)),
            DocsEvents(d.kids));
            Feed(reader, s, DocEvents(d)) == if t2.failed then t2 else OnEnd(t2)
  {
    var v, k, t := ValueEvents(d.values), DocsEvents(d.kids), OnStart(reader, s, "property", d.attrs);
    assert DocEvents(d) == [Start("property", d.attrs)] + (v + k + [End]);
    assert DocEvents(d)[1..] == v + k + [End];
    FeedAppend(reader, t, v + k, [End]);
    FeedAppend(reader, t, v, k);
    var t2 := Feed(reader, Feed(reader, t, v), k);
    if !t2.failed { assert Feed(reader, OnEnd(t2), [End][1..]) == OnEnd(t2); }
  }

  /**
   Why a document's names must be single components: an element whose name holds a '/' is merged, with its values and
   its children, at its full path, but its end tag drops only the last component.  What follows is merged under `p.up`,
   which is where it belongs exactly when the name is a single component.
   */
  lemma SlashShifts(reader: Reader, s: Parser, up: Path, d: Doc)
    requires At(s, up) && Nameable(Given(d.attrs, "name"))
    requires ReadableAt(reader, s.m, s.channelLocked, PathOf(s.curPath + "/" + Given(d.attrs, "name")), d)
    ensures var p := PathOf(s.curPath + "/" + Given(d.attrs, "name"));
            && p != Root && Proper(p) && Join(p) == Join(up) + "/" + Given(d.attrs, "name")
            && Ends(s, Feed(reader, s, DocEvents(d)), p.up, ApplyAt(reader, s.m, s.channelLocked, p, d))
            && (p.up == up <==> SlashFree(Given(d.attrs, "name")))
  {
    var p := PathOf(s.curPath + "/" + Given(d.attrs, "name"));
    NamedAt(up, Given(d.attrs, "name"), p);
    StartsAt(reader, s, up, p, d);
    ParserReadsAt(reader, s, p, d);
  }

  /** The path that a name spells below `up`; its parent is `up` exactly when the name is a single component. */
  lemma NamedAt(up: Path, name: string, p: Path)
    requires Proper(up) && Nameable(name) && p == PathOf(Join(up) + "/" + name)
    ensures p != Root && Proper(p) && Join(p) == Join(up) + "/" + name && (p.up == up <==> SlashFree(name))
  {
    PathOfJoin(up);
    ExtendPath(Join(up), name);
    CutJoin(p);
    CutAppend(Join(up), name);
    if Join(p.up) == Join(up) { JoinInjective(p.up, up); }
  }

  lemma CutAppend(a: string, x: string)
    ensures CutAtLastSlash(a + "/" + x) == a <==> SlashFree(x)
  {
    var path := a + "/" + x;
    if SlashFree(x) {
      LastSlashOfAppend(a, x);
      SplitAt(a, x);
    } else {
      var i :| 0 <= i < |x| && x[i] == '/';
      assert path[|a| + 1 + i] == '/';
    }
  }

  lemma RootName(p: Path)
    ensures Join(p) == "" <==> p == Root
  {
  }

  lemma {:induction false} ParserReadsDocs(reader: Reader, s: Parser, up: Path, ds: seq<Doc>)
    requires At(s, up) && AllReadable(reader, s.m, s.channelLocked, up, ds)
    ensures Ends(s, Feed(reader, s, DocsEvents(ds)), up, ApplyDocs(reader, s.m, s.channelLocked, up, ds))
    decreases ds, 1
  {
    if ds != [] {
      ParserReadsDoc(reader, s, up, ds[0]);
      FeedAppend(reader, s, DocEvents(ds[0]), DocsEvents(ds[1..]));
      var t := Feed(reader, s, DocEvents(ds[0]));
      if !t.failed { ParserReadsDocs(reader, t, up, ds[1..]); }
    }
  }

  /* ---- Within documents ---- */

  /** Where a file stands: outside the channel element, or inside it, in the open properties that make up `p`. */
  datatype Nesting = Outside | Inside(p: Path, inValue: bool)

  /** The open elements after one more tag, by the nesting of tags alone. */
  function Nest(n: Nesting, e: Event): Nesting {
    match e
    case Start(element, attrs) =>
      if n.Outside? then Inside(Root, false)
      else if element == "property" then Inside(Sub(n.p, Given(attrs, "name")), false)
      else Inside(n.p, true)
    case End =>
      if n.Outside? then Outside
      else if n.inValue then Inside(n.p, false)
      else if n.p == Root then Outside
      else Inside(n.p.up, false)
  }

  function NestAll(n: Nesting, events: seq<Event>): Nesting
    decreases |events|
  {
    if events == [] then n else NestAll(Nest(n, events[0]), events[1..])
  }

  /** The buffer spells the open properties, and the element kind is that of the innermost open element. */
  ghost predicate Spells(s: Parser, n: Nesting) {
    match n
    case Outside => s.elem == ElemNone && s.curPath == ""
    case Inside(p, inValue) =>
      && Proper(p) && s.curPath == Join(p) && (inValue ==> p != Root)
      && s.elem == if inValue then ElemValue else if p == Root then ElemChannel else ElemProperty
  }

  lemma EventSpells(reader: Reader, s: Parser, n: Nesting, e: Event)
    requires Spells(s, n) && !OnEvent(reader, s, e).failed
    requires e.Start? && e.element == "property" ==> SlashFree(Given(e.attrs, "name"))
    ensures Spells(OnEvent(reader, s, e), Nest(n, e))
  {
    match e
    case Start(element, attrs) =>
      if element == "property" && n.Inside? { PropertySpells(reader, s, n.p, n.inValue, attrs); }
    case End =>
      if n.Inside? && n.p != Root && !n.inValue { EndTag(s.(failed := false), n.p); }
  }

  lemma PropertySpells(reader: Reader, s: Parser, p: Path, inValue: bool, attrs: Attrs)
    requires Spells(s, Inside(p, inValue)) && !OnStart(reader, s, "property", attrs).failed
    requires SlashFree(Given(attrs, "name"))
    ensures Spells(OnStart(reader, s, "property", attrs), Inside(Sub(p, Given(attrs, "name")), false))
  {
    Opens(reader, s, attrs);
    PathBelow(p, Given(attrs, "name"));
    assert Join(Sub(p, Given(attrs, "name"))) == Join(p) + "/" + Given(attrs, "name");
  }

  lemma Opens(reader: Reader, s: Parser, attrs: Attrs)
    requires !OnStart(reader, s, "property", attrs).failed && s.elem != ElemNone
    ensures var t, name := OnStart(reader, s, "property", attrs), Given(attrs, "name");
            name != "" && t.curPath == s.curPath + "/" + name && t.elem == ElemProperty
  {
  }

  /**
   The buffer is a stack: after every prefix of every file whose names are single components, as long as nothing has
   failed, it spells exactly the properties that are open, and the element kind is that of the innermost open element.
   */
  lemma {:induction false} BufferIsStack(reader: Reader, s: Parser, n: Nesting, events: seq<Event>)
    requires Spells(s, n) && !Feed(reader, s, events).failed
    requires forall e :: e in events && e.Start? && e.element == "property" ==> SlashFree(Given(e.attrs, "name"))
    ensures Spells(Feed(reader, s, events), NestAll(n, events))
    decreases |events|
  {
    if events != [] {
      var e := events[0];
      assert e in events && forall x :: x in events[1..] ==> x in events;
      EventSpells(reader, s, n, e);
      BufferIsStack(reader, OnEvent(reader, s, e), Nest(n, e), events[1..]);
    }
  }
}
