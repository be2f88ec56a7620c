/** Which elements of a settings file are refused, and what the others stand for. */
module Acceptance {
  import opened Values
  import opened Paths
  import opened PropertyMap
  import opened Numerals
  import opened SettingsFile

  /** A channel element is refused, and then nothing is merged, exactly for these faults. */
  lemma ChannelIsRefused(reader: Reader, s: Parser, attrs: Attrs)
    requires !s.failed
    ensures var t, v := OnChannel(reader, s, attrs), Given(attrs, "version");
            && (t.failed <==>
                 || (exists i :: 0 <= i < |attrs| && attrs[i].0 !in {"name", "version", "locked", "unlocked"})
                 || Given(attrs, "name") == "" || !(v == "1" || (|v| >= 2 && v[0] == '1' && v[1] == '.'))
                 || (!reader.isSystem && (Given(attrs, "locked") != "" || Given(attrs, "unlocked") != ""))
                 || (s.channelLocked && if Given(attrs, "unlocked") != "" then reader.inList(Given(attrs, "unlocked"))
                       else Given(attrs, "locked") != "" && !reader.inList(Given(attrs, "locked"))))
            && (t.failed ==> t == s.(failed := true))
  {
    var v := Given(attrs, "version");
    assert |v| >= 2 ==> (v[..2] == "1." <==> v[0] == '1' && v[1] == '.');
    assert Only(attrs, CHANNEL_ATTRS) <==>
           !exists i :: 0 <= i < |attrs| && attrs[i].0 !in {"name", "version", "locked", "unlocked"};
  }

  /** The text can be read as the type says; branches and arrays have none. */
  ghost predicate IsRead(kind: string, text: string) {
    || kind == "empty" || kind == "array" || kind == "string" || (kind == "bool" && text in {"true", "false"})
    || (kind == "int" && FromString(IntKind, text).Some?) || (kind == "uint" && FromString(UIntKind, text).Some?)
    || (kind == "uchar" && FromString(UCharKind, text).Some?) || (kind == "int64" && FromString(Int64Kind, text).Some?)
    || (kind == "uint64" && FromString(UInt64Kind, text).Some?)
  }

  lemma ParsedFails(kind: string, text: string)
    ensures Parsed(kind, text).0 == Failed <==> !IsRead(kind, text)
  {
  }

  lemma DeclareFails(reader: Reader, m: PMap, channelLocked: bool, p: Path, attrs: Attrs)
    ensures Declare(reader, m, channelLocked, p, attrs).status == Failed <==>
            && !(!reader.isSystem && !channelLocked && Locked(m, p))
            && (|| (Directed(attrs) && !reader.isSystem)
                || Parsed(Given(attrs, "type"), Given(attrs, "value")).0 == Failed)
  {
  }

  /** A property element is refused exactly for these faults; one that is skipped for a lock need not parse. */
  lemma PropertyIsRefused(reader: Reader, s: Parser, attrs: Attrs)
    requires !s.failed
    ensures var p, kind := PathOf(s.curPath + "/" + Given(attrs, "name")), Given(attrs, "type");
            OnProperty(reader, s, attrs).failed <==>
              || (exists i :: 0 <= i < |attrs| && attrs[i].0 !in {"name", "type", "value", "locked", "unlocked"})
              || Given(attrs, "name") == "" || kind == ""
              || (!(!reader.isSystem && !s.channelLocked && Locked(s.m, p)) &&
                   (|| (!reader.isSystem && (Given(attrs, "locked") != "" || Given(attrs, "unlocked") != ""))
                    || !IsRead(kind, Given(attrs, "value"))))
  {
    assert Only(attrs, PROPERTY_ATTRS) <==>
           !exists i :: 0 <= i < |attrs| && attrs[i].0 !in {"name", "type", "value", "locked", "unlocked"};
    var p := PathOf(s.curPath + "/" + Given(attrs, "name"));
    ParsedFails(Given(attrs, "type"), Given(attrs, "value"));
    DeclareFails(reader, s.m, s.channelLocked, p, attrs);
    EnteredFails(s, p, Given(attrs, "name"), Declare(reader, s.m, s.channelLocked, p, attrs));
  }

  lemma EnteredFails(s: Parser, p: Path, name: string, o: Outcome)
    requires !s.failed
    ensures Entered(s, p, name, o).failed <==> o.status == Failed
  {
  }

  /** The content that "bool", "string", "empty" and "array" stand for. */
  lemma OtherContent(text: string)
    ensures Parsed("bool", "true").1 == Some(Single(Bool(true)))
    ensures Parsed("bool", "false").1 == Some(Single(Bool(false)))
    ensures Parsed("string", text).1 == Some(Single(Str(text))) && Parsed("empty", text).1 == None
    ensures Parsed("array", text).1 == Some(Array([]))
  {
  }

  /** The content that a type and a decimal numeral stand for. */
  lemma ContentIs(z: int)
    ensures InRange(Int(z)) ==> Parsed("int", Decimal(z)) == (Plain, Some(Single(Int(z))))
    ensures InRange(UInt(z)) ==> Parsed("uint", Decimal(z)) == (Plain, Some(Single(UInt(z))))
    ensures InRange(UChar(z)) ==> Parsed("uchar", Decimal(z)) == (Plain, Some(Single(UChar(z))))
    ensures InRange(Int64(z)) ==> Parsed("int64", Decimal(z)) == (Plain, Some(Single(Int64(z))))
    ensures InRange(UInt64(z)) ==> Parsed("uint64", Decimal(z)) == (Plain, Some(Single(UInt64(z))))
  {
    KindsNamed();
    if InRange(Int(z)) { NumberContent("int", Int(z)); }
    if InRange(UInt(z)) { NumberContent("uint", UInt(z)); }
    if InRange(UChar(z)) { NumberContent("uchar", UChar(z)); }
    if InRange(Int64(z)) { NumberContent("int64", Int64(z)); }
    if InRange(UInt64(z)) { NumberContent("uint64", UInt64(z)); }
  }

  lemma KindsNamed()
    ensures TypeNamed("int") == ScalarType(IntKind) && TypeNamed("uint") == ScalarType(UIntKind)
    ensures TypeNamed("uchar") == ScalarType(UCharKind) && TypeNamed("int64") == ScalarType(Int64Kind)
    ensures TypeNamed("uint64") == ScalarType(UInt64Kind)
  {
  }

  lemma NumberContent(kind: string, x: Scalar)
    requires TypeNamed(kind) == ScalarType(KindOf(x)) && InRange(x)
    ensures Parsed(kind, ToString(x)) == (Plain, Some(Single(x)))
  {
    RoundTrip(x);
  }

  /** Where the text cannot be read the property is left with what "0" or "false" stands for. */
  lemma UnreadContent(kind: string, text: string)
    requires !IsRead(kind, text)
    ensures kind in {"int", "uint", "uchar", "int64", "uint64"} ==>
              Parsed(kind, text).0 == Failed && Parsed(kind, text).1 == Parsed(kind, "0").1
    ensures kind == "bool" ==> Parsed(kind, text).1 == Parsed(kind, "false").1
    ensures kind !in {"int", "uint", "uchar", "int64", "uint64", "bool"} ==> Parsed(kind, text) == (Failed, None)
  {
    assert Decimal(0) == "0";
    DecimalMeaning(0);
  }

  /** A start tag is refused wherever it does not belong: a value belongs only where an array is open. */
  lemma MisplacedIsRefused(reader: Reader, s: Parser, element: string, attrs: Attrs)
    requires !(s.elem == ElemNone && element == "channel")
    requires !((s.elem == ElemChannel || s.elem == ElemProperty) && element == "property")
    requires !(s.elem == ElemProperty && s.list.Some? && element == "value")
    ensures OnStart(reader, s, element, attrs) == s.(failed := true)
  {
  }

  /** A <value> element is refused, and adds nothing, exactly for these faults. */
  lemma ValueIsRefused(reader: Reader, s: Parser, attrs: Attrs)
    requires !s.failed && s.list.Some?
    ensures var t, kind := OnValue(reader, s, attrs), Given(attrs, "type");
            && (t.failed <==>
                 || (exists i :: 0 <= i < |attrs| && attrs[i].0 !in {"type", "value"})
                 || kind == "empty" || kind == "array" || !IsRead(kind, Given(attrs, "value")))
            && (t.failed ==> t == s.(failed := true))
  {
    assert Only(attrs, VALUE_ATTRS) <==> !exists i :: 0 <= i < |attrs| && attrs[i].0 !in {"type", "value"};
    ParsedFails(Given(attrs, "type"), Given(attrs, "value"));
  }

  /** Whom the lock directive of an element in a system file locks out, in a channel that is not locked. */
  lemma DirectedLock(reader: Reader, s: Parser, attrs: Attrs)
    requires reader.isSystem && !s.channelLocked && !OnProperty(reader, s, attrs).failed
    requires Given(attrs, "unlocked") != "" || Given(attrs, "locked") != ""
    ensures Locked(OnProperty(reader, s, attrs).m, PathOf(s.curPath + "/" + Given(attrs, "name"))) <==>
            if Given(attrs, "unlocked") != "" then !reader.inList(Given(attrs, "unlocked"))
            else reader.inList(Given(attrs, "locked"))
  {
  }

  /** Whom the lock directive of a channel element in a system file locks out, if the channel was open so far. */
  lemma DirectedChannelLock(reader: Reader, s: Parser, attrs: Attrs)
    requires reader.isSystem && !s.channelLocked && !OnChannel(reader, s, attrs).failed
    ensures OnChannel(reader, s, attrs).channelLocked <==>
            if Given(attrs, "unlocked") != "" then !reader.inList(Given(attrs, "unlocked"))
            else Given(attrs, "locked") != "" && reader.inList(Given(attrs, "locked"))
  {
  }
}
