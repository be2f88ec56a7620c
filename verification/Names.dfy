/** The validators every request passes first, and the names they let through. */
module Names {
  import opened Paths

  /** The ASCII letters and digits. */
  predicate AlphaNumeric(c: char) {
    'A' <= c <= 'Z' || 'a' <= c <= 'z' || '0' <= c <= '9'
  }

  predicate ComponentChar(c: char) {
    AlphaNumeric(c) || c in "_-{}<>|,[].:"
  }

  predicate ChannelChar(c: char) {
    AlphaNumeric(c) || c in "_-{}|,[].:"
  }

  /** The two alphabets by code point: a channel name has no '<' and no '>'. */
  lemma Alphabets(c: char)
    ensures ComponentChar(c) <==>
            c as int in {44, 45, 46, 58, 60, 62, 91, 93, 95, 123, 124, 125} ||
            48 <= c as int <= 57 || 65 <= c as int <= 90 || 97 <= c as int <= 122
    ensures ChannelChar(c) <==> ComponentChar(c) && c as int != 60 && c as int != 62
  {
  }

  /** Every component of the path keeps to the alphabet of property names. */
  predicate Spellable(p: Path) {
    p.Sub? ==> p.last != "" && (forall i :: 0 <= i < |p.last| ==> ComponentChar(p.last[i])) && Spellable(p.up)
  }

  lemma {:induction false} SpellableAbove(q: Path, p: Path)
    requires Above(q, p) && Spellable(p)
    ensures Spellable(q)
  {
    if q != p { SpellableAbove(q, p.up); }
  }

  /** The grammar of property names: non-empty components over the alphabet, each preceded by '/'. */
  ghost predicate IsPropertyName(name: string) {
    exists p :: p != Root && Spellable(p) && Join(p) == name
  }

  predicate IsChannelName(name: string) {
    name != "" && forall i :: 0 <= i < |name| ==> ChannelChar(name[i])
  }

  /** What one pass over the characters can see of a property name. */
  predicate Scanned(s: string, n: nat)
    requires n <= |s|
  {
    && n >= 1 && s[0] == '/'
    && forall i :: 1 <= i < n ==> (s[i] == '/' || ComponentChar(s[i])) && !(s[i] == '/' && s[i - 1] == '/')
  }

  /** blconf_property_is_valid: accepts exactly the property names. */
  method PropertyIsValid(property: string) returns (ok: bool)
    ensures ok <==> IsPropertyName(property)
  {
    PassIsGrammar(property);
    ok := false;
    if property == "" || property[0] != '/' { return; }
    var p := 1;
    if p == |property| { return; }
    while p < |property|
      invariant 1 <= p <= |property| && Scanned(property, p)
    {
      var c := property[p];
      if !AlphaNumeric(c) && c != '_' && c != '-' && c != '/' && c != '{' && c != '}' && c != '<' && c != '>'
         && c != '|' && c != ',' && c != '[' && c != ']' && c != '.' && c != ':' {
        return;
      }
      if c == '/' && property[p - 1] == '/' { return; }
      p := p + 1;
    }
    if property[p - 1] == '/' { return; }
    ok := true;
  }

  /** blconf_channel_is_valid */
  method ChannelIsValid(channel: string) returns (ok: bool)
    ensures ok <==> IsChannelName(channel)
  {
    ok := false;
    if channel == "" { return; }
    var p := 0;
    while p < |channel|
      invariant 0 <= p <= |channel| && forall i :: 0 <= i < p ==> ChannelChar(channel[i])
    {
      var c := channel[p];
      if !AlphaNumeric(c) && c != '_' && c != '-' && c != '{' && c != '}' && c != '|' && c != ','
         && c != '[' && c != ']' && c != '.' && c != ':' {
        return;
      }
      p := p + 1;
    }
    ok := true;
  }

  predicate Passes(s: string) {
    |s| >= 2 && Scanned(s, |s|) && s[|s| - 1] != '/'
  }

  /** The one-pass test and the grammar agree on every string. */
  lemma PassIsGrammar(s: string)
    ensures Passes(s) <==> IsPropertyName(s)
  {
    if Passes(s) {
      PassesSpells(s);
      JoinPathOf(s);
    }
    if IsPropertyName(s) {
      var p :| p != Root && Spellable(p) && Join(p) == s;
      SpelledPasses(p);
    }
  }

  lemma {:induction false} PassesSpells(s: string)
    requires Passes(s)
    ensures PathOf(s) != Root && Spellable(PathOf(s))
    decreases |s|
  {
    var i := LastSlash(s);
    var x := s[i + 1..];
    forall j | 0 <= j < |x| ensures ComponentChar(x[j]) { assert x[j] == s[i + 1 + j]; }
    if i > 0 {
      assert forall j :: 0 <= j < i ==> s[..i][j] == s[j];
      PassesSpells(s[..i]);
    }
  }

  lemma {:induction false} SpelledPasses(p: Path)
    requires p != Root && Spellable(p)
    ensures Passes(Join(p))
  {
    if p.up != Root { SpelledPasses(p.up); }
    PassesAppend(Join(p.up), p.last);
  }

  lemma PassesAppend(a: string, x: string)
    requires (a == "" || Passes(a)) && x != "" && forall i :: 0 <= i < |x| ==> ComponentChar(x[i])
    ensures Passes(a + "/" + x)
  {
    var s := a + "/" + x;
    forall i | 1 <= i < |s| ensures (s[i] == '/' || ComponentChar(s[i])) && !(s[i] == '/' && s[i - 1] == '/') {
      if i > |a| { assert s[i] == x[i - |a| - 1] && ComponentChar(s[i]); }
    }
  }

  lemma {:induction false} SpellableIsProper(p: Path)
    requires Spellable(p)
    ensures Proper(p)
  {
    if p.Sub? {
      assert forall i :: 0 <= i < |p.last| ==> ComponentChar(p.last[i]);
      SpellableIsProper(p.up);
    }
  }

  /** An accepted name names one path, which spells it back; the tree's own test lets it through. */
  lemma AcceptedName(name: string)
    requires IsPropertyName(name)
    ensures NameIsValid(name) && Proper(PathOf(name)) && Spellable(PathOf(name)) && PathOf(name) != Root
    ensures Join(PathOf(name)) == name && Rejoined(Split(name[1..])) == name[1..]
    ensures forall p :: Proper(p) && Join(p) == name ==> p == PathOf(name)
  {
    PassIsGrammar(name);
    PassesSpells(name);
    SpellableIsProper(PathOf(name));
    JoinPathOf(name);
    RejoinSplit(name[1..]);
    JoinIsValid(PathOf(name));
    forall p | Proper(p) && Join(p) == name ensures p == PathOf(name) { PathOfJoin(p); }
  }
}
