/** Scalars as text: how settings files spell them, and how they are read back with base 0. */
module Numerals {
  import opened Values

  const TWO63: int := 0x8000_0000_0000_0000
  const TWO64: int := 0x1_0000_0000_0000_0000

  /* ---- Printing: %u, %d, G_GUINT64_FORMAT, G_GINT64_FORMAT ---- */

  function Digits(n: nat): (s: string)
    ensures s != []
  {
    if n < 10 then [DigitChar(n)] else Digits(n / 10) + [DigitChar(n % 10)]
  }

  function DigitChar(d: nat): char
    requires d < 10
  {
    '0' + d as char
  }

  function Decimal(z: int): string {
    if z < 0 then "-" + Digits(-z) else Digits(z)
  }

  /* ---- Reading: the subject sequence of strtol, section 7.22.1.4 of C11 ---- */

  predicate IsSpace(c: char) {
    c == ' ' || '\t' <= c <= '\r'
  }

  /** Value of a digit in the largest base, 36 if it is none. */
  function DigitValue(c: char): nat {
    if '0' <= c <= '9' then c as int - '0' as int
    else if 'a' <= c <= 'z' then c as int - 'a' as int + 10
    else if 'A' <= c <= 'Z' then c as int - 'A' as int + 10
    else 36
  }

  function SkipSpaces(s: string, i: nat): (j: nat)
    requires i <= |s|
    ensures i <= j <= |s|
    decreases |s| - i
  {
    if i < |s| && IsSpace(s[i]) then SkipSpaces(s, i + 1) else i
  }

  function SkipDigits(s: string, i: nat, base: nat): (j: nat)
    requires i <= |s|
    ensures i <= j <= |s|
    decreases |s| - i
  {
    if i < |s| && DigitValue(s[i]) < base then SkipDigits(s, i + 1, base) else i
  }

  function ValueOf(s: string, i: nat, j: nat, base: nat): nat
    requires i <= j <= |s|
  {
    if i == j then 0 else ValueOf(s, i, j - 1, base) * base + DigitValue(s[j - 1])
  }

  /** Sign, magnitude and end of the number at the front of `s`; without any digit nothing is consumed. */
  datatype Subject = Subject(negative: bool, magnitude: nat, end: nat)

  /** The base of the number at `j`, and where its digits start. */
  function BaseAt(s: string, j: nat): (r: (nat, nat))
    requires j <= |s|
    ensures r.1 <= |s|
  {
    var zero := j < |s| && s[j] == '0';
    var hex := zero && j + 2 < |s| && (s[j + 1] == 'x' || s[j + 1] == 'X') && DigitValue(s[j + 2]) < 16;
    if hex then (16, j + 2) else if zero then (8, j) else (10, j)
  }

  function Scan(s: string): Subject {
    var i := SkipSpaces(s, 0);
    var negative := i < |s| && s[i] == '-';
    var j := if negative || (i < |s| && s[i] == '+') then i + 1 else i;
    var (base, k) := BaseAt(s, j);
    var e := SkipDigits(s, k, base);
    if e == k then Subject(false, 0, 0) else Subject(negative, ValueOf(s, k, e, base), e)
  }

  function Clamp(z: int, lo: int, hi: int): int {
    if z < lo then lo else if z > hi then hi else z
  }

  /** strtol and g_ascii_strtoll: out of range saturates. */
  function ToSigned(n: Subject): int {
    Clamp(if n.negative then 0 - n.magnitude else n.magnitude + 0, -TWO63, TWO63 - 1)
  }

  /** strtoul and g_ascii_strtoull: a minus sign negates modulo 2^64, out of range saturates. */
  function ToUnsigned(n: Subject): int {
    if n.magnitude >= TWO64 then TWO64 - 1 else if n.negative then (TWO64 - n.magnitude) % TWO64 else n.magnitude
  }

  /** An unsigned 64-bit word stored in a gint64. */
  function AsSigned(u: int): int {
    if u >= TWO63 then u - TWO64 else u
  }

  datatype Kind = StrKind | UCharKind | UIntKind | IntKind | UInt64Kind | Int64Kind | BoolKind

  function KindOf(x: Scalar): Kind {
    match x
    case Str(_) => StrKind
    case UChar(_) => UCharKind
    case UInt(_) => UIntKind
    case Int(_) => IntKind
    case UInt64(_) => UInt64Kind
    case Int64(_) => Int64Kind
    case Bool(_) => BoolKind
  }

  /** The values a GValue of each type can hold. */
  predicate InRange(x: Scalar) {
    match x
    case UChar(n) => 0 <= n < 0x100
    case UInt(n) => 0 <= n < 0x1_0000_0000
    case Int(n) => -0x8000_0000 <= n < 0x8000_0000
    case UInt64(n) => 0 <= n < TWO64
    case Int64(n) => -TWO63 <= n < TWO63
    case _ => true
  }

  /** _blconf_gvalue_from_string */
  function FromString(kind: Kind, s: string): Option<Scalar> {
    var n := Scan(s);
    var complete := s != "" && n.end == |s|;
    match kind
    case StrKind => Some(Str(s))
    case UCharKind => var z := AsSigned(ToUnsigned(n)); if complete && 0 <= z <= 0xFF then Some(UChar(z)) else None
    case UIntKind => var z := AsSigned(ToUnsigned(n)); if complete && 0 <= z <= 0xFFFF_FFFF then Some(UInt(z)) else None
    case IntKind => var z := ToSigned(n); if complete && -0x8000_0000 <= z <= 0x7FFF_FFFF then Some(Int(z)) else None
    case UInt64Kind => if complete then Some(UInt64(ToUnsigned(n))) else None
    case Int64Kind => if complete then Some(Int64(ToSigned(n))) else None
    case BoolKind => if s == "true" then Some(Bool(true)) else if s == "false" then Some(Bool(false)) else None
  }

  /** The spelling of a scalar in a settings file. */
  function ToString(x: Scalar): string {
    match x
    case Str(s) => s
    case Bool(b) => if b then "true" else "false"
    case UChar(n) => Decimal(n)
    case UInt(n) => Decimal(n)
    case Int(n) => Decimal(n)
    case UInt64(n) => Decimal(n)
    case Int64(n) => Decimal(n)
  }

  /* ---- Canonical decimals never trigger octal or hexadecimal ---- */

  lemma {:induction false} DigitsAre(n: nat)
    ensures forall i :: 0 <= i < |Digits(n)| ==> '0' <= Digits(n)[i] <= '9'
    ensures n > 0 ==> Digits(n)[0] != '0'
    ensures ValueOf(Digits(n), 0, |Digits(n)|, 10) == n
  {
    if n >= 10 {
      DigitsAre(n / 10);
      var t, s := Digits(n / 10), Digits(n);
      assert s == t + [DigitChar(n % 10)];
      ValueOfPrefix(t, s, |t|, 10);
      assert ValueOf(s, 0, |s|, 10) == ValueOf(s, 0, |t|, 10) * 10 + DigitValue(s[|t|]);
    } else {
      assert ValueOf(Digits(n), 0, 0, 10) == 0;
    }
  }

  lemma {:induction false} ValueOfPrefix(t: string, s: string, j: nat, base: nat)
    requires j <= |t| <= |s| && t == s[..|t|]
    ensures ValueOf(t, 0, j, base) == ValueOf(s, 0, j, base)
  {
    if j > 0 { ValueOfPrefix(t, s, j - 1, base); }
  }

  lemma {:induction false} SkipAllDigits(s: string, i: nat, base: nat)
    requires i <= |s| && forall k :: i <= k < |s| ==> DigitValue(s[k]) < base
    ensures SkipDigits(s, i, base) == |s|
    decreases |s| - i
  {
    if i < |s| { SkipAllDigits(s, i + 1, base); }
  }

  lemma {:induction false} ValueOfShift(s: string, c: char, j: nat, base: nat)
    requires j <= |s|
    ensures ValueOf([c] + s, 1, j + 1, base) == ValueOf(s, 0, j, base)
  {
    if j > 0 { ValueOfShift(s, c, j - 1, base); }
  }

  /** Digits that do not start with '0' scan in base 10. */
  lemma ScanDigits(m: nat)
    requires m > 0
    ensures Scan(Digits(m)) == Subject(false, m, |Digits(m)|)
  {
    var s := Digits(m);
    DigitsAre(m);
    assert '1' <= s[0] <= '9' && SkipSpaces(s, 0) == 0;
    SkipAllDigits(s, 0, 10);
  }

  lemma ScanNegative(m: nat)
    requires m > 0
    ensures Scan("-" + Digits(m)) == Subject(true, m, 1 + |Digits(m)|)
  {
    var d, s := Digits(m), "-" + Digits(m);
    DigitsAre(m);
    assert forall k :: 1 <= k < |s| ==> s[k] == d[k - 1];
    assert s[0] == '-' && '1' <= s[1] <= '9' && SkipSpaces(s, 0) == 0;
    SkipAllDigits(s, 1, 10);
    ValueOfShift(d, '-', |d|, 10);
  }

  lemma ScanZero()
    ensures Scan("0") == Subject(false, 0, 1)
  {
    var s := "0";
    assert SkipSpaces(s, 0) == 0;
    SkipAllDigits(s, 0, 8);
    assert ValueOf(s, 0, 1, 8) == ValueOf(s, 0, 0, 8) * 8 + 0;
  }

  /** A printed integer scans, to its last character, as that integer. */
  lemma ScanDecimal(z: int)
    ensures Scan(Decimal(z)) == Subject(z < 0, if z < 0 then -z else z, |Decimal(z)|)
  {
    if z < 0 { ScanNegative(-z); } else if z > 0 { ScanDigits(z); } else { ScanZero(); }
  }

  /** What each numeric type makes of a text that scans to its end as `z`. */
  lemma ScannedMeaning(s: string, z: int)
    requires s != "" && Scan(s).end == |s|
    requires z == if Scan(s).negative then 0 - Scan(s).magnitude else Scan(s).magnitude + 0
    ensures FromString(IntKind, s) == if InRange(Int(z)) then Some(Int(z)) else None
    ensures FromString(UIntKind, s) ==
            if InRange(UInt(z)) then Some(UInt(z))
              else if z < 0 && InRange(UInt(z + TWO64)) && z > -TWO64 then Some(UInt(z + TWO64)) else None
    ensures FromString(UCharKind, s) ==
            if InRange(UChar(z)) then Some(UChar(z))
              else if z < 0 && InRange(UChar(z + TWO64)) && z > -TWO64 then Some(UChar(z + TWO64)) else None
    ensures FromString(Int64Kind, s) == Some(Int64(Clamp(z, -TWO63, TWO63 - 1)))
    ensures FromString(UInt64Kind, s) ==
            Some(UInt64(if 0 <= z then Clamp(z, 0, TWO64 - 1) else if z > -TWO64 then z + TWO64 else TWO64 - 1))
  {
  }

  lemma DecimalIsText(z: int)
    ensures Decimal(z) != ""
  {
  }

  /**
   What each numeric type makes of the decimal numeral of any integer.  32-bit and 8-bit types reject what is out of
   range, except that an unsigned one accepts a negative numeral that wraps into range; 64-bit types saturate.
   */
  lemma DecimalMeaning(z: int)
    ensures FromString(IntKind, Decimal(z)) == if InRange(Int(z)) then Some(Int(z)) else None
    ensures FromString(UIntKind, Decimal(z)) ==
            if InRange(UInt(z)) then Some(UInt(z))
              else if z < 0 && InRange(UInt(z + TWO64)) && z > -TWO64 then Some(UInt(z + TWO64)) else None
    ensures FromString(UCharKind, Decimal(z)) ==
            if InRange(UChar(z)) then Some(UChar(z))
              else if z < 0 && InRange(UChar(z + TWO64)) && z > -TWO64 then Some(UChar(z + TWO64)) else None
    ensures FromString(Int64Kind, Decimal(z)) == Some(Int64(Clamp(z, -TWO63, TWO63 - 1)))
    ensures FromString(UInt64Kind, Decimal(z)) ==
            Some(UInt64(if 0 <= z then Clamp(z, 0, TWO64 - 1) else if z > -TWO64 then z + TWO64 else TWO64 - 1))
  {
    ScanDecimal(z);
    DecimalIsText(z);
    ScannedMeaning(Decimal(z), z);
  }

  /** Every scalar in its type's range survives being printed and read back. */
  lemma RoundTrip(x: Scalar)
    requires InRange(x)
    ensures FromString(KindOf(x), ToString(x)) == Some(x)
  {
    match x
    case Str(_) =>
    case Bool(_) =>
    case UChar(n) => DecimalMeaning(n);
    case UInt(n) => DecimalMeaning(n);
    case Int(n) => DecimalMeaning(n);
    case UInt64(n) => DecimalMeaning(n);
    case Int64(n) => DecimalMeaning(n);
  }
}
