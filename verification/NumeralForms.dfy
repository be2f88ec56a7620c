/** Which texts are numerals in base 0, and what they denote: decimal, octal and hexadecimal constants. */
module NumeralForms {
  import opened Values
  import opened Paths
  import opened Numerals

  /* ---- Positional values ---- */

  function Power(b: nat, n: nat): nat {
    if n == 0 then 1 else b * Power(b, n - 1)
  }

  const DIGITS := "0123456789abcdefghijklmnopqrstuvwxyz"

  /** A digit of base `b`, in either case. */
  ghost predicate IsDigit(c: char, b: nat) {
    exists d :: 0 <= d < b && d < |DIGITS| && DIGITS[d] == Lower(c)
  }

  /** Every digit weighs as much as a power of the base. */
  function Positional(digits: string, b: nat): nat {
    if digits == "" then 0 else DigitValue(digits[0]) * Power(b, |digits| - 1) + Positional(digits[1..], b)
  }

  /** The value of a digit is its place among the digits. */
  lemma DigitIs(c: char, b: nat)
    requires b <= 36
    ensures DigitValue(c) < b <==> IsDigit(c, b)
    ensures DigitValue(c) < 36 ==> DIGITS[DigitValue(c)] == Lower(c)
  {
    assert |DIGITS| == 36;
    if DigitValue(c) < 36 { PlaceOf(c); }
    if IsDigit(c, b) {
      var d :| 0 <= d < b && d < |DIGITS| && DIGITS[d] == Lower(c);
      ValueOfPlace(d);
    }
  }

  lemma PlaceOf(c: char)
    requires DigitValue(c) < 36
    ensures DIGITS[DigitValue(c)] == Lower(c)
  {
  }

  lemma ValueOfPlace(d: nat)
    requires d < 36
    ensures DigitValue(DIGITS[d]) == d
  {
  }

  lemma {:induction false} PositionalLast(digits: string, c: char, b: nat)
    ensures Positional(digits + [c], b) == Positional(digits, b) * b + DigitValue(c)
    decreases |digits|
  {
    if digits == "" {
      assert Power(b, 0) == 1 && ([c])[1..] == "";
    } else {
      var n := |digits|;
      assert (digits + [c])[1..] == digits[1..] + [c];
      PositionalLast(digits[1..], c, b);
      Distribute(DigitValue(digits[0]), Power(b, n - 1), Positional(digits[1..], b), b);
    }
  }

  lemma Distribute(d: nat, p: nat, r: nat, b: nat)
    ensures (d * p + r) * b == d * (b * p) + r * b
  {
  }

  lemma {:induction false} ValueIsPositional(s: string, i: nat, j: nat, b: nat)
    requires i <= j <= |s|
    ensures ValueOf(s, i, j, b) == Positional(s[i..j], b)
    decreases j
  {
    if i < j {
      ValueIsPositional(s, i, j - 1, b);
      PositionalLast(s[i..j - 1], s[j - 1], b);
      assert s[i..j] == s[i..j - 1] + [s[j - 1]];
    }
  }

  /* ---- The forms of a numeral ---- */

  /** A C integer constant: its base, and the digits that count. */
  ghost predicate Constant(body: string, b: nat, digits: string) {
    && (forall i :: 0 <= i < |digits| ==> IsDigit(digits[i], b))
    && match b
       case 10 => body == digits && digits != "" && digits[0] != '0'
       case 8 => body == "0" + digits
       case 16 => digits != "" && (body == "0x" + digits || body == "0X" + digits)
       case _ => false
  }

  /** White space, at most one sign, and then `body`. */
  ghost predicate Spelled(s: string, white: string, sign: string, body: string) {
    && s == white + sign + body && sign in {"", "+", "-"}
    && forall i :: 0 <= i < |white| ==> white[i] == ' ' || 9 <= white[i] as int <= 13
  }

  ghost predicate Numeral(s: string, white: string, sign: string, body: string, b: nat, digits: string) {
    Spelled(s, white, sign, body) && Constant(body, b, digits)
  }

  lemma {:induction false} SkipWhite(s: string, i: nat, j: nat)
    requires i <= j <= |s| && (forall k :: i <= k < j ==> IsSpace(s[k])) && (j < |s| ==> !IsSpace(s[j]))
    ensures SkipSpaces(s, i) == j
    decreases j - i
  {
    if i < j { SkipWhite(s, i + 1, j); }
  }

  lemma {:induction false} Skipped(s: string, i: nat)
    requires i <= |s|
    ensures var j := SkipSpaces(s, i); (forall k :: i <= k < j ==> IsSpace(s[k])) && (j < |s| ==> !IsSpace(s[j]))
    decreases |s| - i
  {
    if i < |s| && IsSpace(s[i]) { Skipped(s, i + 1); }
  }

  lemma {:induction false} SkippedDigits(s: string, i: nat, b: nat)
    requires i <= |s|
    ensures forall k :: i <= k < SkipDigits(s, i, b) ==> DigitValue(s[k]) < b
    decreases |s| - i
  {
    if i < |s| && DigitValue(s[i]) < b { SkippedDigits(s, i + 1, b); }
  }

  lemma AllDigits(body: string, b: nat, digits: string)
    requires Constant(body, b, digits)
    ensures forall k :: 0 <= k < |digits| ==> DigitValue(digits[k]) < b
    ensures body != "" && '0' <= body[0] <= '9'
  {
    forall k | 0 <= k < |digits| ensures DigitValue(digits[k]) < b { DigitIs(digits[k], b); }
    if b == 10 { DigitIs(digits[0], b); }
  }

  /** From the first digit on: the base, and the digits up to the end. */
  lemma BodyScans(s: string, j: nat, body: string, b: nat, digits: string)
    requires Constant(body, b, digits) && j <= |s| && s[j..] == body
    ensures BaseAt(s, j) == (b, if b == 16 then j + 2 else j)
    ensures var k := BaseAt(s, j).1; k < |s| && s[k..] == if b == 8 then "0" + digits else digits
  {
    AllDigits(body, b, digits);
    assert forall i :: 0 <= i < |body| ==> s[j + i] == body[i];
    if b == 8 {
      if digits != "" { assert body[1] == digits[0]; }
    } else if b == 16 {
      assert body[2] == digits[0] && body[2..] == digits;
      assert s[j + 2..] == s[j..][2..];
    }
  }

  lemma DigitsScan(s: string, k: nat, b: nat, digits: string)
    requires k < |s| && b > 0 && (s[k..] == digits || s[k..] == "0" + digits)
    requires forall i :: 0 <= i < |digits| ==> DigitValue(digits[i]) < b
    ensures SkipDigits(s, k, b) == |s| && ValueOf(s, k, |s|, b) == Positional(digits, b)
  {
    forall i | k <= i < |s| ensures DigitValue(s[i]) < b {
      assert s[i] == s[k..][i - k];
      if s[k..] != digits && i > k { assert s[i] == digits[i - k - 1]; }
    }
    SkipAllDigits(s, k, b);
    ValueIsPositional(s, k, |s|, b);
    assert s[k..|s|] == s[k..];
    assert Positional("0" + digits, b) == Positional(digits, b) by { assert ("0" + digits)[1..] == digits; }
  }

  lemma FrontScans(s: string, white: string, sign: string, body: string)
    requires Spelled(s, white, sign, body) && body != "" && '0' <= body[0] <= '9'
    ensures SkipSpaces(s, 0) == |white| < |s| && (s[|white|] == '-' <==> sign == "-")
    ensures s[|white|] == '+' <==> sign == "+"
  {
    var i := |white|;
    assert forall k :: 0 <= k < i ==> s[k] == white[k];
    assert s[i] == if sign == "" then body[0] else sign[0];
    SkipWhite(s, 0, i);
  }

  /** Every numeral is read to its end, as the number its digits denote in its base. */
  lemma NumeralScans(s: string, white: string, sign: string, body: string, b: nat, digits: string)
    requires Numeral(s, white, sign, body, b, digits)
    ensures Scan(s) == Subject(sign == "-", Positional(digits, b), |s|)
  {
    var i, j := |white|, |white| + |sign|;
    AllDigits(body, b, digits);
    FrontScans(s, white, sign, body);
    assert s[j..] == body;
    BodyScans(s, j, body, b, digits);
    DigitsScan(s, BaseAt(s, j).1, b, digits);
  }

  /** Whatever is read to its end is a numeral. */
  lemma OnlyNumerals(s: string) returns (white: string, sign: string, body: string, b: nat, digits: string)
    requires s != "" && Scan(s).end == |s|
    ensures Numeral(s, white, sign, body, b, digits)
  {
    var i := SkipSpaces(s, 0);
    var j := if i < |s| && (s[i] == '-' || s[i] == '+') then i + 1 else i;
    var (base, k) := BaseAt(s, j);
    assert SkipDigits(s, k, base) == |s| && k < |s|;
    white, sign := FrontIsSpelled(s, i, j);
    digits := BodyIsConstant(s, j);
    body, b := s[j..], base;
  }

  lemma FrontIsSpelled(s: string, i: nat, j: nat) returns (white: string, sign: string)
    requires i == SkipSpaces(s, 0) && j == if i < |s| && (s[i] == '-' || s[i] == '+') then i + 1 else i
    ensures Spelled(s, white, sign, s[j..])
  {
    Skipped(s, 0);
    white, sign := s[..i], s[i..j];
    assert s == white + sign + s[j..];
    assert sign == if j == i then "" else [s[i]];
  }

  lemma BodyIsConstant(s: string, j: nat) returns (digits: string)
    requires j <= |s| && BaseAt(s, j).1 < |s| && SkipDigits(s, BaseAt(s, j).1, BaseAt(s, j).0) == |s|
    ensures Constant(s[j..], BaseAt(s, j).0, digits)
  {
    var (base, k) := BaseAt(s, j);
    SkippedDigits(s, k, base);
    digits := if base == 8 then s[j + 1..] else s[k..];
    forall n | 0 <= n < |digits| ensures IsDigit(digits[n], base) {
      assert digits[n] == s[if base == 8 then j + 1 + n else k + n];
      DigitIs(digits[n], base);
    }
    TailIsConstant(s, j, digits);
  }

  lemma TailIsConstant(s: string, j: nat, digits: string)
    requires j < |s| && BaseAt(s, j).1 < |s|
    requires digits == if BaseAt(s, j).0 == 8 then s[j + 1..] else s[BaseAt(s, j).1..]
    requires forall n :: 0 <= n < |digits| ==> IsDigit(digits[n], BaseAt(s, j).0)
    ensures Constant(s[j..], BaseAt(s, j).0, digits)
  {
    var body := s[j..];
    if BaseAt(s, j).0 == 16 {
      assert s[j + 2..] == body[2..] && body == [body[0]] + [body[1]] + body[2..];
      assert body[0] == '0' && (body[1] == 'x' || body[1] == 'X');
      assert body == "0x" + digits || body == "0X" + digits;
    } else if BaseAt(s, j).0 == 8 {
      assert body == [body[0]] + s[j + 1..];
    }
  }

  /**
   What a text means as a number.  The numeric types accept exactly the numerals, and an accepted numeral `z` counts as
   its value where the type has it: 64-bit types saturate, and an unsigned type reads a negative numeral modulo 2^64.
   */
  lemma NumeralMeaning(s: string, white: string, sign: string, body: string, b: nat, digits: string)
    requires Numeral(s, white, sign, body, b, digits)
    ensures var z := if sign == "-" then 0 - Positional(digits, b) else Positional(digits, b) + 0;
            && FromString(IntKind, s) == (if -0x8000_0000 <= z < 0x8000_0000 then Some(Int(z)) else None)
            && (FromString(UIntKind, s) ==
                if 0 <= z < 0x1_0000_0000 then Some(UInt(z))
                else if -0x1_0000_0000_0000_0000 < z < -0xFFFF_FFFF_0000_0000 then
                  Some(UInt(z + 0x1_0000_0000_0000_0000))
                else None)
            && (FromString(UCharKind, s) ==
                if 0 <= z < 0x100 then Some(UChar(z))
                else if -0x1_0000_0000_0000_0000 < z < -0xFFFF_FFFF_FFFF_FF00 then
                  Some(UChar(z + 0x1_0000_0000_0000_0000))
                else None)
            && FromString(Int64Kind, s) ==
               Some(Int64(if z < -0x8000_0000_0000_0000 then -0x8000_0000_0000_0000
                          else if z > 0x7FFF_FFFF_FFFF_FFFF then 0x7FFF_FFFF_FFFF_FFFF
                          else z))
            && FromString(UInt64Kind, s) ==
               Some(UInt64(if 0 <= z < 0x1_0000_0000_0000_0000 then z
                           else if -0x1_0000_0000_0000_0000 < z < 0 then z + 0x1_0000_0000_0000_0000
                           else 0xFFFF_FFFF_FFFF_FFFF))
  {
    NumeralScans(s, white, sign, body, b, digits);
    AllDigits(body, b, digits);
    assert s != "";
    ScannedMeaning(s, if sign == "-" then 0 - Positional(digits, b) else Positional(digits, b) + 0);
  }

  ghost predicate IsNumeral(s: string) {
    exists white, sign, body, b, digits :: Numeral(s, white, sign, body, b, digits)
  }

  lemma OnlyNumeralsCount(kind: Kind, s: string)
    requires kind != StrKind && kind != BoolKind
    ensures FromString(kind, s).Some? ==> IsNumeral(s)
    ensures kind == Int64Kind || kind == UInt64Kind ==> (FromString(kind, s).Some? <==> IsNumeral(s))
  {
    if s != "" && Scan(s).end == |s| {
      var white, sign, body, b, digits := OnlyNumerals(s);
    }
    if IsNumeral(s) {
      var white, sign, body, b, digits :| Numeral(s, white, sign, body, b, digits);
      NumeralMeaning(s, white, sign, body, b, digits);
    }
  }
}
