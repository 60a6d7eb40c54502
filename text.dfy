/**
 * The string handling the request handlers lean on: Python's str.strip(),
 * str.lower() as used for comparison with "true", int() and float() of form
 * fields, and str() of a non-negative int and of a fee.  Money is held in
 * integer cents throughout the model.
 */
module Text {
  import opened Common

  /** The characters Python's str.isspace() accepts, which str.strip() removes. */
  predicate IsSpace(c: char) {
    || ('\t' <= c <= '\r')
    || ('\U{1c}' <= c <= '\U{1f}')
    || c == ' '
    || c == '\U{85}'
    || c == '\U{a0}'
    || c == '\U{1680}'
    || ('\U{2000}' <= c <= '\U{200a}')
    || c == '\U{2028}'
    || c == '\U{2029}'
    || c == '\U{202f}'
    || c == '\U{205f}'
    || c == '\U{3000}'
  }

  predicate IsBlank(s: string) {
    forall i :: 0 <= i < |s| ==> IsSpace(s[i])
  }

  /** Drops leading whitespace. */
  function TrimStart(s: string): (r: string)
    ensures |r| <= |s| && r == s[|s| - |r|..]
    ensures r == [] || !IsSpace(r[0])
    ensures forall i :: 0 <= i < |s| - |r| ==> IsSpace(s[i])
  {
    if s != [] && IsSpace(s[0]) then TrimStart(s[1..]) else s
  }

  /** Drops trailing whitespace. */
  function TrimEnd(s: string): (r: string)
    ensures |r| <= |s| && r == s[..|r|]
    ensures r == [] || !IsSpace(r[|r| - 1])
    ensures forall i :: |r| <= i < |s| ==> IsSpace(s[i])
  {
    if s != [] && IsSpace(s[|s| - 1]) then TrimEnd(s[..|s| - 1]) else s
  }

  /**
   * str.strip(): the result is a slice of the input that neither begins nor
   * ends with whitespace, and it is empty exactly when the input is blank.
   */
  function Strip(s: string): (r: string)
    ensures |r| <= |s|
    ensures r == [] || (!IsSpace(r[0]) && !IsSpace(r[|r| - 1]))
    ensures r == [] <==> IsBlank(s)
    ensures exists i, j ::
      && 0 <= i <= j <= |s| && r == s[i..j]
      && (forall k :: 0 <= k < i ==> IsSpace(s[k]))
      && (forall k :: j <= k < |s| ==> IsSpace(s[k]))
  {
    var t := TrimStart(s);
    var r := TrimEnd(t);
    assert r != [] ==> r[0] == t[0];
    PrefixOfSuffix(s, t, r);
    r
  }

  /** A prefix r of a suffix t of s is the slice of s that starts where t does. */
  lemma PrefixOfSuffix(s: string, t: string, r: string)
    requires |t| <= |s| && t == s[|s| - |t|..]
    requires |r| <= |t| && r == t[..|r|]
    requires forall k :: |r| <= k < |t| ==> IsSpace(t[k])
    ensures var i := |s| - |t|;
      && r == s[i..i + |r|]
      && forall k :: i + |r| <= k < |s| ==> IsSpace(s[k])
  {
    var i := |s| - |t|;
    forall k | i + |r| <= k < |s|
      ensures IsSpace(s[k])
    {
      assert s[k] == t[k - i];
    }
  }

  /** A whitespace-free string is its own stripped form. */
  lemma StripNoSpace(s: string)
    requires forall i :: 0 <= i < |s| ==> !IsSpace(s[i])
    ensures Strip(s) == s
  {
    assert s == [] || !IsSpace(s[0]);
    assert TrimStart(s) == s;
    assert s == [] || !IsSpace(s[|s| - 1]);
    assert TrimEnd(s) == s;
  }

  /** str.lower() on ASCII letters. */
  function LowerChar(c: char): char {
    if 'A' <= c <= 'Z' then (c as int + 32) as char else c
  }

  function Lower(s: string): (r: string)
    ensures |r| == |s|
    ensures forall i :: 0 <= i < |s| ==> r[i] == LowerChar(s[i])
  {
    seq(|s|, i requires 0 <= i < |s| => LowerChar(s[i]))
  }

  predicate IsDigit(c: char) {
    '0' <= c <= '9'
  }

  predicate AllDigits(s: string) {
    forall i :: 0 <= i < |s| ==> IsDigit(s[i])
  }

  function DigitChar(d: nat): (c: char)
    requires d < 10
    ensures IsDigit(c)
  {
    ('0' as int + d) as char
  }

  function DigitValue(c: char): (d: nat)
    requires IsDigit(c)
    ensures d < 10 && DigitChar(d) == c
  {
    c as int - '0' as int
  }

  /** str(n) for a non-negative int: decimal digits without a leading zero. */
  function NatToString(n: nat): (r: string)
    ensures |r| >= 1 && AllDigits(r)
    ensures r[0] == '0' ==> n == 0
    ensures n >= 10 ==> |r| >= 2
  {
    if n < 10 then [DigitChar(n)] else NatToString(n / 10) + [DigitChar(n % 10)]
  }

  /** The value of a string of decimal digits, read most significant first. */
  function DigitsValue(s: string): nat
    requires AllDigits(s)
  {
    if s == [] then 0 else DigitsValue(s[..|s| - 1]) * 10 + DigitValue(s[|s| - 1])
  }

  /** Reading back what str() wrote gives the number. */
  lemma {:induction false} DigitsValueOfNatToString(n: nat)
    ensures DigitsValue(NatToString(n)) == n
  {
    var r := NatToString(n);
    if n >= 10 {
      DigitsValueOfNatToString(n / 10);
      assert r[..|r| - 1] == NatToString(n / 10);
    }
  }

  /** A three-digit number is written with exactly three characters. */
  lemma {:induction false} NatToStringThreeDigits(n: nat)
    requires 100 <= n <= 999
    ensures |NatToString(n)| == 3
  {
    assert NatToString(n / 10) == NatToString(n / 100) + [DigitChar(n / 10 % 10)];
    assert |NatToString(n / 100)| == 1;
  }

  /**
   * int(s) for an already stripped s: an optional sign followed by one or
   * more ASCII digits; anything else is a ValueError, here None.
   */
  function ParseInt(s: string): (r: Option<int>)
    ensures r.Some? <==>
      || (s != [] && AllDigits(s))
      || (|s| > 1 && (s[0] == '+' || s[0] == '-') && AllDigits(s[1..]))
    ensures r.Some? && s != [] && IsDigit(s[0]) ==> r.value >= 0
    ensures r.Some? && s != [] && s[0] == '-' ==> r.value <= 0
  {
    if |s| > 0 && (s[0] == '+' || s[0] == '-') then
      var digits := s[1..];
      if |digits| > 0 && AllDigits(digits) then
        Some(if s[0] == '-' then -(DigitsValue(digits) as int) else DigitsValue(digits))
      else None
    else if |s| > 0 && AllDigits(s) then Some(DigitsValue(s))
    else None
  }

  lemma ParseIntOfNatToString(n: nat)
    ensures ParseInt(NatToString(n)) == Some(n)
  {
    DigitsValueOfNatToString(n);
  }

  /** The position of the first c in s, if any. */
  function IndexOf(s: string, c: char): (r: Option<nat>)
    ensures r.Some? ==> r.value < |s| && s[r.value] == c && c !in s[..r.value]
    ensures r.None? ==> c !in s
  {
    if s == [] then None
    else if s[0] == c then Some(0)
    else match IndexOf(s[1..], c)
      case None => None
      case Some(k) => assert s[1..][..k] == s[1..k + 1]; Some(k + 1)
  }

  /** Cents held by at most two fraction digits: "" is 0, "5" is 50, "05" is 5. */
  function FractionCents(frac: string): (r: nat)
    requires AllDigits(frac) && |frac| <= 2
    ensures r < 100
  {
    if |frac| == 0 then 0
    else if |frac| == 1 then DigitValue(frac[0]) * 10
    else DigitValue(frac[0]) * 10 + DigitValue(frac[1])
  }

  /** float(s) without a sign, in cents: digits, optionally a point and at most two digits. */
  function ParseUnsignedCents(s: string): Option<nat> {
    match IndexOf(s, '.')
    case None =>
      if s != [] && AllDigits(s) then Some(DigitsValue(s) * 100) else None
    case Some(k) =>
      var whole, frac := s[..k], s[k + 1..];
      if AllDigits(whole) && AllDigits(frac) && |whole| + |frac| > 0 && |frac| <= 2 then
        Some(DigitsValue(whole) * 100 + FractionCents(frac))
      else None
  }

  /**
   * float(s) in cents, for an already stripped s: an optional sign, then a
   * decimal number with at most two fraction digits ("12", "12.5", ".50", "3.").
   */
  function ParseDecimal(s: string): (r: Option<int>)
    ensures r.Some? && r.value < 0 ==> s != [] && s[0] == '-'
  {
    if |s| > 0 && (s[0] == '+' || s[0] == '-') then
      match ParseUnsignedCents(s[1..])
      case None => None
      case Some(c) => Some(if s[0] == '-' then -(c as int) else c)
    else
      match ParseUnsignedCents(s)
      case None => None
      case Some(c) => Some(c)
  }

  /** The fraction part str(float) prints: "0" for whole units, no trailing zero otherwise. */
  function FractionText(cents: nat): (r: string)
    requires cents < 100
    ensures 1 <= |r| <= 2 && AllDigits(r)
  {
    if cents == 0 then "0"
    else if cents % 10 == 0 then [DigitChar(cents / 10)]
    else [DigitChar(cents / 10), DigitChar(cents % 10)]
  }

  /** str(float) of a non-negative amount given in cents: "20.0", "12.5", "3.05". */
  function FormatCents(c: nat): (r: string)
    ensures '.' in r
    ensures forall i :: 0 <= i < |r| ==> IsDigit(r[i]) || r[i] == '.'
  {
    var r := NatToString(c / 100) + "." + FractionText(c % 100);
    assert r[|NatToString(c / 100)|] == '.';
    r
  }

  /** The text FormatCents writes holds exactly one decimal point. */
  lemma FormatCentsOnePoint(c: nat)
    ensures multiset(FormatCents(c))['.'] == 1
  {
  }

  /** What FormatCents writes, ParseDecimal reads back unchanged. */
  lemma FormatCentsRoundTrip(c: nat)
    ensures ParseDecimal(FormatCents(c)) == Some(c)
  {
    var whole, frac := NatToString(c / 100), FractionText(c % 100);
    var s := whole + "." + frac;
    assert s == FormatCents(c);
    assert s[..|whole|] == whole;
    assert s[|whole|] == '.';
    assert IndexOf(s, '.') == Some(|whole|);
    assert s[|whole| + 1..] == frac;
    DigitsValueOfNatToString(c / 100);
    assert FractionCents(frac) == c % 100;
    assert ParseUnsignedCents(s) == Some(c);
    assert IsDigit(s[0]);
  }

  /** float() of a text: surrounding whitespace is ignored. */
  function ParseFloat(s: string): (r: Option<int>)
    ensures IsBlank(s) ==> r.None?
    ensures r.Some? && r.value < 0 ==> Strip(s) != [] && Strip(s)[0] == '-'
  {
    ParseDecimal(Strip(s))
  }
}
