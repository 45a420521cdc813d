/** The text handling the app applies to what it reads from sysfs nodes and
    privileged commands: `trim()`, the first line of a reader, the integer
    parsers (`toIntOrNull`, `Integer.parseInt`) and the decimal rendering of
    integers in formatted strings. */
module Text {
  import opened Common

  /** Characters `trim()` removes. */
  predicate IsBlank(c: char) {
    c == ' ' || c == '\t' || c == '\n' || c == '\r' || c == '\U{000B}' || c == '\U{000C}'
  }

  predicate IsLineBreak(c: char) {
    c == '\n' || c == '\r'
  }

  function TrimStart(s: string): (r: string)
    ensures |r| <= |s| && r == s[|s| - |r|..]
    ensures r == [] || !IsBlank(r[0])
    ensures forall i :: 0 <= i < |s| - |r| ==> IsBlank(s[i])
  {
    if |s| > 0 && IsBlank(s[0]) then TrimStart(s[1..]) else s
  }

  function TrimEnd(s: string): (r: string)
    ensures |r| <= |s| && r == s[..|r|]
    ensures r == [] || !IsBlank(r[|r| - 1])
    ensures forall i :: |r| <= i < |s| ==> IsBlank(s[i])
  {
    if |s| > 0 && IsBlank(s[|s| - 1]) then TrimEnd(s[..|s| - 1]) else s
  }

  /** `String.trim()`: the longest infix with no blank at either end. */
  function Trim(s: string): (r: string)
    ensures |r| <= |s|
    ensures r == [] || (!IsBlank(r[0]) && !IsBlank(r[|r| - 1]))
    ensures (forall i :: 0 <= i < |s| ==> !IsBlank(s[i])) ==> r == s
    ensures exists a, b :: 0 <= a <= b <= |s| && r == s[a..b]
              && (forall i :: 0 <= i < a ==> IsBlank(s[i]))
              && (forall i :: b <= i < |s| ==> IsBlank(s[i]))
  {
    var t := TrimStart(s);
    BlankSuffixOfInfix(s, t, TrimEnd(t));
    TrimEnd(t)
  }

  /** A blank-free-prefix cut `t` of `s` followed by a blank-free-suffix cut
      `u` of `t` leaves an infix of `s` with only blanks outside it. */
  lemma BlankSuffixOfInfix(s: string, t: string, u: string)
    requires |t| <= |s| && t == s[|s| - |t|..] && forall i :: 0 <= i < |s| - |t| ==> IsBlank(s[i])
    requires |u| <= |t| && u == t[..|u|] && forall i :: |u| <= i < |t| ==> IsBlank(t[i])
    ensures exists a, b :: 0 <= a <= b <= |s| && u == s[a..b]
              && (forall i :: 0 <= i < a ==> IsBlank(s[i]))
              && (forall i :: b <= i < |s| ==> IsBlank(s[i]))
  {
    var a := |s| - |t|;
    var b := a + |u|;
    assert u == s[a..b];
    assert forall i :: b <= i < |s| ==> s[i] == t[i - a];
  }

  /** The text before the first line break. */
  function LineOf(s: string): (r: string)
    ensures r <= s
    ensures forall i :: 0 <= i < |r| ==> !IsLineBreak(r[i])
    ensures |r| == |s| || IsLineBreak(s[|r|])
  {
    if s == [] || IsLineBreak(s[0]) then [] else [s[0]] + LineOf(s[1..])
  }

  /** `BufferedReader.readLine()` on a fresh reader, and the first element of
      the line list a shell returns: None for empty output, otherwise the
      text up to the first line break. */
  function FirstLine(s: string): (r: Option<string>)
    ensures r.None? <==> s == []
    ensures r.Some? ==> r.value <= s && forall i :: 0 <= i < |r.value| ==> !IsLineBreak(r.value[i])
    ensures r.Some? ==> |r.value| == |s| || IsLineBreak(s[|r.value|])
  {
    if s == [] then None else Some(LineOf(s))
  }

  // ---------------------------------------------------------------------
  // Decimal integers
  // ---------------------------------------------------------------------

  predicate IsDigit(c: char) {
    '0' <= c <= '9'
  }

  predicate AllDigits(s: string) {
    forall i :: 0 <= i < |s| ==> IsDigit(s[i])
  }

  /** The value of a string of decimal digits, most significant first. */
  function DigitsValue(s: string): nat
    requires AllDigits(s)
    decreases |s|
  {
    if s == [] then 0 else DigitsValue(s[..|s| - 1]) * 10 + (s[|s| - 1] as int - '0' as int)
  }

  /** `String.toIntOrNull()` and `Integer.parseInt` without the 32-bit bound:
      an optional `+` or `-` followed by at least one ASCII digit, nothing else. */
  function ParseInteger(s: string): (r: Option<int>)
    ensures r.Some? ==> s != [] && AllDigits(s[if IsDigit(s[0]) then 0 else 1..])
    ensures r.Some? && r.value < 0 ==> s[0] == '-'
    ensures r.Some? <==> (|s| > 0 && AllDigits(s)) || (|s| > 1 && (s[0] == '+' || s[0] == '-') && AllDigits(s[1..]))
  {
    if |s| > 1 && (s[0] == '-' || s[0] == '+') && AllDigits(s[1..]) then
      Some(if s[0] == '-' then -(DigitsValue(s[1..]) as int) else DigitsValue(s[1..]))
    else if |s| > 0 && AllDigits(s) then
      Some(DigitsValue(s))
    else
      None
  }

  const MinInt32: int := -0x8000_0000
  const MaxInt32: int := 0x7FFF_FFFF

  /** `toIntOrNull()` / `Integer.parseInt` on `Int`: a value outside the 32-bit
      range is a parse failure (null, NumberFormatException). */
  function ParseInt32(s: string): (r: Option<int>)
    ensures r.Some? ==> MinInt32 <= r.value <= MaxInt32 && ParseInteger(s) == r
    ensures r.None? ==> ParseInteger(s).None? || ParseInteger(s).value < MinInt32 || MaxInt32 < ParseInteger(s).value
  {
    match ParseInteger(s)
    case Some(v) => if MinInt32 <= v <= MaxInt32 then Some(v) else None
    case None => None
  }

  function DigitChar(d: nat): (c: char)
    requires d < 10
    ensures IsDigit(c) && c as int - '0' as int == d
  {
    ('0' as int + d) as char
  }

  /** The decimal text of a natural number, as `%d` prints it. */
  function NatToDecimal(n: nat): (s: string)
    ensures s != [] && AllDigits(s)
    decreases n
  {
    if n < 10 then [DigitChar(n)] else NatToDecimal(n / 10) + [DigitChar(n % 10)]
  }

  /** The decimal text of an integer, as `%d` and string templates print it. */
  function IntToDecimal(i: int): (s: string)
    ensures s != []
    ensures i < 0 <==> s[0] == '-'
  {
    if i < 0 then "-" + NatToDecimal(-i) else NatToDecimal(i)
  }

  lemma {:induction false} DigitsValueOfDecimal(n: nat)
    ensures DigitsValue(NatToDecimal(n)) == n
    decreases n
  {
    var s := NatToDecimal(n);
    if n >= 10 {
      DigitsValueOfDecimal(n / 10);
      assert s[..|s| - 1] == NatToDecimal(n / 10);
    }
  }

  /** Parsing the decimal text of an integer gives the integer back. */
  lemma DecimalRoundTrip(i: int)
    ensures ParseInteger(IntToDecimal(i)) == Some(i)
  {
    var s := IntToDecimal(i);
    if i < 0 {
      assert s[1..] == NatToDecimal(-i);
      DigitsValueOfDecimal(-i);
    } else {
      DigitsValueOfDecimal(i);
    }
  }

  /** A blank anywhere in the text makes it unparsable: the parsers see only
      what `trim()` leaves. */
  lemma ParseRejectsBlank(s: string, i: int)
    requires 0 <= i < |s| && IsBlank(s[i])
    ensures ParseInteger(s).None?
  {
    if 0 < i {
      assert s[1..][i - 1] == s[i];
    }
  }
}
