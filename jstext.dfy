/** Models of the JavaScript string built-ins the extension relies on:
    `String(n)` of an integer, `padStart(2, '0')`, `trim()`, and a
    first-occurrence split used to read a formatted phrase back. */
module JsText {
  import opened Wrappers

  predicate IsDigit(c: char) {
    '0' <= c <= '9'
  }

  predicate AllDigits(s: string) {
    forall i :: 0 <= i < |s| ==> IsDigit(s[i])
  }

  function DigitValue(c: char): (n: nat)
    requires IsDigit(c)
    ensures n < 10
  {
    c as int - '0' as int
  }

  function DigitChar(n: nat): (c: char)
    requires n < 10
    ensures IsDigit(c) && DigitValue(c) == n
  {
    ('0' as int + n) as char
  }

  /** The value of a string of decimal digits (the empty string reads as 0). */
  function DigitsValue(s: string): nat
    requires AllDigits(s)
  {
    if s == [] then 0 else 10 * DigitsValue(s[..|s| - 1]) + DigitValue(s[|s| - 1])
  }

  /** `String(n)` for a non-negative integer: its shortest decimal form. */
  function NatToString(n: nat): (r: string)
    ensures 1 <= |r| && AllDigits(r)
    ensures |r| == 1 <==> n < 10
    ensures |r| > 1 ==> r[0] != '0'
  {
    if n < 10 then [DigitChar(n)] else NatToString(n / 10) + [DigitChar(n % 10)]
  }

  /** Reading the decimal form back gives the number. */
  lemma {:induction false} NatToStringRoundTrip(n: nat)
    ensures DigitsValue(NatToString(n)) == n
  {
    if n >= 10 {
      NatToStringRoundTrip(n / 10);
      var s := NatToString(n);
      assert s[..|s| - 1] == NatToString(n / 10);
    }
  }

  /** `String(i)` for any integer: a minus sign before the digits of a negative number. */
  function IntToString(i: int): (r: string)
    ensures 1 <= |r|
    ensures i >= 0 ==> AllDigits(r)
    ensures i < 0 ==> r[0] == '-' && AllDigits(r[1..])
  {
    if i < 0 then "-" + NatToString(-i) else NatToString(i)
  }

  /** Reads an optionally signed decimal integer. */
  function ParseInt(s: string): Option<int> {
    if |s| > 1 && s[0] == '-' && AllDigits(s[1..]) then Some(0 - DigitsValue(s[1..]) as int)
    else if |s| > 0 && AllDigits(s) then Some(DigitsValue(s))
    else None
  }

  lemma IntToStringRoundTrip(i: int)
    ensures ParseInt(IntToString(i)) == Some(i)
  {
    var s := IntToString(i);
    if i < 0 {
      var d := NatToString(-i);
      NatToStringRoundTrip(-i);
      assert s == "-" + d;
      assert s[1..] == d;
      assert AllDigits(s[1..]) && |s| > 1 && s[0] == '-';
    } else {
      NatToStringRoundTrip(i);
      assert s[0] != '-';
    }
  }

  /** `s.padStart(2, '0')`: zeros in front until the string is two long. */
  function PadStart2(s: string): (r: string)
    ensures |r| == if |s| < 2 then 2 else |s|
    ensures r[|r| - |s|..] == s
    ensures forall i :: 0 <= i < |r| - |s| ==> r[i] == '0'
  {
    if |s| >= 2 then s else seq(2 - |s|, _ => '0') + s
  }

  lemma {:induction false} LeadingZeroValue(s: string)
    requires AllDigits(s)
    ensures AllDigits("0" + s) && DigitsValue("0" + s) == DigitsValue(s)
  {
    if s != [] {
      var t := "0" + s;
      assert t[..|t| - 1] == "0" + s[..|s| - 1];
      LeadingZeroValue(s[..|s| - 1]);
    }
  }

  /** `String(m).padStart(2, '0')` for 0 <= m < 100: exactly two digits that read back as m. */
  lemma TwoDigits(m: nat)
    requires m < 100
    ensures |PadStart2(NatToString(m))| == 2
    ensures AllDigits(PadStart2(NatToString(m)))
    ensures DigitsValue(PadStart2(NatToString(m))) == m
    ensures m < 10 ==> PadStart2(NatToString(m))[0] == '0'
  {
    var s := NatToString(m);
    NatToStringRoundTrip(m);
    if m < 10 {
      assert PadStart2(s) == "0" + s;
      LeadingZeroValue(s);
    } else {
      assert |NatToString(m / 10)| == 1;
    }
  }

  // ---------------------------------------------------------------------
  // trim()

  /** The code points ECMAScript's `trim` removes: WhiteSpace (tab, vertical
      tab, form feed, the BOM and every space separator of category Zs) and
      LineTerminator (line feed, carriage return, U+2028, U+2029). */
  predicate IsWhitespace(c: char) {
    || c == '\t' || c == '\n' || c == '\U{000B}' || c == '\U{000C}' || c == '\r'
    || c == ' ' || c == '\U{00A0}' || c == '\U{1680}'
    || ('\U{2000}' <= c <= '\U{200A}')
    || c == '\U{2028}' || c == '\U{2029}' || c == '\U{202F}' || c == '\U{205F}'
    || c == '\U{3000}' || c == '\U{FEFF}'
  }

  predicate IsBlank(s: string) {
    forall i :: 0 <= i < |s| ==> IsWhitespace(s[i])
  }

  /** The number of whitespace code points at the start of s. */
  function LeadingSpace(s: string): (k: nat)
    ensures k <= |s|
    ensures forall i :: 0 <= i < k ==> IsWhitespace(s[i])
    ensures k < |s| ==> !IsWhitespace(s[k])
  {
    if |s| == 0 || !IsWhitespace(s[0]) then 0 else 1 + LeadingSpace(s[1..])
  }

  /** The number of whitespace code points at the end of s. */
  function TrailingSpace(s: string): (k: nat)
    ensures k <= |s|
    ensures forall i :: |s| - k <= i < |s| ==> IsWhitespace(s[i])
    ensures k < |s| ==> !IsWhitespace(s[|s| - 1 - k])
  {
    if |s| == 0 || !IsWhitespace(s[|s| - 1]) then 0 else 1 + TrailingSpace(s[..|s| - 1])
  }

  /** `s.trim()`: s without its leading and trailing whitespace. The result
      is the infix of s that starts after the leading whitespace and is
      followed by whitespace only; it is empty exactly when s is blank. */
  function Trim(s: string): (r: string)
    ensures var a := LeadingSpace(s);
      && a + |r| <= |s|
      && r == s[a..a + |r|]
      && forall i :: a + |r| <= i < |s| ==> IsWhitespace(s[i])
    ensures r == [] <==> IsBlank(s)
    ensures r != [] ==> !IsWhitespace(r[0]) && !IsWhitespace(r[|r| - 1])
  {
    var t := s[LeadingSpace(s)..];
    t[..|t| - TrailingSpace(t)]
  }

  /** Trimming twice is trimming once. */
  lemma TrimIdempotent(s: string)
    ensures Trim(Trim(s)) == Trim(s)
  {
    var r := Trim(s);
    if r != [] {
      assert LeadingSpace(r) == 0;
      assert TrailingSpace(r) == 0;
    }
  }

  /** Text with no whitespace at either end is its own trim. */
  lemma TrimFixed(s: string)
    requires s != [] && !IsWhitespace(s[0]) && !IsWhitespace(s[|s| - 1])
    ensures Trim(s) == s
  {
    assert LeadingSpace(s) == 0;
    assert TrailingSpace(s) == 0;
  }

  // ---------------------------------------------------------------------
  // Splitting at a separator

  datatype Split = Split(before: string, after: string)

  /** Splits s at the first occurrence of c; None when c does not occur. */
  function SplitAtFirst(s: string, c: char): (r: Option<Split>)
    ensures r.None? <==> c !in s
    ensures r.Some? ==> s == r.value.before + [c] + r.value.after && c !in r.value.before
  {
    if |s| == 0 then None
    else if s[0] == c then Some(Split([], s[1..]))
    else
      match SplitAtFirst(s[1..], c)
      case None => None
      case Some(p) => Some(Split([s[0]] + p.before, p.after))
  }

  /** A separator that does not occur in x splits x + [c] + y back into x and y. */
  lemma {:induction false} SplitAtFirstOf(x: string, c: char, y: string)
    requires c !in x
    ensures SplitAtFirst(x + [c] + y, c) == Some(Split(x, y))
  {
    if x != [] {
      assert (x + [c] + y)[1..] == x[1..] + [c] + y;
      SplitAtFirstOf(x[1..], c, y);
      assert [x[0]] + x[1..] == x;
    }
  }

  lemma DigitsExclude(s: string, c: char)
    requires AllDigits(s) && !IsDigit(c)
    ensures c !in s
  {
  }
}
