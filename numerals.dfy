/** Base-10 integers as text: Python's int(s) on a string and str(n). */
module Numerals {
  import opened Wrappers
  import opened Text

  predicate IsDigit(c: char) {
    '0' <= c <= '9'
  }

  function DigitValue(c: char): nat
    requires IsDigit(c)
  {
    c as int - '0' as int
  }

  function DigitChar(n: nat): (c: char)
    requires n < 10
    ensures IsDigit(c) && DigitValue(c) == n
  {
    ('0' as int + n) as char
  }

  /** The digits int() accepts after an optional sign: ASCII digits, with
      single underscores allowed between two digits (the grammar
      digit ("_"? digit)*, read from the right). */
  predicate IsNumeral(d: string)
    decreases |d|
  {
    && |d| > 0
    && IsDigit(d[|d| - 1])
    && (|d| == 1
        || (IsDigit(d[|d| - 2]) && IsNumeral(d[..|d| - 1]))
        || (|d| >= 3 && d[|d| - 2] == '_' && IsNumeral(d[..|d| - 2])))
  }

  /** The value of a numeral; underscores are ignored. */
  function NumeralValue(d: string): nat
    requires IsNumeral(d)
    decreases |d|
  {
    var last := DigitValue(d[|d| - 1]);
    if |d| == 1 then last
    else if IsDigit(d[|d| - 2]) then 10 * NumeralValue(d[..|d| - 1]) + last
    else 10 * NumeralValue(d[..|d| - 2]) + last
  }

  lemma {:induction false} NumeralStartsWithDigit(d: string)
    requires IsNumeral(d)
    ensures IsDigit(d[0])
    decreases |d|
  {
    if |d| > 1 {
      if IsDigit(d[|d| - 2]) {
        NumeralStartsWithDigit(d[..|d| - 1]);
      } else {
        NumeralStartsWithDigit(d[..|d| - 2]);
      }
    }
  }

  /** int(s): surrounding whitespace is ignored, then an optional sign and a
      numeral must make up the rest; anything else raises (None here). */
  function ParseInt(s: string): Option<int> {
    ParseSigned(Strip(s))
  }

  function ParseSigned(t: string): Option<int> {
    if |t| > 0 && (t[0] == '-' || t[0] == '+') then
      if IsNumeral(t[1..]) then
        var v: int := NumeralValue(t[1..]);
        Some(if t[0] == '-' then -v else v)
      else None
    else if IsNumeral(t) then Some(NumeralValue(t))
    else None
  }

  /** str(n) for n >= 0: decimal digits without leading zeros. */
  function NatToString(n: nat): (s: string)
    ensures |s| > 0
    ensures forall k :: 0 <= k < |s| ==> IsDigit(s[k])
    ensures n < 10 <==> |s| == 1
  {
    if n < 10 then [DigitChar(n)] else NatToString(n / 10) + [DigitChar(n % 10)]
  }

  /** str(n) */
  function IntToString(n: int): (s: string)
    ensures |s| > 0 && IsDigit(s[|s| - 1])
    ensures forall k :: 0 <= k < |s| ==> IsDigit(s[k]) || s[k] == '-'
    ensures s[0] == '-' <==> n < 0
  {
    if n < 0 then "-" + NatToString(-n) else NatToString(n)
  }

  lemma {:induction false} NatToStringValue(n: nat)
    ensures IsNumeral(NatToString(n)) && NumeralValue(NatToString(n)) == n
    decreases n
  {
    if n >= 10 {
      var s := NatToString(n);
      var hi := NatToString(n / 10);
      assert s == hi + [DigitChar(n % 10)];
      assert s[..|s| - 1] == hi;
      NatToStringValue(n / 10);
      assert IsDigit(s[|s| - 2]);
    }
  }

  /** int(str(n)) == n: every timestamp the merger writes reads back. */
  lemma ParseIntToString(n: int)
    ensures ParseInt(IntToString(n)) == Some(n)
  {
    var s := IntToString(n);
    assert !IsSpace(s[0]) && !IsSpace(s[|s| - 1]);
    ParseIntNoEdgeSpace(s);
    if n < 0 {
      assert s == "-" + NatToString(-n);
      ParseSignedNegative(-n);
    } else {
      assert s == NatToString(n);
      ParseSignedNat(n);
    }
  }

  /** The digits of a negative number behind its minus sign. */
  lemma ParseSignedNegative(m: nat)
    requires m > 0
    ensures ParseSigned("-" + NatToString(m)) == Some(-(m as int))
  {
    var d := NatToString(m);
    assert ("-" + d)[1..] == d;
    NatToStringValue(m);
  }

  lemma ParseSignedNat(n: nat)
    ensures ParseSigned(NatToString(n)) == Some(n)
  {
    NatToStringValue(n);
    NumeralStartsWithDigit(NatToString(n));
  }

  /** Text without whitespace at its edges goes to the sign and digit
      grammar unchanged. */
  lemma ParseIntNoEdgeSpace(t: string)
    requires t != [] && !IsSpace(t[0]) && !IsSpace(t[|t| - 1])
    ensures ParseInt(t) == ParseSigned(t)
  {
    StripNoEdgeSpace(t);
  }
}
