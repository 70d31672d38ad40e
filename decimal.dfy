/** Decimal rendering of numbers as Python's `str(n)` and `f"{x:.3f}"` write them,
    and the matching parsers used to state that the rendered text is unambiguous. */
module Decimal {
  import opened Wrappers

  predicate IsDigit(c: char) {
    '0' <= c <= '9'
  }

  predicate AllDigits(s: string) {
    forall i | 0 <= i < |s| :: IsDigit(s[i])
  }

  function DigitChar(d: nat): (c: char)
    requires d < 10
    ensures IsDigit(c)
  {
    ('0' as int + d) as char
  }

  function DigitValue(c: char): (d: nat)
    requires IsDigit(c)
    ensures d < 10 && DigitChar(d) == c
  {
    c as int - '0' as int
  }

  /** `str(n)` for a non-negative integer: its shortest decimal numeral. */
  function NatToString(n: nat): string {
    if n < 10 then [DigitChar(n)] else NatToString(n / 10) + [DigitChar(n % 10)]
  }

  lemma {:induction false} NatToStringDigits(n: nat)
    ensures |NatToString(n)| > 0 && AllDigits(NatToString(n))
  {
    if n >= 10 {
      NatToStringDigits(n / 10);
    }
  }

  /** `str(i)` for any integer: a minus sign before negative numbers. */
  function IntToString(i: int): string {
    if i < 0 then "-" + NatToString(-i) else NatToString(i)
  }

  /** The value of a string of decimal digits. */
  function ParseDigits(s: string): nat
    requires AllDigits(s)
  {
    if s == [] then 0 else ParseDigits(s[..|s| - 1]) * 10 + DigitValue(s[|s| - 1])
  }

  lemma {:induction false} ParseNatToString(n: nat)
    ensures AllDigits(NatToString(n)) && ParseDigits(NatToString(n)) == n
  {
    NatToStringDigits(n);
    if n >= 10 {
      var s := NatToString(n);
      assert s[..|s| - 1] == NatToString(n / 10);
      ParseNatToString(n / 10);
    }
  }

  /** The three fractional digits of a millisecond count below one second. */
  function Pad3(n: nat): string
    requires n < 1000
  {
    [DigitChar(n / 100), DigitChar(n / 10 % 10), DigitChar(n % 10)]
  }

  lemma Pad3Digits(n: nat)
    requires n < 1000
    ensures |Pad3(n)| == 3 && AllDigits(Pad3(n)) && ParseDigits(Pad3(n)) == n
  {
    var a, b, c := n / 100, n / 10 % 10, n % 10;
    var s := Pad3(n);
    assert s[..2] == [DigitChar(a), DigitChar(b)];
    assert s[..2][..1] == [DigitChar(a)];
    assert ParseDigits([DigitChar(a)]) == a;
    assert ParseDigits(s[..2]) == a * 10 + b;
    assert ParseDigits(s) == (a * 10 + b) * 10 + c;
    assert n == a * 100 + b * 10 + c;
  }

  /** `f"{d:.3f}"` for a duration of `ms` milliseconds, i.e. ms / 1000 seconds. */
  function FormatMillis(ms: nat): string {
    NatToString(ms / 1000) + "." + Pad3(ms % 1000)
  }

  // Parsers: each returns the value read and the rest of the input.

  /** Length of the leading run of digits. */
  function SpanDigits(s: string): (k: nat)
    ensures k <= |s| && AllDigits(s[..k])
    ensures k < |s| ==> !IsDigit(s[k])
  {
    if s == [] || !IsDigit(s[0]) then 0
    else
      var k := 1 + SpanDigits(s[1..]);
      assert s[..k] == [s[0]] + s[1..][..k - 1];
      k
  }

  function Literal(s: string, lit: string): Option<string> {
    if lit <= s then Some(s[|lit|..]) else None
  }

  function Natural(s: string): Option<(nat, string)> {
    var k := SpanDigits(s);
    if k == 0 then None else Some((ParseDigits(s[..k]), s[k..]))
  }

  function Integer(s: string): Option<(int, string)> {
    if |s| > 0 && s[0] == '-' then
      match Natural(s[1..])
      case Some((n, rest)) => Some((0 - n as int, rest))
      case None => None
    else Natural(s)
  }

  /** Seconds, a point and exactly three digits, read back as milliseconds. */
  function Millis(s: string): Option<(nat, string)> {
    match Natural(s)
    case None => None
    case Some((secs, rest)) =>
      if |rest| >= 4 && rest[0] == '.' && AllDigits(rest[1..4]) then
        Some((secs * 1000 + ParseDigits(rest[1..4]), rest[4..]))
      else None
  }

  /** True when a numeral may end right before `rest`. */
  predicate Stops(rest: string) {
    rest == [] || !IsDigit(rest[0])
  }

  lemma LiteralOf(lit: string, rest: string)
    ensures Literal(lit + rest, lit) == Some(rest)
  {
    assert (lit + rest)[|lit|..] == rest;
  }

  lemma {:induction false} SpanDigitsOf(d: string, rest: string)
    requires AllDigits(d) && Stops(rest)
    ensures SpanDigits(d + rest) == |d|
  {
    if d != [] {
      assert (d + rest)[1..] == d[1..] + rest;
      SpanDigitsOf(d[1..], rest);
    }
  }

  lemma NaturalOf(n: nat, rest: string)
    requires Stops(rest)
    ensures Natural(NatToString(n) + rest) == Some((n, rest))
  {
    var d := NatToString(n);
    NatToStringDigits(n);
    SpanDigitsOf(d, rest);
    assert (d + rest)[..|d|] == d;
    assert (d + rest)[|d|..] == rest;
    ParseNatToString(n);
  }

  lemma IntegerOfNegative(i: int, rest: string)
    requires i < 0 && Stops(rest)
    ensures Integer(IntToString(i) + rest) == Some((i, rest))
  {
    var m: nat := -i;
    var d := NatToString(m) + rest;
    var s := ['-'] + d;
    assert IntToString(i) + rest == s;
    assert s[1..] == d;
    NaturalOf(m, rest);
    assert Natural(s[1..]) == Some((m, rest));
  }

  lemma IntegerOf(i: int, rest: string)
    requires Stops(rest)
    ensures Integer(IntToString(i) + rest) == Some((i, rest))
  {
    if i < 0 {
      IntegerOfNegative(i, rest);
    } else {
      NatToStringDigits(i);
      assert (NatToString(i) + rest)[0] == NatToString(i)[0];
      NaturalOf(i, rest);
    }
  }

  lemma MillisOf(ms: nat, rest: string)
    ensures Millis(FormatMillis(ms) + rest) == Some((ms, rest))
  {
    var frac := Pad3(ms % 1000);
    Pad3Digits(ms % 1000);
    var after := "." + frac + rest;
    assert FormatMillis(ms) + rest == NatToString(ms / 1000) + after;
    NaturalOf(ms / 1000, after);
    assert after[1..4] == frac;
    assert after[4..] == rest;
  }
}
