/** The rendering of a calendar day as annotation text and its parsing back. A day is a count of
    days from an epoch; its text is the signed decimal numeral of that count. */
module Dates {
  import opened Wrappers
  import opened Model

  predicate IsDigit(c: char) {
    '0' <= c <= '9'
  }

  function DigitChar(d: nat): (c: char)
    requires d < 10
    ensures IsDigit(c)
  {
    (('0' as int) + d) as char
  }

  function DigitValue(c: char): nat
    requires IsDigit(c)
  {
    (c as int) - ('0' as int)
  }

  /** The decimal numeral of `n`, most significant digit first. */
  function NatToString(n: nat): (r: string)
    ensures r != [] && forall i :: 0 <= i < |r| ==> IsDigit(r[i])
  {
    if n < 10 then [DigitChar(n)] else NatToString(n / 10) + [DigitChar(n % 10)]
  }

  /** The value of a non-empty numeral. */
  function ParseDigits(s: string): nat
    requires s != [] && forall i :: 0 <= i < |s| ==> IsDigit(s[i])
  {
    if |s| == 1 then DigitValue(s[0]) else ParseDigits(s[..|s| - 1]) * 10 + DigitValue(s[|s| - 1])
  }

  predicate IsNumeral(s: string) {
    s != [] && forall i :: 0 <= i < |s| ==> IsDigit(s[i])
  }

  /** `expiryDate.toString()`: the annotation text of a day. */
  function FormatDate(d: Day): string {
    if d < 0 then "-" + NatToString(-d) else NatToString(d)
  }

  /** `LocalDate.parse(text)`: `None` where it throws. */
  function ParseDate(s: string): Option<Day> {
    if s != [] && s[0] == '-' && IsNumeral(s[1..]) then Some(0 - ParseDigits(s[1..]) as int)
    else if IsNumeral(s) then Some(ParseDigits(s))
    else None
  }

  lemma {:induction false} ParseNatToString(n: nat)
    ensures ParseDigits(NatToString(n)) == n
  {
    if n >= 10 {
      var r := NatToString(n);
      ParseNatToString(n / 10);
      assert r[..|r| - 1] == NatToString(n / 10);
    }
  }

  /** A day survives being written into an annotation and read back. */
  lemma {:induction false} DateRoundTrip(d: Day)
    ensures ParseDate(FormatDate(d)) == Some(d)
  {
    var s := FormatDate(d);
    if d < 0 {
      NegativeRoundTrip(-d, s);
    } else {
      ParseNatToString(d);
      assert IsDigit(s[0]);
    }
  }

  lemma {:induction false} NegativeRoundTrip(n: nat, s: string)
    requires n > 0 && s == "-" + NatToString(n)
    ensures ParseDate(s) == Some(0 - n)
  {
    ParseNatToString(n);
    assert s[1..] == NatToString(n);
  }
}
