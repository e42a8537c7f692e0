/** Decimal text for integers: Python's `str(n)` for an `int`, and `int(s)` for the
    text forms it accepts that the model covers (optional sign, ASCII digits,
    surrounding whitespace). */
module Decimal {
  import opened Common

  function DigitChar(d: nat): (c: char)
    requires d < 10
    ensures IsAsciiDigit(c)
  {
    ('0' as int + d) as char
  }

  function DigitValue(c: char): (d: nat)
    requires IsAsciiDigit(c)
    ensures d < 10
  {
    c as int - '0' as int
  }

  predicate AllDigits(s: string) {
    forall i :: 0 <= i < |s| ==> IsAsciiDigit(s[i])
  }

  function Pow10(k: nat): (p: nat)
    ensures p >= 1
  {
    if k == 0 then 1 else 10 * Pow10(k - 1)
  }

  /** `str(n)` for a natural number: no sign, no leading zero. */
  function NatToString(n: nat): (s: string)
    ensures |s| >= 1 && AllDigits(s)
    ensures n > 0 ==> s[0] != '0'
    decreases n
  {
    if n < 10 then [DigitChar(n)] else NatToString(n / 10) + [DigitChar(n % 10)]
  }

  /** `str(i)` for any integer. */
  function IntToString(i: int): string {
    if i < 0 then "-" + NatToString(-i) else NatToString(i)
  }

  /** The number a string of digits denotes, most significant digit first. */
  function DigitsValue(s: string): nat
    requires AllDigits(s)
  {
    if s == [] then 0 else DigitsValue(AllButLast(s)) * 10 + DigitValue(Last(s))
  }

  lemma {:induction false} NatToStringValue(n: nat)
    ensures DigitsValue(NatToString(n)) == n
    decreases n
  {
    if n >= 10 {
      NatToStringValue(n / 10);
      var s := NatToString(n / 10) + [DigitChar(n % 10)];
      assert AllButLast(s) == NatToString(n / 10);
    }
  }

  lemma {:induction false} NatToStringWidth(n: nat, k: nat)
    requires 1 <= k && n < Pow10(k)
    ensures |NatToString(n)| <= k
    decreases n
  {
    if n >= 10 {
      assert k >= 2;
      NatToStringWidth(n / 10, k - 1);
    }
  }

  function Zeros(k: nat): (z: string)
    ensures |z| == k && AllDigits(z)
  {
    seq(k, _ => '0')
  }

  /** Leading zeros do not change the value. */
  lemma {:induction false} LeadingZerosValue(k: nat, s: string)
    requires AllDigits(s)
    ensures AllDigits(Zeros(k) + s) && DigitsValue(Zeros(k) + s) == DigitsValue(s)
    decreases |s|
  {
    if s == [] {
      ZerosValue(k);
      assert Zeros(k) + s == Zeros(k);
    } else {
      LeadingZerosValue(k, AllButLast(s));
      assert AllButLast(Zeros(k) + s) == Zeros(k) + AllButLast(s);
    }
  }

  lemma {:induction false} ZerosValue(k: nat)
    ensures DigitsValue(Zeros(k)) == 0
  {
    if k > 0 {
      ZerosValue(k - 1);
      assert AllButLast(Zeros(k)) == Zeros(k - 1);
    }
  }

  /** The digits of `n` left-padded with zeros to `width` characters. */
  function ZeroPad(n: nat, width: nat): string {
    var d := NatToString(n);
    if |d| >= width then d else Zeros(width - |d|) + d
  }

  lemma ZeroPadValue(n: nat, width: nat)
    requires 1 <= width && n < Pow10(width)
    ensures |ZeroPad(n, width)| == width && AllDigits(ZeroPad(n, width))
    ensures DigitsValue(ZeroPad(n, width)) == n
  {
    NatToStringWidth(n, width);
    NatToStringValue(n);
    var d := NatToString(n);
    if |d| < width {
      LeadingZerosValue(width - |d|, d);
    }
  }

  /** `int(s)` for the forms the model covers: surrounding whitespace, an optional `+`
      or `-`, then one or more ASCII digits. */
  function ParseInt(s: string): Option<int> {
    var t := Strip(s);
    if t == [] then None
    else
      var neg := t[0] == '-';
      var body := if t[0] == '-' || t[0] == '+' then t[1..] else t;
      if body == [] || !AllDigits(body) then None
      else
        var v: int := DigitsValue(body);
        Some(if neg then -v else v)
  }

  /** `int(str(i)) == i`. */
  lemma IntToStringRoundTrip(i: int)
    ensures ParseInt(IntToString(i)) == Some(i)
  {
    var s := IntToString(i);
    if i < 0 {
      var d := NatToString(-i);
      assert s == ['-'] + d;
      NoSpaceStrip(s);
      assert s[1..] == d;
      NatToStringValue(-i);
    } else {
      var d := NatToString(i);
      NoSpaceStrip(s);
      assert IsAsciiDigit(s[0]);
      NatToStringValue(i);
    }
  }

  lemma NoSpaceStrip(s: string)
    requires s != [] && (IsAsciiDigit(s[0]) || s[0] == '-') && IsAsciiDigit(Last(s))
    ensures Strip(s) == s
  {
    assert !IsSpace(s[0]);
    assert !IsSpace(Last(s));
    assert StripLeft(s) == s;
    assert StripRight(s) == s;
  }
}
