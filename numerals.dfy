/** Decimal numerals: the `%d`/`%.7f` renderings the cache keys are made of,
    the plain numerals `float()` is given by the coordinate converter, and
    rounding to seven decimal places.

    A coordinate after rounding is a fixed-point integer counting units of
    1e-7 degree, so that `'%.7f' % round(x, 7)` becomes `Fmt7(Round7(x))`. */
module Numerals {
  import opened Outcomes
  import opened Text

  /** Units of 1e-7 per degree. */
  const Scale: nat := 10000000

  function Pow10(k: nat): (r: nat)
    ensures r >= 1
  {
    if k == 0 then 1 else 10 * Pow10(k - 1)
  }

  predicate IsDigit(c: char) {
    '0' as int <= c as int <= '9' as int
  }

  /** A non-empty run of ASCII digits. */
  predicate IsDigits(s: string) {
    |s| > 0 && forall i :: 0 <= i < |s| ==> IsDigit(s[i])
  }

  function DigitChar(d: nat): (c: char)
    requires d < 10
    ensures IsDigit(c)
  {
    ('0' as int + d) as char
  }

  /** The number a string of digits denotes, most significant digit first. */
  function DigitsValue(s: string): nat
    requires forall i :: 0 <= i < |s| ==> IsDigit(s[i])
  {
    if |s| == 0 then 0
    else DigitsValue(s[..|s| - 1]) * 10 + DigitOf(s[|s| - 1])
  }

  function DigitOf(c: char): nat
    requires IsDigit(c)
  {
    c as int - '0' as int
  }

  /** `'%d' % n`: digits with no leading zero. */
  function NatToDec(n: nat): (r: string)
    ensures IsDigits(r)
    ensures |r| > 1 ==> r[0] != '0'
  {
    if n < 10 then [DigitChar(n)] else NatToDec(n / 10) + [DigitChar(n % 10)]
  }

  /** `s` with zeros put in front until it is `width` characters long. */
  function ZeroPad(s: string, width: nat): (r: string)
    ensures |r| == if |s| < width then width else |s|
    ensures forall i :: 0 <= i < |r| - |s| ==> r[i] == '0'
    ensures r[|r| - |s|..] == s
    decreases width - |s|
  {
    if |s| >= width then s else ZeroPad("0" + s, width)
  }

  /** `'%.7f' % (n / 10**7)`: the integer part, a point, and exactly seven
      fraction digits. */
  function Fmt7(n: int): (r: string)
    ensures n >= 0 ==> forall i :: 0 <= i < |r| ==> IsDigit(r[i]) || r[i] == '.'
  {
    if n < 0 then "-" + Fmt7Nat(-n) else Fmt7Nat(n)
  }

  function Fmt7Nat(n: nat): (r: string)
    ensures forall i :: 0 <= i < |r| ==> IsDigit(r[i]) || r[i] == '.'
  {
    NatToDec(n / Scale) + "." + ZeroPad(NatToDec(n % Scale), 7)
  }

  /** `float(t)` for the numerals that reach it from the converter: digits,
      optionally followed by a point and more digits. Anything else is the
      `ValueError` case. */
  function FloatValue(t: string): (r: Option<real>)
    ensures r.Some? ==> r.value >= 0.0
  {
    var parts := Split(t, '.');
    if |parts| == 1 && IsDigits(parts[0]) then
      Some(DigitsValue(parts[0]) as real)
    else if |parts| == 2 && IsDigits(parts[0]) && IsDigits(parts[1]) then
      Some(Decimal(DigitsValue(parts[0]), DigitsValue(parts[1]), |parts[1]|))
    else
      None
  }

  /** The value of a numeral with integer part `ip` and a fraction part of
      `k` digits whose value is `fp`. */
  function Decimal(ip: nat, fp: nat, k: nat): (r: real)
    ensures r >= 0.0
  {
    ip as real + fp as real / Pow10(k) as real
  }

  /** `round(x, 7)` as a count of 1e-7 units: the nearest one, and the even
      one of the two when `x` lies exactly halfway between them. */
  function Round7(x: real): (r: int)
    ensures r as real - 0.5 <= x * 10000000.0 <= r as real + 0.5
    ensures x * 10000000.0 - r as real == 0.5 || r as real - x * 10000000.0 == 0.5 ==> r % 2 == 0
    ensures x >= 0.0 ==> r >= 0
  {
    var y := x * 10000000.0;
    var f := y.Floor;
    if y - f as real < 0.5 then f
    else if y - f as real > 0.5 then f + 1
    else if f % 2 == 0 then f
    else f + 1
  }

  /** An exact tie goes to the even neighbour: 1/256 = 0.00390625 rounds
      down to 0.0039062, where 0.00390635 would round up to 0.0039064. */
  lemma Round7TieToEven()
    ensures Round7(0.00390625) == 39062
    ensures Round7(0.00390635) == 39064
  {
  }

  // ---------------------------------------------------------------------
  // Printing and parsing numerals are inverse to each other.

  lemma {:induction false} DigitsValueNatToDec(n: nat)
    ensures DigitsValue(NatToDec(n)) == n
    decreases n
  {
    if n >= 10 {
      DigitsValueNatToDec(n / 10);
      var s := NatToDec(n);
      assert s[..|s| - 1] == NatToDec(n / 10);
    }
  }

  /** The number of digits `%d` writes is at most `k` below `10**k`. */
  lemma {:induction false} NatToDecLength(n: nat, k: nat)
    requires k >= 1 && n < Pow10(k)
    ensures |NatToDec(n)| <= k
    decreases k
  {
    if n >= 10 {
      assert k >= 2;
      NatToDecLength(n / 10, k - 1);
    }
  }

  lemma {:induction false} DigitsValueLeadingZero(s: string)
    requires forall i :: 0 <= i < |s| ==> IsDigit(s[i])
    ensures DigitsValue("0" + s) == DigitsValue(s)
    decreases |s|
  {
    if |s| > 0 {
      DigitsValueLeadingZero(s[..|s| - 1]);
      assert ("0" + s)[..|s|] == "0" + s[..|s| - 1];
    }
  }

  /** Leading zeros do not change the value of a numeral. */
  lemma {:induction false} DigitsValueZeroPad(s: string, width: nat)
    requires forall i :: 0 <= i < |s| ==> IsDigit(s[i])
    ensures forall i :: 0 <= i < |ZeroPad(s, width)| ==> IsDigit(ZeroPad(s, width)[i])
    ensures DigitsValue(ZeroPad(s, width)) == DigitsValue(s)
    decreases width - |s|
  {
    if |s| < width {
      DigitsValueLeadingZero(s);
      DigitsValueZeroPad("0" + s, width);
    }
  }

  /** The two numerals `%.7f` writes on either side of the point. */
  lemma Fmt7Parts(n: nat)
    ensures |ZeroPad(NatToDec(n % Scale), 7)| == 7
    ensures Split(Fmt7(n), '.') == [NatToDec(n / Scale), ZeroPad(NatToDec(n % Scale), 7)]
  {
    var ip := NatToDec(n / Scale);
    var fp := ZeroPad(NatToDec(n % Scale), 7);
    NatToDecLength(n % Scale, 7);
    DigitsValueZeroPad(NatToDec(n % Scale), 7);
    assert Fmt7(n) == Join([ip, fp], '.');
    assert '.' !in ip && '.' !in fp by {
      assert forall i :: 0 <= i < |fp| ==> IsDigit(fp[i]);
    }
    SplitJoin([ip, fp], '.');
  }

  lemma FloatValueOfParts(t: string, ip: string, fp: string)
    requires Split(t, '.') == [ip, fp] && IsDigits(ip) && IsDigits(fp)
    ensures FloatValue(t) == Some(Decimal(DigitsValue(ip), DigitsValue(fp), |fp|))
  {
    var parts := Split(t, '.');
    assert |parts| != 1 && |parts| == 2;
    assert parts[0] == ip && parts[1] == fp;
  }

  lemma DecimalOfFixed(n: nat)
    ensures Decimal(n / Scale, n % Scale, 7) == n as real / Scale as real
  {
    var q, f := n / Scale, n % Scale;
    assert Pow10(7) == Scale;
    assert n as real == q as real * Scale as real + f as real;
  }

  /** Reading back what `%.7f` printed gives the fixed-point value again. */
  lemma FloatValueFmt7(n: nat)
    ensures FloatValue(Fmt7(n)) == Some(n as real / Scale as real)
  {
    var ip := NatToDec(n / Scale);
    var fp := ZeroPad(NatToDec(n % Scale), 7);
    Fmt7Parts(n);
    DigitsValueZeroPad(NatToDec(n % Scale), 7);
    DigitsValueNatToDec(n / Scale);
    DigitsValueNatToDec(n % Scale);
    FloatValueOfParts(Fmt7(n), ip, fp);
    DecimalOfFixed(n);
  }

  /** Distinct fixed-point values never print alike. */
  lemma Fmt7Injective(a: nat, b: nat)
    requires Fmt7(a) == Fmt7(b)
    ensures a == b
  {
    FloatValueFmt7(a);
    FloatValueFmt7(b);
  }
}
