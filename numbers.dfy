/**
 * Decimal numerals and the PHP conversions the parser applies to captured text:
 * the `(int)` and `(float)` casts of a numeral and `ceil`. Values are exact
 * (`nat`, `real`), not 64-bit integers or IEEE doubles.
 */
module Numbers {
  import opened Text

  predicate AllDigits(s: string) {
    forall i :: 0 <= i < |s| ==> IsDigit(s[i])
  }

  function DigitValue(c: char): (d: nat)
    requires IsDigit(c)
    ensures d < 10
  {
    c as int - '0' as int
  }

  function DigitChar(d: nat): (c: char)
    requires d < 10
    ensures IsDigit(c) && DigitValue(c) == d
  {
    ('0' as int + d) as char
  }

  /** The value of a string of decimal digits (the empty string counts as 0). */
  function DigitsValue(s: string): nat
    requires AllDigits(s)
  {
    if s == [] then 0 else DigitsValue(s[..|s| - 1]) * 10 + DigitValue(s[|s| - 1])
  }

  function Pow10(k: nat): (r: nat)
    ensures r >= 1
  {
    if k == 0 then 1 else 10 * Pow10(k - 1)
  }

  /** The canonical decimal rendering of `n`, as ffmpeg prints integers. */
  function NatToString(n: nat): (r: string)
    ensures |r| > 0 && AllDigits(r)
    ensures r[0] == '0' ==> n == 0
  {
    if n < 10 then [DigitChar(n)] else NatToString(n / 10) + [DigitChar(n % 10)]
  }

  /** Reading back a rendered number gives the number. */
  lemma {:induction false} NatToStringRoundTrip(n: nat)
    ensures DigitsValue(NatToString(n)) == n
  {
    if n >= 10 {
      var s := NatToString(n);
      assert s[..|s| - 1] == NatToString(n / 10);
      NatToStringRoundTrip(n / 10);
    }
  }

  /** A string of `k` digits has a value below 10^k. */
  lemma {:induction false} DigitsValueBound(s: string)
    requires AllDigits(s)
    ensures DigitsValue(s) < Pow10(|s|)
  {
    if s != [] {
      DigitsValueBound(s[..|s| - 1]);
    }
  }

  /** The value of a two-digit numeral. */
  lemma DigitsValueTwo(s: string)
    requires |s| == 2 && AllDigits(s)
    ensures DigitsValue(s) == DigitValue(s[0]) * 10 + DigitValue(s[1])
  {
    var a := s[..1];
    assert s[..|s| - 1] == a && s[|s| - 1] == s[1];
    assert a[..|a| - 1] == [] && a[|a| - 1] == s[0];
    assert DigitsValue(a) == DigitValue(s[0]);
    assert DigitsValue(s) == DigitsValue(a) * 10 + DigitValue(s[1]);
  }

  /** The value of two digit strings written one after the other. */
  lemma {:induction false} DigitsValueAppend(a: string, b: string)
    requires AllDigits(a) && AllDigits(b)
    ensures DigitsValue(a + b) == DigitsValue(a) * Pow10(|b|) + DigitsValue(b)
  {
    if b != [] {
      var t, b' := a + b, b[..|b| - 1];
      assert t[..|t| - 1] == a + b';
      assert t[|t| - 1] == b[|b| - 1];
      DigitsValueAppend(a, b');
      ShiftDigit(DigitsValue(a), Pow10(|b'|), DigitsValue(b'), DigitValue(b[|b| - 1]));
    } else {
      assert a + b == a;
    }
  }

  /** Appending a digit to `x * p + y` multiplies both parts by ten. */
  lemma ShiftDigit(x: nat, p: nat, y: nat, d: nat)
    ensures (x * p + y) * 10 + d == x * (10 * p) + (y * 10 + d)
  {
  }

  /** A remainder is the low part of a number split at a multiple of the divisor. */
  lemma LowPart(x: nat, y: nat)
    requires y < 10000
    ensures (x * 10000 + y) % 10000 == y
  {
  }

  lemma {:induction false} Pow10Monotone(i: nat, j: nat)
    requires i <= j
    ensures Pow10(i) <= Pow10(j)
  {
    if i < j {
      Pow10Monotone(i, j - 1);
    }
  }

  /** The last four digits of a numeral stand for its value modulo 10000. */
  lemma LastFourDigitsValue(s: string)
    requires AllDigits(s) && |s| >= 4
    ensures DigitsValue(s[|s| - 4..]) == DigitsValue(s) % 10000
  {
    var a, b := s[..|s| - 4], s[|s| - 4..];
    assert s == a + b;
    DigitsValueAppend(a, b);
    DigitsValueBound(b);
    assert Pow10(4) == 10000;
    LowPart(DigitsValue(a), DigitsValue(b));
  }

  /** A numeral of at most four digits stands for a value below 10000. */
  lemma ShortDigitsValue(s: string)
    requires AllDigits(s) && |s| <= 4
    ensures DigitsValue(s) == DigitsValue(s) % 10000
  {
    DigitsValueBound(s);
    Pow10Monotone(|s|, 4);
    assert Pow10(4) == 10000;
  }

  /** The maximal run of digits at the start of `s`. */
  function LeadingDigits(s: string): (r: string)
    ensures AllDigits(r) && |r| <= |s| && r == s[..|r|]
    ensures |r| < |s| ==> !IsDigit(s[|r|])
  {
    s[..SpanEnd(s, 0, IsDigit)]
  }

  lemma LeadingDigitsOf(ds: string, rest: string)
    requires AllDigits(ds)
    requires rest != [] ==> !IsDigit(rest[0])
    ensures LeadingDigits(ds + rest) == ds
  {
    SpanEndIs(ds + rest, 0, IsDigit, |ds|);
  }

  /**
   * PHP's `(int)` cast of a captured numeral that starts with a digit or a dot:
   * the value of its leading digits (`"1.9 kb/s"` gives 1, `".5"` gives 0).
   */
  function IntOfNumeral(s: string): (n: nat)
    ensures AllDigits(s) ==> n == DigitsValue(s)
  {
    assert AllDigits(s) ==> LeadingDigits(s) == s by {
      if AllDigits(s) {
        assert s + [] == s;
        LeadingDigitsOf(s, []);
      }
    }
    DigitsValue(LeadingDigits(s))
  }

  /**
   * PHP's `(float)` cast of a captured token made of digits, dots and letters:
   * the value of its leading `digits[.digits]` (`"29.97"` gives 29.97, `"30k"` gives 30).
   */
  function FloatOfNumeral(s: string): (x: real)
    ensures x >= IntOfNumeral(s) as real && x < IntOfNumeral(s) as real + 1.0
  {
    var ip := LeadingDigits(s);
    var rest := s[|ip|..];
    var fp := if |rest| > 0 && rest[0] == '.' then LeadingDigits(rest[1..]) else [];
    DecimalValue(ip, fp)
  }

  /** The value of the decimal written `ip.fp`. */
  function DecimalValue(ip: string, fp: string): (x: real)
    requires AllDigits(ip) && AllDigits(fp)
    ensures DigitsValue(ip) as real <= x < DigitsValue(ip) as real + 1.0
  {
    DigitsValueBound(fp);
    DigitsValue(ip) as real + Fraction(DigitsValue(fp), Pow10(|fp|))
  }

  /** `a / b` for `a < b`, which lies in [0, 1). */
  function Fraction(a: nat, b: nat): (x: real)
    requires a < b
    ensures 0.0 <= x < 1.0
  {
    var q := a as real / b as real;
    assert q * b as real == a as real;
    q
  }

  /** `(int)` reads the leading digits and ignores whatever non-digit text follows them. */
  lemma IntOfLeadingDigits(ds: string, rest: string)
    requires AllDigits(ds)
    requires rest == [] || !IsDigit(rest[0])
    ensures IntOfNumeral(ds + rest) == DigitsValue(ds)
  {
    LeadingDigitsOf(ds, rest);
  }

  /** `(float)` of digits followed by neither a digit nor a point is their integer value. */
  lemma FloatOfInteger(ds: string, rest: string)
    requires AllDigits(ds)
    requires rest == [] || (!IsDigit(rest[0]) && rest[0] != '.')
    ensures FloatOfNumeral(ds + rest) == DigitsValue(ds) as real
  {
    var s := ds + rest;
    LeadingDigitsOf(ds, rest);
    assert s[|ds|..] == rest;
    FloatOfWhole(s, ds);
    DecimalValueWhole(ds);
  }

  /** A numeral whose leading digits are not followed by a point has no fraction part. */
  lemma FloatOfWhole(s: string, ip: string)
    requires AllDigits(ip) && LeadingDigits(s) == ip
    requires |ip| == |s| || s[|ip|] != '.'
    ensures FloatOfNumeral(s) == DecimalValue(ip, [])
  {
  }

  /** Without a fraction part, a decimal is the value of its integer part. */
  lemma DecimalValueWhole(ip: string)
    requires AllDigits(ip)
    ensures DecimalValue(ip, []) == DigitsValue(ip) as real
  {
    assert DigitsValue([]) == 0 && Pow10(0) == 1;
    assert Fraction(0, 1) == 0.0;
  }

  /** A decimal written `ip.fp` converts to `ip + fp / 10^|fp|`. */
  lemma FloatOfDecimal(ip: string, fp: string, rest: string)
    requires AllDigits(ip) && AllDigits(fp)
    requires rest != [] ==> !IsDigit(rest[0])
    ensures FloatOfNumeral(ip + "." + fp + rest) == DecimalValue(ip, fp)
  {
    var s := ip + "." + fp + rest;
    assert s == ip + ("." + fp + rest);
    LeadingDigitsOf(ip, "." + fp + rest);
    assert s[|ip|] == '.' && s[|ip| + 1..] == fp + rest;
    LeadingDigitsOf(fp, rest);
    FloatOfParts(s, ip, fp);
  }

  /** The conversion of a numeral whose leading digits `ip` are followed by a point and `fp`. */
  lemma FloatOfParts(s: string, ip: string, fp: string)
    requires AllDigits(ip) && AllDigits(fp)
    requires LeadingDigits(s) == ip && |ip| < |s| && s[|ip|] == '.' && LeadingDigits(s[|ip| + 1..]) == fp
    ensures FloatOfNumeral(s) == DecimalValue(ip, fp)
  {
    var r := s[|ip|..];
    assert r[0] == '.' && r[1..] == s[|ip| + 1..];
  }

  /** PHP's ceil(): the least integer not below `x`. */
  function Ceil(x: real): (r: int)
    ensures x <= r as real < x + 1.0
  {
    -((-x).Floor)
  }
}
