/** Rendering of numbers as text, over exact reals: the `:.1f` / `:.0f`
    format specifications, `round(x, 2)` and `str()` of the rounded value. */
module Format {

  predicate IsDigit(c: char) {
    '0' <= c <= '9'
  }

  /** The characters a rendered number is made of. */
  predicate IsNumeral(c: char) {
    IsDigit(c) || c == '-' || c == '.'
  }

  predicate AllNumeral(s: string) {
    forall k :: 0 <= k < |s| ==> IsNumeral(s[k])
  }

  lemma AllNumeralConcat(a: string, b: string)
    requires AllNumeral(a) && AllNumeral(b)
    ensures AllNumeral(a + b)
  {
    forall k | 0 <= k < |a + b| ensures IsNumeral((a + b)[k]) {
      if k < |a| { assert (a + b)[k] == a[k]; } else { assert (a + b)[k] == b[k - |a|]; }
    }
  }

  /** Rendered numbers hold no line break. */
  lemma NumeralNoNewline(s: string)
    requires AllNumeral(s)
    ensures '\n' !in s
  {
  }

  predicate AllDigits(t: string) {
    forall k :: 0 <= k < |t| ==> IsDigit(t[k])
  }

  /** Digits with at most one point among them, and none at all once a
      point has been `seen`. */
  predicate DigitsWithPoint(t: string, seen: bool)
    decreases |t|
  {
    if |t| == 0 then true
    else (IsDigit(t[0]) || (t[0] == '.' && !seen)) && DigitsWithPoint(t[1..], seen || t[0] == '.')
  }

  /** The spelling of a non-negative number Python writes in fixed-point:
      digits with at most one point, a digit at each end, and no leading
      zero in front of another digit. */
  predicate UnsignedNumeral(t: string) {
    && |t| >= 1 && IsDigit(t[0]) && IsDigit(t[|t| - 1])
    && (t[0] == '0' && |t| > 1 ==> t[1] == '.')
    && DigitsWithPoint(t, false)
  }

  /** An unsigned numeral, possibly after one minus sign. */
  predicate Numeral(s: string) {
    if |s| > 0 && s[0] == '-' then UnsignedNumeral(s[1..]) else UnsignedNumeral(s)
  }

  lemma {:induction false} DigitsScan(t: string, seen: bool)
    requires AllDigits(t)
    ensures DigitsWithPoint(t, seen)
  {
    if |t| > 0 {
      assert forall k :: 0 <= k < |t| - 1 ==> t[1..][k] == t[k + 1];
      DigitsScan(t[1..], seen);
    }
  }

  /** `whole.fraction` has one point between its digits. */
  lemma {:induction false} PointScan(whole: string, fraction: string)
    requires AllDigits(whole) && AllDigits(fraction)
    ensures DigitsWithPoint(whole + "." + fraction, false)
  {
    var s := whole + "." + fraction;
    if |whole| == 0 {
      assert s[0] == '.' && s[1..] == fraction;
      DigitsScan(fraction, true);
    } else {
      assert s[0] == whole[0] && s[1..] == whole[1..] + "." + fraction;
      assert forall k :: 0 <= k < |whole| - 1 ==> whole[1..][k] == whole[k + 1];
      PointScan(whole[1..], fraction);
    }
  }

  /** The characters a scan admits: digits and points, no two points, and no
      point at all once one has been seen. */
  lemma {:induction false} ScanShape(t: string, seen: bool)
    requires DigitsWithPoint(t, seen)
    ensures forall k :: 0 <= k < |t| ==> IsDigit(t[k]) || t[k] == '.'
    ensures forall j, k :: 0 <= j < k < |t| && t[j] == '.' ==> t[k] != '.'
    ensures seen ==> forall k :: 0 <= k < |t| ==> t[k] != '.'
  {
    if |t| > 0 {
      var rest := t[1..];
      ScanShape(rest, seen || t[0] == '.');
      assert forall k :: 1 <= k < |t| ==> t[k] == rest[k - 1];
    }
  }

  /** What a numeral rules out: a minus anywhere but first, a second point,
      and a zero leading the whole part unless the point follows it. */
  lemma NumeralShape(s: string)
    requires Numeral(s)
    ensures AllNumeral(s) && |s| >= 1 && IsDigit(s[|s| - 1])
    ensures forall k :: 0 < k < |s| ==> s[k] != '-'
    ensures forall j, k :: 0 <= j < k < |s| && s[j] == '.' ==> s[k] != '.'
    ensures var b := if s[0] == '-' then 1 else 0;
            b < |s| && IsDigit(s[b]) && (b + 1 < |s| && s[b] == '0' ==> s[b + 1] == '.')
  {
    if s[0] == '-' {
      var t := s[1..];
      ScanShape(t, false);
      assert forall k :: 0 < k < |s| ==> s[k] == t[k - 1];
    } else {
      ScanShape(s, false);
    }
  }

  function Pow10(d: nat): (p: nat)
    ensures p >= 1
  {
    if d == 0 then 1 else 10 * Pow10(d - 1)
  }

  function DigitChar(d: nat): (c: char)
    requires d < 10
    ensures IsDigit(c)
  {
    ('0' as int + d) as char
  }

  /** The decimal digits of `n`, most significant first, without leading zeros. */
  function Digits(n: nat): (s: string)
    ensures |s| >= 1
    ensures s[0] == '0' <==> n == 0
    ensures n == 0 ==> |s| == 1
    ensures forall k :: 0 <= k < |s| ==> IsDigit(s[k])
    ensures AllNumeral(s)
  {
    if n < 10 then [DigitChar(n)] else Digits(n / 10) + [DigitChar(n % 10)]
  }

  /** The digits of `n` left-padded with zeros to at least `width` characters. */
  function PaddedDigits(n: nat, width: nat): (s: string)
    ensures |s| >= 1 && |s| >= width
    ensures |Digits(n)| >= width ==> s == Digits(n)
    ensures |Digits(n)| < width ==> |s| == width
    ensures forall k :: 0 <= k < |s| ==> IsDigit(s[k])
    ensures AllNumeral(s)
    decreases width
  {
    var ds := Digits(n);
    if |ds| >= width then ds else "0" + PaddedDigits(n, width - 1)
  }

  function Abs(x: real): real {
    if x < 0.0 then -x else x
  }

  /** The integer nearest to `y`, ties going to the even neighbour: the
      rounding Python's float formatting and `round` apply to the exact value. */
  function RoundHalfEven(y: real): (n: int)
    ensures Abs(n as real - y) <= 0.5
    ensures Abs(n as real - y) == 0.5 ==> n % 2 == 0
  {
    var f := y.Floor;
    var frac := y - f as real;
    if frac < 0.5 then f
    else if frac > 0.5 then f + 1
    else if f % 2 == 0 then f
    else f + 1
  }

  /** No other integer is closer to `y` than `RoundHalfEven(y)`. */
  lemma RoundHalfEvenNearest(y: real, m: int)
    ensures Abs(RoundHalfEven(y) as real - y) <= Abs(m as real - y)
  {
    var n := RoundHalfEven(y);
    if m != n {
      assert m <= n - 1 || m >= n + 1;
    }
  }

  /** A non-negative count of `10^-d` units written with `d` fraction digits:
      the count's digits, zero-padded to at least `d + 1`, with the point put
      before the last `d`. */
  function UnsignedFixed(n: nat, d: nat): (s: string)
    ensures |s| >= 1 && IsDigit(s[0]) && IsDigit(s[|s| - 1])
    ensures AllNumeral(s)
    ensures UnsignedNumeral(s)
  {
    var ds := PaddedDigits(n, d + 1);
    if d == 0 then
      DigitsScan(ds, false);
      assert ds[0] == '0' ==> |ds| == 1;
      ds
    else
      var whole := ds[..|ds| - d];
      assert whole[0] == '0' ==> |whole| == 1;
      PointShape(whole, ds[|ds| - d..]);
      WithFraction(whole, ds[|ds| - d..])
  }

  /** `whole.fraction` */
  function WithFraction(whole: string, fraction: string): (s: string)
    requires |whole| >= 1 && IsDigit(whole[0]) && AllNumeral(whole)
    requires |fraction| >= 1 && IsDigit(fraction[|fraction| - 1]) && AllNumeral(fraction)
    ensures |s| >= 3 && IsDigit(s[0]) && IsDigit(s[|s| - 1])
    ensures AllNumeral(s)
  {
    AllNumeralConcat(whole, ".");
    AllNumeralConcat(whole + ".", fraction);
    whole + "." + fraction
  }

  /** Digit runs joined by a point spell an unsigned numeral when the whole
      part has no leading zero. */
  lemma PointShape(whole: string, fraction: string)
    requires |whole| >= 1 && |fraction| >= 1 && IsDigit(fraction[|fraction| - 1])
    requires AllDigits(whole) && AllDigits(fraction) && (whole[0] == '0' ==> |whole| == 1)
    ensures UnsignedNumeral(whole + "." + fraction)
  {
    var s := whole + "." + fraction;
    assert s[0] == whole[0] && s[|s| - 1] == fraction[|fraction| - 1];
    assert |whole| == 1 ==> s[1] == '.';
    assert |whole| > 1 ==> s[1] == whole[1];
    PointScan(whole, fraction);
  }

  /** `format(x, ".{d}f")`: an optional minus sign (kept for every negative
      `x`, so `-0.04` gives `-0.0`), the integer part, and `d` fraction digits. */
  function Fixed(x: real, d: nat): (s: string)
    ensures |s| >= 1 && IsDigit(s[|s| - 1])
    ensures s[0] == '-' <==> x < 0.0
    ensures AllNumeral(s)
    ensures Numeral(s)
  {
    var text := UnsignedFixed(ScaledMagnitude(x, d), d);
    if x < 0.0 then
      AllNumeralConcat("-", text);
      assert ("-" + text)[1..] == text;
      "-" + text
    else text
  }

  /** `|x|` in units of `10^-d`. */
  function Scaled(x: real, d: nat): (y: real)
    ensures y >= 0.0
  {
    NonNegativeProduct(Abs(x), Pow10(d) as real);
    Abs(x) * Pow10(d) as real
  }

  /** `|x|` counted in units of `10^-d`, rounded half to even. */
  function ScaledMagnitude(x: real, d: nat): (n: nat)
    ensures Abs(n as real - Scaled(x, d)) <= 0.5
    ensures Abs(n as real - Scaled(x, d)) == 0.5 ==> n % 2 == 0
  {
    RoundNonNegative(Scaled(x, d));
    RoundHalfEven(Scaled(x, d))
  }

  lemma RoundNonNegative(y: real)
    requires y >= 0.0
    ensures RoundHalfEven(y) >= 0
  {
  }

  /** `round(x, 2)` as a whole number of hundredths. */
  function Round2(x: real): (cents: int)
    ensures Abs(cents as real - 100.0 * x) <= 0.5
    ensures Abs(cents as real - 100.0 * x) == 0.5 ==> cents % 2 == 0
  {
    RoundHalfEven(100.0 * x)
  }

  /** `str()` of the float `cents / 100`: the shortest decimal that reads back
      as that value, which keeps at least one fraction digit (`12.0`, `12.5`,
      `12.34`). */
  function CentsText(cents: int): (s: string)
    ensures |s| >= 3 && IsDigit(s[|s| - 1])
    ensures s[0] == '-' <==> cents < 0
    ensures AllNumeral(s)
    ensures Numeral(s)
  {
    var a: nat := if cents < 0 then -cents else cents;
    var text := WithFraction(Digits(a / 100), HundredthsText(a % 100));
    PointShape(Digits(a / 100), HundredthsText(a % 100));
    if cents < 0 then
      AllNumeralConcat("-", text);
      assert ("-" + text)[1..] == text;
      "-" + text
    else text
  }

  /** The fraction digits of a number of hundredths: one digit when the
      second would be a zero, two otherwise. */
  function HundredthsText(frac: nat): (t: string)
    requires frac < 100
    ensures 1 <= |t| <= 2 && IsDigit(t[|t| - 1]) && AllNumeral(t)
    ensures forall k :: 0 <= k < |t| ==> IsDigit(t[k])
  {
    if frac == 0 then [DigitChar(0)]
    else if frac % 10 == 0 then [DigitChar(frac / 10)]
    else [DigitChar(frac / 10), DigitChar(frac % 10)]
  }

  // ---- Reading a rendered number back ----

  /** The whole number spelled by the digits of `s`, read left to right; the
      sign and the point are skipped. */
  function DigitsValue(s: string): nat {
    if |s| == 0 then 0
    else if IsDigit(s[|s| - 1]) then 10 * DigitsValue(s[..|s| - 1]) + (s[|s| - 1] as int - '0' as int)
    else DigitsValue(s[..|s| - 1])
  }

  /** How many characters follow the point; 0 when there is none. */
  function FractionLength(s: string): nat {
    if '.' !in s || s[|s| - 1] == '.' then 0 else 1 + FractionLength(s[..|s| - 1])
  }

  lemma {:induction false} DigitsReadBack(n: nat)
    ensures DigitsValue(Digits(n)) == n
  {
    if n >= 10 {
      var s := Digits(n);
      assert s[..|s| - 1] == Digits(n / 10);
      DigitsReadBack(n / 10);
    }
  }

  /** A leading zero or a non-digit does not change the value. */
  lemma {:induction false} ValueIgnoresLead(c: char, t: string)
    requires c == '0' || !IsDigit(c)
    ensures DigitsValue([c] + t) == DigitsValue(t)
  {
    if |t| > 0 {
      assert ([c] + t)[..|t|] == [c] + t[..|t| - 1];
      ValueIgnoresLead(c, t[..|t| - 1]);
    }
  }

  lemma {:induction false} PaddedReadBack(n: nat, width: nat)
    ensures DigitsValue(PaddedDigits(n, width)) == n
    decreases width
  {
    if |Digits(n)| >= width {
      DigitsReadBack(n);
    } else {
      PaddedReadBack(n, width - 1);
      ValueIgnoresLead('0', PaddedDigits(n, width - 1));
    }
  }

  /** The point does not change the value. */
  lemma {:induction false} ValueIgnoresPoint(a: string, b: string)
    ensures DigitsValue(a + "." + b) == DigitsValue(a + b)
  {
    if |b| == 0 {
      assert (a + "." + b)[..|a|] == a;
      assert a + b == a;
    } else {
      var b' := b[..|b| - 1];
      assert (a + "." + b)[..|a + "." + b| - 1] == a + "." + b';
      assert (a + b)[..|a + b| - 1] == a + b';
      ValueIgnoresPoint(a, b');
    }
  }

  lemma {:induction false} FractionAfterPoint(a: string, b: string)
    requires '.' !in b
    ensures FractionLength(a + "." + b) == |b|
  {
    var s := a + "." + b;
    assert s[|a|] == '.';
    if |b| > 0 {
      var b' := b[..|b| - 1];
      assert s[..|s| - 1] == a + "." + b';
      assert s[|s| - 1] == b[|b| - 1];
      FractionAfterPoint(a, b');
    } else {
      assert s[|s| - 1] == '.';
    }
  }

  lemma {:induction false} FractionIgnoresSign(t: string)
    ensures FractionLength("-" + t) == FractionLength(t)
  {
    var s := "-" + t;
    if '.' !in t {
      assert forall k :: 0 <= k < |s| ==> s[k] == '-' || s[k] in t;
      assert '.' !in s;
    } else {
      assert s[|s| - 1] == t[|t| - 1];
      assert t[|t| - 1] == '.' || s[..|s| - 1] == "-" + t[..|t| - 1];
      if t[|t| - 1] != '.' {
        assert '.' in s;
        FractionIgnoresSign(t[..|t| - 1]);
      }
    }
  }

  lemma NoPoint(s: string)
    requires forall k :: 0 <= k < |s| ==> IsDigit(s[k])
    ensures '.' !in s && FractionLength(s) == 0
  {
  }

  /** `UnsignedFixed(n, d)` spells `n / 10^d`: its digits read `n`, and
      exactly `d` of them follow the point. */
  lemma UnsignedFixedReadsBack(n: nat, d: nat)
    ensures DigitsValue(UnsignedFixed(n, d)) == n
    ensures FractionLength(UnsignedFixed(n, d)) == d
  {
    var ds := PaddedDigits(n, d + 1);
    PaddedReadBack(n, d + 1);
    if d == 0 {
      NoPoint(ds);
    } else {
      var whole, fraction := ds[..|ds| - d], ds[|ds| - d..];
      assert whole + fraction == ds;
      ValueIgnoresPoint(whole, fraction);
      NoPoint(fraction);
      FractionAfterPoint(whole, fraction);
    }
  }

  lemma NonNegativeProduct(a: real, b: real)
    requires a >= 0.0 && b >= 0.0
    ensures a * b >= 0.0
  {
  }

  /** `format(x, ".{d}f")` spells the rounded value: with the sign taken off,
      the digits read the integer nearest to `|x| * 10^d` (ties to even), and
      exactly `d` digits follow the point. */
  lemma FixedReadsBack(x: real, d: nat)
    ensures var n := DigitsValue(Fixed(x, d));
            Abs(n as real - Scaled(x, d)) <= 0.5 && (Abs(n as real - Scaled(x, d)) == 0.5 ==> n % 2 == 0)
    ensures FractionLength(Fixed(x, d)) == d
  {
    var n := ScaledMagnitude(x, d);
    var text := UnsignedFixed(n, d);
    UnsignedFixedReadsBack(n, d);
    if x < 0.0 {
      ValueIgnoresLead('-', text);
      assert "-" + text == ['-'] + text;
      FractionIgnoresSign(text);
    }
  }

  lemma {:induction false} ValueConcat(a: string, b: string)
    requires forall k :: 0 <= k < |b| ==> IsDigit(b[k])
    ensures DigitsValue(a + b) == DigitsValue(a) * Pow10(|b|) + DigitsValue(b)
  {
    if |b| == 0 {
      assert a + b == a;
    } else {
      var b' := b[..|b| - 1];
      assert (a + b)[..|a + b| - 1] == a + b';
      assert (a + b)[|a + b| - 1] == b[|b| - 1];
      ValueConcat(a, b');
      var va, vb' := DigitsValue(a), DigitsValue(b');
      var last := b[|b| - 1] as int - '0' as int;
      assert DigitsValue(a + b) == 10 * DigitsValue(a + b') + last;
      assert DigitsValue(b) == 10 * vb' + last;
      ShiftProduct(va, Pow10(|b'|));
    }
  }

  lemma ShiftProduct(v: nat, p: nat)
    ensures 10 * (v * p) == v * (10 * p)
  {
  }

  /** The fraction digits read back as the hundredths, and a lone digit is
      only ever `0` for no hundredths. */
  lemma HundredthsReadBack(frac: nat)
    requires frac < 100
    ensures var t := HundredthsText(frac);
            && DigitsValue(t) * Pow10(2 - |t|) == frac
            && (|t| == 2 ==> t[1] != '0')
            && (|t| == 1 && t[0] == '0' ==> frac == 0)
  {
    var t := HundredthsText(frac);
    assert t[..0] == [];
    if |t| == 2 {
      var hi, lo := frac / 10, frac % 10;
      assert t[..1] == [DigitChar(hi)] && t[1] == DigitChar(lo);
      assert DigitsValue(t[..1]) == hi by { assert t[..1][..0] == []; }
      assert DigitsValue(t) == 10 * hi + lo;
      assert Pow10(2 - |t|) == 1;
    } else {
      assert Pow10(1) == 10;
    }
  }

  /** `str(round(x, 2))` spells the rounded value with the fewest fraction
      digits, but at least one: the digits read `|cents|` hundredths, one
      digit follows the point unless the last of two would be a zero, and a
      lone `0` after the point only for whole values. */
  lemma CentsTextReadsBack(cents: int)
    ensures var s := CentsText(cents);
            var a := if cents < 0 then -cents else cents;
            && (FractionLength(s) == 1 || FractionLength(s) == 2)
            && DigitsValue(s) * 100 == a * Pow10(FractionLength(s))
            && (FractionLength(s) == 2 ==> s[|s| - 1] != '0')
            && (FractionLength(s) == 1 && s[|s| - 1] == '0' ==> a % 100 == 0)
  {
    var a: nat := if cents < 0 then -cents else cents;
    var whole, fracText := Digits(a / 100), HundredthsText(a % 100);
    var text := WithFraction(whole, fracText);
    assert CentsText(cents) == if cents < 0 then "-" + text else text;
    assert text == whole + "." + fracText;
    DigitsReadBack(a / 100);
    ValueIgnoresPoint(whole, fracText);
    ValueConcat(whole, fracText);
    HundredthsReadBack(a % 100);
    UnitsAndHundredths(a, DigitsValue(fracText), |fracText|);
    NoPoint(fracText);
    FractionAfterPoint(whole, fracText);
    if cents < 0 {
      ValueIgnoresLead('-', text);
      assert "-" + text == ['-'] + text;
      FractionIgnoresSign(text);
    }
  }

  /** The arithmetic behind `CentsTextReadsBack`: whole units followed by
      `len` fraction digits worth `v` read back as the hundredths. */
  lemma UnitsAndHundredths(a: nat, v: nat, len: nat)
    requires len == 1 || len == 2
    requires v * Pow10(2 - len) == a % 100
    ensures ((a / 100) * Pow10(len) + v) * 100 == a * Pow10(len)
  {
    assert Pow10(0) == 1 && Pow10(1) == 10 && Pow10(2) == 100;
  }
}
