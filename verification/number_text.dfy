/** How a number cell reads back through parseFloat and parseInt. JavaScript
    converts the cell to text first (Number::toString) and then parses that
    text, so these lemmas relate the two directions. */
module NumberText {
  import opened JsValues
  import opened JsParse

  // ---------------------------------------------------------------------
  // Digit strings
  // ---------------------------------------------------------------------

  /** The value of concatenated digit runs. */
  lemma {:induction false} DecimalConcat(x: string, y: string)
    requires AllDigits(x) && AllDigits(y)
    ensures AllDigits(x + y)
    ensures DecimalValue(x + y) == DecimalValue(x) * Pow10(|y|) + DecimalValue(y)
    decreases |y|
  {
    var xy := x + y;
    assert AllDigits(xy);
    if y == [] {
      assert xy == x;
    } else {
      var y' := y[..|y| - 1];
      var d := DigitValue(y[|y| - 1]);
      assert xy[..|xy| - 1] == x + y';
      assert xy[|xy| - 1] == y[|y| - 1];
      DecimalConcat(x, y');
      LastDigit(xy);
      LastDigit(y);
      Regroup(DecimalValue(x), Pow10(|y'|), DecimalValue(y'), d);
    }
  }

  /** A digit run's value is that of all but its last digit, times ten,
      plus its last digit. */
  lemma LastDigit(s: string)
    requires s != [] && AllDigits(s)
    ensures DecimalValue(s) == DecimalValue(s[..|s| - 1]) * 10 + DigitValue(s[|s| - 1])
  {
  }

  lemma Regroup(x: int, p: int, y: int, d: int)
    ensures (x * p + y) * 10 + d == x * (10 * p) + (y * 10 + d)
  {
  }

  lemma {:induction false} ZerosValue(n: nat)
    ensures DecimalValue(Zeros(n)) == 0
  {
    if n > 0 {
      ZerosValue(n - 1);
      assert Zeros(n)[..n - 1] == Zeros(n - 1);
    }
  }

  /** A digit run is worth less than ten to the power of its length. */
  lemma {:induction false} DecimalBelow(s: string)
    requires AllDigits(s)
    ensures DecimalValue(s) < Pow10(|s|)
  {
    if s != [] {
      DecimalBelow(s[..|s| - 1]);
    }
  }

  /** `DigitsOf(n)` has no more digits than `n` needs. */
  lemma {:induction false} DigitsOfAtLeast(n: nat)
    ensures Pow10(|DigitsOf(n)| - 1) <= n || n == 0
  {
    if n >= 10 {
      DigitsOfAtLeast(n / 10);
      assert |DigitsOf(n)| == |DigitsOf(n / 10)| + 1;
    }
  }

  /** A run of decimal digits followed by a non-digit is read in full. */
  lemma {:induction false} RunOfDigits(ds: string, rest: string)
    requires AllDigits(ds)
    requires rest == [] || !IsDigit(rest[0])
    ensures RadixRun(ds + rest, 10) == |ds|
  {
    if ds != [] {
      assert (ds + rest)[1..] == ds[1..] + rest;
      RunOfDigits(ds[1..], rest);
    } else {
      assert ds + rest == rest;
    }
  }

  // ---------------------------------------------------------------------
  // Scaling by powers of ten
  // ---------------------------------------------------------------------

  lemma {:induction false} Pow10Add(a: nat, b: nat)
    ensures Pow10(a + b) == Pow10(a) * Pow10(b)
  {
    if b > 0 {
      Pow10Add(a, b - 1);
      assert Pow10(a + b) == 10 * Pow10(a + b - 1);
    }
  }

  lemma CastMul(x: int, y: int)
    ensures (x * y) as real == x as real * y as real
  {
  }

  lemma FracUp(a: int, d: int, p: int, q: int, pq: int)
    requires p > 0 && pq == q * p && a == d * pq
    ensures a as real / p as real == d as real * q as real
  {
    assert a == (d * q) * p;
  }

  lemma FracDown(a: int, d: int, p: int, q: int, pq: int)
    requires p > 0 && q > 0 && pq == p * q && a == d * p
    ensures a as real / pq as real == d as real / q as real
  {
  }

  lemma UpCase(a: nat, d: nat, scale: nat, k: nat)
    requires a == d * Pow10(k + scale)
    ensures a as real / Pow10(scale) as real == d as real * Pow10(k) as real
  {
    Pow10Add(k, scale);
    FracUp(a, d, Pow10(scale), Pow10(k), Pow10(k + scale));
  }

  lemma DownCase(a: nat, d: nat, t: nat, k: nat)
    requires a == d * Pow10(t)
    ensures a as real / Pow10(t + k) as real == d as real / Pow10(k) as real
  {
    Pow10Add(t, k);
    FracDown(a, d, Pow10(t), Pow10(k), Pow10(t + k));
  }

  lemma ScaledUp(a: nat, scale: nat, d: nat, t: nat)
    requires t >= scale && a == d * Pow10((t - scale) + scale)
    ensures a as real / Pow10(scale) as real == Scale(d as real, t - scale)
  {
    UpCase(a, d, scale, t - scale);
  }

  lemma ScaledDown(a: nat, scale: nat, d: nat, t: nat)
    requires t < scale && a == d * Pow10(t) && Pow10(t + (scale - t)) == Pow10(scale)
    ensures a as real / Pow10(scale) as real == Scale(d as real, t - scale)
  {
    DownCase(a, d, t, scale - t);
  }

  /** The value of `a / 10^scale` when `a` is `d` followed by `t` zeros. */
  lemma ScaledValue(a: nat, scale: nat, d: nat, t: nat)
    requires a == d * Pow10(t)
    ensures a as real / Pow10(scale) as real == Scale(d as real, t - scale)
  {
    if t >= scale {
      assert a == d * Pow10((t - scale) + scale);
      ScaledUp(a, scale, d, t);
    } else {
      assert Pow10(t + (scale - t)) == Pow10(scale);
      ScaledDown(a, scale, d, t);
    }
  }

  // ---------------------------------------------------------------------
  // Reading a layout back
  // ---------------------------------------------------------------------

  /** A literal whose exponent less its fraction length is `e` is worth
      its digits scaled by `e`. */
  lemma LiteralAt(ds: string, f: nat, x: int, e: int)
    requires AllDigits(ds) && x - f == e
    ensures LiteralValue(ds, f, x) == Scale(DecimalValue(ds) as real, e)
  {
    assert Scale(DecimalValue(ds) as real, x - f) == Scale(DecimalValue(ds) as real, e);
  }

  /** Integer digits followed by text that continues neither the digits
      nor with a point read back as those digits, with the exponent the
      text starts with. */
  lemma ReadsPlain(ip: string, tail: string)
    requires |ip| >= 1 && AllDigits(ip)
    requires tail == [] || (!IsDigit(tail[0]) && tail[0] != '.')
    ensures UnsignedDecimal(ip + tail) == Finite(LiteralValue(ip, 0, ExponentOf(tail)))
  {
    var u := ip + tail;
    assert ip + [] == ip;
    RunOfDigits(ip, tail);
    assert u[..|ip|] == ip;
    assert u[|ip|..] == tail;
  }

  /** Integer digits, a point, fraction digits and text that does not
      continue the digits read back as all the digits over ten to the
      number of fraction digits, with the exponent the text starts with. */
  lemma ReadsPoint(ip: string, fp: string, tail: string)
    requires |ip| >= 1 && AllDigits(ip) && AllDigits(fp)
    requires tail == [] || !IsDigit(tail[0])
    ensures AllDigits(ip + fp)
    ensures UnsignedDecimal(ip + "." + fp + tail)
            == Finite(LiteralValue(ip + fp, |fp|, ExponentOf(tail)))
  {
    var rest := "." + (fp + tail);
    PointSplit(ip, fp, tail);
    RunOfDigits(ip, rest);
    PointParts(ip, rest);
    AfterPoint(fp, tail);
  }

  /** The fraction digits and what follows them, after the point. */
  lemma AfterPoint(fp: string, tail: string)
    requires AllDigits(fp)
    requires tail == [] || !IsDigit(tail[0])
    ensures ("." + (fp + tail))[0] == '.'
    ensures RadixRun(("." + (fp + tail))[1..], 10) == |fp|
    ensures ("." + (fp + tail))[1..1 + |fp|] == fp
    ensures ("." + (fp + tail))[1 + |fp|..] == tail
  {
    var rest := "." + (fp + tail);
    assert rest[1..] == fp + tail;
    RunOfDigits(fp, tail);
  }

  lemma PointSplit(ip: string, fp: string, tail: string)
    ensures ip + "." + fp + tail == ip + ("." + (fp + tail))
  {
    assert (ip + ".") + fp == ip + ("." + fp);
    assert (ip + ("." + fp)) + tail == ip + (("." + fp) + tail);
    assert ("." + fp) + tail == "." + (fp + tail);
  }

  lemma PointParts(ip: string, rest: string)
    ensures (ip + rest)[..|ip|] == ip && (ip + rest)[|ip|..] == rest
  {
  }

  /** Digits followed by `z` zeros read back as the digits scaled up. */
  lemma PlainReadsBack(ds: string, z: nat)
    requires |ds| >= 1 && AllDigits(ds)
    ensures UnsignedDecimal(ds + Zeros(z)) == Finite(Scale(DecimalValue(ds) as real, z))
  {
    PlainText(ds + Zeros(z));
    PlainValue(ds, z);
  }

  lemma PlainText(text: string)
    requires |text| >= 1 && AllDigits(text)
    ensures UnsignedDecimal(text) == Finite(LiteralValue(text, 0, 0))
  {
    assert text + [] == text;
    ReadsPlain(text, []);
    assert ExponentOf([]) == 0;
  }

  lemma PlainValue(ds: string, z: nat)
    requires AllDigits(ds)
    ensures AllDigits(ds + Zeros(z))
    ensures LiteralValue(ds + Zeros(z), 0, 0) == Scale(DecimalValue(ds) as real, z)
  {
    ZerosAppended(ds, z);
    LiteralWhole(ds + Zeros(z));
    ScaledWhole(DecimalValue(ds), z);
  }

  /** Scaling a whole number up by `z` is multiplying it by `10^z`. */
  lemma ScaledWhole(a: int, z: nat)
    ensures Scale(a as real, z) == (a * Pow10(z)) as real
  {
    CastMul(a, Pow10(z));
  }

  /** A literal without fraction or exponent is worth its digits. */
  lemma LiteralWhole(ds: string)
    requires AllDigits(ds)
    ensures LiteralValue(ds, 0, 0) == DecimalValue(ds) as real
  {
    assert Pow10(0) == 1;
  }

  /** Appending `z` zeros multiplies a digit run's value by `10^z`. */
  lemma ZerosAppended(ds: string, z: nat)
    requires AllDigits(ds)
    ensures AllDigits(ds + Zeros(z))
    ensures DecimalValue(ds + Zeros(z)) == DecimalValue(ds) * Pow10(z)
  {
    DecimalConcat(ds, Zeros(z));
    ZerosValue(z);
  }

  /** Digits with a point after the first `n` of them read back as the
      digits scaled down by the `|ds| - n` that follow the point. */
  lemma PointReadsBack(ds: string, n: nat)
    requires 0 < n < |ds| && AllDigits(ds)
    ensures UnsignedDecimal(ds[..n] + "." + ds[n..]) == Finite(LiteralValue(ds, |ds| - n, 0))
  {
    PointText(ds[..n], ds[n..]);
    Rejoin(ds, n);
  }

  lemma Rejoin(ds: string, n: nat)
    requires n <= |ds|
    ensures ds[..n] + ds[n..] == ds && |ds[n..]| == |ds| - n
  {
  }

  lemma PointText(ip: string, fp: string)
    requires |ip| >= 1 && AllDigits(ip) && AllDigits(fp)
    ensures AllDigits(ip + fp)
    ensures UnsignedDecimal(ip + "." + fp) == Finite(LiteralValue(ip + fp, |fp|, 0))
  {
    assert ip + "." + fp + [] == ip + "." + fp;
    ReadsPoint(ip, fp, []);
    assert ExponentOf([]) == 0;
  }

  /** "0." then `m` zeros then the digits reads back as the digits scaled
      down by everything after the point. */
  lemma FractionReadsBack(ds: string, m: nat)
    requires |ds| >= 1 && AllDigits(ds)
    ensures UnsignedDecimal("0." + Zeros(m) + ds) == Finite(LiteralValue(ds, m + |ds|, 0))
  {
    FractionText(ds, m);
    LeadingZerosValue(ds, m + 1);
  }

  lemma FractionText(ds: string, m: nat)
    requires |ds| >= 1 && AllDigits(ds)
    ensures AllDigits(Zeros(m + 1) + ds)
    ensures UnsignedDecimal("0." + Zeros(m) + ds) == Finite(LiteralValue(Zeros(m + 1) + ds, m + |ds|, 0))
  {
    var fp := Zeros(m) + ds;
    FractionSplit(ds, m);
    PointSplit("0", fp, []);
    ReadsPoint("0", fp, []);
    assert ExponentOf([]) == 0;
    ZeroPrefix(ds, m);
  }

  lemma ZeroPrefix(ds: string, m: nat)
    ensures "0" + (Zeros(m) + ds) == Zeros(m + 1) + ds
  {
    assert "0" + Zeros(m) == Zeros(m + 1);
    assert ("0" + Zeros(m)) + ds == "0" + (Zeros(m) + ds);
  }

  lemma FractionSplit(ds: string, m: nat)
    ensures "0." + Zeros(m) + ds == "0" + "." + (Zeros(m) + ds) + []
  {
    assert "0." == "0" + ".";
    assert ("0" + ".") + Zeros(m) == "0" + ("." + Zeros(m));
    assert ("0" + ("." + Zeros(m))) + ds == "0" + (("." + Zeros(m)) + ds);
    assert ("." + Zeros(m)) + ds == "." + (Zeros(m) + ds);
    PointSplit("0", Zeros(m) + ds, []);
    assert (Zeros(m) + ds) + [] == Zeros(m) + ds;
  }

  /** Leading zeros do not change the value of a digit run. */
  lemma LeadingZerosValue(ds: string, m: nat)
    requires AllDigits(ds)
    ensures AllDigits(Zeros(m) + ds)
    ensures DecimalValue(Zeros(m) + ds) == DecimalValue(ds)
  {
    DecimalConcat(Zeros(m), ds);
    ZerosValue(m);
  }

  /** The exponent part Number::toString writes reads back as its value. */
  lemma ExponentReadsBack(x: int)
    ensures ExponentOf("e" + ExponentText(x)) == x
  {
    var ds := DigitsOf(Abs(x));
    var r := "e" + ExponentText(x);
    assert r[2..] == ds + [];
    RunOfDigits(ds, []);
    assert ds[..|ds|] == ds;
  }

  /** Exponent notation with a single digit reads back as that digit
      scaled by the exponent. */
  lemma ShortExponentReadsBack(ds: string, x: int)
    requires |ds| == 1 && AllDigits(ds)
    ensures UnsignedDecimal(ds + "e" + ExponentText(x)) == Finite(LiteralValue(ds, 0, x))
  {
    var exp := ExponentText(x);
    assert ds + "e" + exp == ds + ("e" + exp);
    ReadsPlain(ds, "e" + exp);
    ExponentReadsBack(x);
  }

  /** Exponent notation with a point after the first digit reads back as
      the digits over ten to the number of fraction digits, scaled by the
      exponent. */
  lemma LongExponentReadsBack(ds: string, x: int)
    requires |ds| > 1 && AllDigits(ds)
    ensures UnsignedDecimal(ds[..1] + "." + ds[1..] + "e" + ExponentText(x))
            == Finite(LiteralValue(ds, |ds| - 1, x))
  {
    var exp := ExponentText(x);
    assert ds[..1] + "." + ds[1..] + "e" + exp == ds[..1] + "." + ds[1..] + ("e" + exp);
    ReadsPoint(ds[..1], ds[1..], "e" + exp);
    assert ds[..1] + ds[1..] == ds;
    ExponentReadsBack(x);
  }

  /** Every layout Number::toString chooses reads back through parseFloat
      as exactly the value it was written for. */
  lemma LayoutReadsBack(ds: string, e: int)
    requires |ds| >= 1 && AllDigits(ds)
    ensures UnsignedDecimal(DigitLayout(ds, e)) == Finite(Scale(DecimalValue(ds) as real, e))
  {
    var k := |ds|;
    var n := k + e;
    if k <= n <= 21 {
      PlainLayout(ds, e);
    } else if 0 < n <= 21 {
      PointLayout(ds, e);
    } else if -6 < n <= 0 {
      FractionLayout(ds, e);
    } else {
      ExponentLayout(ds, e);
    }
  }

  lemma PlainLayout(ds: string, e: int)
    requires |ds| >= 1 && AllDigits(ds) && 0 <= e && |ds| + e <= 21
    ensures UnsignedDecimal(DigitLayout(ds, e)) == Finite(Scale(DecimalValue(ds) as real, e))
  {
    assert DigitLayout(ds, e) == ds + Zeros(e);
    PlainReadsBack(ds, e);
  }

  lemma PointLayout(ds: string, e: int)
    requires |ds| >= 1 && AllDigits(ds) && 0 < |ds| + e < |ds| && |ds| + e <= 21
    ensures UnsignedDecimal(DigitLayout(ds, e)) == Finite(Scale(DecimalValue(ds) as real, e))
  {
    var n := |ds| + e;
    assert DigitLayout(ds, e) == ds[..n] + "." + ds[n..];
    PointReadsBack(ds, n);
    assert Scale(DecimalValue(ds) as real, 0 - (|ds| - n)) == Scale(DecimalValue(ds) as real, e);
  }

  lemma FractionLayout(ds: string, e: int)
    requires |ds| >= 1 && AllDigits(ds) && -6 < |ds| + e <= 0
    ensures UnsignedDecimal(DigitLayout(ds, e)) == Finite(Scale(DecimalValue(ds) as real, e))
  {
    var m := -(|ds| + e);
    FractionShape(ds, e, m);
    FractionAt(ds, m, e);
  }

  lemma FractionShape(ds: string, e: int, m: nat)
    requires |ds| >= 1 && AllDigits(ds) && -6 < |ds| + e <= 0 && m == -(|ds| + e)
    ensures DigitLayout(ds, e) == "0." + Zeros(m) + ds
  {
  }

  /** "0." then `m` zeros then the digits is worth the digits scaled down
      by everything after the point. */
  lemma FractionAt(ds: string, m: nat, e: int)
    requires |ds| >= 1 && AllDigits(ds) && m + |ds| == -e
    ensures UnsignedDecimal("0." + Zeros(m) + ds) == Finite(Scale(DecimalValue(ds) as real, e))
  {
    FractionReadsBack(ds, m);
    FractionScale(ds, m, e);
  }

  lemma FractionScale(ds: string, m: nat, e: int)
    requires AllDigits(ds) && m + |ds| == -e
    ensures LiteralValue(ds, m + |ds|, 0) == Scale(DecimalValue(ds) as real, e)
  {
    LiteralAt(ds, m + |ds|, 0, e);
  }

  lemma ExponentLayout(ds: string, e: int)
    requires |ds| >= 1 && AllDigits(ds)
    requires !(|ds| <= |ds| + e <= 21) && !(0 < |ds| + e <= 21) && !(-6 < |ds| + e <= 0)
    ensures UnsignedDecimal(DigitLayout(ds, e)) == Finite(Scale(DecimalValue(ds) as real, e))
  {
    if |ds| == 1 {
      ShortExponentLayout(ds, e);
    } else {
      LongExponentLayout(ds, e);
    }
  }

  lemma ShortExponentLayout(ds: string, e: int)
    requires |ds| == 1 && AllDigits(ds)
    requires !(|ds| <= |ds| + e <= 21) && !(0 < |ds| + e <= 21) && !(-6 < |ds| + e <= 0)
    ensures UnsignedDecimal(DigitLayout(ds, e)) == Finite(Scale(DecimalValue(ds) as real, e))
  {
    var x := |ds| + e - 1;
    ShortExponentShape(ds, e, x);
    ShortExponentAt(ds, x, e);
  }

  lemma ShortExponentShape(ds: string, e: int, x: int)
    requires |ds| == 1 && AllDigits(ds) && x == |ds| + e - 1
    requires !(|ds| <= |ds| + e <= 21) && !(0 < |ds| + e <= 21) && !(-6 < |ds| + e <= 0)
    ensures DigitLayout(ds, e) == ds + "e" + ExponentText(x)
  {
  }

  /** The single-digit exponent notation with exponent `x` is worth its
      digit scaled by `x`. */
  lemma ShortExponentAt(ds: string, x: int, e: int)
    requires |ds| == 1 && AllDigits(ds) && x == e
    ensures UnsignedDecimal(ds + "e" + ExponentText(x)) == Finite(Scale(DecimalValue(ds) as real, e))
  {
    ShortExponentReadsBack(ds, x);
    LiteralAt(ds, 0, x, e);
  }

  lemma LongExponentLayout(ds: string, e: int)
    requires |ds| > 1 && AllDigits(ds)
    requires !(|ds| <= |ds| + e <= 21) && !(0 < |ds| + e <= 21) && !(-6 < |ds| + e <= 0)
    ensures UnsignedDecimal(DigitLayout(ds, e)) == Finite(Scale(DecimalValue(ds) as real, e))
  {
    var x := |ds| + e - 1;
    LongExponentShape(ds, e, x);
    LongExponentAt(ds, x, e);
  }

  lemma LongExponentShape(ds: string, e: int, x: int)
    requires |ds| > 1 && AllDigits(ds) && x == |ds| + e - 1
    requires !(|ds| <= |ds| + e <= 21) && !(0 < |ds| + e <= 21) && !(-6 < |ds| + e <= 0)
    ensures DigitLayout(ds, e) == ds[..1] + "." + ds[1..] + "e" + ExponentText(x)
  {
    // The exponent form is chosen either above 21 digits or from six leading zeros on.
    if |ds| + e > 21 {
      assert DigitLayout(ds, e) == ds[..1] + "." + ds[1..] + "e" + ExponentText(x);
    } else {
      assert |ds| + e <= -6;
    }
  }

  /** The long exponent notation with exponent `x` is worth its digits
      scaled by `e`, the exponent less the digits after the point. */
  lemma LongExponentAt(ds: string, x: int, e: int)
    requires |ds| > 1 && AllDigits(ds) && x - (|ds| - 1) == e
    ensures UnsignedDecimal(ds[..1] + "." + ds[1..] + "e" + ExponentText(x))
            == Finite(Scale(DecimalValue(ds) as real, e))
  {
    LongExponentReadsBack(ds, x);
    LiteralAt(ds, |ds| - 1, x, e);
  }

  // ---------------------------------------------------------------------
  // Number cells through parseFloat
  // ---------------------------------------------------------------------

  /** The text of a positive value reads back as that value. */
  lemma MagnitudeReadsBack(a: nat, scale: nat)
    requires a > 0
    ensures UnsignedDecimal(MagnitudeToString(a, scale)) == Finite(a as real / Pow10(scale) as real)
  {
    var r := StripZeros(a);
    DigitsReadBack(r.0, r.1 - scale);
    ScaledValue(a, scale, r.0, r.1);
  }

  lemma DigitsReadBack(d: nat, e: int)
    ensures UnsignedDecimal(DigitLayout(DigitsOf(d), e)) == Finite(Scale(d as real, e))
  {
    LayoutReadsBack(DigitsOf(d), e);
  }

  lemma NegatedValue(m: int, p: nat)
    requires m < 0 && p > 0
    ensures -(Abs(m) as real / p as real) == m as real / p as real
  {
  }

  /** parseFloat of text whose unsigned part reads as `v`. */
  lemma SignedReadsBack(s: string, neg: bool, mag: string, v: real)
    requires Unsigned(s) == (neg, mag) && |mag| >= 1 && IsDigit(mag[0])
    requires UnsignedDecimal(mag) == Finite(v)
    ensures ParseFloatText(s) == Finite(if neg then -v else v)
  {
    if |mag| >= 8 {
      assert mag[..8][0] == mag[0];
    }
  }

  lemma NegativeText(mag: string)
    requires |mag| >= 1 && IsDigit(mag[0])
    ensures Unsigned("-" + mag) == (true, mag)
  {
    var s := "-" + mag;
    assert LeadingSpaces(s) == 0;
    assert s[0..] == s;
    assert s[1..] == mag;
  }

  lemma PositiveText(mag: string)
    requires |mag| >= 1 && IsDigit(mag[0])
    ensures Unsigned(mag) == (false, mag)
  {
    assert LeadingSpaces(mag) == 0;
    assert mag[0..] == mag;
  }

  /** parseFloat reads a number cell back as exactly the number it holds:
      converting it to text and parsing that text loses nothing. */
  lemma NumberCellReadsBack(d: Decimal)
    ensures ParseFloat(Num(d)) == Finite(ValueOf(d))
  {
    assert ParseFloat(Num(d)) == ParseFloatText(NumberToString(d));
    if d.mantissa == 0 {
      ZeroCellReadsBack(d);
    } else if d.mantissa < 0 {
      NegativeCellReadsBack(d);
    } else {
      PositiveCellReadsBack(d);
    }
  }

  lemma ZeroCellReadsBack(d: Decimal)
    requires d.mantissa == 0
    ensures ParseFloatText(NumberToString(d)) == Finite(ValueOf(d))
  {
    ZeroShape(d);
    ZeroTextParses();
  }

  lemma ZeroShape(d: Decimal)
    requires d.mantissa == 0
    ensures NumberToString(d) == "0" && ValueOf(d) == 0.0
  {
  }

  lemma NegativeCellReadsBack(d: Decimal)
    requires d.mantissa < 0
    ensures ParseFloatText(NumberToString(d)) == Finite(ValueOf(d))
  {
    var a := Abs(d.mantissa);
    var mag := MagnitudeToString(a, d.scale);
    var v := a as real / Pow10(d.scale) as real;
    NegativeShape(d);
    MagnitudeReadsBack(a, d.scale);
    NegativeMagnitude(mag, v);
    NegatedValue(d.mantissa, Pow10(d.scale));
  }

  lemma NegativeShape(d: Decimal)
    requires d.mantissa < 0
    ensures NumberToString(d) == "-" + MagnitudeToString(Abs(d.mantissa), d.scale)
  {
  }

  /** A minus sign before a decimal literal worth `v` reads back as `-v`. */
  lemma NegativeMagnitude(mag: string, v: real)
    requires |mag| >= 1 && IsDigit(mag[0]) && UnsignedDecimal(mag) == Finite(v)
    ensures ParseFloatText("-" + mag) == Finite(-v)
  {
    NegativeText(mag);
    SignedReadsBack("-" + mag, true, mag, v);
  }

  lemma PositiveCellReadsBack(d: Decimal)
    requires d.mantissa > 0
    ensures ParseFloatText(NumberToString(d)) == Finite(ValueOf(d))
  {
    var mag := MagnitudeToString(Abs(d.mantissa), d.scale);
    MagnitudeReadsBack(Abs(d.mantissa), d.scale);
    assert NumberToString(d) == mag;
    PositiveText(mag);
    SignedReadsBack(mag, false, mag, Abs(d.mantissa) as real / Pow10(d.scale) as real);
  }

  // ---------------------------------------------------------------------
  // Whole-number cells through parseInt
  // ---------------------------------------------------------------------

  lemma {:induction false} Pow10Grows(a: nat, b: nat)
    ensures a <= b ==> Pow10(a) <= Pow10(b)
  {
    if a < b {
      Pow10Grows(a, b - 1);
    }
  }

  lemma MulGrows(a: int, b: int, c: nat)
    ensures a <= b ==> a * c <= b * c
  {
  }

  /** A whole number below 10^21 needs at most 21 digits with its
      trailing zeros written out. */
  lemma WholeFits(n: nat, d: nat, t: nat)
    requires d > 0 && d * Pow10(t) == n && n < Pow10(21)
    ensures |DigitsOf(d)| + t <= 21
  {
    var k := |DigitsOf(d)|;
    DigitsOfAtLeast(d);
    Pow10Add(k - 1, t);
    MulGrows(Pow10(k - 1), d, Pow10(t));
    Pow10Grows(21, k - 1 + t);
  }

  /** Below 10^21, Number::toString writes a positive whole number as
      plain digits: no point and no exponent. */
  lemma WholeText(a: nat)
    requires 0 < a < Pow10(21)
    ensures MagnitudeToString(a, 0) == DigitsOf(StripZeros(a).0) + Zeros(StripZeros(a).1)
  {
    var r := StripZeros(a);
    WholeFits(a, r.0, r.1);
    WholeLayout(DigitsOf(r.0), r.1);
  }

  lemma WholeLayout(ds: string, t: nat)
    requires |ds| >= 1 && AllDigits(ds) && |ds| + t <= 21
    ensures DigitLayout(ds, t) == ds + Zeros(t)
  {
  }

  /** Those plain digits are worth the number. */
  lemma WholeDigits(a: nat)
    requires 0 < a < Pow10(21)
    ensures |MagnitudeToString(a, 0)| >= 1 && AllDigits(MagnitudeToString(a, 0))
    ensures DecimalValue(MagnitudeToString(a, 0)) == a
  {
    var r := StripZeros(a);
    WholeText(a);
    ZerosAppended(DigitsOf(r.0), r.1);
  }

  /** parseInt reads a run of decimal digits as their value. */
  lemma DigitsParseAsInteger(s: string)
    requires |s| >= 1 && AllDigits(s)
    ensures ParseIntText(s) == Finite(DecimalValue(s) as real)
  {
    PositiveText(s);
    assert s + [] == s;
    RunOfDigits(s, []);
    assert s[..|s|] == s;
  }

  /** parseInt reads a minus sign and a run of decimal digits as the
      negated value. */
  lemma NegativeDigitsParseAsInteger(s: string)
    requires |s| >= 1 && AllDigits(s)
    ensures ParseIntText("-" + s) == Finite(-(DecimalValue(s) as real))
  {
    NegativeText(s);
    assert s + [] == s;
    RunOfDigits(s, []);
    assert s[..|s|] == s;
  }

  /** parseInt reads a whole-number cell below 10^21 in magnitude back as
      exactly that number. */
  lemma WholeCellParsesAsInteger(n: int)
    requires Abs(n) < Pow10(21)
    ensures ParseInt(Num(Decimal(n, 0))) == Finite(n as real)
  {
    assert ParseInt(Num(Decimal(n, 0))) == ParseIntText(NumberToString(Decimal(n, 0)));
    if n == 0 {
      ZeroShape(Decimal(n, 0));
      ZeroTextParses();
    } else if n > 0 {
      PositiveWholeParses(n);
    } else {
      NegativeWholeParses(n);
    }
  }

  lemma PositiveWholeParses(n: int)
    requires 0 < n < Pow10(21)
    ensures ParseIntText(NumberToString(Decimal(n, 0))) == Finite(n as real)
  {
    PositiveShape(Decimal(n, 0));
    WholeDigits(n);
    DigitsWorth(MagnitudeToString(n, 0), n);
  }

  lemma NegativeWholeParses(n: int)
    requires n < 0 && -n < Pow10(21)
    ensures ParseIntText(NumberToString(Decimal(n, 0))) == Finite(n as real)
  {
    NegativeShape(Decimal(n, 0));
    WholeDigits(-n);
    NegativeDigitsWorth(MagnitudeToString(-n, 0), -n);
  }

  lemma PositiveShape(d: Decimal)
    requires d.mantissa > 0
    ensures NumberToString(d) == MagnitudeToString(d.mantissa, d.scale)
  {
  }

  lemma DigitsWorth(s: string, a: nat)
    requires |s| >= 1 && AllDigits(s) && DecimalValue(s) == a
    ensures ParseIntText(s) == Finite(a as real)
  {
    DigitsParseAsInteger(s);
  }

  lemma NegativeDigitsWorth(s: string, a: nat)
    requires |s| >= 1 && AllDigits(s) && DecimalValue(s) == a
    ensures ParseIntText("-" + s) == Finite(-(a as real))
  {
    NegativeDigitsParseAsInteger(s);
  }
}
