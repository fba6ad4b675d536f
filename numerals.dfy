/**
 * Decimal digit strings and the exact decimal text of a multiple of 1/16,
 * as JavaScript prints `n / 16` for an integer `n` of moderate size.
 */
module Numerals {
  import opened Wrappers
  import opened Chars

  predicate AllDigits(t: string) { Between(t, 0, |t|, Digit) }

  function DigitValue(c: char): (d: nat)
    requires IsDigit(c)
    ensures d < 10
  { c as int - '0' as int }

  function DigitChar(d: nat): (c: char)
    requires d < 10
    ensures IsDigit(c) && DigitValue(c) == d
  { ('0' as int + d) as char }

  function Pow10(k: nat): (p: nat)
    ensures p >= 1
  { if k == 0 then 1 else 10 * Pow10(k - 1) }

  lemma {:induction false} Pow10Add(j: nat, k: nat)
    ensures Pow10(j + k) == Pow10(j) * Pow10(k)
  {
    if k > 0 {
      Pow10Add(j, k - 1);
      assert Pow10(j + k) == 10 * Pow10(j + k - 1);
    }
  }

  /** Value of a decimal digit string, most significant digit first. */
  function DigitsValue(t: string): (n: nat)
    requires AllDigits(t)
  {
    if |t| == 0 then 0 else DigitsValue(t[..|t| - 1]) * 10 + DigitValue(t[|t| - 1])
  }

  lemma AllDigitsConcat(a: string, b: string)
    requires AllDigits(a) && AllDigits(b)
    ensures AllDigits(a + b)
  {
    forall i | 0 <= i < |a + b| ensures IsDigit((a + b)[i]) {
      if i < |a| { assert (a + b)[i] == a[i]; } else { assert (a + b)[i] == b[i - |a|]; }
    }
  }

  lemma ShiftDigit(x: int, p: int, y: int, d: int)
    ensures (x * p + y) * 10 + d == x * (p * 10) + (y * 10 + d)
  {
  }

  lemma {:induction false} DigitsValueAppend(a: string, b: string)
    requires AllDigits(a) && AllDigits(b)
    ensures AllDigits(a + b)
    ensures DigitsValue(a + b) == DigitsValue(a) * Pow10(|b|) + DigitsValue(b)
  {
    AllDigitsConcat(a, b);
    if |b| > 0 {
      var b' := b[..|b| - 1];
      var d := DigitValue(b[|b| - 1]);
      assert (a + b)[..|a + b| - 1] == a + b';
      assert (a + b)[|a + b| - 1] == b[|b| - 1];
      DigitsValueAppend(a, b');
      assert DigitsValue(a + b) == DigitsValue(a + b') * 10 + d;
      assert DigitsValue(b) == DigitsValue(b') * 10 + d;
      assert Pow10(|b|) == Pow10(|b'|) * 10;
      ShiftDigit(DigitsValue(a), Pow10(|b'|), DigitsValue(b'), d);
    } else {
      assert a + b == a;
    }
  }

  /** A digit string made only of zeros has value zero. */
  lemma {:induction false} ZerosValue(z: string)
    requires forall i :: 0 <= i < |z| ==> z[i] == '0'
    ensures AllDigits(z) && DigitsValue(z) == 0
  {
    if |z| > 0 { ZerosValue(z[..|z| - 1]); }
  }

  /** Shortest decimal text of a natural number: no leading zero except for "0". */
  function NatText(n: nat): (t: string)
    ensures |t| > 0 && AllDigits(t)
    ensures DigitsValue(t) == n
    ensures |t| > 1 ==> t[0] != '0'
  {
    if n < 10 then [DigitChar(n)]
    else
      var init := NatText(n / 10);
      var t := init + [DigitChar(n % 10)];
      assert t[..|t| - 1] == init;
      t
  }

  lemma DigitsValueSnoc(t: string)
    requires |t| > 0 && AllDigits(t)
    ensures AllDigits(t[..|t| - 1])
    ensures DigitsValue(t) == DigitsValue(t[..|t| - 1]) * 10 + DigitValue(t[|t| - 1])
  {
  }

  lemma FourDigitsValue(t: string)
    requires |t| == 4 && AllDigits(t)
    ensures DigitsValue(t) ==
      ((DigitValue(t[0]) * 10 + DigitValue(t[1])) * 10 + DigitValue(t[2])) * 10 + DigitValue(t[3])
  {
    var t3, t2, t1 := t[..3], t[..2], t[..1];
    assert t3[..2] == t2 && t2[..1] == t1 && t1[..0] == [];
    DigitsValueSnoc(t);
    DigitsValueSnoc(t3);
    DigitsValueSnoc(t2);
    DigitsValueSnoc(t1);
  }

  lemma DecimalSplit(x: int)
    requires x >= 0
    ensures x == x / 10 * 10 + x % 10 && x / 10 >= 0
  {
  }

  lemma FourDigitSplit(f: int)
    requires 0 <= f < 10000
    ensures f == ((f / 1000 * 10 + f / 100 % 10) * 10 + f / 10 % 10) * 10 + f % 10
    ensures f / 1000 < 10
  {
    DecimalSplit(f);
    DecimalSplit(f / 10);
    DecimalSplit(f / 100);
    assert f / 10 / 10 == f / 100;
    assert f / 100 / 10 == f / 1000;
  }

  /** The four digits of `f`, padded on the left with zeros. */
  function FourDigits(f: nat): (t: string)
    requires f < 10000
    ensures |t| == 4 && AllDigits(t) && DigitsValue(t) == f
  {
    FourDigitSplit(f);
    var t := [DigitChar(f / 1000), DigitChar(f / 100 % 10), DigitChar(f / 10 % 10), DigitChar(f % 10)];
    FourDigitsValue(t);
    t
  }

  /** `t` without the zeros at its end. */
  function StripTrailingZeros(t: string): (p: string)
    ensures |p| <= |t| && p == t[..|p|]
    ensures forall i :: |p| <= i < |t| ==> t[i] == '0'
    ensures p == [] || p[|p| - 1] != '0'
  {
    if |t| == 0 || t[|t| - 1] != '0' then t else StripTrailingZeros(t[..|t| - 1])
  }

  /** Decimal text of `a / 16` for a natural `a`: the integer part, then, when the
    * remainder is not zero, a point and the fraction digits without trailing zeros. */
  function UnsignedSixteenths(a: nat): (t: string)
    ensures |t| > 0 && IsDigit(t[0])
  {
    var whole := NatText(a / 16);
    var frac := StripTrailingZeros(FourDigits(a % 16 * 625));
    whole + (if frac == "" then "" else "." + frac)
  }

  /**
   * Decimal text of the exact rational `n / 16` (1/16 = 0.0625, so at most four
   * fraction digits), with a minus sign when `n` is negative.
   */
  function Sixteenths(n: int): (t: string)
    ensures (|t| > 0 && t[0] == '-') <==> n < 0
  {
    (if n < 0 then "-" else "") + UnsignedSixteenths(if n < 0 then -n else n)
  }

  /** A whole number of sixteenths is written without a point. */
  lemma WholeSixteenths(a: nat)
    requires a % 16 == 0
    ensures Sixteenths(a) == NatText(a / 16)
  {
    assert a % 16 * 625 == 0;
    assert StripTrailingZeros(FourDigits(0)) == "";
  }

  /** The same for any integer: a multiple of 16 is written as its signed quotient, without a point. */
  lemma SignedWholeSixteenths(n: int)
    requires n % 16 == 0
    ensures Sixteenths(n) == (if n < 0 then "-" else "") + NatText((if n < 0 then -n else n) / 16)
  {
    var a := if n < 0 then -n else n;
    NegatedMultipleOf16(n);
    WholeSixteenths(a);
    assert Sixteenths(a) == UnsignedSixteenths(a);
  }

  /** A decimal number `mantissa / 10^scale`. */
  datatype Decimal = Decimal(mantissa: int, scale: nat)

  /** Reads `[0-9]+(\.[0-9]+)?` as a non-negative decimal; any other text is None. */
  function ParseUnsigned(u: string): (r: Option<Decimal>)
    ensures r.Some? ==> r.value.mantissa >= 0
  {
    var w := SpanFrom(u, 0, Digit);
    if w == 0 then None
    else if w == |u| then Some(Decimal(DigitsValue(u), 0))
    else if u[w] == '.' && w + 1 < |u| && AllDigits(u[w + 1..]) then
      DigitsValueAppend(u[..w], u[w + 1..]);
      Some(Decimal(DigitsValue(u[..w] + u[w + 1..]), |u| - w - 1))
    else None
  }

  /** Reads `-?[0-9]+(\.[0-9]+)?` as a decimal; any other text is None. */
  function ParseDecimal(t: string): (r: Option<Decimal>)
  {
    if |t| > 0 && t[0] == '-' then
      match ParseUnsigned(t[1..])
      case Some(d) => Some(Decimal(-d.mantissa, d.scale))
      case None => None
    else ParseUnsigned(t)
  }

  lemma CancelScale(df: int, r: int, p: int, z: int)
    requires z > 0 && df * z == r * 625 && p * z == 10000
    ensures 16 * df == r * p
  {
    assert (16 * df) * z == (r * p) * z;
  }

  /** The fraction digits Sixteenths writes for a remainder `r` are worth `r / 16`. */
  lemma FractionDigits(r: nat)
    requires r < 16
    ensures var frac := StripTrailingZeros(FourDigits(r * 625));
      AllDigits(frac) && |frac| <= 4 && (frac == "" <==> r == 0) &&
      16 * DigitsValue(frac) == r * Pow10(|frac|)
  {
    var four := FourDigits(r * 625);
    var frac := StripTrailingZeros(four);
    var zeros := four[|frac|..];
    assert four == frac + zeros;
    assert AllDigits(frac) by {
      forall i | 0 <= i < |frac| ensures IsDigit(frac[i]) { assert frac[i] == four[i]; }
    }
    ZerosValue(zeros);
    DigitsValueAppend(frac, zeros);
    Pow10Add(|frac|, |zeros|);
    assert Pow10(4) == 10000;
    CancelScale(DigitsValue(frac), r, Pow10(|frac|), Pow10(|zeros|));
    if frac == "" { assert r * 625 == 0; }
  }

  lemma ParseUnsignedWhole(whole: string)
    requires |whole| > 0 && AllDigits(whole)
    ensures ParseUnsigned(whole) == Some(Decimal(DigitsValue(whole), 0))
  {
    SpanFromIs(whole, 0, Digit, |whole|);
  }

  lemma ParseUnsignedFraction(whole: string, frac: string)
    requires |whole| > 0 && AllDigits(whole) && |frac| > 0 && AllDigits(frac)
    ensures AllDigits(whole + frac)
    ensures ParseUnsigned(whole + "." + frac) == Some(Decimal(DigitsValue(whole + frac), |frac|))
  {
    var u := whole + "." + frac;
    var w := |whole|;
    assert u[w] == '.';
    SpanFromIs(u, 0, Digit, w);
    assert u[..w] == whole;
    assert u[w + 1..] == frac;
    AllDigitsConcat(whole, frac);
  }

  /** A multiple of 1/16 scaled back up: the arithmetic step of the round trip. */
  lemma ScaleBack(q: int, r: int, df: int, p: int, a: int)
    requires a == 16 * q + r && 16 * df == r * p
    ensures (q * p + df) * 16 == a * p
  {
  }

  /** A digit string ending in a non-zero digit, after any multiple of ten, is no multiple of ten. */
  lemma NonzeroLastDigit(q: nat, k: nat, t: string)
    requires |t| > 0 && AllDigits(t) && t[|t| - 1] != '0'
    ensures (q * (10 * k) + DigitsValue(t)) % 10 != 0
  {
    DigitsValueSnoc(t);
    var d := DigitValue(t[|t| - 1]);
    var h := q * k + DigitsValue(t[..|t| - 1]);
    assert q * (10 * k) + DigitsValue(t) == h * 10 + d;
    assert 0 < d < 10;
    assert (h * 10 + d) % 10 == d;
  }

  /** The text UnsignedSixteenths writes for `16 * q + r`, read back. */
  lemma PartsRoundTrip(q: nat, r: nat)
    requires r < 16
    ensures var frac := StripTrailingZeros(FourDigits(r * 625));
      var t := NatText(q) + (if frac == "" then "" else "." + frac);
      ParseUnsigned(t).Some? &&
      ParseUnsigned(t).value.mantissa * 16 == (16 * q + r) * Pow10(ParseUnsigned(t).value.scale) &&
      ParseUnsigned(t).value.scale <= 4
  {
    var whole := NatText(q);
    var frac := StripTrailingZeros(FourDigits(r * 625));
    var t := whole + (if frac == "" then "" else "." + frac);
    FractionDigits(r);
    var p := Pow10(|frac|);
    var m := q * p + DigitsValue(frac);
    if frac == "" {
      assert t == whole;
      ParseUnsignedWhole(whole);
      assert m == q;
    } else {
      assert t == whole + "." + frac;
      ParseUnsignedFraction(whole, frac);
      DigitsValueAppend(whole, frac);
    }
    assert ParseUnsigned(t) == Some(Decimal(m, |frac|));
    ScaleBack(q, r, DigitsValue(frac), p, 16 * q + r);
  }

  /** The same text has fraction digits exactly when `r` is not zero, and no trailing zero. */
  lemma PartsCanonical(q: nat, r: nat)
    requires r < 16
    ensures var frac := StripTrailingZeros(FourDigits(r * 625));
      var t := NatText(q) + (if frac == "" then "" else "." + frac);
      ParseUnsigned(t).Some? &&
      (ParseUnsigned(t).value.scale == 0 <==> r == 0) &&
      (ParseUnsigned(t).value.scale > 0 ==> ParseUnsigned(t).value.mantissa % 10 != 0)
  {
    var whole := NatText(q);
    var frac := StripTrailingZeros(FourDigits(r * 625));
    var t := whole + (if frac == "" then "" else "." + frac);
    FractionDigits(r);
    if frac == "" {
      assert t == whole;
      ParseUnsignedWhole(whole);
    } else {
      assert t == whole + "." + frac;
      ParseUnsignedFraction(whole, frac);
      DigitsValueAppend(whole, frac);
      NonzeroLastDigit(q, Pow10(|frac| - 1), frac);
    }
  }

  lemma UnsignedRoundTrip(a: nat)
    ensures ParseUnsigned(UnsignedSixteenths(a)).Some?
    ensures var d := ParseUnsigned(UnsignedSixteenths(a)).value;
      d.mantissa * 16 == a * Pow10(d.scale) && d.scale <= 4
  {
    PartsRoundTrip(a / 16, a % 16);
  }

  lemma UnsignedCanonical(a: nat)
    ensures ParseUnsigned(UnsignedSixteenths(a)).Some?
    ensures var d := ParseUnsigned(UnsignedSixteenths(a)).value;
      (d.scale == 0 <==> a % 16 == 0) && (d.scale > 0 ==> d.mantissa % 10 != 0)
  {
    PartsCanonical(a / 16, a % 16);
  }

  /** ParseDecimal reads a minus sign in front of an unsigned decimal. */
  lemma ParseSigned(neg: bool, u: string)
    requires |u| > 0 && IsDigit(u[0])
    ensures ParseDecimal((if neg then "-" else "") + u) ==
      match ParseUnsigned(u)
      case Some(d) => Some(Decimal(if neg then -d.mantissa else d.mantissa, d.scale))
      case None => None
  {
    var t := (if neg then "-" else "") + u;
    if neg { assert t[1..] == u; } else { assert t == u; }
  }

  /** `x` is a multiple of 16, or of 10, exactly when `-x` is. */
  lemma NegatedMultipleOf16(x: int) ensures x % 16 == 0 <==> (-x) % 16 == 0 {}

  lemma NegatedMultipleOf10(x: int) ensures x % 10 == 0 <==> (-x) % 10 == 0 {}

  lemma SignScale(m: int, a: int, p: int, n: int)
    requires m * 16 == a * p && a == (if n < 0 then -n else n)
    ensures (if n < 0 then -m else m) * 16 == n * p
  {
    if n < 0 { assert (-m) * 16 == -(m * 16); assert n * p == -(a * p); }
  }

  /**
   * Round trip: the text Sixteenths produces reads back as a decimal whose
   * value times 16 is exactly `n`, with at most four fraction digits, none of
   * them a trailing zero, and with fraction digits exactly when 16 does not
   * divide `n`.
   */
  lemma SixteenthsRoundTrip(n: int)
    ensures ParseDecimal(Sixteenths(n)).Some?
    ensures var d := ParseDecimal(Sixteenths(n)).value;
      d.mantissa * 16 == n * Pow10(d.scale) && d.scale <= 4
    ensures var d := ParseDecimal(Sixteenths(n)).value;
      (d.scale == 0 <==> n % 16 == 0) && (d.scale > 0 ==> d.mantissa % 10 != 0)
  {
    var a := if n < 0 then -n else n;
    var u := UnsignedSixteenths(a);
    UnsignedRoundTrip(a);
    UnsignedCanonical(a);
    ParseSigned(n < 0, u);
    var d := ParseUnsigned(u).value;
    SignScale(d.mantissa, a, Pow10(d.scale), n);
    NegatedMultipleOf16(n);
    NegatedMultipleOf10(d.mantissa);
  }

  lemma UnsignedPoint(a: nat)
    ensures '.' in UnsignedSixteenths(a) <==> a % 16 != 0
  {
    var whole := NatText(a / 16);
    var frac := StripTrailingZeros(FourDigits(a % 16 * 625));
    FractionDigits(a % 16);
    forall i | 0 <= i < |whole| ensures whole[i] != '.' { assert IsDigit(whole[i]); }
    if frac == "" {
      assert UnsignedSixteenths(a) == whole;
    } else {
      assert UnsignedSixteenths(a) == whole + "." + frac;
      assert (whole + "." + frac)[|whole|] == '.';
    }
  }

  /** The text of `n / 16` holds a point exactly when 16 does not divide `n`. */
  lemma SixteenthsPoint(n: int)
    ensures '.' in Sixteenths(n) <==> n % 16 != 0
  {
    var a := if n < 0 then -n else n;
    var u := UnsignedSixteenths(a);
    UnsignedPoint(a);
    NegatedMultipleOf16(n);
    if n < 0 {
      var t := "-" + u;
      assert Sixteenths(n) == t;
      if '.' in u {
        var i :| 0 <= i < |u| && u[i] == '.';
        assert t[i + 1] == '.';
      }
      if '.' in t {
        var i :| 0 <= i < |t| && t[i] == '.';
        assert u[i - 1] == '.';
      }
    } else {
      assert Sixteenths(n) == u;
    }
  }

  /**
   * The integer part of the text of `n / 16` (its leading digit run after the
   * sign) is the plain decimal text of `|n| / 16`, so it has no leading zero.
   */
  lemma SixteenthsIntegerPart(n: int)
    ensures var u := if n < 0 then Sixteenths(n)[1..] else Sixteenths(n);
      var a := if n < 0 then -n else n;
      SpanFrom(u, 0, Digit) > 0 && u[..SpanFrom(u, 0, Digit)] == NatText(a / 16)
  {
    var a := if n < 0 then -n else n;
    var u := UnsignedSixteenths(a);
    var whole := NatText(a / 16);
    var frac := StripTrailingZeros(FourDigits(a % 16 * 625));
    assert u == whole + (if frac == "" then "" else "." + frac);
    if n < 0 { assert Sixteenths(n)[1..] == u; } else { assert Sixteenths(n) == u; }
    forall i | 0 <= i < |whole| ensures u[i] == whole[i] && IsDigit(u[i]) {}
    if frac != "" { assert u[|whole|] == '.'; }
    SpanFromIs(u, 0, Digit, |whole|);
    assert u[..|whole|] == whole;
  }
}
