/**
 * The breakpoint table of the preset: every entry of the framework's default
 * `screens` whose value is a pixel length is rewritten in `rem` (16px = 1rem).
 *
 * A value is converted when it matches the length pattern
 *   ^\s*([+-]?[0-9]*\.?[0-9]+(?:[eE][+-]?[0-9]+)?)px\s*$
 * and JavaScript's `parseInt` of the captured number is not NaN; `parseInt`
 * reads only an optional sign and the leading run of decimal digits.
 */
module DefaultTheme {
  import opened Wrappers
  import opened Chars
  import opened Numerals

  /** The end of the optional sign of `g` that may stand at index `i`. */
  function SignEnd(g: string, i: nat): (j: nat)
    requires i <= |g|
    ensures j == i || (j == i + 1 && i < |g| && IsSign(g[i]))
    ensures j == i ==> i == |g| || !IsSign(g[i])
  {
    if i < |g| && IsSign(g[i]) then i + 1 else i
  }

  // ---------------------------------------------------------------------------
  // The pattern as a language: reference definitions by index splits
  // ---------------------------------------------------------------------------

  /** `(?:[eE][+-]?[0-9]+)?` spans `g` from index `d` to its end. */
  ghost predicate ExponentPart(g: string, d: nat)
    requires d <= |g|
  {
    d == |g| ||
    (IsExponentMark(g[d]) &&
     exists b :: d + 1 <= b < |g| && (b == d + 1 || (b == d + 2 && IsSign(g[d + 1]))) &&
       Between(g, b, |g|, Digit))
  }

  /**
   * `[+-]?[0-9]*\.?[0-9]+(?:[eE][+-]?[0-9]+)?` spans all of `g`: a sign
   * g[..a], digits g[a..b], an optional point g[b..c], at least one digit
   * g[c..d], and an exponent part from d.
   */
  ghost predicate NumberPattern(g: string) {
    exists a, b, c, d ::
      0 <= a <= b <= c < d <= |g| && (a == 0 || (a == 1 && IsSign(g[0]))) &&
      Between(g, a, b, Digit) && (c == b || (c == b + 1 && g[b] == '.')) &&
      Between(g, c, d, Digit) && ExponentPart(g, d)
  }

  /** `s` matches the whole length pattern, and `g` is its captured group. */
  ghost predicate LengthPattern(s: string, g: string) {
    exists i ::
      0 <= i && i + |g| + 2 <= |s| && Between(s, 0, i, Whitespace) && s[i..i + |g|] == g &&
      s[i + |g|] == 'p' && s[i + |g| + 1] == 'x' && Between(s, i + |g| + 2, |s|, Whitespace) &&
      NumberPattern(g)
  }

  // ---------------------------------------------------------------------------
  // The hand-written recogniser
  // ---------------------------------------------------------------------------

  /** Scans `(?:[eE][+-]?[0-9]+)?` from index `d` to the end of `g`. */
  predicate ScanExponent(g: string, d: nat)
    requires d <= |g|
  {
    d == |g| ||
    (IsExponentMark(g[d]) &&
     var b := SignEnd(g, d + 1);
     b < |g| && Between(g, b, |g|, Digit))
  }

  /** Scans `[0-9]*\.?[0-9]+` from index `a` of `g`; the index just after it. */
  function MantissaEnd(g: string, a: nat): (e: Option<nat>)
    requires a <= |g|
    ensures e.Some? ==> a < e.value <= |g|
  {
    var k := SpanFrom(g, a, Digit);
    if k < |g| && g[k] == '.' then
      var f := SpanFrom(g, k + 1, Digit);
      if f > k + 1 then Some(f) else None
    else if k > a then Some(k)
    else None
  }

  /** Scans the number pattern over the whole of `g`, left to right. */
  predicate ScanNumber(g: string) {
    var e := MantissaEnd(g, SignEnd(g, 0));
    e.Some? && ScanExponent(g, e.value)
  }

  /**
   * `s.match(lengthRegExp)?.[1]`: skip the leading whitespace, take the run of
   * number characters, and accept when "px" and only whitespace follow and the
   * run is a number.
   */
  function MatchLength(s: string): (r: Option<string>)
    ensures r.Some? ==> 0 < |r.value| && |r.value| + 2 <= |s| && ScanNumber(r.value)
  {
    var i := SpanFrom(s, 0, Whitespace);
    var j := SpanFrom(s, i, NumberChar);
    if j + 2 <= |s| && s[j] == 'p' && s[j + 1] == 'x' && Between(s, j + 2, |s|, Whitespace)
       && ScanNumber(s[i..j])
    then Some(s[i..j])
    else None
  }

  // ---------------------------------------------------------------------------
  // The recogniser decides the pattern
  // ---------------------------------------------------------------------------

  lemma ScanExponentIsPattern(g: string, d: nat)
    requires d <= |g|
    ensures ScanExponent(g, d) <==> ExponentPart(g, d)
  {
    if d < |g| {
      if ScanExponent(g, d) {
        var b := SignEnd(g, d + 1);
        assert d + 1 <= b < |g| && (b == d + 1 || (b == d + 2 && IsSign(g[d + 1]))) &&
          Between(g, b, |g|, Digit);
      }
      if ExponentPart(g, d) {
        var b :| d + 1 <= b < |g| && (b == d + 1 || (b == d + 2 && IsSign(g[d + 1]))) &&
          Between(g, b, |g|, Digit);
        if b == d + 1 { assert InClass(g[b], Digit); }
        assert SignEnd(g, d + 1) == b;
      }
    }
  }

  /** A scanned number: the witnesses of the pattern. */
  lemma ScanNumberIsPattern(g: string)
    requires ScanNumber(g)
    ensures NumberPattern(g)
  {
    var a := SignEnd(g, 0);
    var d := MantissaEnd(g, a).value;
    var k := SpanFrom(g, a, Digit);
    ScanExponentIsPattern(g, d);
    if k < |g| && g[k] == '.' {
      assert 0 <= a <= k <= k + 1 < d <= |g| && (a == 0 || (a == 1 && IsSign(g[0]))) &&
        Between(g, a, k, Digit) && (k + 1 == k || (k + 1 == k + 1 && g[k] == '.')) &&
        Between(g, k + 1, d, Digit) && ExponentPart(g, d);
    } else {
      assert 0 <= a <= a <= a < d <= |g| && (a == 0 || (a == 1 && IsSign(g[0]))) &&
        Between(g, a, a, Digit) && Between(g, a, d, Digit) && ExponentPart(g, d);
    }
  }

  /** A number in the pattern scans. */
  lemma PatternScans(g: string, a: nat, b: nat, c: nat, d: nat)
    requires 0 <= a <= b <= c < d <= |g| && (a == 0 || (a == 1 && IsSign(g[0])))
    requires Between(g, a, b, Digit) && (c == b || (c == b + 1 && g[b] == '.'))
    requires Between(g, c, d, Digit) && ExponentPart(g, d)
    ensures ScanNumber(g)
  {
    if a == 0 {
      if b > 0 { assert InClass(g[0], Digit); }
      else if c == b { assert InClass(g[c], Digit); }
    }
    assert SignEnd(g, 0) == a;
    assert d < |g| ==> IsExponentMark(g[d]);
    ScanExponentIsPattern(g, d);
    if c == b + 1 {
      SpanFromIs(g, a, Digit, b);
      SpanFromIs(g, c, Digit, d);
    } else {
      SpanFromIs(g, a, Digit, d);
    }
    assert MantissaEnd(g, a) == Some(d);
  }

  lemma ScanNumberIffPattern(g: string)
    ensures ScanNumber(g) <==> NumberPattern(g)
  {
    if ScanNumber(g) { ScanNumberIsPattern(g); }
    if NumberPattern(g) {
      var a, b, c, d :| 0 <= a <= b <= c < d <= |g| && (a == 0 || (a == 1 && IsSign(g[0]))) &&
        Between(g, a, b, Digit) && (c == b || (c == b + 1 && g[b] == '.')) &&
        Between(g, c, d, Digit) && ExponentPart(g, d);
      PatternScans(g, a, b, c, d);
    }
  }

  /** An exponent part is made of number characters. */
  lemma ExponentChars(g: string, d: nat)
    requires d <= |g| && ExponentPart(g, d)
    ensures Between(g, d, |g|, NumberChar)
  {
    if d < |g| {
      var e :| d + 1 <= e < |g| && (e == d + 1 || (e == d + 2 && IsSign(g[d + 1]))) &&
        Between(g, e, |g|, Digit);
      DigitsAreNumberChars(g, e, |g|);
      assert Between(g, d, e, NumberChar);
      BetweenJoin(g, d, e, |g|, NumberChar);
    }
  }

  /** Facts about a number in the pattern that locate it inside a longer string. */
  lemma NumberPatternChars(g: string)
    requires NumberPattern(g)
    ensures |g| > 0 && !IsJsWhitespace(g[0]) && Between(g, 0, |g|, NumberChar)
  {
    var a, b, c, d :| 0 <= a <= b <= c < d <= |g| && (a == 0 || (a == 1 && IsSign(g[0]))) &&
      Between(g, a, b, Digit) && (c == b || (c == b + 1 && g[b] == '.')) &&
      Between(g, c, d, Digit) && ExponentPart(g, d);
    NumberPartsChars(g, a, b, c, d);
    assert InClass(g[0], NumberChar);
    NumberCharIsNotWhitespace(g[0]);
  }

  lemma NumberPartsChars(g: string, a: nat, b: nat, c: nat, d: nat)
    requires 0 <= a <= b <= c < d <= |g| && (a == 0 || (a == 1 && IsSign(g[0])))
    requires Between(g, a, b, Digit) && (c == b || (c == b + 1 && g[b] == '.'))
    requires Between(g, c, d, Digit) && ExponentPart(g, d)
    ensures Between(g, 0, |g|, NumberChar)
  {
    ExponentChars(g, d);
    DigitsAreNumberChars(g, a, b);
    DigitsAreNumberChars(g, c, d);
    assert Between(g, 0, a, NumberChar);
    assert Between(g, b, c, NumberChar);
    BetweenJoin(g, 0, a, b, NumberChar);
    BetweenJoin(g, 0, b, c, NumberChar);
    BetweenJoin(g, 0, c, d, NumberChar);
    BetweenJoin(g, 0, d, |g|, NumberChar);
  }

  /** What MatchLength finds is a match of the pattern with its group. */
  lemma MatchLengthIsPattern(s: string)
    requires MatchLength(s).Some?
    ensures LengthPattern(s, MatchLength(s).value)
  {
    var i := SpanFrom(s, 0, Whitespace);
    var j := SpanFrom(s, i, NumberChar);
    var g := s[i..j];
    ScanNumberIffPattern(g);
    assert 0 <= i && i + |g| + 2 <= |s| && Between(s, 0, i, Whitespace) && s[i..i + |g|] == g &&
      s[i + |g|] == 'p' && s[i + |g| + 1] == 'x' && Between(s, i + |g| + 2, |s|, Whitespace) &&
      NumberPattern(g);
  }

  /** The group of a match sits right after the leading whitespace. */
  lemma GroupPosition(s: string, g: string, i: nat)
    requires i + |g| + 2 <= |s| && Between(s, 0, i, Whitespace) && s[i..i + |g|] == g
    requires s[i + |g|] == 'p' && NumberPattern(g)
    ensures SpanFrom(s, 0, Whitespace) == i && SpanFrom(s, i, NumberChar) == i + |g|
  {
    NumberPatternChars(g);
    assert s[i] == g[0];
    SpanFromIs(s, 0, Whitespace, i);
    forall x | i <= x < i + |g| ensures InClass(s[x], NumberChar) {
      assert s[x] == g[x - i];
    }
    SpanFromIs(s, i, NumberChar, i + |g|);
  }

  /** Every match of the pattern is found by MatchLength, with the same group. */
  lemma PatternIsMatchLength(s: string, g: string)
    requires LengthPattern(s, g)
    ensures MatchLength(s) == Some(g)
  {
    var i :| 0 <= i && i + |g| + 2 <= |s| && Between(s, 0, i, Whitespace) && s[i..i + |g|] == g &&
      s[i + |g|] == 'p' && s[i + |g| + 1] == 'x' && Between(s, i + |g| + 2, |s|, Whitespace) &&
      NumberPattern(g);
    GroupPosition(s, g, i);
    ScanNumberIffPattern(g);
    MatchAt(s, g, i, i + |g|);
  }

  /** MatchLength succeeds once its two spans end at `i` and `j` and the rest fits. */
  lemma MatchAt(s: string, g: string, i: nat, j: nat)
    requires i <= j && j + 2 <= |s| && s[i..j] == g
    requires SpanFrom(s, 0, Whitespace) == i && SpanFrom(s, i, NumberChar) == j
    requires s[j] == 'p' && s[j + 1] == 'x' && Between(s, j + 2, |s|, Whitespace) && ScanNumber(g)
    ensures MatchLength(s) == Some(g)
  {
  }

  /** The recogniser decides the pattern and captures exactly its group. */
  lemma MatchLengthIffPattern(s: string, g: string)
    ensures MatchLength(s) == Some(g) <==> LengthPattern(s, g)
  {
    if MatchLength(s) == Some(g) { MatchLengthIsPattern(s); }
    if LengthPattern(s, g) { PatternIsMatchLength(s, g); }
  }

  // ---------------------------------------------------------------------------
  // parseInt
  // ---------------------------------------------------------------------------

  /**
   * JavaScript's `parseInt(t)` with no radix on text that holds no whitespace
   * and no `0x` prefix: an optional sign and the longest run of decimal digits
   * after it; None (NaN) when that run is empty. Later characters are ignored.
   */
  function ParseInt(t: string): (r: Option<int>)
    ensures r.None? <==> (SignEnd(t, 0) == |t| || !IsDigit(t[SignEnd(t, 0)]))
  {
    var a := SignEnd(t, 0);
    var k := SpanFrom(t, a, Digit);
    if k == a then None
    else
      BetweenSlice(t, a, k, Digit);
      Some(Signed(a == 1 && t[0] == '-', DigitsValue(t[a..k])))
  }

  function Signed(negative: bool, n: nat): int { var m: int := n; if negative then -m else m }

  /** parseInt reads the sign and digits t[a..k] when a non-digit or the end follows. */
  lemma ParseIntPrefix(t: string, a: nat, k: nat)
    requires a < k <= |t| && (a == 0 || (a == 1 && IsSign(t[0]))) && Between(t, a, k, Digit)
    requires k < |t| ==> !IsDigit(t[k])
    ensures AllDigits(t[a..k])
    ensures ParseInt(t) == Some(Signed(a == 1 && t[0] == '-', DigitsValue(t[a..k])))
  {
    assert InClass(t[a], Digit);
    assert SignEnd(t, 0) == a;
    SpanFromIs(t, a, Digit, k);
    BetweenSlice(t, a, k, Digit);
  }

  // ---------------------------------------------------------------------------
  // The per-entry converter and the screens table
  // ---------------------------------------------------------------------------

  /** A value of the screens table: a string, or any other JavaScript value. */
  datatype ScreenValue = Text(text: string) | Other(id: nat)

  datatype ScreenEntry = ScreenEntry(name: string, value: ScreenValue)

  predicate EndsWithRem(t: string) { |t| >= 3 && t[|t| - 3..] == "rem" }

  /**
   * The rewriting of one string value: `None` when it stays as it is (no
   * match captures "", and `parseInt` gives NaN for "" and for a number
   * without integer digits); otherwise the integer `n` that `parseInt` reads
   * from the group becomes the text of `n / 16` followed by "rem".
   */
  function ConvertText(s: string): (r: Option<string>)
    ensures r.Some? ==> EndsWithRem(r.value)
  {
    var captured := match MatchLength(s) case Some(g) => g case None => "";
    match ParseInt(captured)
    case None => None
    case Some(n) => Some(Sixteenths(n) + "rem")
  }

  /** The function given to `mapObj` for one breakpoint; non-strings pass through. */
  function ConvertScreen(v: ScreenValue): (r: ScreenValue)
    ensures v.Other? ==> r == v
    ensures v.Text? ==> r == (match ConvertText(v.text) case None => v case Some(t) => Text(t))
  {
    match v
    case Other(_) => v
    case Text(s) => match ConvertText(s) case None => v case Some(t) => Text(t)
  }

  /** A string that does not match the length pattern passes through unchanged. */
  lemma ConvertUnmatched(s: string)
    requires forall g :: !LengthPattern(s, g)
    ensures ConvertText(s).None?
  {
    if MatchLength(s).Some? { MatchLengthIsPattern(s); }
    assert SignEnd("", 0) == 0;
  }

  /** A match whose number has no integer digits (`.5px`, `-.5px`) passes through. */
  lemma ConvertWithoutIntegerDigits(s: string, g: string)
    requires LengthPattern(s, g)
    requires SignEnd(g, 0) < |g| && g[SignEnd(g, 0)] == '.'
    ensures ConvertText(s).None?
  {
    PatternIsMatchLength(s, g);
  }

  /**
   * A match whose number starts with the sign g[..a] and the digits g[a..k]
   * becomes the exact decimal of (sign digits) / 16 followed by "rem": the
   * fraction and exponent after the digits are ignored.
   */
  lemma ConvertIntegerPrefix(s: string, g: string, a: nat, k: nat)
    requires LengthPattern(s, g)
    requires a < k <= |g| && (a == 0 || (a == 1 && IsSign(g[0]))) && Between(g, a, k, Digit)
    requires k < |g| ==> !IsDigit(g[k])
    ensures AllDigits(g[a..k])
    ensures ConvertText(s) ==
      Some(Sixteenths(Signed(a == 1 && g[0] == '-', DigitsValue(g[a..k]))) + "rem")
  {
    PatternIsMatchLength(s, g);
    ParseIntPrefix(g, a, k);
  }

  /**
   * Round trip: when a string is rewritten, it matched the pattern, parseInt
   * read an integer `n` from its group, and the decimal before "rem" times 16
   * is exactly `n`.
   */
  lemma ConvertRoundTrip(s: string)
    requires ConvertText(s).Some?
    ensures MatchLength(s).Some? && LengthPattern(s, MatchLength(s).value)
    ensures ParseInt(MatchLength(s).value).Some?
    ensures var t := ConvertText(s).value;
      ParseDecimal(t[..|t| - 3]).Some? &&
      ParseDecimal(t[..|t| - 3]).value.mantissa * 16 ==
        ParseInt(MatchLength(s).value).value * Pow10(ParseDecimal(t[..|t| - 3]).value.scale)
  {
    MatchLengthIsPattern(s);
    var n := ParseInt(MatchLength(s).value).value;
    var t := ConvertText(s).value;
    assert t == Sixteenths(n) + "rem";
    assert t[..|t| - 3] == Sixteenths(n);
    SixteenthsRoundTrip(n);
  }

  /** Whitespace around a value changes neither whether it matches nor its group. */
  lemma {:induction false} MatchIgnoresSurroundingWhitespace(w1: string, s: string, w2: string)
    requires Between(w1, 0, |w1|, Whitespace) && Between(w2, 0, |w2|, Whitespace)
    ensures MatchLength(w1 + s + w2) == MatchLength(s)
  {
    var x := w1 + s + w2;
    if MatchLength(s).Some? {
      var g := MatchLength(s).value;
      MatchLengthIsPattern(s);
      PaddedPattern(w1, s, w2, g);
      PatternIsMatchLength(x, g);
    }
    if MatchLength(x).Some? {
      var g := MatchLength(x).value;
      MatchLengthIsPattern(x);
      UnpaddedPattern(w1, s, w2, g);
      PatternIsMatchLength(s, g);
    }
  }

  lemma PaddedPattern(w1: string, s: string, w2: string, g: string)
    requires Between(w1, 0, |w1|, Whitespace) && Between(w2, 0, |w2|, Whitespace)
    requires LengthPattern(s, g)
    ensures LengthPattern(w1 + s + w2, g)
  {
    var x := w1 + s + w2;
    var i :| 0 <= i && i + |g| + 2 <= |s| && Between(s, 0, i, Whitespace) && s[i..i + |g|] == g &&
      s[i + |g|] == 'p' && s[i + |g| + 1] == 'x' && Between(s, i + |g| + 2, |s|, Whitespace) &&
      NumberPattern(g);
    var i' := |w1| + i;
    forall y | 0 <= y < i' ensures InClass(x[y], Whitespace) {
      if y < |w1| { assert x[y] == w1[y]; } else { assert x[y] == s[y - |w1|]; }
    }
    forall y | i' + |g| + 2 <= y < |x| ensures InClass(x[y], Whitespace) {
      if y < |w1| + |s| { assert x[y] == s[y - |w1|]; } else { assert x[y] == w2[y - |w1| - |s|]; }
    }
    assert x[i'..i' + |g|] == s[i..i + |g|];
    assert x[i' + |g|] == s[i + |g|] && x[i' + |g| + 1] == s[i + |g| + 1];
    assert 0 <= i' && i' + |g| + 2 <= |x| && Between(x, 0, i', Whitespace) && x[i'..i' + |g|] == g &&
      x[i' + |g|] == 'p' && x[i' + |g| + 1] == 'x' && Between(x, i' + |g| + 2, |x|, Whitespace) &&
      NumberPattern(g);
  }

  lemma UnpaddedPattern(w1: string, s: string, w2: string, g: string)
    requires Between(w1, 0, |w1|, Whitespace) && Between(w2, 0, |w2|, Whitespace)
    requires LengthPattern(w1 + s + w2, g)
    ensures LengthPattern(s, g)
  {
    var x := w1 + s + w2;
    var i :| 0 <= i && i + |g| + 2 <= |x| && Between(x, 0, i, Whitespace) && x[i..i + |g|] == g &&
      x[i + |g|] == 'p' && x[i + |g| + 1] == 'x' && Between(x, i + |g| + 2, |x|, Whitespace) &&
      NumberPattern(g);
    NumberPatternChars(g);
    // the group does not start inside w1, and "px" does not end inside w2
    assert x[i] == g[0];
    assert |w1| <= i && i + |g| + 2 <= |w1| + |s|;
    var i' := i - |w1|;
    forall y | 0 <= y < i' ensures InClass(s[y], Whitespace) { assert s[y] == x[y + |w1|]; }
    forall y | i' + |g| + 2 <= y < |s| ensures InClass(s[y], Whitespace) { assert s[y] == x[y + |w1|]; }
    assert s[i'..i' + |g|] == x[i..i + |g|];
    assert s[i' + |g|] == x[i + |g|] && s[i' + |g| + 1] == x[i + |g| + 1];
    assert 0 <= i' && i' + |g| + 2 <= |s| && Between(s, 0, i', Whitespace) && s[i'..i' + |g|] == g &&
      s[i' + |g|] == 'p' && s[i' + |g| + 1] == 'x' && Between(s, i' + |g| + 2, |s|, Whitespace) &&
      NumberPattern(g);
  }

  /** Whitespace around a value never changes what it is rewritten to. */
  lemma ConvertIgnoresSurroundingWhitespace(w1: string, s: string, w2: string)
    requires Between(w1, 0, |w1|, Whitespace) && Between(w2, 0, |w2|, Whitespace)
    ensures ConvertText(w1 + s + w2) == ConvertText(s)
  {
    MatchIgnoresSurroundingWhitespace(w1, s, w2);
  }

  /**
   * `mapObj(table, fn)`: a new table with the same names in the same order,
   * each value converted; the input table is a value and is left as it was.
   */
  function ConvertScreens(table: seq<ScreenEntry>): (r: seq<ScreenEntry>)
    ensures |r| == |table|
    ensures forall i :: 0 <= i < |r| ==>
      r[i].name == table[i].name && r[i].value == ConvertScreen(table[i].value)
  {
    if table == [] then []
    else [ScreenEntry(table[0].name, ConvertScreen(table[0].value))] + ConvertScreens(table[1..])
  }

  /** `screens`: the converted default table, or an empty one when it is absent. */
  function Screens(defaults: Option<seq<ScreenEntry>>): (r: seq<ScreenEntry>)
    ensures defaults.None? ==> r == []
    ensures defaults.Some? ==> |r| == |defaults.value| && forall i :: 0 <= i < |r| ==>
      r[i].name == defaults.value[i].name && r[i].value == ConvertScreen(defaults.value[i].value)
  {
    match defaults
    case None => []
    case Some(table) => ConvertScreens(table)
  }

  /** A plain run of digits followed by "px" becomes its value in sixteenths. */
  lemma ConvertPixels(ds: string)
    requires |ds| > 0 && AllDigits(ds)
    ensures ConvertText(ds + "px") == Some(Sixteenths(DigitsValue(ds)) + "rem")
  {
    var s := ds + "px";
    assert s[0..|ds|] == ds;
    assert ExponentPart(ds, |ds|);
    assert NumberPattern(ds) by {
      assert 0 <= 0 <= 0 <= 0 < |ds| <= |ds| && Between(ds, 0, 0, Digit) && Between(ds, 0, |ds|, Digit);
    }
    assert LengthPattern(s, ds) by {
      assert Between(s, 0, 0, Whitespace) && Between(s, |ds| + 2, |s|, Whitespace);
      assert s[|ds|] == 'p' && s[|ds| + 1] == 'x';
    }
    ConvertIntegerPrefix(s, ds, 0, |ds|);
    assert ds[0..|ds|] == ds;
  }

  /** A whole number of sixteenths of a pixel count is written without a fraction. */
  lemma ConvertWholeRem(px: nat)
    requires px % 16 == 0
    ensures ConvertText(NatText(px) + "px") == Some(NatText(px / 16) + "rem")
  {
    ConvertPixels(NatText(px));
    WholeSixteenths(px);
  }

  /** A length written in pixels, and one written in rem. */
  function Px(n: nat): ScreenValue { Text(NatText(n) + "px") }

  function Rem(n: nat): ScreenValue { Text(NatText(n) + "rem") }

  lemma PxText() ensures Px(640) == Text("640px") && Rem(40) == Text("40rem") {}

  /** A whole number of sixteenths as a table value. */
  lemma ScreenInRem(px: nat)
    requires px % 16 == 0
    ensures ConvertScreen(Px(px)) == Rem(px / 16)
  {
    ConvertWholeRem(px);
  }

  /**
   * Tailwind's default breakpoints (sm 640px, md 768px, lg 1024px, xl 1280px,
   * 2xl 1536px) become 40, 48, 64, 80 and 96 rem.
   */
  lemma DefaultBreakpointsInRem()
    ensures ConvertScreen(Px(640)) == Rem(40) && ConvertScreen(Px(768)) == Rem(48)
    ensures ConvertScreen(Px(1024)) == Rem(64) && ConvertScreen(Px(1280)) == Rem(80)
    ensures ConvertScreen(Px(1536)) == Rem(96)
  {
    ScreenInRem(640); ScreenInRem(768); ScreenInRem(1024); ScreenInRem(1280); ScreenInRem(1536);
  }

  /** Two digit runs around a separator: each run keeps its digits. */
  lemma SeparatedDigits(ds: string, sep: char, rs: string)
    requires AllDigits(ds) && AllDigits(rs)
    ensures var g := ds + [sep] + rs;
      Between(g, 0, |ds|, Digit) && g[|ds|] == sep && Between(g, |ds| + 1, |g|, Digit) && g[0..|ds|] == ds
  {
    var g := ds + [sep] + rs;
    forall x | 0 <= x < |ds| ensures g[x] == ds[x] {}
    forall x | |ds| + 1 <= x < |g| ensures g[x] == rs[x - |ds| - 1] {}
  }

  /** A number `g` directly followed by "px" is a match with group `g`. */
  lemma BarePattern(g: string)
    requires NumberPattern(g)
    ensures LengthPattern(g + "px", g)
  {
    var s := g + "px";
    assert s[0..|g|] == g && s[|g|] == 'p' && s[|g| + 1] == 'x';
    assert Between(s, 0, 0, Whitespace) && Between(s, |s|, |s|, Whitespace);
  }

  lemma FractionPattern(ds: string, fs: string)
    requires |ds| > 0 && AllDigits(ds) && |fs| > 0 && AllDigits(fs)
    ensures LengthPattern(ds + "." + fs + "px", ds + "." + fs)
  {
    var g := ds + "." + fs;
    SeparatedDigits(ds, '.', fs);
    assert ExponentPart(g, |g|);
    assert 0 <= 0 <= |ds| <= |ds| + 1 < |g| <= |g|;
    BarePattern(g);
  }

  /** An optional exponent sign: empty, `+` or `-`. */
  predicate OptionalSign(sg: string) { |sg| <= 1 && (|sg| == 1 ==> IsSign(sg[0])) }

  /** The pieces of `ds`, an exponent mark, an optional sign and the digits `es`. */
  lemma ExponentDigits(ds: string, mark: char, sg: string, es: string)
    requires AllDigits(ds) && OptionalSign(sg) && AllDigits(es)
    ensures var g := ds + [mark] + sg + es;
      Between(g, 0, |ds|, Digit) && g[|ds|] == mark && g[0..|ds|] == ds &&
      (|sg| == 1 ==> g[|ds| + 1] == sg[0]) && Between(g, |ds| + 1 + |sg|, |g|, Digit)
  {
    var g := ds + [mark] + sg + es;
    forall x | 0 <= x < |ds| ensures g[x] == ds[x] {}
    forall x | |ds| + 1 + |sg| <= x < |g| ensures g[x] == es[x - |ds| - 1 - |sg|] {}
  }

  lemma ExponentPattern(ds: string, mark: char, sg: string, es: string)
    requires |ds| > 0 && AllDigits(ds) && IsExponentMark(mark) && OptionalSign(sg) && |es| > 0 && AllDigits(es)
    ensures LengthPattern(ds + [mark] + sg + es + "px", ds + [mark] + sg + es)
  {
    var g := ds + [mark] + sg + es;
    ExponentDigits(ds, mark, sg, es);
    var b := |ds| + 1 + |sg|;
    assert |ds| + 1 <= b < |g| && (b == |ds| + 1 || (b == |ds| + 2 && IsSign(g[|ds| + 1])));
    assert ExponentPart(g, |ds|);
    assert Between(g, 0, 0, Digit);
    BarePattern(g);
  }

  /** The digits after a point never change the result: parseInt stops at the point. */
  lemma ConvertIgnoresFraction(ds: string, fs: string)
    requires |ds| > 0 && AllDigits(ds) && |fs| > 0 && AllDigits(fs)
    ensures ConvertText(ds + "." + fs + "px") == ConvertText(ds + "px")
  {
    var g := ds + "." + fs;
    FractionPattern(ds, fs);
    SeparatedDigits(ds, '.', fs);
    ConvertIntegerPrefix(g + "px", g, 0, |ds|);
    ConvertPixels(ds);
  }

  /**
   * An exponent, with either mark and an optional sign, never changes the
   * result either: parseInt stops at the mark.
   */
  lemma ConvertIgnoresExponent(ds: string, mark: char, sg: string, es: string)
    requires |ds| > 0 && AllDigits(ds) && IsExponentMark(mark) && OptionalSign(sg) && |es| > 0 && AllDigits(es)
    ensures ConvertText(ds + [mark] + sg + es + "px") == ConvertText(ds + "px")
  {
    var g := ds + [mark] + sg + es;
    ExponentPattern(ds, mark, sg, es);
    ExponentDigits(ds, mark, sg, es);
    ConvertIntegerPrefix(g + "px", g, 0, |ds|);
    ConvertPixels(ds);
  }

  /** `1.5px`: parseInt reads 1, so the value is one sixteenth of a rem. */
  lemma FractionExample()
    ensures ConvertText(NatText(1) + "." + NatText(5) + "px") == Some(Sixteenths(1) + "rem")
  {
    ConvertIgnoresFraction(NatText(1), NatText(5));
    ConvertPixels(NatText(1));
  }

  /** `2e3px`: parseInt reads 2, not 2000. */
  lemma ExponentExample()
    ensures ConvertText(NatText(2) + "e" + NatText(3) + "px") == Some(Sixteenths(2) + "rem")
  {
    ConvertIgnoresExponent(NatText(2), 'e', "", NatText(3));
    assert NatText(2) + ['e'] + "" + NatText(3) == NatText(2) + "e" + NatText(3);
    ConvertPixels(NatText(2));
  }

  lemma OneSixteenth() ensures Sixteenths(1) == "0.0625" {}

  lemma TwoSixteenths() ensures Sixteenths(2) == "0.125" {}

  /** A number without integer digits stays as it is, with or without a sign. */
  lemma PointFiveUnchanged() ensures ConvertText(".5px").None?
  {
    var g := ".5";
    assert NumberPattern(g) by {
      assert Between(g, 0, 0, Digit) && g[0] == '.' && Between(g, 1, 2, Digit) && ExponentPart(g, 2);
    }
    assert ".5px"[0..2] == g;
    assert LengthPattern(".5px", g) by {
      assert Between(".5px", 0, 0, Whitespace) && Between(".5px", 4, 4, Whitespace);
    }
    ConvertWithoutIntegerDigits(".5px", g);
  }

  lemma NegativePointFiveUnchanged() ensures ConvertText("-.5px").None?
  {
    var g := "-.5";
    assert NumberPattern(g) by {
      assert Between(g, 1, 1, Digit) && g[1] == '.' && Between(g, 2, 3, Digit) && ExponentPart(g, 3);
    }
    assert "-.5px"[0..3] == g;
    assert LengthPattern("-.5px", g) by {
      assert Between("-.5px", 0, 0, Whitespace) && Between("-.5px", 5, 5, Whitespace);
    }
    ConvertWithoutIntegerDigits("-.5px", g);
  }

  /** Values that are not pixel lengths stay as they are. */
  lemma RemUnchanged() ensures ConvertText("40rem").None? {}

  lemma NonLengthsUnchanged()
    ensures ConvertText("px").None? && ConvertText("abc").None? && ConvertText("").None?
  {
  }
}
