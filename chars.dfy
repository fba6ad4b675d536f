/** Character classes of the length pattern and the prefix scans over them. */
module Chars {
  predicate IsDigit(c: char) { '0' <= c <= '9' }

  /** The characters JavaScript's `\s` class matches. */
  predicate IsJsWhitespace(c: char) {
    var n := c as int;
    n == 0x09 || n == 0x0A || n == 0x0B || n == 0x0C || n == 0x0D || n == 0x20 ||
    n == 0xA0 || n == 0x1680 || (0x2000 <= n <= 0x200A) || n == 0x2028 || n == 0x2029 ||
    n == 0x202F || n == 0x205F || n == 0x3000 || n == 0xFEFF
  }

  predicate IsSign(c: char) { c == '+' || c == '-' }

  predicate IsExponentMark(c: char) { c == 'e' || c == 'E' }

  /** The characters that can occur in the captured number. */
  predicate IsNumberChar(c: char) { IsDigit(c) || IsSign(c) || c == '.' || IsExponentMark(c) }

  datatype CharClass = Digit | Whitespace | NumberChar

  predicate InClass(c: char, k: CharClass) {
    match k
    case Digit => IsDigit(c)
    case Whitespace => IsJsWhitespace(c)
    case NumberChar => IsNumberChar(c)
  }

  /** Every character of `s` from index `i` up to `j` is in class `k`. */
  predicate Between(s: string, i: nat, j: nat, k: CharClass)
    requires i <= j <= |s|
  {
    forall x :: i <= x < j ==> InClass(s[x], k)
  }

  /** The end of the longest run of class-`k` characters of `s` that starts at `i`. */
  function SpanFrom(s: string, i: nat, k: CharClass): (j: nat)
    requires i <= |s|
    ensures i <= j <= |s|
    ensures Between(s, i, j, k)
    ensures j < |s| ==> !InClass(s[j], k)
    decreases |s| - i
  {
    if i == |s| || !InClass(s[i], k) then i else SpanFrom(s, i + 1, k)
  }

  /** The end that SpanFrom finds is the only one with its two properties. */
  lemma SpanFromIs(s: string, i: nat, k: CharClass, j: nat)
    requires i <= j <= |s| && Between(s, i, j, k)
    requires j < |s| ==> !InClass(s[j], k)
    ensures SpanFrom(s, i, k) == j
  {
  }

  lemma BetweenSlice(s: string, i: nat, j: nat, k: CharClass)
    requires i <= j <= |s| && Between(s, i, j, k)
    ensures Between(s[i..j], 0, j - i, k)
  {
    forall x | 0 <= x < j - i ensures InClass(s[i..j][x], k) { assert s[i..j][x] == s[i + x]; }
  }

  lemma BetweenJoin(s: string, i: nat, j: nat, l: nat, k: CharClass)
    requires i <= j <= l <= |s| && Between(s, i, j, k) && Between(s, j, l, k)
    ensures Between(s, i, l, k)
  {
  }

  lemma DigitsAreNumberChars(s: string, i: nat, j: nat)
    requires i <= j <= |s| && Between(s, i, j, Digit)
    ensures Between(s, i, j, NumberChar)
  {
    forall x | i <= x < j ensures InClass(s[x], NumberChar) { assert InClass(s[x], Digit); }
  }

  lemma NumberCharIsNotWhitespace(c: char)
    requires IsNumberChar(c)
    ensures !IsJsWhitespace(c)
  {
  }
}
