/**
 * The handful of Python string and integer conversions the core relies on:
 * `str.strip`, `str.isdigit`, `str.lower`, `str(int)` and `int(str)`.
 * Digits and case are ASCII only; whitespace is the full set `str.isspace` accepts.
 */
module Text {
  import opened Wrappers

  /** Characters that `str.strip()` removes (those for which `str.isspace()` holds). */
  predicate IsSpace(c: char) {
    c == ' ' || '\t' <= c <= '\r' || '\U{1c}' <= c <= '\U{1f}' || c == '\U{85}' || c == '\U{a0}'
    || c == '\U{1680}' || '\U{2000}' <= c <= '\U{200a}' || c == '\U{2028}' || c == '\U{2029}'
    || c == '\U{202f}' || c == '\U{205f}' || c == '\U{3000}'
  }

  /** Index of the first character that is not whitespace (|s| if there is none). */
  function StripStart(s: string): (i: nat)
    ensures i <= |s|
    ensures forall k :: 0 <= k < i ==> IsSpace(s[k])
    ensures i < |s| ==> !IsSpace(s[i])
  {
    if s == [] || !IsSpace(s[0]) then 0 else 1 + StripStart(s[1..])
  }

  /** Index just past the last character that is not whitespace (0 if there is none). */
  function StripEnd(s: string): (j: nat)
    ensures j <= |s|
    ensures forall k :: j <= k < |s| ==> IsSpace(s[k])
    ensures 0 < j ==> !IsSpace(s[j - 1])
  {
    if s == [] || !IsSpace(s[|s| - 1]) then |s| else StripEnd(s[..|s| - 1])
  }

  /** `r` is a slice of `s` and everything of `s` around that slice is whitespace. */
  predicate TrimmedFrom(s: string, r: string) {
    exists i, j :: (0 <= i <= j <= |s| && r == s[i..j]
      && (forall k :: 0 <= k < i ==> IsSpace(s[k])) && (forall k :: j <= k < |s| ==> IsSpace(s[k])))
  }

  /** Python's `s.strip()`: `s` without its leading and trailing whitespace. */
  function Strip(s: string): (r: string)
    ensures r == [] || (!IsSpace(r[0]) && !IsSpace(r[|r| - 1]))
    ensures TrimmedFrom(s, r)
  {
    var i, j := StripStart(s), StripEnd(s);
    if j <= i then
      assert forall k :: 0 <= k < |s| ==> IsSpace(s[k]) by {
        forall k | 0 <= k < |s| ensures IsSpace(s[k]) { if k >= j { } else { assert k < i; } }
      }
      assert s[0..0] == [];
      []
    else s[i..j]
  }

  /** Stripping only removes characters. */
  lemma StripKeeps(s: string)
    ensures forall c :: c in Strip(s) ==> c in s
  {
    var i, j :| 0 <= i <= j <= |s| && Strip(s) == s[i..j];
    assert forall k :: 0 <= k < j - i ==> s[i..j][k] == s[i + k];
  }

  /** A string with no whitespace at either end is left alone by `Strip`. */
  lemma StripNoEnds(s: string)
    requires s == [] || (!IsSpace(s[0]) && !IsSpace(s[|s| - 1]))
    ensures Strip(s) == s
  {
    if s != [] {
      assert StripStart(s) == 0;
      assert StripEnd(s) == |s|;
      assert s[0..|s|] == s;
    }
  }

  /** Stripping twice is the same as stripping once. */
  lemma StripIdempotent(s: string)
    ensures Strip(Strip(s)) == Strip(s)
  {
    StripNoEnds(Strip(s));
  }

  predicate IsDigit(c: char) { '0' <= c <= '9' }

  /** Python's `s.isdigit()` on ASCII text: non-empty and made only of digits. */
  predicate IsDigits(s: string) {
    |s| > 0 && forall k :: 0 <= k < |s| ==> IsDigit(s[k])
  }

  function LowerChar(c: char): char {
    if 'A' <= c <= 'Z' then (c as int + 32) as char else c
  }

  /** Python's `s.lower()` on ASCII letters; every other character is kept. */
  function Lower(s: string): (r: string)
    ensures |r| == |s|
    ensures forall k :: 0 <= k < |s| ==> r[k] == LowerChar(s[k])
  {
    if s == [] then [] else [LowerChar(s[0])] + Lower(s[1..])
  }

  /** The number a string of decimal digits denotes. */
  function DigitsValue(s: string): nat
    requires forall k :: 0 <= k < |s| ==> IsDigit(s[k])
  {
    if s == [] then 0
    else
      assert IsDigit(s[|s| - 1]);
      10 * DigitsValue(s[..|s| - 1]) + (s[|s| - 1] as int - '0' as int)
  }

  /** Python's `str(n)` for a non-negative integer: its shortest decimal numeral. */
  function NatToString(n: nat): (r: string)
    ensures IsDigits(r)
    ensures DigitsValue(r) == n
    ensures |r| > 1 ==> r[0] != '0'
  {
    var d := ['0' + (n % 10) as char];
    if n < 10 then d
    else
      var r := NatToString(n / 10) + d;
      assert r[..|r| - 1] == NatToString(n / 10);
      r
  }

  /** Python's `str(i)` for any integer. */
  function IntToString(i: int): (r: string)
    ensures r != [] && !IsSpace(r[0]) && !IsSpace(r[|r| - 1])
    ensures i >= 0 ==> IsDigits(r) && DigitsValue(r) == i
    ensures i < 0 ==> r[0] == '-' && IsDigits(r[1..]) && DigitsValue(r[1..]) == -i
  {
    if i < 0 then "-" + NatToString(-i) else NatToString(i)
  }

  /** The digits of a numeral with its `_` separators removed. */
  function RemoveUnderscores(s: string): (r: string)
    ensures |r| <= |s|
    ensures (forall k :: 0 <= k < |s| ==> IsDigit(s[k]) || s[k] == '_') ==> forall k :: 0 <= k < |r| ==> IsDigit(r[k])
  {
    if s == [] then [] else (if s[0] == '_' then [] else [s[0]]) + RemoveUnderscores(s[1..])
  }

  /**
   * What `int()` accepts after the sign: digits, optionally grouped by single
   * underscores that neither start nor end the numeral.
   */
  predicate IsNumeral(s: string) {
    && |s| > 0 && IsDigit(s[0]) && IsDigit(s[|s| - 1])
    && (forall k :: 0 <= k < |s| ==> IsDigit(s[k]) || s[k] == '_')
    && (forall k :: 0 <= k < |s| - 1 ==> !(s[k] == '_' && s[k + 1] == '_'))
  }

  /** The value of a numeral: its digits with the `_` separators dropped. */
  function NumeralValue(n: string): nat
    requires IsNumeral(n)
  {
    DigitsValue(RemoveUnderscores(n))
  }

  /** What `int()` accepts once the surrounding whitespace is gone: an optional sign, then a numeral. */
  predicate IsIntLiteral(t: string) {
    IsNumeral(t) || (|t| > 0 && (t[0] == '+' || t[0] == '-') && IsNumeral(t[1..]))
  }

  /** Python's `int(s)` in base 10: `None` where it raises `ValueError`. */
  function ParseInt(s: string): (r: Option<int>)
    ensures r.Some? <==> IsIntLiteral(Strip(s))
    ensures IsDigits(Strip(s)) ==> r == Some(DigitsValue(Strip(s)))
    ensures var t := Strip(s);
      |t| > 0 && (t[0] == '+' || t[0] == '-') && IsNumeral(t[1..]) ==>
        r == Some(if t[0] == '-' then -(NumeralValue(t[1..]) as int) else NumeralValue(t[1..]) as int)
    ensures IsNumeral(Strip(s)) ==> r == Some(NumeralValue(Strip(s)))
  {
    ParseStripped(Strip(s))
  }

  /** `int()` on text whose surrounding whitespace is already gone. */
  function ParseStripped(t: string): (r: Option<int>)
    ensures r.Some? <==> IsIntLiteral(t)
    ensures IsDigits(t) ==> r == Some(DigitsValue(t))
    ensures |t| > 0 && (t[0] == '+' || t[0] == '-') && IsNumeral(t[1..]) ==>
      r == Some(if t[0] == '-' then -(NumeralValue(t[1..]) as int) else NumeralValue(t[1..]) as int)
    ensures IsNumeral(t) ==> r == Some(NumeralValue(t))
  {
    if IsDigits(t) then RemoveUnderscoresOfDigits(t); assert IsNumeral(t); Some(DigitsValue(t))
    else if |t| > 0 && (t[0] == '+' || t[0] == '-') then
      if IsNumeral(t[1..]) then
        var v: int := NumeralValue(t[1..]);
        Some(if t[0] == '-' then -v else v)
      else None
    else if IsNumeral(t) then Some(NumeralValue(t))
    else None
  }

  /** `int()` rejects text that is not a numeral. */
  lemma ParseIntRejectsLetters()
    ensures ParseInt("abc") == None
  {
    StripNoEnds("abc");
    assert !IsDigit("abc"[0]);
  }

  lemma RemoveUnderscoresOfDigits(s: string)
    requires forall k :: 0 <= k < |s| ==> IsDigit(s[k])
    ensures RemoveUnderscores(s) == s
  {
  }

  /** `int(str(i)) == i`: the decimal text of every integer parses back to it. */
  lemma ParseIntToString(i: int)
    ensures ParseInt(IntToString(i)) == Some(i)
  {
    if i < 0 {
      ParseNegative(NatToString(-i));
      assert IntToString(i) == "-" + NatToString(-i);
    } else {
      var s := NatToString(i);
      StripNoEnds(s);
    }
  }

  /** A minus sign followed by decimal digits parses to the negated value. */
  lemma ParseNegative(digits: string)
    requires IsDigits(digits)
    ensures ParseInt("-" + digits) == Some(-(DigitsValue(digits) as int))
  {
    SignedIsStripped(digits);
    ParseStrippedNegative(digits);
  }

  lemma ParseStrippedNegative(digits: string)
    requires IsDigits(digits)
    ensures ParseStripped("-" + digits) == Some(-(DigitsValue(digits) as int))
  {
    var s := "-" + digits;
    assert s[1..] == digits;
    DigitsAreNumeral(digits);
    RemoveUnderscoresOfDigits(digits);
    assert !IsDigit(s[0]);
  }

  lemma SignedIsStripped(digits: string)
    requires IsDigits(digits)
    ensures Strip("-" + digits) == "-" + digits
  {
    var s := "-" + digits;
    assert s[|s| - 1] == digits[|digits| - 1];
    StripNoEnds(s);
  }

  lemma DigitsAreNumeral(digits: string)
    requires IsDigits(digits)
    ensures IsNumeral(digits)
  {
    assert IsDigit(digits[0]) && IsDigit(digits[|digits| - 1]);
  }
}
