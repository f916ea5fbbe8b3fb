/**
 * Python's string semantics that the service relies on: `str.strip()`,
 * `str.replace`, `str.join`, `str(int)` and `int(str)`.
 */
module Strings {
  import opened Wrappers

  /** The characters `str.strip()` and the regular-expression class `\s` treat as whitespace. */
  predicate IsWhitespace(c: char) {
    || ('\t' <= c <= '\r')
    || ('\U{1C}' <= c <= '\U{1F}')
    || c == ' ' || c == '\U{85}' || c == '\U{A0}' || c == '\U{1680}'
    || ('\U{2000}' <= c <= '\U{200A}')
    || c == '\U{2028}' || c == '\U{2029}' || c == '\U{202F}' || c == '\U{205F}' || c == '\U{3000}'
  }

  /**
   * The two classes of whitespace: `StrSpaces`, which `str.strip()` removes,
   * and `IntSpaces`, which `int()` skips around a number. Python maps
   * non-ASCII whitespace to a space before parsing a number but keeps ASCII
   * characters as they are, and then skips only the ASCII whitespace, so the
   * separators U+001C..U+001F are not skipped there.
   */
  datatype Spaces = StrSpaces | IntSpaces

  predicate IsSpace(sp: Spaces, c: char) {
    IsWhitespace(c) && (sp == IntSpaces ==> !('\U{1C}' <= c <= '\U{1F}'))
  }

  /** ASCII decimal digits (the model's reading of `\d` and of the digits `int()` accepts). */
  predicate IsDigit(c: char) {
    '0' <= c <= '9'
  }

  predicate AllDigits(s: string) {
    forall i :: 0 <= i < |s| ==> IsDigit(s[i])
  }

  predicate StartsWith(s: string, p: string) {
    |p| <= |s| && s[..|p|] == p
  }

  predicate EndsWith(s: string, p: string) {
    |p| <= |s| && s[|s| - |p|..] == p
  }

  /** A slice splits at any point inside it. */
  lemma SliceSplit(s: string, a: nat, b: nat, c: nat)
    requires a <= b <= c <= |s|
    ensures s[a..c] == s[a..b] + s[b..c]
  {
  }

  /** `p` occurs in `s` at offset `i`. */
  predicate OccursAt(s: string, p: string, i: nat) {
    i <= |s| && StartsWith(s[i..], p)
  }

  /** `p in s` for strings. */
  predicate Contains(s: string, p: string) {
    exists i :: 0 <= i <= |s| && OccursAt(s, p, i)
  }

  /** Drops the leading characters of class `sp` and nothing else. */
  function StripLeftBy(s: string, sp: Spaces): (r: string)
    ensures |r| <= |s| && r == s[|s| - |r|..]
    ensures r == [] || !IsSpace(sp, r[0])
    ensures forall i :: 0 <= i < |s| - |r| ==> IsSpace(sp, s[i])
  {
    if s != [] && IsSpace(sp, s[0]) then StripLeftBy(s[1..], sp) else s
  }

  /** Drops the trailing characters of class `sp` and nothing else. */
  function StripRightBy(s: string, sp: Spaces): (r: string)
    ensures |r| <= |s| && r == s[..|r|]
    ensures r == [] || !IsSpace(sp, r[|r| - 1])
    ensures forall i :: |r| <= i < |s| ==> IsSpace(sp, s[i])
  {
    if s != [] && IsSpace(sp, s[|s| - 1]) then StripRightBy(s[..|s| - 1], sp) else s
  }

  /** `r` sits at offset `k` of `s` with only characters of class `sp` before and after it. */
  predicate TrimmedBy(s: string, r: string, k: nat, sp: Spaces) {
    && k + |r| <= |s| && r == s[k..k + |r|]
    && (forall i :: 0 <= i < k ==> IsSpace(sp, s[i]))
    && (forall i :: k + |r| <= i < |s| ==> IsSpace(sp, s[i]))
  }

  /**
   * Both ends stripped of class `sp`: the result is the slice of `s` that
   * neither starts nor ends with such a character, and everything cut away
   * on either side belongs to the class.
   */
  function StripBy(s: string, sp: Spaces): (r: string)
    ensures |r| <= |s|
    ensures r == [] || (!IsSpace(sp, r[0]) && !IsSpace(sp, r[|r| - 1]))
    ensures exists k :: 0 <= k <= |s| - |r| && TrimmedBy(s, r, k, sp)
  {
    var l := StripLeftBy(s, sp);
    var r := StripRightBy(l, sp);
    var k := |s| - |l|;
    assert TrimmedBy(s, r, k, sp);
    r
  }

  /** A string that neither starts nor ends with a character of the class is left as it is. */
  lemma StripByTrimmed(s: string, sp: Spaces)
    requires s == [] || (!IsSpace(sp, s[0]) && !IsSpace(sp, s[|s| - 1]))
    ensures StripBy(s, sp) == s
  {
  }

  /** `s.strip()`: `StripBy` over Python's whitespace. */
  function Strip(s: string): (r: string)
    ensures |r| <= |s|
    ensures r == [] || (!IsWhitespace(r[0]) && !IsWhitespace(r[|r| - 1]))
    ensures exists k :: 0 <= k <= |s| - |r| && TrimmedBy(s, r, k, StrSpaces)
  {
    StripBy(s, StrSpaces)
  }

  /** A string that neither starts nor ends with whitespace is its own strip. */
  lemma StripTrimmed(s: string)
    requires s == [] || (!IsWhitespace(s[0]) && !IsWhitespace(s[|s| - 1]))
    ensures Strip(s) == s
  {
    StripByTrimmed(s, StrSpaces);
  }

  /** Stripping twice is stripping once. */
  lemma StripIdempotent(s: string)
    ensures Strip(Strip(s)) == Strip(s)
  {
    StripTrimmed(Strip(s));
  }

  /** `s.find(pat)` as an option: the offset of the first occurrence of `pat`. */
  function IndexOf(s: string, pat: string): (r: Option<nat>)
    ensures r.Some? ==> r.value + |pat| <= |s| && OccursAt(s, pat, r.value)
    decreases |s|
  {
    if |s| < |pat| then None
    else if StartsWith(s, pat) then Some(0)
    else
      match IndexOf(s[1..], pat)
      case Some(i) => assert s[1..][i..] == s[i + 1..]; Some(i + 1)
      case None => None
  }

  /** `IndexOf` finds the first occurrence, and finds one whenever there is one. */
  lemma {:induction false} IndexOfFirst(s: string, pat: string)
    ensures IndexOf(s, pat).Some? ==> forall j :: 0 <= j < IndexOf(s, pat).value ==> !OccursAt(s, pat, j)
    ensures IndexOf(s, pat).None? <==> !Contains(s, pat)
    decreases |s|
  {
    if |s| >= |pat| && !StartsWith(s, pat) {
      var t := s[1..];
      IndexOfFirst(t, pat);
      forall j | 0 < j <= |s|
        ensures OccursAt(s, pat, j) == OccursAt(t, pat, j - 1)
      {
        assert s[j..] == t[j - 1..];
      }
      assert s[0..] == s;
    }
  }

  /** The text before the first occurrence of `pat` holds no occurrence of it. */
  lemma PrefixBeforeFirst(s: string, pat: string, k: nat)
    requires pat != [] && IndexOf(s, pat) == Some(k)
    ensures !Contains(s[..k], pat)
  {
    IndexOfFirst(s, pat);
    forall j | 0 <= j <= k
      ensures !OccursAt(s[..k], pat, j)
    {
      if j + |pat| <= k {
        assert s[..k][j..][..|pat|] == s[j..][..|pat|];
        assert !OccursAt(s, pat, j);
      }
    }
  }

  /**
   * `s.replace(pat, rep)` for a non-empty `pat`: the first occurrence is
   * replaced and the search goes on after it, so occurrences never overlap.
   */
  function ReplaceAll(s: string, pat: string, rep: string): string
    requires pat != []
    decreases |s|
  {
    match IndexOf(s, pat)
    case None => s
    case Some(k) => s[..k] + rep + ReplaceAll(s[k + |pat|..], pat, rep)
  }

  /** A string without the pattern comes back from `replace` unchanged. */
  lemma ReplaceAllAbsent(s: string, pat: string, rep: string)
    requires pat != [] && !Contains(s, pat)
    ensures ReplaceAll(s, pat, rep) == s
  {
    IndexOfFirst(s, pat);
  }

  /** Replacing a pattern by itself changes nothing. */
  lemma {:induction false} ReplaceAllSelf(s: string, pat: string)
    requires pat != []
    ensures ReplaceAll(s, pat, pat) == s
    decreases |s|
  {
    match IndexOf(s, pat)
    case None =>
    case Some(k) =>
      ReplaceAllSelf(s[k + |pat|..], pat);
      assert s == s[..k] + pat + s[k + |pat|..];
  }

  /** `sep.join(parts)`. */
  function Join(parts: seq<string>, sep: string): (r: string)
    ensures |parts| == 1 ==> r == parts[0]
    ensures |parts| > 1 ==> StartsWith(r, parts[0] + sep)
  {
    if |parts| == 0 then ""
    else if |parts| == 1 then parts[0]
    else parts[0] + sep + Join(parts[1..], sep)
  }

  function DigitChar(d: nat): (c: char)
    requires d < 10
    ensures IsDigit(c)
  {
    (48 + d) as char
  }

  function DigitValue(c: char): (d: nat)
    requires IsDigit(c)
    ensures d < 10 && DigitChar(d) == c
  {
    (c as int) - 48
  }

  /** `str(n)` for a natural number: decimal digits, no leading zero. */
  function NatToString(n: nat): (r: string)
    ensures r != [] && AllDigits(r)
    ensures r[0] == '0' ==> n == 0
    decreases n
  {
    if n < 10 then [DigitChar(n)] else NatToString(n / 10) + [DigitChar(n % 10)]
  }

  /** `str(i)` for any integer. */
  function IntToString(i: int): (r: string)
    ensures r != [] && !IsWhitespace(r[0]) && !IsWhitespace(r[|r| - 1])
  {
    if i < 0 then "-" + NatToString(-i) else NatToString(i)
  }

  /** The value of a string of decimal digits, read most significant digit first. */
  function DigitsValue(s: string): nat
    requires AllDigits(s)
  {
    if s == [] then 0 else DigitsValue(s[..|s| - 1]) * 10 + DigitValue(s[|s| - 1])
  }

  lemma {:induction false} NatToStringValue(n: nat)
    ensures DigitsValue(NatToString(n)) == n
    decreases n
  {
    if n >= 10 {
      NatToStringValue(n / 10);
      var s := NatToString(n);
      assert s[..|s| - 1] == NatToString(n / 10);
    }
  }

  /** Python's integer literal body: `digit (["_"] digit)*`. */
  predicate IsDigitGroup(s: string) {
    && s != [] && IsDigit(s[0]) && IsDigit(s[|s| - 1])
    && (forall i :: 0 <= i < |s| ==> IsDigit(s[i]) || s[i] == '_')
    && (forall i :: 0 <= i < |s| - 1 ==> s[i] != '_' || s[i + 1] != '_')
  }

  function RemoveUnderscores(s: string): (r: string)
    ensures (forall i :: 0 <= i < |s| ==> IsDigit(s[i]) || s[i] == '_') ==> AllDigits(r)
    ensures AllDigits(s) ==> r == s
  {
    if s == [] then ""
    else (if s[0] == '_' then "" else [s[0]]) + RemoveUnderscores(s[1..])
  }

  /**
   * `int(s)` in base 10: optional surrounding whitespace of `IntSpaces`, an
   * optional sign and digits with single underscores between them; `None`
   * where Python raises `ValueError`.
   */
  function ParseInt(s: string): Option<int> {
    ParseSigned(StripBy(s, IntSpaces))
  }

  /**
   * The number between the whitespace: an optional sign, then digits with
   * single underscores between them. What it accepts ends in a digit and is
   * made of digits, underscores and a leading sign.
   */
  function ParseSigned(t: string): (r: Option<int>)
    ensures r.Some? ==> t != [] && IsDigit(t[|t| - 1])
    ensures r.Some? ==> forall i :: 0 <= i < |t| ==> IsDigit(t[i]) || t[i] == '_' || (i == 0 && (t[0] == '-' || t[0] == '+'))
  {
    if t == [] then None
    else
      var digits := if t[0] == '-' || t[0] == '+' then t[1..] else t;
      if IsDigitGroup(digits) then
        var v: int := DigitsValue(RemoveUnderscores(digits));
        assert forall i :: 0 < i < |t| && digits != t ==> t[i] == digits[i - 1];
        Some(if t[0] == '-' then -v else v)
      else None
  }

  /** A text `int()` reads is made of digits, underscores, signs and the whitespace `int()` skips. */
  lemma ParseIntChars(s: string)
    requires ParseInt(s).Some?
    ensures forall i :: 0 <= i < |s| ==> IsDigit(s[i]) || s[i] == '_' || s[i] == '-' || s[i] == '+' || IsSpace(IntSpaces, s[i])
  {
    var t := StripBy(s, IntSpaces);
    var k :| 0 <= k <= |s| - |t| && TrimmedBy(s, t, k, IntSpaces);
    forall i | k <= i < k + |t|
      ensures IsDigit(s[i]) || s[i] == '_' || s[i] == '-' || s[i] == '+'
    {
      assert s[i] == t[i - k];
    }
  }

  /**
   * `int()` refuses a text that ends in one of the separators U+001C..U+001F,
   * although `str.strip()` would remove it.
   */
  lemma {:induction false} ParseIntRejectsSeparator(s: string)
    requires s != [] && '\U{1C}' <= s[|s| - 1] <= '\U{1F}'
    ensures ParseInt(s) == None
    ensures Strip(s) != s
  {
    StripByLast(s, IntSpaces);
  }

  /** A text whose last character is outside the class keeps that character last when stripped. */
  lemma StripByLast(s: string, sp: Spaces)
    requires s != [] && !IsSpace(sp, s[|s| - 1])
    ensures StripBy(s, sp) != [] && StripBy(s, sp)[|StripBy(s, sp)| - 1] == s[|s| - 1]
  {
    var t := StripBy(s, sp);
    var k :| 0 <= k <= |s| - |t| && TrimmedBy(s, t, k, sp);
    assert k + |t| == |s|;
  }

  /** `int(str(i)) == i`. */
  lemma ParseIntRoundTrip(i: int)
    ensures ParseInt(IntToString(i)) == Some(i)
  {
    var s := IntToString(i);
    StripByTrimmed(s, IntSpaces);
    var n: nat := if i < 0 then -i else i;
    NatToStringValue(n);
    if i < 0 {
      assert s[1..] == NatToString(n);
    }
  }
}
