/**
 * Character classes and small string helpers shared by the whole model.
 *
 * Python's `str.isspace`, `\s`, `\w`, `\b`, `str.lower` and `re.IGNORECASE`
 * are Unicode-aware. Here whitespace is Python's exact whitespace set, word
 * characters are ASCII letters, digits, `_` and the CJK block, and case is
 * folded on ASCII letters only.
 */
module Chars {
  /** Key strings of the lookup tables: never empty. */
  type Key = k: string | k != [] witness "k"

  predicate IsDigit(c: char) { '0' <= c <= '9' }

  predicate IsAsciiUpper(c: char) { 'A' <= c <= 'Z' }

  predicate IsAsciiLetter(c: char) { 'a' <= c <= 'z' || IsAsciiUpper(c) }

  /** The CJK Unified Ideographs block U+4E00..U+9FFF. */
  predicate IsCjk(c: char) { '\U{4E00}' <= c <= '\U{9FFF}' }

  /** Characters that a regular-expression word boundary treats as word characters. */
  predicate IsWordChar(c: char) { IsAsciiLetter(c) || IsDigit(c) || c == '_' || IsCjk(c) }

  /** Python's whitespace: the characters for which `str.isspace()` holds. */
  predicate IsSpace(c: char)
  {
    ('\t' <= c <= '\r') || ('\U{1C}' <= c <= ' ') || c == '\U{85}' || c == '\U{A0}'
    || c == '\U{1680}' || ('\U{2000}' <= c <= '\U{200A}') || c == '\U{2028}' || c == '\U{2029}'
    || c == '\U{202F}' || c == '\U{205F}' || c == '\U{3000}'
  }

  /** The 32 characters of Python's `string.punctuation`. */
  predicate IsPunctuation(c: char)
  {
    ('!' <= c <= '/') || (':' <= c <= '@') || ('[' <= c <= '`') || ('{' <= c <= '~')
  }

  function LowerChar(c: char): (d: char)
    ensures !IsAsciiUpper(d)
    ensures IsWordChar(d) == IsWordChar(c)
    ensures IsAsciiLetter(d) == IsAsciiLetter(c)
    ensures !IsAsciiUpper(c) ==> d == c
    ensures IsAsciiUpper(c) ==> 'a' <= d <= 'z' && d as int - 'a' as int == c as int - 'A' as int
  {
    if IsAsciiUpper(c) then (c as int + 32) as char else c
  }

  function Lower(s: string): (r: string)
    ensures |r| == |s|
    ensures forall j :: 0 <= j < |s| ==> r[j] == LowerChar(s[j])
  {
    if s == [] then [] else [LowerChar(s[0])] + Lower(s[1..])
  }

  /** Equality after ASCII case folding, as `re.IGNORECASE` compares literal text. */
  predicate SameIgnoringCase(a: string, b: string)
  {
    |a| == |b| && forall j :: 0 <= j < |a| ==> LowerChar(a[j]) == LowerChar(b[j])
  }

  /** `w` occurs in `s` at position `p`, ignoring case. */
  predicate StartsWithIgnoringCase(s: string, p: nat, w: string)
  {
    p + |w| <= |s| && SameIgnoringCase(s[p..p + |w|], w)
  }

  predicate WordAt(s: string, p: int) { 0 <= p < |s| && IsWordChar(s[p]) }

  /** The regular-expression anchor `\b`: a word character on exactly one side of `p`. */
  predicate Boundary(s: string, p: int) { WordAt(s, p - 1) != WordAt(s, p) }

  /** The first position at or after `p` that is not whitespace. */
  function SkipSpaces(s: string, p: nat): (q: nat)
    requires p <= |s|
    ensures p <= q <= |s|
    ensures forall j :: p <= j < q ==> IsSpace(s[j])
    ensures q == |s| || !IsSpace(s[q])
    decreases |s| - p
  {
    if p < |s| && IsSpace(s[p]) then SkipSpaces(s, p + 1) else p
  }

  /** The end of the maximal run of ASCII digits starting at `p`. */
  function DigitRunEnd(s: string, p: nat): (q: nat)
    requires p <= |s|
    ensures p <= q <= |s|
    ensures forall j :: p <= j < q ==> IsDigit(s[j])
    ensures q == |s| || !IsDigit(s[q])
    decreases |s| - p
  {
    if p < |s| && IsDigit(s[p]) then DigitRunEnd(s, p + 1) else p
  }

  /** The position just after the last non-space character before `q`. */
  function TrailingSpacesStart(s: string, q: nat): (p: nat)
    requires q <= |s|
    ensures p <= q
    ensures forall j :: p <= j < q ==> IsSpace(s[j])
    ensures p == 0 || !IsSpace(s[p - 1])
  {
    if q > 0 && IsSpace(s[q - 1]) then TrailingSpacesStart(s, q - 1) else q
  }

  /**
   * Python's `str.strip()`: `s` without its leading and trailing whitespace.
   * The result is empty exactly when `s` is all whitespace, and otherwise it
   * starts and ends with a non-space character.
   */
  function Strip(s: string): (r: string)
    ensures |r| <= |s|
    ensures r == [] <==> forall j :: 0 <= j < |s| ==> IsSpace(s[j])
    ensures r != [] ==> !IsSpace(r[0]) && !IsSpace(r[|r| - 1])
    ensures forall c :: c in r ==> c in s
    ensures exists a, b :: (0 <= a <= b <= |s| && r == s[a..b]
      && (forall j :: 0 <= j < a ==> IsSpace(s[j])) && (forall j :: b <= j < |s| ==> IsSpace(s[j])))
  {
    var a := SkipSpaces(s, 0);
    var b := TrailingSpacesStart(s, |s|);
    if a < b then s[a..b]
    else
      // A non-space at `a` would lie at or after `b`, among the trailing spaces.
      assert a == |s|;
      assert [] == s[0..0];
      []
  }

  /** A text with no whitespace at either end is its own strip. */
  lemma StripTrimmed(s: string)
    requires s != [] ==> !IsSpace(s[0]) && !IsSpace(s[|s| - 1])
    ensures Strip(s) == s
  {
    if s != [] {
      assert SkipSpaces(s, 0) == 0;
      assert TrailingSpacesStart(s, |s|) == |s|;
    }
  }

  predicate NoAsciiUpper(s: string) { forall j :: 0 <= j < |s| ==> !IsAsciiUpper(s[j]) }

  /** Lower-casing a text without upper-case ASCII letters changes nothing. */
  lemma LowerWithoutUpper(s: string)
    requires NoAsciiUpper(s)
    ensures Lower(s) == s
  {
  }

  /** Between texts without upper-case letters, equality ignoring case is equality. */
  lemma SameIgnoringCaseIsEqual(a: string, b: string)
    requires NoAsciiUpper(a) && NoAsciiUpper(b) && SameIgnoringCase(a, b)
    ensures a == b
  {
  }
}
