/**
 * One substitution pass: the left-to-right scan of `re.sub` and
 * `str.replace`. At each position the rule either matches, and its
 * replacement is emitted and the scan resumes after the match, or the
 * character is copied and the scan moves on by one.
 */
module Rewriting {
  import opened Wrappers
  import opened Chars
  import opened Patterns

  /** The substitution rules of the source. */
  datatype Rule =
    | WholeWord(key: Key, value: string)  // re.sub(r'\b' + re.escape(key) + r'\b', value, ..., re.IGNORECASE)
    | Literal(key: Key, value: string)    // str.replace(key, value)
    | JamWithPeriod(end: PeriodEnd)       // pattern_period
    | JamDecimal                          // pattern_decimal
    | JamBasic                            // pattern_basic
    | DianWithMinutes                     // (\d{1,2})點(\d{1,2})
    | DianHour                            // (\d{1,2})點

  function Match(rule: Rule, s: string, i: nat): (m: Option<Hit>)
    ensures m.Some? ==> i < m.value.end <= |s|
  {
    match rule
    case WholeWord(k, v) => MatchWord(k, v, s, i)
    case Literal(k, v) => MatchLiteral(k, v, s, i)
    case JamWithPeriod(end) => MatchJamPeriod(s, i, end)
    case JamDecimal => MatchJamDecimal(s, i)
    case JamBasic => MatchJamBasic(s, i)
    case DianWithMinutes => MatchDianWithMinutes(s, i)
    case DianHour => MatchDianHour(s, i)
  }

  /**
   * A matcher reports the match found at position `i` of `s`, if any. The
   * scan below is written once for every matcher; a rule's matcher is `Match`.
   */
  type Matcher = (string, nat) -> Option<Hit>

  /** Every match lies within the text and consumes at least one character. */
  ghost predicate Advances(m: Matcher)
  {
    forall s: string, i: nat :: m(s, i).Some? ==> i < m(s, i).value.end <= |s|
  }

  /** The output of the scan of `s` from position `i` on. */
  function ScanFrom(m: Matcher, s: string, i: nat): string
    requires Advances(m) && i <= |s|
    decreases |s| - i
  {
    if i == |s| then []
    else match m(s, i)
      case Some(h) => h.out + ScanFrom(m, s, h.end)
      case None => [s[i]] + ScanFrom(m, s, i + 1)
  }

  /** The scan as `re.sub` runs it: the output is built piece by piece. */
  method Scan(m: Matcher, s: string) returns (r: string)
    requires Advances(m)
    ensures r == ScanFrom(m, s, 0)
  {
    r := [];
    var i := 0;
    while i < |s|
      invariant i <= |s|
      invariant r + ScanFrom(m, s, i) == ScanFrom(m, s, 0)
      decreases |s| - i
    {
      var hit := m(s, i);
      ScanStep(m, s, i, r);
      if hit.Some? {
        r := r + hit.value.out;
        i := hit.value.end;
      } else {
        r := r + [s[i]];
        i := i + 1;
      }
    }
  }

  /** One step of the scan, with the output built so far in front. */
  lemma ScanStep(m: Matcher, s: string, i: nat, r: string)
    requires Advances(m) && i < |s|
    ensures m(s, i).Some? ==> (i < m(s, i).value.end <= |s|
      && r + ScanFrom(m, s, i) == (r + m(s, i).value.out) + ScanFrom(m, s, m(s, i).value.end))
    ensures m(s, i).None? ==> r + ScanFrom(m, s, i) == (r + [s[i]]) + ScanFrom(m, s, i + 1)
  {
    match m(s, i)
    case Some(h) =>
      var rest := ScanFrom(m, s, h.end);
      assert ScanFrom(m, s, i) == h.out + rest;
      assert r + (h.out + rest) == (r + h.out) + rest;
    case None =>
      var rest := ScanFrom(m, s, i + 1);
      assert ScanFrom(m, s, i) == [s[i]] + rest;
      assert r + ([s[i]] + rest) == (r + [s[i]]) + rest;
  }

  /** A scan with nothing to match between `i` and `k` copies that stretch. */
  lemma {:induction false} ScanUpTo(m: Matcher, s: string, i: nat, k: nat)
    requires Advances(m) && i <= k <= |s|
    requires forall j :: i <= j < k ==> m(s, j).None?
    ensures ScanFrom(m, s, i) == s[i..k] + ScanFrom(m, s, k)
    decreases k - i
  {
    if i < k {
      assert m(s, i).None?;
      var rest := ScanFrom(m, s, i + 1);
      assert ScanFrom(m, s, i) == [s[i]] + rest;
      ScanUpTo(m, s, i + 1, k);
      assert s[i..k] == [s[i]] + s[i + 1..k];
    }
  }

  /** The matcher of a rule. */
  function MatcherOf(rule: Rule): (m: Matcher)
    ensures Advances(m)
    ensures forall s, i :: m(s, i) == Match(rule, s, i)
  {
    (s: string, i: nat) => Match(rule, s, i)
  }

  /** The output of the scan of `s` from position `i` on. */
  function RewriteFrom(rule: Rule, s: string, i: nat): string
    requires i <= |s|
  {
    ScanFrom(MatcherOf(rule), s, i)
  }

  /** All non-overlapping matches of `rule` in `s`, leftmost first, replaced. */
  function Rewrite(rule: Rule, s: string): string
  {
    RewriteFrom(rule, s, 0)
  }

  /** One substitution pass, scanned. */
  method RewriteScan(rule: Rule, s: string) returns (r: string)
    ensures r == Rewrite(rule, s)
  {
    r := Scan(MatcherOf(rule), s);
  }

  lemma RewriteFromAtMatch(rule: Rule, s: string, i: nat)
    requires i < |s| && Match(rule, s, i).Some?
    ensures RewriteFrom(rule, s, i) == Match(rule, s, i).value.out + RewriteFrom(rule, s, Match(rule, s, i).value.end)
  {
    assert MatcherOf(rule)(s, i) == Match(rule, s, i);
  }

  lemma RewriteFromAtNoMatch(rule: Rule, s: string, i: nat)
    requires i < |s| && Match(rule, s, i).None?
    ensures RewriteFrom(rule, s, i) == [s[i]] + RewriteFrom(rule, s, i + 1)
  {
    assert MatcherOf(rule)(s, i) == Match(rule, s, i);
  }

  /** The output splits where a match begins: the copied prefix, then the scan from there on. */
  lemma RewriteFromUpTo(rule: Rule, s: string, i: nat, k: nat)
    requires i <= k <= |s|
    requires forall j :: i <= j < k ==> Match(rule, s, j).None?
    ensures RewriteFrom(rule, s, i) == s[i..k] + RewriteFrom(rule, s, k)
  {
    var m := MatcherOf(rule);
    assert forall j :: i <= j < k ==> m(s, j).None?;
    ScanUpTo(m, s, i, k);
  }

  /** A pass with nothing to match from `i` on copies the rest of the text. */
  lemma RewriteFromWithoutMatch(rule: Rule, s: string, i: nat)
    requires i <= |s|
    requires forall j :: i <= j < |s| ==> Match(rule, s, j).None?
    ensures RewriteFrom(rule, s, i) == s[i..]
  {
    RewriteFromUpTo(rule, s, i, |s|);
    assert RewriteFrom(rule, s, |s|) == [];
  }

  /** A pass that matches nowhere leaves the text unchanged. */
  lemma RewriteWithoutMatch(rule: Rule, s: string)
    requires forall j :: 0 <= j < |s| ==> Match(rule, s, j).None?
    ensures Rewrite(rule, s) == s
  {
    RewriteFromWithoutMatch(rule, s, 0);
  }
}
