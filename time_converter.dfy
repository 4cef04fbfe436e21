/**
 * `convert_jam_to_hhmm` and `preprocess_text`: colloquial Indonesian times
 * ("jam 9", "jam 3 sore", "jam 9.5", "12點30") rewritten as 24-hour HH:MM.
 */
module TimeConverter {
  import opened Wrappers
  import opened Chars
  import opened Patterns
  import opened Clock
  import opened Rewriting

  /** The three passes of `convert_jam_to_hhmm`, in order: period, decimal, basic. */
  function ConvertJam(end: PeriodEnd, s: string): string
  {
    Rewrite(JamBasic, Rewrite(JamDecimal, Rewrite(JamWithPeriod(end), s)))
  }

  /** `convert_jam_to_hhmm`: `text` is reassigned by each pass in turn. */
  method ConvertJamToHHMM(end: PeriodEnd, text: string) returns (r: string)
    ensures r == ConvertJam(end, text)
  {
    r := RewriteScan(JamWithPeriod(end), text);
    r := RewriteScan(JamDecimal, r);
    r := RewriteScan(JamBasic, r);
  }

  /** The 點 rewrites and the `jam` conversion, with the given reading of the period pattern's final `\b`. */
  function PreprocessWith(end: PeriodEnd, text: string, lang: string): string
  {
    if lang == "indonesian" then ConvertJam(end, Rewrite(DianHour, Rewrite(DianWithMinutes, text)))
    else text
  }

  /** `preprocess_text` as written: for Indonesian, the 點 rewrites and then the `jam` conversion. */
  function Preprocess(text: string, lang: string): string
  {
    PreprocessWith(WordBoundary, text, lang)
  }

  /** `preprocess_text` with the evidently intended end test after a period word. */
  function PreprocessIntended(text: string, lang: string): string
  {
    PreprocessWith(NoWordCharAfter, text, lang)
  }

  method PreprocessText(text: string, lang: string) returns (r: string)
    ensures r == Preprocess(text, lang)
  {
    r := text;
    if lang == "indonesian" {
      r := RewriteScan(DianWithMinutes, r);
      r := RewriteScan(DianHour, r);
      r := ConvertJamToHHMM(WordBoundary, r);
    }
  }

  predicate IsJamRule(rule: Rule)
  {
    rule.JamWithPeriod? || rule.JamDecimal? || rule.JamBasic?
  }

  /** No letter j, in either case, at or after position `i`: so no `jam` starts there. */
  predicate NoLetterJFrom(s: string, i: nat)
  {
    i <= |s| && 'j' !in s[i..] && 'J' !in s[i..]
  }

  /** The three `jam` patterns match only where `jam` is written, in any letter case. */
  lemma JamRuleNeedsJam(rule: Rule, s: string, j: nat)
    requires IsJamRule(rule) && Match(rule, s, j).Some?
    ensures StartsWithIgnoringCase(s, j, "jam")
  {
  }

  lemma NoJamWithoutJ(s: string, i: nat, j: nat)
    requires NoLetterJFrom(s, i) && i <= j < |s|
    ensures !StartsWithIgnoringCase(s, j, "jam")
  {
    assert s[j] == s[i..][j - i];
  }

  lemma NoJamAfter(rule: Rule, s: string, i: nat, j: nat)
    requires IsJamRule(rule) && NoLetterJFrom(s, i) && i <= j < |s|
    ensures Match(rule, s, j).None?
  {
    NoJamWithoutJ(s, i, j);
    if Match(rule, s, j).Some? {
      JamRuleNeedsJam(rule, s, j);
    }
  }

  /** A `jam` pass copies unchanged any part of the text without the letter j. */
  lemma JamPassCopies(rule: Rule, s: string, i: nat)
    requires IsJamRule(rule) && NoLetterJFrom(s, i)
    ensures RewriteFrom(rule, s, i) == s[i..]
  {
    forall j | i <= j < |s| ensures Match(rule, s, j).None? {
      NoJamAfter(rule, s, i, j);
    }
    RewriteFromWithoutMatch(rule, s, i);
  }

  /** A `jam` pass on text whose only j is its first letter: the match there, if any, then the copied rest. */
  lemma JamPassAtStart(rule: Rule, s: string)
    requires IsJamRule(rule) && |s| > 0 && NoLetterJFrom(s, 1)
    ensures Match(rule, s, 0).None? ==> Rewrite(rule, s) == s
    ensures Match(rule, s, 0).Some? ==> Rewrite(rule, s) == Match(rule, s, 0).value.out + s[Match(rule, s, 0).value.end..]
  {
    var m := Match(rule, s, 0);
    if m.None? {
      JamPassCopies(rule, s, 1);
      assert s == [s[0]] + s[1..];
    } else {
      var e := m.value.end;
      assert s[e..] == s[1..][e - 1..];
      JamPassCopies(rule, s, e);
    }
  }

  /** Text without a case-insensitive `jam` goes through the time conversion unchanged. */
  lemma ConvertWithoutJamUnchanged(end: PeriodEnd, s: string)
    requires forall j :: 0 <= j < |s| ==> !StartsWithIgnoringCase(s, j, "jam")
    ensures ConvertJam(end, s) == s
  {
    forall rule, j | IsJamRule(rule) && 0 <= j < |s| ensures Match(rule, s, j).None? {
      if Match(rule, s, j).Some? { JamRuleNeedsJam(rule, s, j); }
    }
    RewriteWithoutMatch(JamWithPeriod(end), s);
    RewriteWithoutMatch(JamDecimal, s);
    RewriteWithoutMatch(JamBasic, s);
  }

  /** A clock text is digits and a colon, so it holds no letter j. */
  lemma ClockTextWithoutJ(t: string)
    requires IsClockText(t)
    ensures NoLetterJFrom(t, 0)
  {
    forall k | 0 <= k < |t| ensures t[k] != 'j' && t[k] != 'J' {
      if k < 2 {
        assert t[k] == t[..2][k];
      } else if k > 2 {
        assert t[k] == t[3..][k - 3];
      }
    }
  }

  /** The first of the three patterns, in pass order, that matches at `0`. */
  function FirstJamMatch(end: PeriodEnd, s: string): (m: Option<Hit>)
    ensures m.Some? ==> 0 < m.value.end <= |s| && IsClockText(m.value.out)
    ensures MatchJamPeriod(s, 0, end).Some? ==> m == MatchJamPeriod(s, 0, end)
    ensures MatchJamPeriod(s, 0, end).None? && MatchJamDecimal(s, 0).Some? ==> m == MatchJamDecimal(s, 0)
    ensures MatchJamPeriod(s, 0, end).None? && MatchJamDecimal(s, 0).None? ==> m == MatchJamBasic(s, 0)
  {
    if MatchJamPeriod(s, 0, end).Some? then MatchJamPeriod(s, 0, end)
    else if MatchJamDecimal(s, 0).Some? then MatchJamDecimal(s, 0)
    else MatchJamBasic(s, 0)
  }

  /** A pass over the output of an earlier pass that matched at the start changes nothing. */
  lemma LaterPassCopies(rule: Rule, s: string, h: Hit)
    requires IsJamRule(rule) && NoLetterJFrom(s, 1) && 0 < h.end <= |s| && IsClockText(h.out)
    ensures Rewrite(rule, h.out + s[h.end..]) == h.out + s[h.end..]
  {
    var t := h.out + s[h.end..];
    ClockTextWithoutJ(h.out);
    assert s[h.end..] == s[1..][h.end - 1..];
    assert NoLetterJFrom(t, 0);
    JamPassCopies(rule, t, 0);
  }

  /**
   * A text whose only letter j is its first: the conversion replaces what
   * the first matching pattern, in pass order, matches at the start, and
   * copies the rest.
   */
  lemma ConvertSingleJam(end: PeriodEnd, s: string)
    requires |s| > 0 && NoLetterJFrom(s, 1)
    ensures FirstJamMatch(end, s).None? ==> ConvertJam(end, s) == s
    ensures FirstJamMatch(end, s).Some? ==>
      ConvertJam(end, s) == FirstJamMatch(end, s).value.out + s[FirstJamMatch(end, s).value.end..]
  {
    JamPassAtStart(JamWithPeriod(end), s);
    JamPassAtStart(JamDecimal, s);
    JamPassAtStart(JamBasic, s);
    var m := FirstJamMatch(end, s);
    if MatchJamPeriod(s, 0, end).Some? {
      LaterPassCopies(JamDecimal, s, m.value);
      LaterPassCopies(JamBasic, s, m.value);
    } else if MatchJamDecimal(s, 0).Some? {
      LaterPassCopies(JamBasic, s, m.value);
    }
  }

  /** A text without the letter j goes through the time conversion unchanged. */
  lemma ConvertWithoutJ(end: PeriodEnd, s: string)
    requires NoLetterJFrom(s, 0)
    ensures ConvertJam(end, s) == s
  {
    JamPassCopies(JamWithPeriod(end), s, 0);
    JamPassCopies(JamDecimal, s, 0);
    JamPassCopies(JamBasic, s, 0);
  }

  /** A 點 rewrite leaves a text without 點 unchanged. */
  lemma DianPassWithoutDian(rule: Rule, s: string)
    requires (rule.DianWithMinutes? || rule.DianHour?) && '點' !in s
    ensures Rewrite(rule, s) == s
  {
    RewriteWithoutMatch(rule, s);
  }

  /**
   * Indonesian text with neither 點 nor the letter j comes out of the
   * pre-processing unchanged.
   */
  lemma PreprocessUnchanged(s: string)
    requires '點' !in s && NoLetterJFrom(s, 0)
    ensures Preprocess(s, "indonesian") == s
  {
    DianPassWithoutDian(DianWithMinutes, s);
    DianPassWithoutDian(DianHour, s);
    ConvertWithoutJ(WordBoundary, s);
  }
}
