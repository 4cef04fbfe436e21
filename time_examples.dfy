/**
 * `convert_jam_to_hhmm` and `preprocess_text` on the inputs their
 * docstring and comments name. Each conversion is proved for both
 * readings of the period word's final `\b` (see `Patterns.PeriodEnd`),
 * except where the two differ.
 *
 * Every text here holds a single `jam`, at its start, so
 * `TimeConverter.ConvertSingleJam` reduces the conversion to the three
 * matchers at position 0. The small lemmas before each conversion
 * evaluate those matchers one step at a time.
 */
module TimeExamples {
  import opened Wrappers
  import opened Chars
  import opened Numerals
  import opened Patterns
  import opened Clock
  import opened Rewriting
  import opened TimeConverter

  // ---------------------------------------------------------------------
  // Clock texts used below.

  lemma Clock0900() ensures ClockText(9, 0, None) == "09:00" { }
  lemma Clock0930() ensures ClockText(9, 30, None) == "09:30" { }
  lemma Clock0975() ensures ClockText(9, 75, None) == "09:75" { }
  lemma Clock0905() ensures ClockText(9, 5, None) == "09:05" { }
  lemma Clock1221() ensures ClockText(12, 21, None) == "12:21" { }

  lemma Clock1500Sore() ensures ClockText(3, 0, Some("sore")) == "15:00"
  {
    LowerWithoutUpper("sore");
    assert Hour24(3, Some("sore")) == 15;
  }

  lemma Clock0000Pagi() ensures ClockText(12, 0, Some("pagi")) == "00:00"
  {
    LowerWithoutUpper("pagi");
    assert Hour24(12, Some("pagi")) == 0;
  }

  lemma Clock0905Pagi() ensures ClockText(9, 5, Some("pagi")) == "09:05"
  {
    LowerWithoutUpper("pagi");
    assert Hour24(9, Some("pagi")) == 9;
  }

  lemma Clock2100Pm() ensures ClockText(9, 0, Some("p.m.")) == "21:00"
  {
    LowerWithoutUpper("p.m.");
    assert Hour24(9, Some("p.m.")) == 21;
  }

  /** Without a separator after the hour there is no minute group. */
  lemma NoMinutesWithoutSeparator(s: string, p2: nat, end: PeriodEnd)
    requires p2 <= |s| && !SeparatorAt(s, p2)
    ensures PeriodMinutes(s, p2, end) == None
  {
  }

  // ---------------------------------------------------------------------
  // The matchers, one step at a time: each lemma below takes the positions
  // a step reaches and gives that step's result.

  lemma PeriodAfterNone(s: string, q: nat, r: nat, end: PeriodEnd)
    requires q <= |s| && SkipSpaces(s, q) == r && PeriodWordFrom(s, r, 0, end) == None
    ensures PeriodAfter(s, q, end) == None
  {
  }

  lemma PeriodAfterWord(s: string, q: nat, r: nat, k: nat, end: PeriodEnd)
    requires q <= |s| && SkipSpaces(s, q) == r && PeriodWordFrom(s, r, 0, end) == Some(k)
    ensures k < |PeriodWords| && PeriodAfter(s, q, end) == Some((s[r..r + |PeriodWords[k]|], r + |PeriodWords[k]|))
  {
  }

  lemma MinutesPlain(s: string, p2: nat, p3: nat, p4: nat, end: PeriodEnd)
    requires p2 <= |s| && SeparatorAt(s, p2) && SkipSpaces(s, p2 + 1) == p3 && DigitRunEnd(s, p3) == p4 && 1 <= p4 - p3 <= 2
    requires PeriodAfter(s, p4, end).Some?
    ensures PeriodMinutes(s, p2, end) == Some((DigitsValue(s[p3..p4]), PeriodAfter(s, p4, end).value.0, PeriodAfter(s, p4, end).value.1))
  {
  }

  lemma MinutesNone(s: string, p2: nat, p3: nat, p4: nat, end: PeriodEnd)
    requires p2 <= |s| && SeparatorAt(s, p2) && SkipSpaces(s, p2 + 1) == p3 && DigitRunEnd(s, p3) == p4
    requires PeriodAfter(s, p4, end).None? && PeriodFraction(s, p4, end).None?
    ensures PeriodMinutes(s, p2, end) == None
  {
  }

  lemma PeriodMatchMinutes(s: string, p1: nat, p2: nat, end: PeriodEnd)
    requires JamHour(s, 0) == Some((p1, p2)) && PeriodMinutes(s, p2, end).Some?
    ensures var m := PeriodMinutes(s, p2, end).value;
      MatchJamPeriod(s, 0, end) == Some(Hit(m.2, ClockText(DigitsValue(s[p1..p2]), m.0, Some(m.1))))
  {
  }

  lemma PeriodMatchWord(s: string, p1: nat, p2: nat, end: PeriodEnd)
    requires JamHour(s, 0) == Some((p1, p2)) && PeriodMinutes(s, p2, end).None? && PeriodAfter(s, p2, end).Some?
    ensures var w := PeriodAfter(s, p2, end).value;
      MatchJamPeriod(s, 0, end) == Some(Hit(w.1, ClockText(DigitsValue(s[p1..p2]), 0, Some(w.0))))
  {
  }

  lemma PeriodNoMatch(s: string, p1: nat, p2: nat, end: PeriodEnd)
    requires JamHour(s, 0) == Some((p1, p2)) && PeriodMinutes(s, p2, end).None? && PeriodAfter(s, p2, end).None?
    ensures MatchJamPeriod(s, 0, end) == None
  {
  }

  lemma DecimalAtValue(s: string, r: nat, d: nat, e: nat)
    requires r <= |s| && DigitRunEnd(s, r) == d && d < |s| && s[d] == '.'
    requires DigitRunEnd(s, d + 1) == e && e > d + 1 && Boundary(s, e)
    ensures DecimalAt(s, r) == Some((DecimalMinutes(s[r..d], s[d + 1..e]), e))
  {
  }

  /** The decimal matcher fails when both readings, with and without the separator, fail. */
  lemma DecimalAfterHourNone(s: string, p2: nat, q: nat)
    requires p2 <= |s| && SkipSpaces(s, p2) == q
    requires !SeparatorAt(s, q) || DecimalAt(s, SkipSpaces(s, q + 1)).None?
    requires DecimalAt(s, q).None?
    ensures DecimalAfterHour(s, p2) == None
  {
  }

  /** The decimal matcher when only the reading without the separator succeeds. */
  lemma DecimalAfterHourDirect(s: string, p2: nat, q: nat)
    requires p2 <= |s| && SkipSpaces(s, p2) == q
    requires !SeparatorAt(s, q) || DecimalAt(s, SkipSpaces(s, q + 1)).None?
    ensures DecimalAfterHour(s, p2) == DecimalAt(s, q)
  {
  }

  lemma DecimalNone(s: string, p1: nat, d: nat)
    requires JamAt(s, 0) && SkipSpaces(s, 3) == p1 && DigitRunEnd(s, p1) == d && 1 <= d - p1 <= 2
    requires DecimalAfterHour(s, d) == None
    ensures MatchJamDecimal(s, 0) == None
  {
  }

  lemma DecimalHit(s: string, p1: nat, d: nat, minute: nat, e: nat)
    requires JamAt(s, 0) && SkipSpaces(s, 3) == p1 && DigitRunEnd(s, p1) == d && 1 <= d - p1 <= 2
    requires DecimalAfterHour(s, d) == Some((minute, e))
    ensures MatchJamDecimal(s, 0) == Some(Hit(e, ClockText(DigitsValue(s[p1..d]), minute, None)))
  {
  }

  lemma BasicMinutesHit(s: string, p2: nat, p3: nat, p4: nat)
    requires SeparatorAt(s, p2) && SkipSpaces(s, p2 + 1) == p3
    requires DigitRunEnd(s, p3) == p4 && 1 <= p4 - p3 <= 2 && Boundary(s, p4)
    ensures BasicMinutes(s, p2) == Some((DigitsValue(s[p3..p4]), p4))
  {
  }

  lemma BasicWithMinutes(s: string, p1: nat, p2: nat, minute: nat, e: nat)
    requires JamHour(s, 0) == Some((p1, p2)) && BasicMinutes(s, p2) == Some((minute, e))
    ensures MatchJamBasic(s, 0) == Some(Hit(e, ClockText(DigitsValue(s[p1..p2]), minute, None)))
  {
  }

  lemma BasicHourOnly(s: string, p1: nat, p2: nat)
    requires JamHour(s, 0) == Some((p1, p2)) && !SeparatorAt(s, p2) && Boundary(s, p2)
    ensures MatchJamBasic(s, 0) == Some(Hit(p2, ClockText(DigitsValue(s[p1..p2]), 0, None)))
  {
  }

  lemma Minutes30() ensures DecimalMinutes("", "5") == 30
  {
    assert DigitsValue("5") == 5 && DigitsValue("") == 0;
    assert Pow10(1) == 10;
  }

  lemma Minutes21() ensures DecimalMinutes("", "35") == 21
  {
    assert DigitsValue("35") == 35 && DigitsValue("") == 0;
    assert Pow10(2) == 100;
  }

  // ---------------------------------------------------------------------
  // jam 9 -> 09:00

  lemma Jam9Hour() ensures JamHour("jam 9", 0) == Some((4, 5))
  {
    assert "jam 9"[0..3] == "jam";
    assert SkipSpaces("jam 9", 3) == 4;
    assert DigitRunEnd("jam 9", 4) == 5;
  }

  lemma Jam9NoPeriod(end: PeriodEnd) ensures MatchJamPeriod("jam 9", 0, end) == None
  {
    Jam9Hour();
    assert PeriodWordFrom("jam 9", 5, 0, end) == None;
    assert PeriodAfter("jam 9", 5, end) == None;
    assert PeriodMinutes("jam 9", 5, end) == None;
  }

  lemma Jam9NoDecimal() ensures MatchJamDecimal("jam 9", 0) == None
  {
    assert "jam 9"[0..3] == "jam";
    assert SkipSpaces("jam 9", 3) == 4;
    assert DigitRunEnd("jam 9", 4) == 5;
  }

  lemma Jam9Basic() ensures MatchJamBasic("jam 9", 0) == Some(Hit(5, "09:00"))
  {
    Jam9Hour();
    Clock0900();
    assert "jam 9"[4..5] == "9";
  }

  /** `jam 9` becomes `09:00`. */
  lemma Jam9(end: PeriodEnd)
    ensures ConvertJam(end, "jam 9") == "09:00"
  {
    assert NoLetterJFrom("jam 9", 1);
    Jam9NoPeriod(end);
    Jam9NoDecimal();
    Jam9Basic();
    ConvertSingleJam(end, "jam 9");
    assert "jam 9"[5..] == [];
  }

  // ---------------------------------------------------------------------
  // jam9 -> 09:00

  lemma Jam9ClosedHour() ensures JamHour("jam9", 0) == Some((3, 4))
  {
    assert "jam9"[0..3] == "jam";
    assert SkipSpaces("jam9", 3) == 3;
    assert DigitRunEnd("jam9", 3) == 4;
  }

  lemma Jam9ClosedNoPeriod(end: PeriodEnd) ensures MatchJamPeriod("jam9", 0, end) == None
  {
    Jam9ClosedHour();
    assert PeriodWordFrom("jam9", 4, 0, end) == None;
    assert PeriodAfter("jam9", 4, end) == None;
    assert PeriodMinutes("jam9", 4, end) == None;
  }

  lemma Jam9ClosedNoDecimal() ensures MatchJamDecimal("jam9", 0) == None
  {
    assert "jam9"[0..3] == "jam";
    assert SkipSpaces("jam9", 3) == 3;
    assert DigitRunEnd("jam9", 3) == 4;
  }

  lemma Jam9ClosedBasic() ensures MatchJamBasic("jam9", 0) == Some(Hit(4, "09:00"))
  {
    Jam9ClosedHour();
    Clock0900();
    assert "jam9"[3..4] == "9";
  }

  /** `jam9`, without a space, also becomes `09:00`. */
  lemma Jam9Closed(end: PeriodEnd)
    ensures ConvertJam(end, "jam9") == "09:00"
  {
    assert NoLetterJFrom("jam9", 1);
    Jam9ClosedNoPeriod(end);
    Jam9ClosedNoDecimal();
    Jam9ClosedBasic();
    ConvertSingleJam(end, "jam9");
    assert "jam9"[4..] == [];
  }

  // ---------------------------------------------------------------------
  // jam 3 sore -> 15:00

  lemma Jam3SoreHour() ensures JamHour("jam 3 sore", 0) == Some((4, 5))
  {
    assert "jam 3 sore"[0..3] == "jam";
    assert SkipSpaces("jam 3 sore", 3) == 4;
    assert DigitRunEnd("jam 3 sore", 4) == 5;
  }

  lemma Jam3SoreWord(end: PeriodEnd) ensures PeriodAfter("jam 3 sore", 5, end) == Some(("sore", 10))
  {
    Jam3SoreSpaces();
    Jam3SoreWordFrom(end);
    PeriodAfterWord("jam 3 sore", 5, 6, 2, end);
    Jam3SoreSlice();
  }

  lemma Jam3SoreSpaces() ensures SkipSpaces("jam 3 sore", 5) == 6 { }

  lemma Jam3SoreSlice() ensures "jam 3 sore"[6..6 + |PeriodWords[2]|] == "sore" { }

  /** `sore` is the third alternative, after `pagi` and `siang`. */
  lemma Jam3SoreWordFrom(end: PeriodEnd) ensures PeriodWordFrom("jam 3 sore", 6, 0, end) == Some(2)
  {
    var s := "jam 3 sore";
    assert |s| == 10 && s[6] == 's' && s[7] == 'o' && IsWordChar(s[9]);
    DiffersAt(s, 6, PeriodWords[0], 0);
    DiffersAt(s, 6, PeriodWords[1], 1);
    Jam3SoreSlice();
    FirstPeriodWord(s, 6, 0, 2, end);
  }

  lemma Jam3SoreNoMinutes(end: PeriodEnd) ensures PeriodMinutes("jam 3 sore", 5, end) == None
  {
    NoMinutesWithoutSeparator("jam 3 sore", 5, end);
  }

  lemma Jam3SoreHourValue() ensures DigitsValue("jam 3 sore"[4..5]) == 3
  {
    assert "jam 3 sore"[4..5] == "3";
  }

  lemma Jam3SorePeriod(end: PeriodEnd) ensures MatchJamPeriod("jam 3 sore", 0, end) == Some(Hit(10, "15:00"))
  {
    Jam3SoreHour();
    Jam3SoreNoMinutes(end);
    Jam3SoreWord(end);
    Jam3SoreHourValue();
    Clock1500Sore();
  }

  /** `jam 3 sore` (three in the afternoon) becomes `15:00`. */
  lemma Jam3Sore(end: PeriodEnd)
    ensures ConvertJam(end, "jam 3 sore") == "15:00"
  {
    assert NoLetterJFrom("jam 3 sore", 1);
    Jam3SorePeriod(end);
    ConvertSingleJam(end, "jam 3 sore");
    assert "jam 3 sore"[10..] == [];
  }

  // ---------------------------------------------------------------------
  // jam 12 pagi -> 00:00

  lemma Jam12PagiHour() ensures JamHour("jam 12 pagi", 0) == Some((4, 6))
  {
    assert "jam 12 pagi"[0..3] == "jam";
    assert SkipSpaces("jam 12 pagi", 3) == 4;
    assert DigitRunEnd("jam 12 pagi", 4) == 6;
  }

  lemma Jam12PagiWord(end: PeriodEnd) ensures PeriodAfter("jam 12 pagi", 6, end) == Some(("pagi", 11))
  {
    assert SkipSpaces("jam 12 pagi", 6) == 7;
    assert "jam 12 pagi"[7..11] == "pagi";
    assert PeriodWordFrom("jam 12 pagi", 7, 0, end) == Some(0);
  }

  lemma Jam12PagiNoMinutes(end: PeriodEnd) ensures PeriodMinutes("jam 12 pagi", 6, end) == None
  {
    NoMinutesWithoutSeparator("jam 12 pagi", 6, end);
  }

  lemma Jam12PagiHourValue() ensures DigitsValue("jam 12 pagi"[4..6]) == 12
  {
    assert "jam 12 pagi"[4..6] == "12";
  }

  lemma Jam12PagiPeriod(end: PeriodEnd) ensures MatchJamPeriod("jam 12 pagi", 0, end) == Some(Hit(11, "00:00"))
  {
    Jam12PagiHour();
    Jam12PagiNoMinutes(end);
    Jam12PagiWord(end);
    Jam12PagiHourValue();
    Clock0000Pagi();
  }

  /** `jam 12 pagi` (twelve in the morning) becomes `00:00`. */
  lemma Jam12Pagi(end: PeriodEnd)
    ensures ConvertJam(end, "jam 12 pagi") == "00:00"
  {
    assert NoLetterJFrom("jam 12 pagi", 1);
    Jam12PagiPeriod(end);
    ConvertSingleJam(end, "jam 12 pagi");
    assert "jam 12 pagi"[11..] == [];
  }

  // ---------------------------------------------------------------------
  // jam 9:30 -> 09:30

  lemma Jam930Hour() ensures JamHour("jam 9:30", 0) == Some((4, 5))
  {
    assert "jam 9:30"[0..3] == "jam";
    assert SkipSpaces("jam 9:30", 3) == 4;
    assert DigitRunEnd("jam 9:30", 4) == 5;
  }

  lemma Jam930NoWordAt8(end: PeriodEnd) ensures PeriodAfter("jam 9:30", 8, end) == None { }
  lemma Jam930NoFraction(end: PeriodEnd) ensures PeriodFraction("jam 9:30", 8, end) == None { }
  lemma Jam930NoWordAt5(end: PeriodEnd) ensures PeriodAfter("jam 9:30", 5, end) == None { }

  lemma Jam930NoMinutes(end: PeriodEnd) ensures PeriodMinutes("jam 9:30", 5, end) == None
  {
    assert SkipSpaces("jam 9:30", 6) == 6;
    assert DigitRunEnd("jam 9:30", 6) == 8;
    Jam930NoWordAt8(end);
    Jam930NoFraction(end);
    MinutesNone("jam 9:30", 5, 6, 8, end);
  }

  lemma Jam930NoPeriod(end: PeriodEnd) ensures MatchJamPeriod("jam 9:30", 0, end) == None
  {
    Jam930Hour();
    Jam930NoMinutes(end);
    Jam930NoWordAt5(end);
    PeriodNoMatch("jam 9:30", 4, 5, end);
  }

  lemma Jam930NoDecimalAt6() ensures DecimalAt("jam 9:30", 6) == None { }
  lemma Jam930NoDecimalAt5() ensures DecimalAt("jam 9:30", 5) == None { }

  lemma Jam930NoDecimal() ensures MatchJamDecimal("jam 9:30", 0) == None
  {
    Jam930Hour();
    assert SkipSpaces("jam 9:30", 5) == 5;
    assert SkipSpaces("jam 9:30", 6) == 6;
    Jam930NoDecimalAt6();
    Jam930NoDecimalAt5();
    DecimalAfterHourNone("jam 9:30", 5, 5);
    DecimalNone("jam 9:30", 4, 5);
  }

  lemma Jam930Digits() ensures DigitsValue("jam 9:30"[4..5]) == 9 && DigitsValue("jam 9:30"[6..8]) == 30
  {
    assert "jam 9:30"[4..5] == "9";
    assert "jam 9:30"[6..8] == "30";
  }

  lemma Jam930Basic() ensures MatchJamBasic("jam 9:30", 0) == Some(Hit(8, "09:30"))
  {
    Jam930Hour();
    assert SkipSpaces("jam 9:30", 6) == 6;
    assert DigitRunEnd("jam 9:30", 6) == 8;
    BasicMinutesHit("jam 9:30", 5, 6, 8);
    BasicWithMinutes("jam 9:30", 4, 5, DigitsValue("jam 9:30"[6..8]), 8);
    Jam930Digits();
    Clock0930();
  }

  /** `jam 9:30` becomes `09:30`. */
  lemma Jam930(end: PeriodEnd)
    ensures ConvertJam(end, "jam 9:30") == "09:30"
  {
    assert NoLetterJFrom("jam 9:30", 1);
    Jam930NoPeriod(end);
    Jam930NoDecimal();
    Jam930Basic();
    ConvertSingleJam(end, "jam 9:30");
    assert "jam 9:30"[8..] == [];
  }

  // ---------------------------------------------------------------------
  // jam 9:75 -> 09:75: the minute is not range-checked.

  lemma Jam975Hour() ensures JamHour("jam 9:75", 0) == Some((4, 5))
  {
    assert "jam 9:75"[0..3] == "jam";
    assert SkipSpaces("jam 9:75", 3) == 4;
    assert DigitRunEnd("jam 9:75", 4) == 5;
  }

  lemma Jam975NoWordAt8(end: PeriodEnd) ensures PeriodAfter("jam 9:75", 8, end) == None { }
  lemma Jam975NoFraction(end: PeriodEnd) ensures PeriodFraction("jam 9:75", 8, end) == None { }
  lemma Jam975NoWordAt5(end: PeriodEnd) ensures PeriodAfter("jam 9:75", 5, end) == None { }

  lemma Jam975NoMinutes(end: PeriodEnd) ensures PeriodMinutes("jam 9:75", 5, end) == None
  {
    assert SkipSpaces("jam 9:75", 6) == 6;
    assert DigitRunEnd("jam 9:75", 6) == 8;
    Jam975NoWordAt8(end);
    Jam975NoFraction(end);
    MinutesNone("jam 9:75", 5, 6, 8, end);
  }

  lemma Jam975NoPeriod(end: PeriodEnd) ensures MatchJamPeriod("jam 9:75", 0, end) == None
  {
    Jam975Hour();
    Jam975NoMinutes(end);
    Jam975NoWordAt5(end);
    PeriodNoMatch("jam 9:75", 4, 5, end);
  }

  lemma Jam975NoDecimalAt6() ensures DecimalAt("jam 9:75", 6) == None { }
  lemma Jam975NoDecimalAt5() ensures DecimalAt("jam 9:75", 5) == None { }

  lemma Jam975NoDecimal() ensures MatchJamDecimal("jam 9:75", 0) == None
  {
    Jam975Hour();
    assert SkipSpaces("jam 9:75", 5) == 5;
    assert SkipSpaces("jam 9:75", 6) == 6;
    Jam975NoDecimalAt6();
    Jam975NoDecimalAt5();
    DecimalAfterHourNone("jam 9:75", 5, 5);
    DecimalNone("jam 9:75", 4, 5);
  }

  lemma Jam975Digits() ensures DigitsValue("jam 9:75"[4..5]) == 9 && DigitsValue("jam 9:75"[6..8]) == 75
  {
    assert "jam 9:75"[4..5] == "9";
    assert "jam 9:75"[6..8] == "75";
  }

  lemma Jam975Basic() ensures MatchJamBasic("jam 9:75", 0) == Some(Hit(8, "09:75"))
  {
    Jam975Hour();
    assert SkipSpaces("jam 9:75", 6) == 6;
    assert DigitRunEnd("jam 9:75", 6) == 8;
    BasicMinutesHit("jam 9:75", 5, 6, 8);
    BasicWithMinutes("jam 9:75", 4, 5, DigitsValue("jam 9:75"[6..8]), 8);
    Jam975Digits();
    Clock0975();
  }

  /** `jam 9:75` becomes `09:75`: minutes past 59 are kept. */
  lemma Jam975(end: PeriodEnd)
    ensures ConvertJam(end, "jam 9:75") == "09:75"
  {
    assert NoLetterJFrom("jam 9:75", 1);
    Jam975NoPeriod(end);
    Jam975NoDecimal();
    Jam975Basic();
    ConvertSingleJam(end, "jam 9:75");
    assert "jam 9:75"[8..] == [];
  }

  // ---------------------------------------------------------------------
  // jam 9.5 -> 09:30: the decimal pass reads .5 as half an hour.

  lemma Jam95Hour() ensures JamHour("jam 9.5", 0) == Some((4, 5))
  {
    assert "jam 9.5"[0..3] == "jam";
    assert SkipSpaces("jam 9.5", 3) == 4;
    assert DigitRunEnd("jam 9.5", 4) == 5;
  }

  lemma Jam95NoWordAt7(end: PeriodEnd) ensures PeriodAfter("jam 9.5", 7, end) == None { }
  lemma Jam95NoFraction(end: PeriodEnd) ensures PeriodFraction("jam 9.5", 7, end) == None { }
  lemma Jam95NoWordAt5(end: PeriodEnd) ensures PeriodAfter("jam 9.5", 5, end) == None { }

  lemma Jam95NoMinutes(end: PeriodEnd) ensures PeriodMinutes("jam 9.5", 5, end) == None
  {
    assert SkipSpaces("jam 9.5", 6) == 6;
    assert DigitRunEnd("jam 9.5", 6) == 7;
    Jam95NoWordAt7(end);
    Jam95NoFraction(end);
    MinutesNone("jam 9.5", 5, 6, 7, end);
  }

  lemma Jam95NoPeriod(end: PeriodEnd) ensures MatchJamPeriod("jam 9.5", 0, end) == None
  {
    Jam95Hour();
    Jam95NoMinutes(end);
    Jam95NoWordAt5(end);
    PeriodNoMatch("jam 9.5", 4, 5, end);
  }

  lemma Jam95NoDecimalAt6() ensures DecimalAt("jam 9.5", 6) == None { }

  lemma Jam95DecimalAt5() ensures DecimalAt("jam 9.5", 5) == Some((30, 7))
  {
    assert DigitRunEnd("jam 9.5", 5) == 5;
    assert DigitRunEnd("jam 9.5", 6) == 7;
    DecimalAtValue("jam 9.5", 5, 5, 7);
    assert "jam 9.5"[5..5] == "";
    assert "jam 9.5"[6..7] == "5";
    Minutes30();
  }

  lemma Jam95DecimalTail() ensures DecimalAfterHour("jam 9.5", 5) == Some((30, 7))
  {
    assert SkipSpaces("jam 9.5", 5) == 5;
    assert SkipSpaces("jam 9.5", 6) == 6;
    Jam95NoDecimalAt6();
    DecimalAfterHourDirect("jam 9.5", 5, 5);
    Jam95DecimalAt5();
  }

  lemma Jam95Decimal() ensures MatchJamDecimal("jam 9.5", 0) == Some(Hit(7, "09:30"))
  {
    Jam95Hour();
    Jam95DecimalTail();
    DecimalHit("jam 9.5", 4, 5, 30, 7);
    Jam95Digits();
    Clock0930();
  }

  /** `jam 9.5` becomes `09:30`. */
  lemma Jam95(end: PeriodEnd)
    ensures ConvertJam(end, "jam 9.5") == "09:30"
  {
    assert NoLetterJFrom("jam 9.5", 1);
    Jam95NoPeriod(end);
    Jam95Decimal();
    ConvertSingleJam(end, "jam 9.5");
    assert "jam 9.5"[7..] == [];
  }

  lemma Jam95Digits() ensures DigitsValue("jam 9.5"[4..5]) == 9 && DigitsValue("jam 9.5"[6..7]) == 5
  {
    assert "jam 9.5"[4..5] == "9";
    assert "jam 9.5"[6..7] == "5";
  }

  /**
   * The order of the passes matters: the basic pattern on its own would
   * read the same text as hour 9, minute 5.
   */
  lemma Jam95BasicMatch() ensures MatchJamBasic("jam 9.5", 0) == Some(Hit(7, "09:05"))
  {
    Jam95Hour();
    assert SkipSpaces("jam 9.5", 6) == 6;
    assert DigitRunEnd("jam 9.5", 6) == 7;
    BasicMinutesHit("jam 9.5", 5, 6, 7);
    BasicWithMinutes("jam 9.5", 4, 5, DigitsValue("jam 9.5"[6..7]), 7);
    Jam95Digits();
    Clock0905();
  }

  // ---------------------------------------------------------------------
  // jam 12.35 -> 12:21: the fraction .35 of an hour is 21 minutes.

  lemma Jam1235Hour() ensures JamHour("jam 12.35", 0) == Some((4, 6))
  {
    assert "jam 12.35"[0..3] == "jam";
    assert SkipSpaces("jam 12.35", 3) == 4;
    assert DigitRunEnd("jam 12.35", 4) == 6;
  }

  lemma Jam1235NoWordAt9(end: PeriodEnd) ensures PeriodAfter("jam 12.35", 9, end) == None { }
  lemma Jam1235NoFraction(end: PeriodEnd) ensures PeriodFraction("jam 12.35", 9, end) == None { }
  lemma Jam1235NoWordAt6(end: PeriodEnd) ensures PeriodAfter("jam 12.35", 6, end) == None { }

  lemma Jam1235NoMinutes(end: PeriodEnd) ensures PeriodMinutes("jam 12.35", 6, end) == None
  {
    assert SkipSpaces("jam 12.35", 7) == 7;
    assert DigitRunEnd("jam 12.35", 7) == 9;
    Jam1235NoWordAt9(end);
    Jam1235NoFraction(end);
    MinutesNone("jam 12.35", 6, 7, 9, end);
  }

  lemma Jam1235NoPeriod(end: PeriodEnd) ensures MatchJamPeriod("jam 12.35", 0, end) == None
  {
    Jam1235Hour();
    Jam1235NoMinutes(end);
    Jam1235NoWordAt6(end);
    PeriodNoMatch("jam 12.35", 4, 6, end);
  }

  lemma Jam1235NoDecimalAt7() ensures DecimalAt("jam 12.35", 7) == None { }

  lemma Jam1235DecimalAt6() ensures DecimalAt("jam 12.35", 6) == Some((21, 9))
  {
    assert DigitRunEnd("jam 12.35", 6) == 6;
    assert DigitRunEnd("jam 12.35", 7) == 9;
    DecimalAtValue("jam 12.35", 6, 6, 9);
    assert "jam 12.35"[6..6] == "";
    assert "jam 12.35"[7..9] == "35";
    Minutes21();
  }

  lemma Jam1235DecimalTail() ensures DecimalAfterHour("jam 12.35", 6) == Some((21, 9))
  {
    assert SkipSpaces("jam 12.35", 6) == 6;
    assert SkipSpaces("jam 12.35", 7) == 7;
    Jam1235NoDecimalAt7();
    DecimalAfterHourDirect("jam 12.35", 6, 6);
    Jam1235DecimalAt6();
  }

  lemma Jam1235HourValue() ensures DigitsValue("jam 12.35"[4..6]) == 12
  {
    assert "jam 12.35"[4..6] == "12";
  }

  lemma Jam1235Decimal() ensures MatchJamDecimal("jam 12.35", 0) == Some(Hit(9, "12:21"))
  {
    Jam1235Hour();
    Jam1235DecimalTail();
    DecimalHit("jam 12.35", 4, 6, 21, 9);
    Jam1235HourValue();
    Clock1221();
  }

  /** `jam 12.35` becomes `12:21`. */
  lemma Jam1235(end: PeriodEnd)
    ensures ConvertJam(end, "jam 12.35") == "12:21"
  {
    assert NoLetterJFrom("jam 12.35", 1);
    Jam1235NoPeriod(end);
    Jam1235Decimal();
    ConvertSingleJam(end, "jam 12.35");
    assert "jam 12.35"[9..] == [];
  }

  // ---------------------------------------------------------------------
  // jam 9.5 pagi -> 09:05: with a period word the period pass claims the
  // text first and reads the 5 as minutes.

  lemma Jam95PagiHour() ensures JamHour("jam 9.5 pagi", 0) == Some((4, 5))
  {
    assert "jam 9.5 pagi"[0..3] == "jam";
    assert SkipSpaces("jam 9.5 pagi", 3) == 4;
    assert DigitRunEnd("jam 9.5 pagi", 4) == 5;
  }

  lemma Jam95PagiWordFrom(end: PeriodEnd) ensures PeriodWordFrom("jam 9.5 pagi", 8, 0, end) == Some(0)
  {
    assert "jam 9.5 pagi"[8..12] == "pagi";
  }

  lemma Jam95PagiWord(end: PeriodEnd) ensures PeriodAfter("jam 9.5 pagi", 7, end) == Some(("pagi", 12))
  {
    assert SkipSpaces("jam 9.5 pagi", 7) == 8;
    Jam95PagiWordFrom(end);
    PeriodAfterWord("jam 9.5 pagi", 7, 8, 0, end);
    assert "jam 9.5 pagi"[8..12] == "pagi";
  }

  lemma Jam95PagiMinutes(end: PeriodEnd) ensures PeriodMinutes("jam 9.5 pagi", 5, end) == Some((5, "pagi", 12))
  {
    assert SkipSpaces("jam 9.5 pagi", 6) == 6;
    assert DigitRunEnd("jam 9.5 pagi", 6) == 7;
    Jam95PagiWord(end);
    MinutesPlain("jam 9.5 pagi", 5, 6, 7, end);
    assert "jam 9.5 pagi"[6..7] == "5";
  }

  lemma Jam95PagiHourValue() ensures DigitsValue("jam 9.5 pagi"[4..5]) == 9
  {
    assert "jam 9.5 pagi"[4..5] == "9";
  }

  lemma Jam95PagiPeriod(end: PeriodEnd) ensures MatchJamPeriod("jam 9.5 pagi", 0, end) == Some(Hit(12, "09:05"))
  {
    Jam95PagiHour();
    Jam95PagiMinutes(end);
    PeriodMatchMinutes("jam 9.5 pagi", 4, 5, end);
    Jam95PagiHourValue();
    Clock0905Pagi();
  }

  /** `jam 9.5 pagi` becomes `09:05`, not `09:30`. */
  lemma Jam95Pagi(end: PeriodEnd)
    ensures ConvertJam(end, "jam 9.5 pagi") == "09:05"
  {
    assert NoLetterJFrom("jam 9.5 pagi", 1);
    Jam95PagiPeriod(end);
    ConvertSingleJam(end, "jam 9.5 pagi");
    assert "jam 9.5 pagi"[12..] == [];
  }

  lemma Jam95PagiNoDecimalAt6() ensures DecimalAt("jam 9.5 pagi", 6) == None { }

  lemma Jam95PagiDecimalAt5() ensures DecimalAt("jam 9.5 pagi", 5) == Some((30, 7))
  {
    assert DigitRunEnd("jam 9.5 pagi", 5) == 5;
    assert DigitRunEnd("jam 9.5 pagi", 6) == 7;
    DecimalAtValue("jam 9.5 pagi", 5, 5, 7);
    assert "jam 9.5 pagi"[5..5] == "";
    assert "jam 9.5 pagi"[6..7] == "5";
    Minutes30();
  }

  lemma Jam95PagiDecimalTail() ensures DecimalAfterHour("jam 9.5 pagi", 5) == Some((30, 7))
  {
    assert SkipSpaces("jam 9.5 pagi", 5) == 5;
    assert SkipSpaces("jam 9.5 pagi", 6) == 6;
    Jam95PagiNoDecimalAt6();
    DecimalAfterHourDirect("jam 9.5 pagi", 5, 5);
    Jam95PagiDecimalAt5();
  }

  /**
   * The decimal matcher on its own would read the same text as 09:30; the
   * period pass claims it first.
   */
  lemma Jam95PagiDecimal() ensures MatchJamDecimal("jam 9.5 pagi", 0) == Some(Hit(7, "09:30"))
  {
    Jam95PagiHour();
    Jam95PagiDecimalTail();
    DecimalHit("jam 9.5 pagi", 4, 5, 30, 7);
    Jam95PagiHourValue();
    Clock0930();
  }

  // ---------------------------------------------------------------------
  // jam 9 p.m.: the two readings of the final `\b` differ.

  lemma Jam9PmHour() ensures JamHour("jam 9 p.m.", 0) == Some((4, 5))
  {
    assert "jam 9 p.m."[0..3] == "jam";
    assert SkipSpaces("jam 9 p.m.", 3) == 4;
    assert DigitRunEnd("jam 9 p.m.", 4) == 5;
  }

  /** A word whose `j`-th character differs, ignoring case, from the text does not start there. */
  lemma DiffersAt(s: string, p: nat, w: string, j: nat)
    requires j < |w| && p + j < |s| && LowerChar(s[p + j]) != LowerChar(w[j])
    ensures !StartsWithIgnoringCase(s, p, w)
  {
    if p + |w| <= |s| {
      assert s[p..p + |w|][j] == s[p + j];
    }
  }

  lemma PeriodWordSkip(s: string, r: nat, k: nat, end: PeriodEnd)
    requires k < |PeriodWords| && !StartsWithIgnoringCase(s, r, PeriodWords[k])
    ensures PeriodWordFrom(s, r, k, end) == PeriodWordFrom(s, r, k + 1, end)
  {
  }

  lemma PeriodWordHere(s: string, r: nat, k: nat, end: PeriodEnd)
    requires k < |PeriodWords|
    requires StartsWithIgnoringCase(s, r, PeriodWords[k]) && PeriodEndsAt(s, r + |PeriodWords[k]|, end)
    ensures PeriodWordFrom(s, r, k, end) == Some(k)
  {
  }

  /** The period alternative tried first among those that match. */
  lemma {:induction false} FirstPeriodWord(s: string, r: nat, k0: nat, k: nat, end: PeriodEnd)
    requires k0 <= k < |PeriodWords|
    requires StartsWithIgnoringCase(s, r, PeriodWords[k]) && PeriodEndsAt(s, r + |PeriodWords[k]|, end)
    requires forall j :: k0 <= j < k ==> !StartsWithIgnoringCase(s, r, PeriodWords[j])
    ensures PeriodWordFrom(s, r, k0, end) == Some(k)
    decreases k - k0
  {
    if k0 < k {
      PeriodWordSkip(s, r, k0, end);
      FirstPeriodWord(s, r, k0 + 1, k, end);
    } else {
      PeriodWordHere(s, r, k, end);
    }
  }

  /** Where `p.m.` ends a text, it is the only period alternative that starts there. */
  lemma PmAlternatives(s: string, r: nat)
    requires r + 4 == |s| && s[r..] == "p.m."
    ensures forall j :: 0 <= j < |PeriodWords| && j != 5 ==> !StartsWithIgnoringCase(s, r, PeriodWords[j])
    ensures StartsWithIgnoringCase(s, r, PeriodWords[5])
  {
    assert s[r] == s[r..][0] == 'p' && s[r + 1] == s[r..][1] == '.';
    DiffersAt(s, r, PeriodWords[0], 1);
    DiffersAt(s, r, PeriodWords[1], 0);
    DiffersAt(s, r, PeriodWords[2], 0);
    DiffersAt(s, r, PeriodWords[3], 0);
    DiffersAt(s, r, PeriodWords[4], 0);
    DiffersAt(s, r, PeriodWords[6], 0);
    DiffersAt(s, r, PeriodWords[7], 1);
    assert s[r..r + 4] == s[r..];
  }

  lemma Jam9PmTail() ensures "jam 9 p.m."[6..] == "p.m." { }

  /** In `jam 9 p.m.` only `p.m.` starts after the hour, and it ends the text. */
  lemma Jam9PmAlternatives()
    ensures forall j :: 0 <= j < |PeriodWords| && j != 5 ==> !StartsWithIgnoringCase("jam 9 p.m.", 6, PeriodWords[j])
    ensures StartsWithIgnoringCase("jam 9 p.m.", 6, PeriodWords[5])
  {
    Jam9PmTail();
    PmAlternatives("jam 9 p.m.", 6);
  }

  lemma Jam9PmNoWordAsWritten() ensures PeriodWordFrom("jam 9 p.m.", 6, 0, WordBoundary) == None
  {
    Jam9PmAlternatives();
    assert !Boundary("jam 9 p.m.", 10);
  }

  lemma Jam9PmWordIntended() ensures PeriodWordFrom("jam 9 p.m.", 6, 0, NoWordCharAfter) == Some(5)
  {
    Jam9PmAlternatives();
    FirstPeriodWord("jam 9 p.m.", 6, 0, 5, NoWordCharAfter);
  }

  lemma Jam9PmNoPeriodAsWritten() ensures MatchJamPeriod("jam 9 p.m.", 0, WordBoundary) == None
  {
    Jam9PmHour();
    NoMinutesWithoutSeparator("jam 9 p.m.", 5, WordBoundary);
    assert SkipSpaces("jam 9 p.m.", 5) == 6;
    Jam9PmNoWordAsWritten();
    PeriodAfterNone("jam 9 p.m.", 5, 6, WordBoundary);
    PeriodNoMatch("jam 9 p.m.", 4, 5, WordBoundary);
  }

  lemma Jam9PmNoDecimalAt6() ensures DecimalAt("jam 9 p.m.", 6) == None { }

  lemma Jam9PmNoDecimal() ensures MatchJamDecimal("jam 9 p.m.", 0) == None
  {
    Jam9PmHour();
    assert SkipSpaces("jam 9 p.m.", 5) == 6;
    Jam9PmNoDecimalAt6();
    DecimalAfterHourNone("jam 9 p.m.", 5, 6);
    DecimalNone("jam 9 p.m.", 4, 5);
  }

  lemma Jam9PmHourValue() ensures DigitsValue("jam 9 p.m."[4..5]) == 9
  {
    assert "jam 9 p.m."[4..5] == "9";
  }

  lemma Jam9PmBasic() ensures MatchJamBasic("jam 9 p.m.", 0) == Some(Hit(5, "09:00"))
  {
    Jam9PmHour();
    BasicHourOnly("jam 9 p.m.", 4, 5);
    Jam9PmHourValue();
    Clock0900();
  }

  lemma Jam9PmWord() ensures PeriodAfter("jam 9 p.m.", 5, NoWordCharAfter) == Some(("p.m.", 10))
  {
    Jam9PmSpaces();
    Jam9PmWordIntended();
    PeriodAfterWord("jam 9 p.m.", 5, 6, 5, NoWordCharAfter);
    Jam9PmSlice();
  }

  lemma Jam9PmSpaces() ensures SkipSpaces("jam 9 p.m.", 5) == 6 { }

  lemma Jam9PmSlice() ensures "jam 9 p.m."[6..6 + |PeriodWords[5]|] == "p.m." { }

  lemma Jam9PmPeriodIntended() ensures MatchJamPeriod("jam 9 p.m.", 0, NoWordCharAfter) == Some(Hit(10, "21:00"))
  {
    Jam9PmHour();
    NoMinutesWithoutSeparator("jam 9 p.m.", 5, NoWordCharAfter);
    Jam9PmWord();
    PeriodMatchWord("jam 9 p.m.", 4, 5, NoWordCharAfter);
    Jam9PmHourValue();
    Clock2100Pm();
  }

  lemma Jam9PmFirstMatchAsWritten() ensures FirstJamMatch(WordBoundary, "jam 9 p.m.") == Some(Hit(5, "09:00"))
  {
    Jam9PmNoPeriodAsWritten();
    Jam9PmNoDecimal();
    Jam9PmBasic();
  }

  lemma Jam9PmConvertAsWritten() ensures ConvertJam(WordBoundary, "jam 9 p.m.") == "09:00" + "jam 9 p.m."[5..]
  {
    assert NoLetterJFrom("jam 9 p.m.", 1);
    Jam9PmFirstMatchAsWritten();
    ConvertSingleJam(WordBoundary, "jam 9 p.m.");
  }

  lemma Jam9PmTextAsWritten() ensures "09:00" + "jam 9 p.m."[5..] == "09:00 p.m."
  {
    assert "jam 9 p.m."[5..] == " p.m.";
  }

  /**
   * As written, `\b` after the final '.' of `p.m.` needs a word character
   * next, so at the end of a message the period word is not recognised and
   * nine in the evening comes out as `09:00 p.m.`.
   */
  lemma Jam9PmAsWritten()
    ensures ConvertJam(WordBoundary, "jam 9 p.m.") == "09:00 p.m."
  {
    Jam9PmConvertAsWritten();
    Jam9PmTextAsWritten();
  }

  /** With the intended end test, `jam 9 p.m.` becomes `21:00`. */
  lemma Jam9PmIntended()
    ensures ConvertJam(NoWordCharAfter, "jam 9 p.m.") == "21:00"
  {
    assert NoLetterJFrom("jam 9 p.m.", 1);
    Jam9PmPeriodIntended();
    ConvertSingleJam(NoWordCharAfter, "jam 9 p.m.");
    assert "jam 9 p.m."[10..] == [];
  }

  /** The message `jam 9 p.m.` reaches the translator as `09:00 p.m.`: the pre-processing runs the code as written. */
  lemma Jam9PmPreprocessed()
    ensures Preprocess("jam 9 p.m.", "indonesian") == "09:00 p.m."
  {
    DianPassWithoutDian(DianWithMinutes, "jam 9 p.m.");
    DianPassWithoutDian(DianHour, "jam 9 p.m.");
    Jam9PmAsWritten();
  }

  /** With the intended end test, the same message is pre-processed into `21:00`. */
  lemma Jam9PmPreprocessedIntended()
    ensures PreprocessIntended("jam 9 p.m.", "indonesian") == "21:00"
  {
    DianPassWithoutDian(DianWithMinutes, "jam 9 p.m.");
    DianPassWithoutDian(DianHour, "jam 9 p.m.");
    Jam9PmIntended();
  }

  // ---------------------------------------------------------------------
  // The 點 rewrites of `preprocess_text`.

  lemma Dian1230HourEnd() ensures DianHourEnd("12點30", 0) == Some(2)
  {
    assert DigitRunEnd("12點30", 0) == 2;
  }

  lemma Dian1230Match() ensures MatchDianWithMinutes("12點30", 0) == Some(Hit(5, "12:30"))
  {
    Dian1230HourEnd();
    assert DigitRunEnd("12點30", 3) == 5;
    assert "12點30"[0..2] == "12";
    assert "12點30"[3..5] == "30";
    assert "12" + ":" + "30" == "12:30";
  }

  lemma Dian1230Minutes() ensures Rewrite(DianWithMinutes, "12點30") == "12:30"
  {
    Dian1230Match();
    RewriteFromAtMatch(DianWithMinutes, "12點30", 0);
  }

  /** `12點30` is pre-processed into `12:30`. */
  lemma Dian1230()
    ensures Preprocess("12點30", "indonesian") == "12:30"
  {
    Dian1230Minutes();
    DianPassWithoutDian(DianHour, "12:30");
    assert NoLetterJFrom("12:30", 0);
    ConvertWithoutJ(WordBoundary, "12:30");
  }

  lemma Dian8HourEnd() ensures DianHourEnd("8點", 0) == Some(1) && DianHourEnd("8點", 1) == None
  {
    assert DigitRunEnd("8點", 0) == 1;
    assert DigitRunEnd("8點", 1) == 1;
  }

  lemma Dian8NoMinutes() ensures Rewrite(DianWithMinutes, "8點") == "8點"
  {
    Dian8HourEnd();
    assert DigitRunEnd("8點", 2) == 2;
    assert MatchDianWithMinutes("8點", 0) == None;
    assert MatchDianWithMinutes("8點", 1) == None;
    RewriteWithoutMatch(DianWithMinutes, "8點");
  }

  lemma Dian8Match() ensures MatchDianHour("8點", 0) == Some(Hit(2, "8:00"))
  {
    Dian8HourEnd();
    assert "8點"[0..1] == "8";
    assert "8" + ":00" == "8:00";
  }

  lemma Dian8Hour() ensures Rewrite(DianHour, "8點") == "8:00"
  {
    Dian8Match();
    RewriteFromAtMatch(DianHour, "8點", 0);
  }

  /** `8點` is pre-processed into `8:00`: the hour keeps its single digit. */
  lemma Dian8()
    ensures Preprocess("8點", "indonesian") == "8:00"
  {
    Dian8NoMinutes();
    Dian8Hour();
    assert NoLetterJFrom("8:00", 0);
    ConvertWithoutJ(WordBoundary, "8:00");
  }
}
