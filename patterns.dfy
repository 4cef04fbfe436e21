/**
 * The regular expressions of the source, each compiled by hand into a
 * matcher that says whether the pattern matches at a position and, if so,
 * where the match ends and what `re.sub` puts in its place.
 *
 * Each matcher is deterministic: where Python's backtracking could try
 * several ways, the comments say why only the one written here can succeed.
 */
module Patterns {
  import opened Wrappers
  import opened Chars
  import opened Numerals
  import opened Clock

  /** A match: the position just after it and its replacement text. */
  datatype Hit = Hit(end: nat, out: string)

  /** `\b` + the escaped key + `\b`, compared ignoring case. */
  predicate MatchesWordAt(key: string, s: string, i: nat)
  {
    i + |key| <= |s| && Boundary(s, i) && SameIgnoringCase(s[i..i + |key|], key) && Boundary(s, i + |key|)
  }

  /** Some whole-word occurrence of `key` in `s`. */
  predicate OccursAsWord(key: string, s: string)
  {
    exists j :: 0 <= j <= |s| && MatchesWordAt(key, s, j)
  }

  /** The pattern `\bKEY\b` with `re.IGNORECASE`, replaced by `value`. */
  function MatchWord(key: Key, value: string, s: string, i: nat): (m: Option<Hit>)
    ensures m.Some? <==> MatchesWordAt(key, s, i)
    ensures m.Some? ==> m.value == Hit(i + |key|, value)
  {
    if MatchesWordAt(key, s, i) then Some(Hit(i + |key|, value)) else None
  }

  /** The literal text `key`, replaced by `value` (`str.replace`). */
  function MatchLiteral(key: Key, value: string, s: string, i: nat): (m: Option<Hit>)
    ensures m.Some? <==> i + |key| <= |s| && s[i..i + |key|] == key
    ensures m.Some? ==> m.value == Hit(i + |key|, value)
  {
    if i + |key| <= |s| && s[i..i + |key|] == key then Some(Hit(i + |key|, value)) else None
  }

  // ---------------------------------------------------------------------
  // Pieces shared by the three `jam` patterns.

  /** `\bjam`, ignoring case. */
  predicate JamAt(s: string, i: nat)
  {
    StartsWithIgnoringCase(s, i, "jam") && Boundary(s, i)
  }

  /** The class `[:.,]` at position `p`. */
  predicate SeparatorAt(s: string, p: nat)
  {
    p < |s| && (s[p] == ':' || s[p] == '.' || s[p] == ',')
  }

  /**
   * What must follow a period word. The source writes `\b`, which after the
   * final '.' of `a.m.` and `p.m.` demands a word character; the intended
   * reading is that no word character follows (`(?!\w)`).
   */
  datatype PeriodEnd = WordBoundary | NoWordCharAfter

  predicate PeriodEndsAt(s: string, e: nat, end: PeriodEnd)
  {
    match end
    case WordBoundary => Boundary(s, e)
    case NoWordCharAfter => !WordAt(s, e)
  }

  /** The alternatives of `(pagi|siang|sore|malam|a\.m\.|p\.m\.|am|pm)`, in the order they are tried. */
  const PeriodWords: seq<string> := ["pagi", "siang", "sore", "malam", "a.m.", "p.m.", "am", "pm"]

  /** The index of the first alternative, from `k` on, that matches at `r` and is followed by `\b`. */
  function PeriodWordFrom(s: string, r: nat, k: nat, end: PeriodEnd): (w: Option<nat>)
    requires k <= |PeriodWords|
    ensures w.Some? ==> (k <= w.value < |PeriodWords|
      && StartsWithIgnoringCase(s, r, PeriodWords[w.value]) && PeriodEndsAt(s, r + |PeriodWords[w.value]|, end))
    ensures w.None? ==> forall j :: k <= j < |PeriodWords| ==>
      !(StartsWithIgnoringCase(s, r, PeriodWords[j]) && PeriodEndsAt(s, r + |PeriodWords[j]|, end))
    decreases |PeriodWords| - k
  {
    if k == |PeriodWords| then None
    else if StartsWithIgnoringCase(s, r, PeriodWords[k]) && PeriodEndsAt(s, r + |PeriodWords[k]|, end) then Some(k)
    else PeriodWordFrom(s, r, k + 1, end)
  }

  /** `\s*(period words)\b` from `q`: the period text as written and the end of the match. */
  function PeriodAfter(s: string, q: nat, end: PeriodEnd): (m: Option<(string, nat)>)
    requires q <= |s|
    ensures m.Some? ==> q < m.value.1 <= |s|
  {
    var r := SkipSpaces(s, q);
    match PeriodWordFrom(s, r, 0, end)
    case None => None
    case Some(k) => Some((s[r..r + |PeriodWords[k]|], r + |PeriodWords[k]|))
  }

  /**
   * `\bjam\s*(\d{1,2})` where no further digit follows: the bounds of the
   * hour digits. It is found exactly when `jam` is written at `i` and the
   * spaces after it are followed by one or two digits but not three.
   */
  function JamHour(s: string, i: nat): (m: Option<(nat, nat)>)
    ensures m.Some? ==> (JamAt(s, i) && i + 3 <= m.value.0 < m.value.1 <= |s|
      && m.value.1 - m.value.0 <= 2 && AllDigits(s[m.value.0..m.value.1]))
    ensures m.Some? ==> m.value.0 == SkipSpaces(s, i + 3)
    ensures m.Some? ==> m.value.1 == |s| || !IsDigit(s[m.value.1])
    ensures m.None? && JamAt(s, i) ==> var p := SkipSpaces(s, i + 3);
      p == |s| || !IsDigit(s[p]) || (p + 2 < |s| && IsDigit(s[p + 1]) && IsDigit(s[p + 2]))
  {
    if !JamAt(s, i) then None
    else
      var p1 := SkipSpaces(s, i + 3);
      var p2 := DigitRunEnd(s, p1);
      if 1 <= p2 - p1 <= 2 then Some((p1, p2)) else None
  }

  /** Minutes written as the fraction `0.E` of an hour: `round(float("0." + E) * 60)`. */
  function FractionMinutes(e: string): nat
    requires AllDigits(e)
  {
    RoundHalfEven(60 * DigitsValue(e), Pow10(|e|))
  }

  /** Minutes written as the decimal hour `D.E`: `int(round(float(D + "." + E) * 60))`. */
  function DecimalMinutes(d: string, e: string): nat
    requires AllDigits(d) && AllDigits(e)
  {
    RoundHalfEven(60 * (DigitsValue(d) * Pow10(|e|) + DigitsValue(e)), Pow10(|e|))
  }

  // ---------------------------------------------------------------------
  // `\bjam\s*(\d{1,2})(?:[:.,]\s*(\d{1,2}|\d{1,2}\.\d+))?\s*(PERIOD)\b`.
  //
  // A shorter hour or minute run than the maximal one cannot succeed: the
  // next character would be a digit, where a separator, a space or a period
  // word is needed. So the hour and minute runs are maximal runs of one or
  // two digits.

  /** The optional minute group followed by the period word: the minute, the period text and the end. */
  function PeriodMinutes(s: string, p2: nat, end: PeriodEnd): (m: Option<(nat, string, nat)>)
    requires p2 <= |s|
    ensures m.Some? ==> p2 < m.value.2 <= |s|
  {
    if !SeparatorAt(s, p2) then None
    else
      var p3 := SkipSpaces(s, p2 + 1);
      var p4 := DigitRunEnd(s, p3);
      if !(1 <= p4 - p3 <= 2) then None
      else
        var plain := PeriodAfter(s, p4, end);
        if plain.Some? then Some((DigitsValue(s[p3..p4]), plain.value.0, plain.value.1))
        else PeriodFraction(s, p4, end)
  }

  /**
   * The second alternative of the minute group, tried when the first fails:
   * after the minute digits, a '.' and more digits, then the period word.
   * Only the digits after the '.' give the minute.
   */
  function PeriodFraction(s: string, p4: nat, end: PeriodEnd): (m: Option<(nat, string, nat)>)
    requires p4 <= |s|
    ensures m.Some? ==> p4 < m.value.2 <= |s|
  {
    if p4 < |s| && s[p4] == '.' then
      var p5 := DigitRunEnd(s, p4 + 1);
      var period := PeriodAfter(s, p5, end);
      if p5 > p4 + 1 && period.Some? then Some((FractionMinutes(s[p4 + 1..p5]), period.value.0, period.value.1))
      else None
    else None
  }

  /** `pattern_period` with `repl_period`, with the given reading of the final `\b`. */
  function MatchJamPeriod(s: string, i: nat, end: PeriodEnd): (m: Option<Hit>)
    ensures m.Some? ==> i < m.value.end <= |s| && IsClockText(m.value.out)
  {
    match JamHour(s, i)
    case None => None
    case Some((p1, p2)) =>
      var hour := DigitsValue(s[p1..p2]);
      match PeriodMinutes(s, p2, end)
      case Some((minute, w, e)) => Some(Hit(e, ClockText(hour, minute, Some(w))))
      case None =>
        match PeriodAfter(s, p2, end)
        case Some((w, e)) => Some(Hit(e, ClockText(hour, 0, Some(w))))
        case None => None
  }

  // ---------------------------------------------------------------------
  // `\bjam\s*(\d{1,2})\s*[:.,]?\s*(\d*\.\d+)\b`.
  //
  // The hour is the first one or two digits of the run after `jam`: when
  // the two-digit hour fails, the one-digit hour fails too, since what
  // would follow it is the same fraction with one more leading digit.

  /** `\d*\.\d+\b` at `r`: the decimal's minutes and the end of the match. */
  function DecimalAt(s: string, r: nat): (m: Option<(nat, nat)>)
    requires r <= |s|
    ensures m.Some? ==> r < m.value.1 <= |s|
  {
    var d := DigitRunEnd(s, r);
    if d < |s| && s[d] == '.' then
      var e := DigitRunEnd(s, d + 1);
      if e > d + 1 && Boundary(s, e) then Some((DecimalMinutes(s[r..d], s[d + 1..e]), e)) else None
    else None
  }

  /**
   * `\s*[:.,]?\s*(\d*\.\d+)\b` after the hour: the reading with the
   * separator is tried first and, if it fails, the one without.
   */
  function DecimalAfterHour(s: string, p2: nat): (m: Option<(nat, nat)>)
    requires p2 <= |s|
    ensures m.Some? ==> p2 < m.value.1 <= |s|
  {
    var q := SkipSpaces(s, p2);
    var withSeparator := if SeparatorAt(s, q) then DecimalAt(s, SkipSpaces(s, q + 1)) else None;
    if withSeparator.Some? then withSeparator else DecimalAt(s, q)
  }

  /** `pattern_decimal` with `repl_decimal`. */
  function MatchJamDecimal(s: string, i: nat): (m: Option<Hit>)
    ensures m.Some? ==> i < m.value.end <= |s| && IsClockText(m.value.out)
  {
    if !JamAt(s, i) then None
    else
      var p1 := SkipSpaces(s, i + 3);
      var d := DigitRunEnd(s, p1);
      if d == p1 then None
      else
        var p2 := if d - p1 > 2 then p1 + 2 else d;
        match DecimalAfterHour(s, p2)
        case Some((minute, e)) => Some(Hit(e, ClockText(DigitsValue(s[p1..p2]), minute, None)))
        case None => None
  }

  // ---------------------------------------------------------------------
  // `\bjam\s*(\d{1,2})(?:[:.,]\s*(\d{1,2}))?\b`.

  /** The optional `[:.,]\s*(\d{1,2})` after the hour, followed by `\b`: the minute and the end. */
  function BasicMinutes(s: string, p2: nat): (m: Option<(nat, nat)>)
    requires p2 <= |s|
    ensures m.Some? ==> p2 < m.value.1 <= |s| && Boundary(s, m.value.1)
  {
    if !SeparatorAt(s, p2) then None
    else
      var p3 := SkipSpaces(s, p2 + 1);
      var p4 := DigitRunEnd(s, p3);
      if 1 <= p4 - p3 <= 2 && Boundary(s, p4) then Some((DigitsValue(s[p3..p4]), p4)) else None
  }

  /** `pattern_basic` with `repl_basic`. */
  function MatchJamBasic(s: string, i: nat): (m: Option<Hit>)
    ensures m.Some? ==> i < m.value.end <= |s| && IsClockText(m.value.out)
  {
    match JamHour(s, i)
    case None => None
    case Some((p1, p2)) =>
      var hour := DigitsValue(s[p1..p2]);
      match BasicMinutes(s, p2)
      case Some((minute, e)) => Some(Hit(e, ClockText(hour, minute, None)))
      case None => if Boundary(s, p2) then Some(Hit(p2, ClockText(hour, 0, None))) else None
  }

  // ---------------------------------------------------------------------
  // The two patterns of `preprocess_text` for times written with 點.

  /** One or two digits at `i` followed by 點: the end of the hour digits. */
  function DianHourEnd(s: string, i: nat): (h: Option<nat>)
    ensures h.Some? ==> i < h.value < |s| && h.value - i <= 2 && AllDigits(s[i..h.value]) && s[h.value] == '點'
    ensures h.Some? <==> ((i + 1 < |s| && IsDigit(s[i]) && s[i + 1] == '點')
      || (i + 2 < |s| && IsDigit(s[i]) && IsDigit(s[i + 1]) && s[i + 2] == '點'))
  {
    if i > |s| then None
    else
      var d := DigitRunEnd(s, i);
      var h := if d - i > 2 then i + 2 else d;
      if h > i && h < |s| && s[h] == '點' then Some(h) else None
  }

  /**
   * `(\d{1,2})點(\d{1,2})`, replaced by `\1:\2`: the hour digits and 點 as
   * `DianHourEnd` finds them, then a greedy run of one or two minute digits.
   * The replacement is the matched text with its 點 turned into a colon.
   */
  function MatchDianWithMinutes(s: string, i: nat): (m: Option<Hit>)
    ensures m.Some? ==> i < m.value.end <= |s|
    ensures m.Some? <==> (DianHourEnd(s, i).Some? && DianHourEnd(s, i).value + 1 < |s|
      && IsDigit(s[DianHourEnd(s, i).value + 1]))
    ensures m.Some? ==> var h, e := DianHourEnd(s, i).value, m.value.end;
      h + 1 < e <= h + 3 && AllDigits(s[h + 1..e]) && (e == |s| || e == h + 3 || !IsDigit(s[e]))
      && m.value.out == s[i..e][h - i := ':']
  {
    match DianHourEnd(s, i)
    case None => None
    case Some(h) =>
      var d := DigitRunEnd(s, h + 1);
      var e := if d - (h + 1) > 2 then h + 3 else d;
      if e == h + 1 then None else Some(Hit(e, s[i..h] + ":" + s[h + 1..e]))
  }

  /** `(\d{1,2})點`, replaced by `\1:00`: the hour digits are kept and 點 becomes `:00`. */
  function MatchDianHour(s: string, i: nat): (m: Option<Hit>)
    ensures m.Some? ==> i < m.value.end <= |s|
    ensures m.Some? <==> DianHourEnd(s, i).Some?
    ensures m.Some? ==> var h := DianHourEnd(s, i).value;
      m.value.end == h + 1 && |m.value.out| == h - i + 3 && m.value.out[..h - i] == s[i..h] && m.value.out[h - i..] == ":00"
  {
    match DianHourEnd(s, i)
    case None => None
    case Some(h) => Some(Hit(h + 1, s[i..h] + ":00"))
  }
}
