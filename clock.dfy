/**
 * `hour_min_to_24`: an hour, a minute and an optional period word
 * (`pagi`, `sore`, `p.m.`, ...) become a 24-hour "HH:MM" text.
 */
module Clock {
  import opened Wrappers
  import opened Chars
  import opened Numerals

  /** Period words that move an hour before noon into the afternoon. */
  const EveningPeriods: set<string> := {"sore", "malam", "p.m.", "pm"}
  /** Period words that turn hour 12 into hour 0. */
  const MorningPeriods: set<string> := {"pagi", "a.m.", "am"}

  /** The period word as compared: lower-cased, and absent when missing or empty. */
  function PeriodKey(period: Option<string>): string
  {
    if period.Some? && period.value != "" then Lower(period.value) else ""
  }

  /** The hour that `hour_min_to_24` prints. */
  function Hour24(hour: nat, period: Option<string>): (h: nat)
    ensures h < 24
    ensures PeriodKey(period) !in EveningPeriods && PeriodKey(period) !in MorningPeriods ==> h == hour % 24
  {
    var p := PeriodKey(period);
    var afternoon := if p in EveningPeriods && hour < 12 then hour + 12 else hour;
    var morning := if p in MorningPeriods && afternoon == 12 then 0 else afternoon;
    morning % 24
  }

  /** Text of the form HH:MM..., with HH a two-digit hour below 24 and a minute of two or more digits. */
  predicate IsClockText(t: string)
  {
    |t| >= 5 && t[2] == ':' && AllDigits(t[..2]) && AllDigits(t[3..]) && DigitsValue(t[..2]) < 24
  }

  /** The text `hour_min_to_24` returns; the hour and the minute read back from it. */
  function ClockText(hour: nat, minute: nat, period: Option<string>): (t: string)
    ensures IsClockText(t)
    ensures DigitsValue(t[..2]) == Hour24(hour, period)
    ensures DigitsValue(t[3..]) == minute
    ensures |t| == 5 <==> minute < 100
    ensures minute >= 10 ==> t[3] != '0'
  {
    var hh := Pad2(Hour24(hour, period));
    var t := hh + ":" + Pad2(minute);
    assert t[..2] == hh && t[3..] == Pad2(minute);
    t
  }

  /** `hour_min_to_24` as written: the hour is adjusted in place, then formatted. */
  method HourMinTo24(hour: nat, minute: nat, period: Option<string>) returns (t: string)
    ensures t == ClockText(hour, minute, period)
  {
    var hourInt := hour;
    if period.Some? && period.value != "" {
      var p := Lower(period.value);
      if p in EveningPeriods {
        if hourInt < 12 {
          hourInt := hourInt + 12;
        }
      }
      if p in MorningPeriods {
        if hourInt == 12 {
          hourInt := 0;
        }
      }
    }
    hourInt := hourInt % 24;
    assert hourInt == Hour24(hour, period);
    t := Pad2(hourInt) + ":" + Pad2(minute);
  }

  /**
   * The adjustment rules, for every hour: an evening word adds twelve only
   * below noon, a morning word turns only twelve into zero, and no other
   * word (`siang` included) moves the hour; the result is then taken mod 24.
   */
  lemma PeriodRules(hour: nat, word: string)
    requires word != []
    ensures Lower(word) in EveningPeriods && hour < 12 ==> Hour24(hour, Some(word)) == hour + 12
    ensures Lower(word) in EveningPeriods && hour >= 12 ==> Hour24(hour, Some(word)) == hour % 24
    ensures Lower(word) in MorningPeriods && hour == 12 ==> Hour24(hour, Some(word)) == 0
    ensures Lower(word) in MorningPeriods && hour != 12 ==> Hour24(hour, Some(word)) == hour % 24
    ensures Lower(word) == "siang" ==> Hour24(hour, Some(word)) == hour % 24
  {
    assert EveningPeriods !! MorningPeriods;
  }

  /**
   * On the hours 1 to 12 of a twelve-hour clock, a morning word gives
   * hour mod 12 and an evening word gives hour mod 12 plus 12, whatever the
   * letter case of the word.
   */
  lemma TwelveHourPeriods(hour: nat, word: string)
    requires 1 <= hour <= 12
    ensures Lower(word) in MorningPeriods ==> Hour24(hour, Some(word)) == hour % 12
    ensures Lower(word) in EveningPeriods ==> Hour24(hour, Some(word)) == hour % 12 + 12
  {
    assert Lower(word) in MorningPeriods || Lower(word) in EveningPeriods ==> word != "";
  }
}
