/**
 * Meeting durations as text. `formatDuration` in public/app.js accepts a
 * number of seconds or a numeric string; the duration-fix loops in
 * src/routes/sync.js and fix-durations.js log the same hours-and-minutes
 * form for the durations they compute.
 */
module Durations {
  import opened Common
  import opened JsStrings
  import opened JsValues

  const UnknownText: string := "Unknown"

  /**
   * The hours-and-minutes form of a positive number of seconds:
   * `minutes = floor(s / 60)`, `hours = floor(minutes / 60)`,
   * `"{hours}h {minutes % 60}m"` when there is at least an hour, otherwise `"{minutes}m"`.
   */
  function FormatHm(seconds: int): (r: string)
    requires seconds > 0
    ensures EndsWith(r, "m")
  {
    var minutes := seconds / 60;
    var hours := minutes / 60;
    var mins := minutes % 60;
    if hours > 0 then NatToString(hours) + "h " + NatToString(mins) + "m"
    else NatToString(minutes) + "m"
  }

  /** The number of minutes an hours-and-minutes text stands for, when it has that form. */
  function ParseHm(s: string): Option<nat> {
    var d1 := DigitPrefix(s);
    var rest := s[|d1|..];
    if d1 == "" then None
    else if rest == "m" then Some(DecimalValue(d1))
    else if StartsWith(rest, "h ") then
      match ParseMinutes(rest[2..])
      case Some(m) => Some(DecimalValue(d1) * 60 + m)
      case None => None
    else None
  }

  /** The minute count of a `"{m}m"` text. */
  function ParseMinutes(s: string): Option<nat> {
    var d := DigitPrefix(s);
    if d != "" && s[|d|..] == "m" then Some(DecimalValue(d)) else None
  }

  /** Reading back a number's decimal text followed by a non-digit. */
  lemma DigitsThen(n: nat, rest: string)
    requires rest != "" && !IsDigit(rest[0])
    ensures DigitPrefix(NatToString(n) + rest) == NatToString(n)
    ensures (NatToString(n) + rest)[|NatToString(n)|..] == rest
    ensures DecimalValue(NatToString(n)) == n
  {
    DigitPrefixOfDigits(NatToString(n), rest);
    NatToStringRoundTrip(n);
  }

  /** `"{n}m"` reads back as `n` minutes, alone or after the hours. */
  lemma ParseMinutesText(n: nat)
    ensures ParseMinutes(NatToString(n) + "m") == Some(n)
    ensures ParseHm(NatToString(n) + "m") == Some(n)
  {
    DigitsThen(n, "m");
  }

  /** `"{h}h {m}m"` reads back as `h * 60 + m` minutes. */
  lemma ParseHoursText(h: nat, m: nat)
    ensures ParseHm(NatToString(h) + "h " + NatToString(m) + "m") == Some(h * 60 + m)
  {
    var hs, ms := NatToString(h), NatToString(m);
    var s := hs + "h " + ms + "m";
    var tail := "h " + ms + "m";
    HoursPrefix(s, hs, ms);
    HoursTail(tail, ms);
    ParseMinutesText(m);
    NatToStringRoundTrip(h);
    ParseHmAfterHours(s, hs, tail, m);
  }

  lemma HoursPrefix(s: string, hs: string, ms: string)
    requires AllDigits(hs) && s == hs + "h " + ms + "m"
    ensures DigitPrefix(s) == hs && s[|hs|..] == "h " + ms + "m"
  {
    DigitPrefixOfDigits(hs, "h " + ms + "m");
    assert s == hs + ("h " + ms + "m");
  }

  lemma HoursTail(tail: string, ms: string)
    requires tail == "h " + ms + "m"
    ensures StartsWith(tail, "h ") && tail != "m" && tail[2..] == ms + "m"
  {
    assert |tail| > 2 && tail[..2] == "h ";
  }

  /** The hours branch of `ParseHm`, once the digit prefix and the rest are known. */
  lemma ParseHmAfterHours(s: string, hs: string, tail: string, minutes: nat)
    requires DigitPrefix(s) == hs && hs != "" && s[|hs|..] == tail && StartsWith(tail, "h ") && tail != "m"
    requires ParseMinutes(tail[2..]) == Some(minutes)
    ensures ParseHm(s) == Some(DecimalValue(hs) * 60 + minutes)
  {
    var rest := s[|DigitPrefix(s)|..];
    assert rest == tail && rest != "m" && StartsWith(rest, "h ");
  }

  /** The formatted text stands for the whole minutes of the duration, and no minute is lost or added. */
  lemma FormatHmRoundTrip(seconds: int)
    requires seconds > 0
    ensures ParseHm(FormatHm(seconds)) == Some(seconds / 60)
  {
    var minutes := seconds / 60;
    var hours := minutes / 60;
    var mins := minutes % 60;
    if hours > 0 {
      assert FormatHm(seconds) == NatToString(hours) + "h " + NatToString(mins) + "m";
      ParseHoursText(hours, mins);
      assert hours * 60 + mins == minutes;
    } else {
      assert FormatHm(seconds) == NatToString(minutes) + "m";
      ParseMinutesText(minutes);
    }
  }

  /** The hour part appears exactly for durations of an hour or more, and then the minute part is below 60. */
  lemma FormatHmHours(seconds: int)
    requires seconds > 0
    ensures seconds >= 3600 ==> FormatHm(seconds) == NatToString(seconds / 3600) + "h " + NatToString(seconds / 60 % 60) + "m"
    ensures seconds < 3600 ==> FormatHm(seconds) == NatToString(seconds / 60) + "m" && seconds / 60 < 60
  {
    assert seconds / 60 / 60 == seconds / 3600;
  }

  /** The seconds `formatDuration` reads from its argument; `None` when it gives up. */
  function DurationSeconds(v: Prop): Option<int> {
    if !TruthyProp(v) then None
    else match v.value
      case JNum(n) => Some(n)
      case JStr(s) => ParseInt(s)
      case _ => None
  }

  /** `formatDuration(seconds)`. */
  function FormatDuration(v: Prop): string {
    var d := DurationSeconds(v);
    if d.None? || d.value <= 0 then UnknownText else FormatHm(d.value)
  }

  /**
   * `formatDuration` answers "Unknown" exactly for a falsy value, a value that
   * is neither a number nor a string, NaN, or a non-positive number.
   */
  lemma FormatDurationUnknown(v: Prop)
    ensures FormatDuration(v) == UnknownText <==>
      !TruthyProp(v) || !(v.value.JNum? || v.value.JStr?) ||
      DurationSeconds(v).None? || DurationSeconds(v).value <= 0
    ensures DurationSeconds(v).Some? && DurationSeconds(v).value > 0 ==>
      ParseHm(FormatDuration(v)) == Some(DurationSeconds(v).value / 60)
  {
    var d := DurationSeconds(v);
    if d.Some? && d.value > 0 {
      var r := FormatHm(d.value);
      assert r[|r| - 1] == 'm';
      assert UnknownText[|UnknownText| - 1] == 'n';
      FormatHmRoundTrip(d.value);
    }
  }

  /** A numeric string is formatted like the number it spells. */
  lemma FormatDurationOfText(n: nat)
    ensures FormatDuration(Defined(JStr(NatToString(n)))) == FormatDuration(Defined(JNum(n)))
  {
    ParseIntOfNat(n);
    assert NatToString(n) != "";
    assert DurationSeconds(Defined(JStr(NatToString(n)))) == Some(n);
    assert n > 0 ==> DurationSeconds(Defined(JNum(n))) == Some(n);
  }

  /** `parseInt` reads only the leading digits, so "90s" is 90 seconds. */
  lemma FormatDurationReadsLeadingDigits(n: nat, unit: string)
    requires n > 0 && unit != "" && !IsDigit(unit[0])
    ensures FormatDuration(Defined(JStr(NatToString(n) + unit))) == FormatHm(n)
  {
    LeadingDigitsParse(n, unit);
    assert DurationSeconds(Defined(JStr(NatToString(n) + unit))) == Some(n);
  }

  /** `parseInt` of a positive number's digits followed by a non-digit is that number. */
  lemma LeadingDigitsParse(n: nat, unit: string)
    requires n > 0 && unit != "" && !IsDigit(unit[0])
    ensures ParseInt(NatToString(n) + unit) == Some(n)
  {
    var d := NatToString(n);
    var s := d + unit;
    DigitsThen(n, unit);
    assert s[0] == d[0] && IsDigit(d[0]) && d[0] != '0';
    assert !IsJsSpace(s[0]);
    assert TrimStart(s) == s;
    assert ParseUnsigned(s) == Some(DecimalValue(d));
  }
}
