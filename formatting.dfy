/**
 * The strings the watch face displays: temperatures with a degree sign, the time as
 * hour:minute and the date line.
 */
module Formatting {

  import opened Wrappers
  import opened Decimal
  import Text

  const DEGREE_SIGN: char := '\U{00B0}'

  /** The received temperature exactly as Java's `int + "°"` renders it: no rounding, no units. */
  function Temperature(t: Int32): (s: string)
    ensures 2 <= |s| && s[|s| - 1] == DEGREE_SIGN
    ensures s[0] == '-' <==> t < 0
  {
    IntToString(t) + [DEGREE_SIGN]
  }

  /** Reads a displayed temperature back: a decimal integer followed by the degree sign. */
  function ParseTemperature(s: string): Option<int> {
    if s != [] && s[|s| - 1] == DEGREE_SIGN then ParseInt(s[..|s| - 1]) else None
  }

  /** Before the degree sign stand the digits of the value, after a '-' when it is negative. */
  lemma TemperatureDigits(t: Int32)
    ensures t >= 0 ==> AllDigits(Temperature(t)[..|Temperature(t)| - 1])
    ensures t < 0 ==> 3 <= |Temperature(t)| && AllDigits(Temperature(t)[1..|Temperature(t)| - 1])
  {
    var s := Temperature(t);
    assert s[..|s| - 1] == IntToString(t);
    assert s[1..|s| - 1] == IntToString(t)[1..];
  }

  lemma TemperatureRoundTrip(t: Int32)
    ensures ParseTemperature(Temperature(t)) == Some(t as int)
  {
    var s := Temperature(t);
    assert s[..|s| - 1] == IntToString(t);
    IntToStringRoundTrip(t);
  }

  /** `%02d` for a value below 100: exactly two digits, a leading '0' below ten. */
  function TwoDigits(m: nat): (s: string)
    requires m < 100
    ensures |s| == 2 && AllDigits(s)
  {
    if m < 10 then ['0', DigitChar(m)] else NatToString(m)
  }

  /** `String.format("%d:%02d", hour, minute)` for Calendar.HOUR (0 to 11) and Calendar.MINUTE. */
  function TimeString(hour: nat, minute: nat): (s: string)
    requires hour < 12 && minute < 60
    ensures |s| == if hour < 10 then 4 else 5
    ensures s[|s| - 3] == ':'
  {
    NatToString(hour) + [':'] + TwoDigits(minute)
  }

  /** Splits a time string at the colon three characters from its end. */
  function ParseTime(s: string): Option<(nat, nat)> {
    if 4 <= |s| && s[|s| - 3] == ':' && AllDigits(s[..|s| - 3]) && AllDigits(s[|s| - 2..])
    then Some((ParseDigits(s[..|s| - 3]), ParseDigits(s[|s| - 2..])))
    else None
  }

  /** The hour is unpadded and the minute is two digits, so both are read back exactly. */
  lemma TimeRoundTrip(hour: nat, minute: nat)
    requires hour < 12 && minute < 60
    ensures ParseTime(TimeString(hour, minute)) == Some((hour, minute))
  {
    var s := TimeString(hour, minute);
    assert s[..|s| - 3] == NatToString(hour);
    assert s[|s| - 2..] == TwoDigits(minute);
    ParseNatToString(hour);
    ParseTwoDigits(minute);
  }

  lemma ParseTwoDigits(m: nat)
    requires m < 100
    ensures ParseDigits(TwoDigits(m)) == m
  {
    var s := TwoDigits(m);
    if m < 10 {
      assert s[..1] == ['0'] && ['0'][..0] == [];
      assert ParseDigits(['0']) == 0;
      assert ParseDigits(s) == 10 * ParseDigits(s[..1]) + DigitValue(s[1]);
    } else {
      ParseNatToString(m);
    }
  }

  /** The date line "weekday, month day year" from the locale's weekday and month names. */
  function DateString(weekDay: string, month: string, dayOfMonth: Int32, year: Int32): string {
    weekDay + ", " + month + " " + IntToString(dayOfMonth) + " " + IntToString(year)
  }

  /**
   * Reads a date line back from its end: the year and the day are the last two words, the
   * month the word before them, and the weekday whatever precedes the ", " before the month.
   */
  function ParseDate(s: string): Option<(string, string, int, int)> {
    match Text.SplitLast(' ', s)
    case None => None
    case Some((beforeYear, y)) =>
      match Text.SplitLast(' ', beforeYear)
      case None => None
      case Some((beforeDay, d)) =>
        match Text.SplitLast(' ', beforeDay)
        case None => None
        case Some((beforeMonth, m)) =>
          if beforeMonth != [] && beforeMonth[|beforeMonth| - 1] == ',' && ParseInt(d).Some? && ParseInt(y).Some?
          then Some((beforeMonth[..|beforeMonth| - 1], m, ParseInt(d).value, ParseInt(y).value))
          else None
  }

  /**
   * The date line keeps its four fields apart: given a one-word month name (the "MMM" pattern
   * gives an abbreviation), the weekday, the month, the day and the year are all read back.
   */
  lemma DateStringFields(weekDay: string, month: string, dayOfMonth: Int32, year: Int32)
    requires ' ' !in month
    ensures ParseDate(DateString(weekDay, month, dayOfMonth, year))
            == Some((weekDay, month, dayOfMonth as int, year as int))
  {
    var d := IntToString(dayOfMonth);
    var y := IntToString(year);
    var beforeMonth := weekDay + [','];
    var beforeDay := beforeMonth + [' '] + month;
    var beforeYear := beforeDay + [' '] + d;
    assert DateString(weekDay, month, dayOfMonth, year) == beforeYear + [' '] + y;
    assert ' ' !in d && ' ' !in y by {
      assert forall k :: 0 <= k < |d| ==> d[k] == '-' || IsDigit(d[k]);
      assert forall k :: 0 <= k < |y| ==> y[k] == '-' || IsDigit(y[k]);
    }
    Text.SplitLastOfJoin(' ', beforeYear, y);
    Text.SplitLastOfJoin(' ', beforeDay, d);
    Text.SplitLastOfJoin(' ', beforeMonth, month);
    assert beforeMonth[..|beforeMonth| - 1] == weekDay;
    IntToStringRoundTrip(dayOfMonth);
    IntToStringRoundTrip(year);
  }

  /** Whatever the weekday and month names, the last word of the date line is the year. */
  lemma DateStringEndsWithYear(weekDay: string, month: string, dayOfMonth: Int32, year: Int32)
    ensures ParseInt(Text.AfterLast(' ', DateString(weekDay, month, dayOfMonth, year))) == Some(year as int)
  {
    var y := IntToString(year);
    var p := weekDay + ", " + month + " " + IntToString(dayOfMonth);
    assert DateString(weekDay, month, dayOfMonth, year) == p + [' '] + y;
    Text.AfterLastOfJoin(' ', p, y);
    IntToStringRoundTrip(year);
  }

}
