/**
 * Timestamps are whole seconds since 1970-01-01 00:00:00 (no time zone).
 * This module gives the calendar date of a timestamp (`.dt.date`), the
 * whole-day difference of two timestamps (`.dt.days` of a Timedelta) and
 * the `%Y-%m-%d` rendering of a date (`.dt.strftime('%Y-%m-%d')`).
 */
module Calendar {
  import opened Wrappers
  import opened Text

  const SecondsPerDay: int := 86400

  /** The calendar day (days since 1970-01-01) a timestamp falls on; time of day is discarded. */
  function DayOf(seconds: int): (day: int)
    ensures SecondsPerDay * day <= seconds < SecondsPerDay * (day + 1)
  {
    seconds / SecondsPerDay
  }

  /**
   * `(later - earlier).dt.days`: the number of whole days in the difference,
   * rounded toward negative infinity as pandas does for a negative Timedelta.
   */
  function WholeDays(earlier: int, later: int): (days: int)
    ensures SecondsPerDay * days <= later - earlier < SecondsPerDay * (days + 1)
    ensures later >= earlier <==> days >= 0
  {
    (later - earlier) / SecondsPerDay
  }

  /** Two timestamps on the same calendar day are less than a day apart. */
  lemma SameDayWithinADay(a: int, b: int)
    requires DayOf(a) == DayOf(b) && a <= b
    ensures WholeDays(a, b) == 0
  {
  }

  datatype Civil = Civil(year: int, month: int, day: int)

  /*
   * The conversion between day numbers and dates counts in 400-year eras of
   * 146097 days, each year of an era starting on 1 March, so that the leap
   * day is the last day of a year. The helpers below are its steps.
   */

  /** The year (0..399) within its era of the `dayOfEra`-th day of that era. */
  function YearOfEra(dayOfEra: int): (y: int)
    requires 0 <= dayOfEra < 146097
    ensures 0 <= y < 400
  {
    (dayOfEra - dayOfEra / 1460 + dayOfEra / 36524 - dayOfEra / 146096) / 365
  }

  /** The number of days before year `yearOfEra` of an era. */
  function DaysBeforeYear(yearOfEra: int): int
  {
    365 * yearOfEra + yearOfEra / 4 - yearOfEra / 100
  }

  /**
   * The day of the year stays within 0..365. The proof goes one century of
   * the era at a time, where the century terms of the year formula are
   * constants.
   */
  lemma DayOfYearRange(dayOfEra: int)
    requires 0 <= dayOfEra < 146097
    ensures 0 <= dayOfEra - DaysBeforeYear(YearOfEra(dayOfEra)) <= 365
  {
    var century := dayOfEra / 36524;
    assert 0 <= century <= 4;
    assert dayOfEra / 146096 == if century == 4 then 1 else 0;
  }

  /** The month (0 = March .. 11 = February) of the `dayOfYear`-th day of a March-based year. */
  function ShiftedMonth(dayOfYear: int): (m: int)
    requires 0 <= dayOfYear <= 365
    ensures 0 <= m <= 11
  {
    (5 * dayOfYear + 2) / 153
  }

  /** The number of days before shifted month `m` of a March-based year. */
  function DaysBeforeMonth(m: int): int
  {
    (153 * m + 2) / 5
  }

  lemma DayOfMonthRange(dayOfYear: int)
    requires 0 <= dayOfYear <= 365
    ensures 0 <= dayOfYear - DaysBeforeMonth(ShiftedMonth(dayOfYear)) <= 30
  {
  }

  /** The proleptic Gregorian date of a day number (days since 1970-01-01). */
  function CivilFromDays(days: int): (c: Civil)
    ensures 1 <= c.month <= 12 && 1 <= c.day <= 31
  {
    var z := days + 719468;
    var era := z / 146097;
    var dayOfEra := z - era * 146097;
    var yearOfEra := YearOfEra(dayOfEra);
    DayOfYearRange(dayOfEra);
    var dayOfYear := dayOfEra - DaysBeforeYear(yearOfEra);
    var shifted := ShiftedMonth(dayOfYear);
    DayOfMonthRange(dayOfYear);
    var day := dayOfYear - DaysBeforeMonth(shifted) + 1;
    var month := if shifted < 10 then shifted + 3 else shifted - 9;
    var year := yearOfEra + era * 400 + (if month <= 2 then 1 else 0);
    Civil(year, month, day)
  }

  /** The day number of a proleptic Gregorian date: the inverse of CivilFromDays. */
  function DaysFromCivil(c: Civil): int
  {
    var y := if c.month <= 2 then c.year - 1 else c.year;
    var era := y / 400;
    var yearOfEra := y - era * 400;
    var shifted := if c.month > 2 then c.month - 3 else c.month + 9;
    var dayOfYear := DaysBeforeMonth(shifted) + c.day - 1;
    era * 146097 + DaysBeforeYear(yearOfEra) + dayOfYear - 719468
  }

  lemma EraOfYear(era: int, yearOfEra: int)
    requires 0 <= yearOfEra < 400
    ensures (yearOfEra + era * 400) / 400 == era
  {
  }

  /** Every day number has exactly one calendar date: converting back recovers it. */
  lemma CivilRoundTrip(days: int)
    ensures DaysFromCivil(CivilFromDays(days)) == days
  {
    var z := days + 719468;
    var era := z / 146097;
    var dayOfEra := z - era * 146097;
    var yearOfEra := YearOfEra(dayOfEra);
    EraOfYear(era, yearOfEra);
  }

  /** A year as `%Y` renders it: at least four digits (a negative year, outside the range of a pandas Timestamp, keeps its sign). */
  function YearText(year: int): string
  {
    if year >= 0 then ZeroPad(year, 4) else IntToString(year)
  }

  /** `%Y-%m-%d` of a day number. */
  function IsoDate(days: int): string
  {
    var c := CivilFromDays(days);
    YearText(c.year) + "-" + ZeroPad(c.month, 2) + "-" + ZeroPad(c.day, 2)
  }

  /** Day 0 is the Unix epoch, 1 January 1970. */
  lemma EpochAnchor()
    ensures CivilFromDays(0) == Civil(1970, 1, 1)
    ensures IsoDate(0) == "1970-01-01"
  {
    assert YearOfEra(135080) == 369;
    assert CivilFromDays(0) == Civil(1970, 1, 1);
  }

  /** `str(Timestamp)` of a whole-second timestamp: `%Y-%m-%d %H:%M:%S`. */
  function IsoDateTime(seconds: int): string
  {
    var secondOfDay := seconds % SecondsPerDay;
    IsoDate(DayOf(seconds)) + " " + ZeroPad(secondOfDay / 3600, 2) + ":"
      + ZeroPad(secondOfDay % 3600 / 60, 2) + ":" + ZeroPad(secondOfDay % 60, 2)
  }

  /** Reads `YYYY-MM-DD` back into a day number; `None` for any other shape. */
  function ParseIsoDate(s: string): Option<int>
  {
    if |s| == 10 && s[4] == '-' && s[7] == '-' && AllDigits(s[..4]) && AllDigits(s[5..7]) && AllDigits(s[8..])
    then Some(DaysFromCivil(Civil(DigitsValue(s[..4]), DigitsValue(s[5..7]), DigitsValue(s[8..]))))
    else None
  }

  /**
   * For a date in years 0 to 9999, `%Y-%m-%d` is exactly ten characters with
   * dashes at positions 4 and 7, and reading it back yields the same day.
   */
  lemma IsoDateRoundTrip(days: int)
    requires 0 <= CivilFromDays(days).year <= 9999
    ensures |IsoDate(days)| == 10 && IsoDate(days)[4] == '-' && IsoDate(days)[7] == '-'
    ensures ParseIsoDate(IsoDate(days)) == Some(days)
  {
    var c := CivilFromDays(days);
    assert Pow10(4) == 10000 && Pow10(2) == 100;
    ZeroPadWidth(c.year, 4);
    ZeroPadWidth(c.month, 2);
    ZeroPadWidth(c.day, 2);
    var y, m, d := ZeroPad(c.year, 4), ZeroPad(c.month, 2), ZeroPad(c.day, 2);
    var s := IsoDate(days);
    assert s == y + "-" + m + "-" + d;
    assert s[..4] == y && s[5..7] == m && s[8..] == d;
    CivilRoundTrip(days);
  }
}
