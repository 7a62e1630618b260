/**
 * The calendar facts the bot uses once a timestamp has been parsed and
 * moved into Asia/Dhaka: a month, a day of the month, English
 * month names, and the `%m-%d` rendering of a date.
 */
module Calendar {
  import opened Text

  type Month = m: int | 1 <= m <= 12 witness 1
  type Day = d: int | 1 <= d <= 31 witness 1

  /** The month and day of a parsed birthday, in Asia/Dhaka. */
  datatype MonthDay = MonthDay(month: Month, day: Day)

  /** `calendar.month_name[m]` (English locale). */
  function MonthName(m: Month): (r: string)
    ensures r != []
  {
    match m
    case 1 => "January"
    case 2 => "February"
    case 3 => "March"
    case 4 => "April"
    case 5 => "May"
    case 6 => "June"
    case 7 => "July"
    case 8 => "August"
    case 9 => "September"
    case 10 => "October"
    case 11 => "November"
    case 12 => "December"
  }

  /** The `%m-%d` date format: zero-padded month, a dash, zero-padded day. */
  function FormatMonthDay(md: MonthDay): (r: string)
    ensures |r| == 5 && r[2] == '-'
  {
    TwoDigits(md.month) + "-" + TwoDigits(md.day)
  }

  /** Reads the month and day back out of a `%m-%d` string. */
  function MonthDayFields(s: string): (int, int)
    requires |s| == 5 && AllDigits(s[..2]) && AllDigits(s[3..])
  {
    (DecimalValue(s[..2]), DecimalValue(s[3..]))
  }

  /** `%m-%d` loses nothing: the month and day can be read back from it. */
  lemma FormatMonthDayRoundTrip(md: MonthDay)
    ensures var s := FormatMonthDay(md);
      AllDigits(s[..2]) && AllDigits(s[3..]) && MonthDayFields(s) == (md.month, md.day)
  {
    var s := FormatMonthDay(md);
    assert s[..2] == TwoDigits(md.month);
    assert s[3..] == TwoDigits(md.day);
    TwoDigitsRoundTrip(md.month);
    TwoDigitsRoundTrip(md.day);
  }

  /**
   * Comparing `%m-%d` strings, as the daily check does, is the same as
   * comparing month and day.
   */
  lemma FormatMonthDayInjective(a: MonthDay, b: MonthDay)
    ensures FormatMonthDay(a) == FormatMonthDay(b) <==> a == b
  {
    if FormatMonthDay(a) == FormatMonthDay(b) {
      FormatMonthDayRoundTrip(a);
      FormatMonthDayRoundTrip(b);
    }
  }
}
