/** `formatDate` of the version sidebar: the relative label for a snapshot from the
    milliseconds between its save time and now. The clock is read by the caller and
    the locale date of old snapshots is left opaque. */
module Sidebar {
  import opened Text

  const MinuteMs: int := 60000
  const HourMs: int := 3600000
  const DayMs: int := 86400000

  /** The label: just now, minutes, hours or days ago, or the locale date. */
  datatype Age = JustNow | MinutesAgo(minutes: int) | HoursAgo(hours: int) | DaysAgo(days: int) | LocaleDate

  /** `Math.floor(diff / unit)`. Dafny's `/` rounds down for a positive divisor, so it is
      the floor also for negative differences. */
  function FloorDiv(diff: int, unit: int): (q: int)
    requires unit > 0
    ensures q * unit <= diff < (q + 1) * unit
  {
    diff / unit
  }

  /** The ordered early returns of `formatDate`. */
  function FormatAge(diff: int): Age {
    var minutes := FloorDiv(diff, MinuteMs);
    var hours := FloorDiv(diff, HourMs);
    var days := FloorDiv(diff, DayMs);
    if minutes < 1 then JustNow
    else if minutes < 60 then MinutesAgo(minutes)
    else if hours < 24 then HoursAgo(hours)
    else if days < 7 then DaysAgo(days)
    else LocaleDate
  }

  /** The label text; `localeDate` is what `toLocaleDateString` gives. */
  function FormatDate(diff: int, localeDate: string): string {
    match FormatAge(diff)
    case JustNow => "たった今"
    case MinutesAgo(m) => IntString(m) + "分前"
    case HoursAgo(h) => IntString(h) + "時間前"
    case DaysAgo(d) => IntString(d) + "日前"
    case LocaleDate => localeDate
  }

  /** Each label covers one range of differences, and the count it shows is the floor of
      the difference in its unit. A difference below one minute, negative ones included,
      is just now. */
  lemma FormatAgeRanges(diff: int)
    ensures FormatAge(diff) == JustNow <==> diff < MinuteMs
    ensures FormatAge(diff).MinutesAgo? <==> MinuteMs <= diff < HourMs
    ensures FormatAge(diff).HoursAgo? <==> HourMs <= diff < DayMs
    ensures FormatAge(diff).DaysAgo? <==> DayMs <= diff < 7 * DayMs
    ensures FormatAge(diff) == LocaleDate <==> 7 * DayMs <= diff
    ensures FormatAge(diff).MinutesAgo? ==> 1 <= FormatAge(diff).minutes < 60
                                            && FormatAge(diff).minutes == diff / MinuteMs
    ensures FormatAge(diff).HoursAgo? ==> 1 <= FormatAge(diff).hours < 24
    ensures FormatAge(diff).DaysAgo? ==> 1 <= FormatAge(diff).days < 7
  {
    var minutes := FloorDiv(diff, MinuteMs);
    var hours := FloorDiv(diff, HourMs);
    var days := FloorDiv(diff, DayMs);
    assert minutes < 1 <==> diff < MinuteMs;
    assert minutes < 60 <==> diff < HourMs;
    assert hours < 24 <==> diff < DayMs;
    assert days < 7 <==> diff < 7 * DayMs;
    assert hours >= 1 <==> diff >= HourMs;
    assert days >= 1 <==> diff >= DayMs;
  }

  /** A later difference never gets an earlier label. */
  function Rank(a: Age): nat {
    match a
    case JustNow => 0
    case MinutesAgo(_) => 1
    case HoursAgo(_) => 2
    case DaysAgo(_) => 3
    case LocaleDate => 4
  }

  lemma FormatAgeMonotone(d1: int, d2: int)
    requires d1 <= d2
    ensures Rank(FormatAge(d1)) <= Rank(FormatAge(d2))
  {
    FormatAgeRanges(d1);
    FormatAgeRanges(d2);
  }

  lemma FormatDateExamples()
    ensures FormatDate(-5000, "") == "たった今"
    ensures FormatDate(59999, "") == "たった今"
    ensures FormatDate(60000, "") == "1分前"
    ensures FormatDate(3599999, "") == "59分前"
    ensures FormatDate(3600000, "") == "1時間前"
    ensures FormatDate(86400000, "") == "1日前"
    ensures FormatDate(7 * 86400000, "10月14日") == "10月14日"
  {
    assert IntString(59) == "59" by {
      assert NatString(59) == NatString(5) + [DigitChar(9)];
    }
  }
}
