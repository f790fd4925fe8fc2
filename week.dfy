/**
 * The current week (Monday to Sunday) around "today", and the date of a named day in it.
 * The clock read `datetime.now()` is the parameter `today`; the time of day plays no part
 * in the results, so a day is its ordinal number.
 */
module Week {
  import opened Calendar
  import opened PyStr
  import opened Wrappers

  /** The Monday of the week holding `today`: `today - timedelta(days=today.weekday())`. */
  function MondayOf(today: Ordinal): (monday: Ordinal)
    ensures Weekday(monday) == 0
    ensures monday <= today < monday + 7
  {
    today - Weekday(today)
  }

  /**
   * `get_current_week_dates()`: the Monday and the Sunday of the current week. Adding six
   * days to a Monday of the last week of year 9999 leaves the range of `datetime` and raises
   * `OverflowError`; that outcome is `None`.
   */
  function CurrentWeek(today: Ordinal): (week: Option<(Ordinal, Ordinal)>)
    ensures week.Some? ==> var (monday, sunday) := week.value;
      && Weekday(monday) == 0 && Weekday(sunday) == 6
      && sunday == monday + 6
      && monday <= today <= sunday
    ensures week.None? <==> MondayOf(today) + 6 > MaxOrdinal
  {
    var monday := MondayOf(today);
    if monday + 6 <= MaxOrdinal then Some((monday, monday + 6)) else None
  }

  /** The week of `today` is the only Monday-to-Sunday span that holds `today`. */
  lemma WeekIsUnique(today: Ordinal, m: int)
    requires Weekday(m) == 0 && m <= today <= m + 6
    ensures m == MondayOf(today)
  {
    var k := MondayOf(today);
    assert (m - k) % 7 == 0;
  }

  /** The week range is missing exactly for the days from the last Monday, 9999-12-27, on. */
  lemma CurrentWeekOverflows(today: Ordinal)
    ensures CurrentWeek(today).None? <==> today >= MaxOrdinal - 4
  {
    assert Weekday(MaxOrdinal) == 4;
  }

  /** The keys of the `days` dictionary, in the order of their offsets. */
  const DayNames: seq<string> :=
    ["monday", "tuesday", "wednesday", "thursday", "friday", "saturday", "sunday"]

  /** `days.get(key, 0)`: the position of a lower-case day name; unknown names give 0. */
  function DayIndex(key: string): (k: int)
    ensures 0 <= k < 7
    ensures key in DayNames ==> DayNames[k] == key
    ensures key !in DayNames ==> k == 0
  {
    if key == "monday" then 0
    else if key == "tuesday" then 1
    else if key == "wednesday" then 2
    else if key == "thursday" then 3
    else if key == "friday" then 4
    else if key == "saturday" then 5
    else if key == "sunday" then 6
    else 0
  }

  /** `days.get(day_name.lower(), 0)`: the offset of a day from Monday. */
  function DayOffset(dayName: string): (k: int)
    ensures 0 <= k < 7
    ensures Lower(dayName) in DayNames ==> DayNames[k] == Lower(dayName)
    ensures Lower(dayName) !in DayNames ==> k == 0
  {
    DayIndex(Lower(dayName))
  }

  /** The `YYYY-MM-DD` text of the day `k` days after the Monday of the week of `today`. */
  function WeekDayDate(today: Ordinal, k: int): (r: Option<string>)
    requires 0 <= k < 7
    ensures r.None? <==> MondayOf(today) + k > MaxOrdinal
    ensures r.Some? ==> IsoShaped(r.value)
  {
    var target := MondayOf(today) + k;
    if target <= MaxOrdinal then Some(IsoOfOrdinal(target)) else None
  }

  /**
   * `get_day_of_week_date(day_name)`: the `YYYY-MM-DD` text of Monday plus the day's offset.
   * Only that one date is computed, so only a target past 9999-12-31 overflows (`None`).
   */
  function DayOfWeekDate(dayName: string, today: Ordinal): (r: Option<string>)
    ensures r.None? <==> MondayOf(today) + DayOffset(dayName) > MaxOrdinal
    ensures r.Some? ==> IsoShaped(r.value)
  {
    WeekDayDate(today, DayOffset(dayName))
  }

  /** The text read back is a valid date: Monday of the current week plus the day's offset. */
  lemma DayOfWeekDateReadsBack(dayName: string, today: Ordinal)
    requires DayOfWeekDate(dayName, today).Some?
    ensures ValidDate(ParseIso(DayOfWeekDate(dayName, today).value))
    ensures ToOrdinal(ParseIso(DayOfWeekDate(dayName, today).value))
      == MondayOf(today) + DayOffset(dayName)
  {
    var k := DayOffset(dayName);
    assert DayOfWeekDate(dayName, today) == WeekDayDate(today, k);
    WeekDayDateReadsBack(today, k);
  }

  /** The text of day `k` of the week reads back as a valid date: Monday plus `k`. */
  lemma WeekDayDateReadsBack(today: Ordinal, k: int)
    requires 0 <= k < 7 && WeekDayDate(today, k).Some?
    ensures ValidDate(ParseIso(WeekDayDate(today, k).value))
    ensures ToOrdinal(ParseIso(WeekDayDate(today, k).value)) == MondayOf(today) + k
  {
    IsoOfOrdinalReadsBack(MondayOf(today) + k);
  }

  /** The named day falls in the current week, on the weekday that the name says. */
  lemma DayOfWeekDateInWeek(dayName: string, today: Ordinal)
    requires DayOfWeekDate(dayName, today).Some?
    ensures ValidDate(ParseIso(DayOfWeekDate(dayName, today).value))
    ensures var n := ToOrdinal(ParseIso(DayOfWeekDate(dayName, today).value));
      && Weekday(n) == DayOffset(dayName)
      && MondayOf(today) <= n <= MondayOf(today) + 6
  {
    DayOfWeekDateReadsBack(dayName, today);
    WeekdayFromMonday(MondayOf(today), DayOffset(dayName));
  }

  /**
   * A day name, in any case, gives the date of that weekday in the current week:
   * "Friday" gives this week's Friday.
   */
  lemma NamedDayDate(dayName: string, today: Ordinal, j: int)
    requires 0 <= j < 7 && Lower(dayName) == DayNames[j]
    requires DayOfWeekDate(dayName, today).Some?
    ensures ValidDate(ParseIso(DayOfWeekDate(dayName, today).value))
    ensures ToOrdinal(ParseIso(DayOfWeekDate(dayName, today).value)) == MondayOf(today) + j
    ensures Weekday(ToOrdinal(ParseIso(DayOfWeekDate(dayName, today).value))) == j
  {
    DayIndexOfName(j);
    assert DayOffset(dayName) == DayIndex(DayNames[j]) == j;
    assert DayOfWeekDate(dayName, today) == WeekDayDate(today, j);
    WeekDayDateReadsBack(today, j);
    WeekdayFromMonday(MondayOf(today), j);
  }

  /** Each day name is looked up at its own position: the seven names are distinct. */
  lemma DayIndexOfName(j: int)
    requires 0 <= j < 7
    ensures DayIndex(DayNames[j]) == j
  {
    if j == 0 {
    } else if j == 1 {
    } else if j == 2 {
    } else if j == 3 {
    } else if j == 4 {
    } else if j == 5 {
    } else {
    }
  }

  /** `k` days after a Monday is weekday `k`. */
  lemma WeekdayFromMonday(monday: int, k: int)
    requires Weekday(monday) == 0 && 0 <= k < 7
    ensures Weekday(monday + k) == k
  {
  }

  /** Day names are matched without regard to case. */
  lemma {:induction false} DayOfWeekDateIgnoresCase(a: string, b: string, today: Ordinal)
    requires Lower(a) == Lower(b)
    ensures DayOfWeekDate(a, today) == DayOfWeekDate(b, today)
  {
    var key := Lower(a);
    assert DayOffset(a) == DayIndex(key) == DayOffset(b);
    assert DayOfWeekDate(a, today) == WeekDayDate(today, DayIndex(key));
  }

  /** A name that is not a day of the week gives the Monday of the week. */
  lemma UnknownDayIsMonday(dayName: string, today: Ordinal)
    requires Lower(dayName) !in DayNames
    ensures DayOfWeekDate(dayName, today) == Some(IsoOfOrdinal(MondayOf(today)))
  {
    assert DayOffset(dayName) == DayIndex(Lower(dayName)) == 0;
  }
}
