/**
 * Dates as Python's `date` and `datetime` represent them: the proleptic Gregorian
 * calendar from 0001-01-01 (ordinal day 1, a Monday) to 9999-12-31.
 */
module Calendar {

  /** The ordinal of 9999-12-31, Python's `date.max.toordinal()`. */
  const MaxOrdinal: int := 3652059

  /** A day Python can represent, as its `toordinal()` number. */
  type Ordinal = n: int | 1 <= n <= MaxOrdinal witness 1

  /** Python's `weekday()`: Monday is 0, Sunday is 6; ordinal 1 is a Monday. */
  function Weekday(n: int): (w: int)
    ensures 0 <= w < 7
    ensures (n - w) % 7 == 1
  {
    (n + 6) % 7
  }

  datatype Date = Date(year: int, month: int, day: int)

  /** Gregorian leap years: every fourth, except centuries not divisible by 400. */
  predicate IsLeap(y: int)
  {
    y % 4 == 0 && (y % 100 != 0 || y % 400 == 0)
  }

  function DaysInYear(y: int): int
  {
    if IsLeap(y) then 366 else 365
  }

  function DaysInMonth(y: int, m: int): (n: int)
    requires 1 <= m <= 12
    ensures 28 <= n <= 31
  {
    if m == 2 then (if IsLeap(y) then 29 else 28)
    else if m == 4 || m == 6 || m == 9 || m == 11 then 30
    else 31
  }

  /** Days in the years before `y`, counted one year at a time. */
  function DaysBeforeYear(y: int): int
    requires y >= 1
  {
    if y == 1 then 0 else DaysBeforeYear(y - 1) + DaysInYear(y - 1)
  }

  /** Days in the months of year `y` before month `m`. */
  function DaysBeforeMonth(y: int, m: int): int
    requires 1 <= m <= 13
  {
    if m == 1 then 0 else DaysBeforeMonth(y, m - 1) + DaysInMonth(y, m - 1)
  }

  /** A date Python can represent: years 1..9999 and a day that exists in its month. */
  predicate ValidDate(d: Date)
  {
    1 <= d.year <= 9999 && 1 <= d.month <= 12 && 1 <= d.day <= DaysInMonth(d.year, d.month)
  }

  /** Python's `date(y, m, d).toordinal()`: every representable date has an ordinal in range. */
  function ToOrdinal(d: Date): (n: int)
    requires ValidDate(d)
    ensures 1 <= n <= MaxOrdinal
  {
    DaysBeforeYearMonotone(1, d.year);
    DaysBeforeMonthAtLeast(d.year, d.month);
    DaysBeforeMonthBound(d.year, d.month + 1);
    DaysBeforeYearMonotone(d.year + 1, 10000);
    DaysBefore10000();
    DaysBeforeYear(d.year) + DaysBeforeMonth(d.year, d.month) + d.day
  }

  /** Going from year `x - 1` to `x` adds one to the count of multiples of 4 exactly when `x` is one. */
  lemma QuarterStep(x: int)
    requires x >= 1
    ensures x / 4 - (x - 1) / 4 == if x % 4 == 0 then 1 else 0
  {
  }

  /** The same step for the count of multiples of 100. */
  lemma CenturyStep(x: int)
    requires x >= 1
    ensures x / 100 - (x - 1) / 100 == if x % 100 == 0 then 1 else 0
  {
  }

  /** The same step for the count of multiples of 400. */
  lemma QuadricentennialStep(x: int)
    requires x >= 1
    ensures x / 400 - (x - 1) / 400 == if x % 400 == 0 then 1 else 0
  {
  }

  /** Multiples of 400 are multiples of 100, which are multiples of 4. */
  lemma Divisibility(x: int)
    ensures x % 400 == 0 ==> x % 100 == 0
    ensures x % 100 == 0 ==> x % 4 == 0
  {
  }

  /** The year-by-year count agrees with the closed form Python's `_days_before_year` uses. */
  lemma {:induction false} DaysBeforeYearClosedForm(y: int)
    requires y >= 1
    ensures DaysBeforeYear(y) == 365 * (y - 1) + (y - 1) / 4 - (y - 1) / 100 + (y - 1) / 400
  {
    if y > 1 {
      var x := y - 1;
      DaysBeforeYearClosedForm(x);
      QuarterStep(x);
      CenturyStep(x);
      QuadricentennialStep(x);
      Divisibility(x);
      var leapDays := (x / 4 - (x - 1) / 4) - (x / 100 - (x - 1) / 100) + (x / 400 - (x - 1) / 400);
      assert leapDays == DaysInYear(x) - 365;
      assert DaysBeforeYear(y) == DaysBeforeYear(x) + DaysInYear(x);
    }
  }

  /** A full year of 365 or 366 days separates consecutive year starts, so later years start later. */
  lemma {:induction false} DaysBeforeYearMonotone(a: int, b: int)
    requires 1 <= a <= b
    ensures DaysBeforeYear(a) + 365 * (b - a) <= DaysBeforeYear(b)
  {
    if a < b {
      DaysBeforeYearMonotone(a, b - 1);
    }
  }

  /** The twelve months make up the year. */
  lemma MonthsMakeYear(y: int)
    ensures DaysBeforeMonth(y, 13) == DaysInYear(y)
  {
    var feb := if IsLeap(y) then 29 else 28;
    assert DaysBeforeMonth(y, 2) == 31;
    assert DaysBeforeMonth(y, 3) == 31 + feb;
    assert DaysBeforeMonth(y, 4) == 62 + feb;
    assert DaysBeforeMonth(y, 5) == 92 + feb;
    assert DaysBeforeMonth(y, 6) == 123 + feb;
    assert DaysBeforeMonth(y, 7) == 153 + feb;
    assert DaysBeforeMonth(y, 8) == 184 + feb;
    assert DaysBeforeMonth(y, 9) == 215 + feb;
    assert DaysBeforeMonth(y, 10) == 245 + feb;
    assert DaysBeforeMonth(y, 11) == 276 + feb;
    assert DaysBeforeMonth(y, 12) == 306 + feb;
  }

  /** The months before any month of a year hold no more days than the year. */
  lemma {:induction false} DaysBeforeMonthBound(y: int, m: int)
    requires 1 <= m <= 13
    ensures DaysBeforeMonth(y, m) <= DaysInYear(y)
    decreases 13 - m
  {
    if m < 13 {
      DaysBeforeMonthBound(y, m + 1);
    } else {
      MonthsMakeYear(y);
    }
  }

  /** Day counts before a month are never negative. */
  lemma {:induction false} DaysBeforeMonthAtLeast(y: int, m: int)
    requires 1 <= m <= 13
    ensures DaysBeforeMonth(y, m) >= 0
  {
    if m > 1 {
      DaysBeforeMonthAtLeast(y, m - 1);
    }
  }

  /** The first day after 9999-12-31 would be ordinal 3652060. */
  lemma DaysBefore10000()
    ensures DaysBeforeYear(10000) == MaxOrdinal
  {
    DaysBeforeYearClosedForm(10000);
  }

  /** No year has more than 366 days. */
  lemma {:induction false} DaysBeforeYearAtMost(y: int)
    requires y >= 1
    ensures DaysBeforeYear(y) <= 366 * (y - 1)
  {
    if y > 1 {
      DaysBeforeYearAtMost(y - 1);
    }
  }

  /** The year whose days hold day `n`, searched from year `y` upward. */
  function YearOf(y: int, n: int): (r: int)
    requires y >= 1 && DaysBeforeYear(y) < n
    ensures r >= y
    ensures DaysBeforeYear(r) < n <= DaysBeforeYear(r) + DaysInYear(r)
    decreases n - DaysBeforeYear(y)
  {
    if n > DaysBeforeYear(y) + DaysInYear(y) then YearOf(y + 1, n) else y
  }

  /** The month of year `y` that holds day `rem` of that year, searched from month `m` upward. */
  function MonthOf(y: int, m: int, rem: int): (r: int)
    requires 1 <= m <= 12
    requires DaysBeforeMonth(y, m) < rem <= DaysInYear(y)
    ensures m <= r <= 12
    ensures DaysBeforeMonth(y, r) < rem <= DaysBeforeMonth(y, r) + DaysInMonth(y, r)
    decreases 12 - m
  {
    DaysBeforeMonthBound(y, m + 1);
    MonthsMakeYear(y);
    if m < 12 && rem > DaysBeforeMonth(y, m) + DaysInMonth(y, m) then MonthOf(y, m + 1, rem) else m
  }

  /** Python's `date.fromordinal(n)`: the calendar date of ordinal day `n`. */
  function FromOrdinal(n: Ordinal): (d: Date)
    ensures ValidDate(d)
    ensures ToOrdinal(d) == n
  {
    var start := (n - 1) / 366 + 1;
    assert DaysBeforeYear(start) < n by {
      DaysBeforeYearAtMost(start);
    }
    var y := YearOf(start, n);
    assert y <= 9999 by {
      DaysBefore10000();
      if y >= 10000 {
        DaysBeforeYearMonotone(10000, y);
      }
    }
    var rem := n - DaysBeforeYear(y);
    var m := MonthOf(y, 1, rem);
    Date(y, m, rem - DaysBeforeMonth(y, m))
  }

  /** The decimal digit character for `k`. */
  function Digit(k: int): (c: char)
    requires 0 <= k < 10
    ensures '0' <= c <= '9'
  {
    ('0' as int + k) as char
  }

  /** The value of a decimal digit character. */
  function DigitValue(c: char): int
  {
    c as int - '0' as int
  }

  /** `n` written with exactly `width` decimal digits, zero-padded on the left. */
  function Padded(n: int, width: nat): (s: string)
    requires 0 <= n
    ensures |s| == width
    ensures forall i :: 0 <= i < |s| ==> '0' <= s[i] <= '9'
  {
    if width == 0 then "" else Padded(n / 10, width - 1) + [Digit(n % 10)]
  }

  /** The number written by a string of decimal digits. */
  function DigitsValue(s: string): int
  {
    if s == [] then 0 else 10 * DigitsValue(s[..|s| - 1]) + DigitValue(s[|s| - 1])
  }

  /** Reading back a zero-padded number gives the number, when it fits the width. */
  lemma {:induction false} PaddedRoundTrip(n: int, width: nat, bound: int)
    requires 0 <= n < bound && bound == Power10(width)
    ensures DigitsValue(Padded(n, width)) == n
  {
    if width > 0 {
      var s := Padded(n, width);
      assert s[..|s| - 1] == Padded(n / 10, width - 1);
      PaddedRoundTrip(n / 10, width - 1, Power10(width - 1));
    }
  }

  /** Ten to the power `k`. */
  function Power10(k: nat): (p: int)
    ensures p >= 1
  {
    if k == 0 then 1 else 10 * Power10(k - 1)
  }

  /** Ten characters: four digits, a dash, two digits, a dash, two digits. */
  predicate IsoShaped(s: string)
  {
    |s| == 10 && s[4] == '-' && s[7] == '-' &&
    forall i :: 0 <= i < 10 && i != 4 && i != 7 ==> '0' <= s[i] <= '9'
  }

  /** `strftime('%Y-%m-%d')`: the ISO 8601 calendar date text. */
  function Iso(d: Date): (s: string)
    requires ValidDate(d)
    ensures IsoShaped(s)
  {
    Padded(d.year, 4) + "-" + Padded(d.month, 2) + "-" + Padded(d.day, 2)
  }

  /** Reads `YYYY-MM-DD` back into a date. */
  function ParseIso(s: string): Date
    requires |s| == 10
  {
    Date(DigitsValue(s[..4]), DigitsValue(s[5..7]), DigitsValue(s[8..]))
  }

  /** Formatting a date and parsing the text back gives the same date. */
  lemma IsoRoundTrip(d: Date)
    requires ValidDate(d)
    ensures ParseIso(Iso(d)) == d
  {
    var s := Iso(d);
    assert s[..4] == Padded(d.year, 4);
    assert s[5..7] == Padded(d.month, 2);
    assert s[8..] == Padded(d.day, 2);
    PaddedRoundTrip(d.year, 4, 10000);
    PaddedRoundTrip(d.month, 2, 100);
    PaddedRoundTrip(d.day, 2, 100);
  }

  /** The ISO text of ordinal day `n`. */
  function IsoOfOrdinal(n: Ordinal): (s: string)
    ensures IsoShaped(s)
  {
    Iso(FromOrdinal(n))
  }

  /** The ISO text of ordinal day `n` reads back as a valid date whose ordinal is `n`. */
  lemma IsoOfOrdinalReadsBack(n: Ordinal)
    ensures ParseIso(IsoOfOrdinal(n)) == FromOrdinal(n)
    ensures ValidDate(ParseIso(IsoOfOrdinal(n))) && ToOrdinal(ParseIso(IsoOfOrdinal(n))) == n
  {
    IsoRoundTrip(FromOrdinal(n));
  }
}
