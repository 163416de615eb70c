/**
 getIsoWeekSalt of packages/telemetry/src/visitor-hash.ts against the week dates of ISO 8601:2004,
 section 3.2.2: weeks start on Monday, and week 1 is the one that holds the fourth of January.

 Dates are civil dates of the proleptic Gregorian calendar, without the range limit of a JavaScript
 Date.  Day 0 is 0001-01-01, which is a Monday.
 */
module IsoWeek {
  import opened Decimals

  datatype Date = Date(year: int, month: int, day: int)

  // ---- the calendar ----

  predicate IsLeap(y: int) {
    y % 4 == 0 && (y % 100 != 0 || y % 400 == 0)
  }

  function DaysIn(y: int, m: int): int {
    if m == 2 then (if IsLeap(y) then 29 else 28) else if m in {4, 6, 9, 11} then 30 else 31
  }

  predicate Valid(d: Date) {
    1 <= d.month <= 12 && 1 <= d.day <= DaysIn(d.year, d.month)
  }

  function YearStart(y: int): int {
    365 * (y - 1) + (y - 1) / 4 - (y - 1) / 100 + (y - 1) / 400
  }

  function DaysBefore(y: int, m: int): int
    requires 1 <= m <= 13
    decreases m
  {
    if m == 1 then 0 else DaysBefore(y, m - 1) + DaysIn(y, m - 1)
  }

  function DayNumber(d: Date): int
    requires 1 <= d.month <= 12
  {
    YearStart(d.year) + DaysBefore(d.year, d.month) + d.day - 1
  }

  /** 0 is Monday. */
  function Weekday(n: int): int {
    n % 7
  }

  lemma YearLength(y: int)
    ensures YearStart(y + 1) == YearStart(y) + DaysBefore(y, 13)
    ensures DaysBefore(y, 13) == if IsLeap(y) then 366 else 365
  {
    Fourth(y);
    Hundredth(y);
    FourHundredth(y);
    assert DaysBefore(y, 3) == 31 + DaysIn(y, 2);
    assert DaysBefore(y, 7) == DaysBefore(y, 3) + 122;
    assert DaysBefore(y, 10) == DaysBefore(y, 7) + 92;
  }

  lemma Fourth(y: int)
    ensures y / 4 == (y - 1) / 4 + if y % 4 == 0 then 1 else 0
  {
  }

  lemma Hundredth(y: int)
    ensures y / 100 == (y - 1) / 100 + if y % 100 == 0 then 1 else 0
    ensures y % 100 == 0 ==> y % 4 == 0
  {
  }

  lemma FourHundredth(y: int)
    ensures y / 400 == (y - 1) / 400 + if y % 400 == 0 then 1 else 0
    ensures y % 400 == 0 ==> y % 100 == 0
  {
  }

  lemma {:induction false} DaysBeforeIsBounded(y: int, m: int, k: int)
    requires 1 <= m <= k <= 13
    ensures 0 <= DaysBefore(y, m) && DaysBefore(y, m) + 28 * (k - m) <= DaysBefore(y, k)
    decreases k
  {
    if m < k {
      DaysBeforeIsBounded(y, m, k - 1);
    } else if m > 1 {
      DaysBeforeIsBounded(y, 1, m - 1);
    }
  }

  /** A valid date lies in its year. */
  lemma InItsYear(d: Date)
    requires Valid(d)
    ensures YearStart(d.year) <= DayNumber(d) < YearStart(d.year + 1)
  {
    YearLength(d.year);
    DaysBeforeIsBounded(d.year, 1, d.month);
    DaysBeforeIsBounded(d.year, d.month + 1, 13);
  }

  // ---- the code ----

  /** Date.UTC reads the years 0 to 99 as 1900 to 1999. */
  function UtcYear(y: int): int {
    if 0 <= y <= 99 then 1900 + y else y
  }

  /** Moves a date by a few days, into the next or the previous month if need be. */
  function Move(d: Date, days: int): Date {
    var day := d.day + days;
    if day < 1 then
      if d.month == 1 then Date(d.year - 1, 12, day + 31)
      else Date(d.year, d.month - 1, day + DaysIn(d.year, d.month - 1))
    else if day > DaysIn(d.year, d.month) then
      if d.month == 12 then Date(d.year + 1, 1, day - 31)
      else Date(d.year, d.month + 1, day - DaysIn(d.year, d.month))
    else d.(day := day)
  }

  lemma MonthLength(y: int, m: int)
    requires 1 <= m <= 12
    ensures DaysBefore(y, m + 1) == DaysBefore(y, m) + DaysIn(y, m) && 28 <= DaysIn(y, m) <= 31
  {
  }

  lemma MoveBack(d: Date, days: int)
    requires Valid(d) && -3 <= days < 0 && d.day + days < 1
    ensures Valid(Move(d, days)) && DayNumber(Move(d, days)) == DayNumber(d) + days
  {
    if d.month == 1 {
      YearLength(d.year - 1);
      MonthLength(d.year - 1, 12);
      assert DaysBefore(d.year, 1) == 0;
    } else {
      MonthLength(d.year, d.month - 1);
    }
  }

  lemma MoveForward(d: Date, days: int)
    requires Valid(d) && 0 < days <= 3 && d.day + days > DaysIn(d.year, d.month)
    ensures Valid(Move(d, days)) && DayNumber(Move(d, days)) == DayNumber(d) + days
  {
    MonthLength(d.year, d.month);
    if d.month == 12 {
      YearLength(d.year);
      assert DaysBefore(d.year + 1, 1) == 0;
    } else {
      MonthLength(d.year, d.month + 1);
    }
  }

  lemma MoveMoves(d: Date, days: int)
    requires Valid(d) && -3 <= days <= 3
    ensures Valid(Move(d, days)) && DayNumber(Move(d, days)) == DayNumber(d) + days
  {
    if d.day + days < 1 {
      MoveBack(d, days);
    } else if d.day + days > DaysIn(d.year, d.month) {
      MoveForward(d, days);
    }
  }

  /** Only the 29th of February of the year 0 has no such day in 1900. */
  function Utc(year: int, month: int, day: int): Date {
    var y := UtcYear(year);
    if day > DaysIn(y, month) then Date(y, month + 1, day - DaysIn(y, month)) else Date(y, month, day)
  }

  /** getUTCDay: 0 is Sunday. */
  function UtcDay(n: int): int {
    (n + 1) % 7
  }

  /** `getUTCDay() || 7`. */
  function IsoDay(n: int): int {
    if UtcDay(n) == 0 then 7 else UtcDay(n)
  }

  lemma IsoDayIs(n: int)
    ensures IsoDay(n) == Weekday(n) + 1
  {
  }

  /** The Thursday that the code moves to. */
  function Thursday(d: Date): Date
    requires Valid(d)
  {
    var normalized := Utc(d.year, d.month, d.day);
    Move(normalized, 4 - IsoDay(DayNumber(normalized)))
  }

  function Ceil(n: int, k: int): int
    requires k > 0
  {
    (n + k - 1) / k
  }

  /** The week of a Thursday, counted from the first of January that Date.UTC gives for its year. */
  function WeekOf(t: Date): int
    requires Valid(t)
  {
    var yearStart := Date(UtcYear(t.year), 1, 1);
    Ceil(DayNumber(t) - DayNumber(yearStart) + 1, 7)
  }

  /** The year and the week that the code prints. */
  function YearAndWeek(d: Date): (int, int)
    requires Valid(d)
  {
    (Thursday(d).year, WeekOf(Thursday(d)))
  }

  lemma UtcIs(d: Date)
    requires Valid(d)
    ensures Valid(Utc(d.year, d.month, d.day))
    ensures DayNumber(Utc(d.year, d.month, d.day)) == DayNumber(d.(year := UtcYear(d.year)))
  {
    var y := UtcYear(d.year);
    if d.day > DaysIn(y, d.month) {
      MonthLength(y, d.month);
    }
  }

  lemma ThursdayIs(d: Date)
    requires Valid(d)
    ensures var n := DayNumber(d.(year := UtcYear(d.year)));
            Valid(Thursday(d)) && DayNumber(Thursday(d)) == n - Weekday(n) + 3
  {
    var normalized := Utc(d.year, d.month, d.day);
    UtcIs(d);
    var n := DayNumber(normalized);
    IsoDayIs(n);
    MoveMoves(normalized, 4 - IsoDay(n));
  }

  // ---- the standard ----

  function Monday(n: int): int {
    n - Weekday(n)
  }

  /** The Monday of week 1: of the week that holds the fourth of January. */
  function FirstMonday(year: int): int {
    Monday(YearStart(year) + 3)
  }

  /** Day `n` lies in the given week of the given year, and the next year's week 1 has not begun. */
  predicate IsWeekDate(n: int, year: int, week: int) {
    week >= 1 && FirstMonday(year) + 7 * (week - 1) <= n < FirstMonday(year) + 7 * week && n < FirstMonday(year + 1)
  }

  lemma FirstMondayIs(year: int)
    ensures FirstMonday(year) % 7 == 0 && YearStart(year) - 3 <= FirstMonday(year) <= YearStart(year) + 3
  {
    Sevens(YearStart(year) + 3);
  }

  lemma Sevens(n: int)
    ensures Monday(n) == 7 * (n / 7) && Monday(n) <= n < Monday(n) + 7 && Monday(n) % 7 == 0
  {
  }

  lemma FirstMondaysApart(year: int)
    ensures FirstMonday(year) + 364 <= FirstMonday(year + 1) <= FirstMonday(year) + 371
  {
    YearLength(year);
    MondaysApart(YearStart(year) + 3, YearStart(year + 1) + 3);
  }

  lemma MondaysApart(a: int, b: int)
    requires 365 <= b - a <= 366
    ensures Monday(a) + 364 <= Monday(b) <= Monday(a) + 371
  {
    Sevens(a);
    Sevens(b);
  }

  lemma {:induction false} FirstMondayGrows(a: int, b: int)
    requires a < b
    ensures FirstMonday(a + 1) <= FirstMonday(b)
    decreases b - a
  {
    if a + 1 < b {
      FirstMondayGrows(a, b - 1);
      FirstMondaysApart(b - 1);
    }
  }

  /** A day has one week date, and its week is between 1 and 53. */
  lemma WeekDateIsUnique(n: int, year: int, week: int, year2: int, week2: int)
    requires IsWeekDate(n, year, week) && IsWeekDate(n, year2, week2)
    ensures year == year2 && week == week2 && 1 <= week <= 53
  {
    if year < year2 {
      FirstMondayGrows(year, year2);
    } else if year2 < year {
      FirstMondayGrows(year2, year);
    }
    FirstMondaysApart(year);
  }

  /** The arithmetic of the code, for a Thursday inside its year. */
  lemma WeekOfThursday(n: int, year: int)
    requires YearStart(year) <= Monday(n) + 3 < YearStart(year + 1)
    ensures IsWeekDate(n, year, Ceil(Monday(n) + 3 - YearStart(year) + 1, 7))
  {
    FirstMondayIs(year);
    FirstMondayIs(year + 1);
    Sevens(n);
    Sevens(YearStart(year) + 3);
    Sevens(YearStart(year + 1) + 3);
    var q := n / 7 - (YearStart(year) + 3) / 7;
    assert Monday(n) == FirstMonday(year) + 7 * q;
    var rest := Monday(n) + 3 - YearStart(year) - 7 * q;
    assert 0 <= rest <= 6;
    assert Ceil(7 * q + rest + 1, 7) == q + 1;
  }

  // ---- the theorems ----

  /** The years whose week dates Date.UTC gets wrong: the date's own year, or the year of its Thursday. */
  predicate Remapped(d: Date)
    requires Valid(d)
  {
    0 <= d.year <= 99 || 0 <= Thursday(d).year <= 99
  }

  lemma WeekIsRight(d: Date)
    requires Valid(d) && !Remapped(d)
    ensures var (year, week) := YearAndWeek(d); IsWeekDate(DayNumber(d), year, week) && 1 <= week <= 53
  {
    ThursdayIs(d);
    InItsYear(Thursday(d));
    var (year, week) := YearAndWeek(d);
    JanuaryFirst(year);
    assert d.(year := d.year) == d;
    WeekOfThursday(DayNumber(d), year);
    WeekDateIsUnique(DayNumber(d), year, week, year, week);
  }

  /**
   The code computes the week date of a civil date, in a week from 1 to 53, exactly when neither the
   date nor the Thursday of its week lies in the years 0 to 99.
   */
  lemma WeekIsRightIff(d: Date)
    requires Valid(d)
    ensures var (year, week) := YearAndWeek(d);
            && (IsWeekDate(DayNumber(d), year, week) <==> !Remapped(d))
            && (!Remapped(d) ==> 1 <= week <= 53)
  {
    if !Remapped(d) {
      WeekIsRight(d);
    } else if 0 <= d.year <= 99 {
      EarlyYearIsWrong(d);
    } else {
      EarlyThursdayIsWrong(d);
    }
  }

  lemma JanuaryFirst(year: int)
    ensures DayNumber(Date(UtcYear(year), 1, 1)) == YearStart(UtcYear(year))
  {
    assert DaysBefore(UtcYear(year), 1) == 0;
  }

  lemma {:induction false} YearStartGrows(a: int, b: int)
    requires a <= b
    ensures YearStart(a) + 365 * (b - a) <= YearStart(b)
    decreases b - a
  {
    if a < b {
      YearStartGrows(a, b - 1);
      YearLength(b - 1);
    }
  }

  /** A date read nineteen centuries late is given a year long after its own. */
  lemma EarlyYearIsWrong(d: Date)
    requires Valid(d) && 0 <= d.year <= 99
    ensures !IsWeekDate(DayNumber(d), YearAndWeek(d).0, YearAndWeek(d).1)
  {
    ThursdayIs(d);
    InItsYear(d);
    var moved := d.(year := 1900 + d.year);
    var t := Thursday(d);
    InItsYear(t);
    Sevens(DayNumber(moved));
    DaysBeforeIsBounded(moved.year, 1, moved.month);
    assert YearStart(moved.year) <= DayNumber(moved);
    FirstMondayIs(t.year);
    YearStartGrows(d.year + 1, 1800);
    if t.year + 1 <= 1899 {
      YearStartGrows(t.year + 1, 1899);
      YearStartGrows(1899, moved.year);
    }
    YearStartGrows(1800, t.year);
  }

  /** A Thursday in the years 0 to 99 is counted from a first of January that is long after it. */
  lemma EarlyThursdayIsWrong(d: Date)
    requires Valid(d) && !(0 <= d.year <= 99) && 0 <= Thursday(d).year <= 99
    ensures YearAndWeek(d).1 < 1
  {
    ThursdayIs(d);
    var t := Thursday(d);
    InItsYear(t);
    JanuaryFirst(t.year);
    YearStartGrows(t.year + 1, 1900 + t.year);
  }

  /** Two dates have the same computed week exactly when they lie in the same week from Monday to Sunday. */
  lemma SameWeekIff(d: Date, e: Date)
    requires Valid(d) && Valid(e) && !Remapped(d) && !Remapped(e)
    ensures YearAndWeek(d) == YearAndWeek(e) <==> Monday(DayNumber(d)) == Monday(DayNumber(e))
  {
    WeekIsRightIff(d);
    WeekIsRightIff(e);
    var (year, week) := YearAndWeek(d);
    var (year2, week2) := YearAndWeek(e);
    SameMonday(DayNumber(d), year, week);
    SameMonday(DayNumber(e), year2, week2);
    if Monday(DayNumber(d)) == Monday(DayNumber(e)) {
      var m := Monday(DayNumber(d));
      Sevens(DayNumber(d));
      WeekDateIsUnique(m, year, week, year2, week2);
    }
  }

  /** A week date names the Monday of its week. */
  lemma SameMonday(n: int, year: int, week: int)
    requires IsWeekDate(n, year, week)
    ensures Monday(n) == FirstMonday(year) + 7 * (week - 1) && IsWeekDate(Monday(n), year, week)
  {
    FirstMondayIs(year);
    InWeek(n, FirstMonday(year), week - 1);
    InWeek(Monday(n), FirstMonday(year), week - 1);
  }

  lemma InWeek(n: int, first: int, weeks: int)
    requires first % 7 == 0 && first + 7 * weeks <= n < first + 7 * weeks + 7
    ensures Monday(n) == first + 7 * weeks
  {
    Sevens(n);
    Sevens(first);
  }

  // ---- the salt ----

  /** `String(n).padStart(2, '0')`. */
  function TwoDigits(n: int): string {
    if |Decimal(n)| < 2 then "0" + Decimal(n) else Decimal(n)
  }

  function Salt(d: Date): string
    requires Valid(d)
  {
    Decimal(YearAndWeek(d).0) + "-W" + TwoDigits(YearAndWeek(d).1)
  }

  lemma TwoDigitsAre(a: nat)
    requires a <= 53
    ensures TwoDigits(a) == [Digit(a / 10), Digit(a % 10)]
  {
    DigitsStart(a);
    if a < 10 {
      assert Digit(0) == '0';
    } else {
      assert Digits(a) == Digits(a / 10) + [Digit(a % 10)];
    }
  }

  lemma TwoDigitsAreInjective(a: nat, b: nat)
    requires a <= 53 && b <= 53
    ensures |TwoDigits(a)| == 2 && |TwoDigits(b)| == 2
    ensures TwoDigits(a) == TwoDigits(b) ==> a == b
  {
    TwoDigitsAre(a);
    TwoDigitsAre(b);
    if TwoDigits(a) == TwoDigits(b) {
      assert TwoDigits(a)[0] == Digit(a / 10) && TwoDigits(a)[1] == Digit(a % 10);
      DigitIsInjective(a / 10, b / 10);
      DigitIsInjective(a % 10, b % 10);
    }
  }

  /** Two dates get the same salt if and only if they lie in the same week, across year ends too. */
  lemma SameSaltIff(d: Date, e: Date)
    requires Valid(d) && Valid(e) && !Remapped(d) && !Remapped(e)
    ensures Salt(d) == Salt(e) <==> Monday(DayNumber(d)) == Monday(DayNumber(e))
  {
    WeekIsRightIff(d);
    WeekIsRightIff(e);
    SameWeekIff(d, e);
    var (year, week) := YearAndWeek(d);
    var (year2, week2) := YearAndWeek(e);
    TwoDigitsAreInjective(week, week2);
    if Salt(d) == Salt(e) {
      SaltParts(Decimal(year), TwoDigits(week), Decimal(year2), TwoDigits(week2));
      DecimalIsInjective(year, year2);
    }
  }

  lemma SaltParts(a: string, x: string, b: string, y: string)
    requires |x| == 2 && |y| == 2 && a + "-W" + x == b + "-W" + y
    ensures a == b && x == y
  {
    var s, t := a + "-W" + x, b + "-W" + y;
    assert |a| == |b|;
    assert s[..|a|] == a && t[..|b|] == b && s[|a| + 2..] == x && t[|b| + 2..] == y;
  }

  /** The salt can be read back: up to its last four characters the year, then `-W`, then two digits of the week. */
  lemma SaltNamesTheWeek(d: Date)
    requires Valid(d) && !Remapped(d)
    ensures var salt := Salt(d);
            var n := |salt| - 4;
            && n >= 0 && salt[n..n + 2] == "-W"
            && IsWeekDate(DayNumber(d), Value(salt[..n]), Value(salt[n + 2..]))
  {
    WeekIsRightIff(d);
    var (year, week) := YearAndWeek(d);
    TwoDigitsAre(week);
    ValueOfTwoDigits(week);
    ValueOfDecimal(year, Decimal(year));
    var salt, n := Salt(d), |Decimal(year)|;
    assert salt[..n] == Decimal(year) && salt[n..n + 2] == "-W" && salt[n + 2..] == TwoDigits(week);
  }

  lemma ValueOfTwoDigits(a: nat)
    requires a <= 53
    ensures Value(TwoDigits(a)) == a
  {
    TwoDigitsAre(a);
    DigitValue(a / 10);
    DigitValue(a % 10);
    var s := TwoDigits(a);
    assert s[..1] == [Digit(a / 10)] && s[..1][..0] == "";
    assert Sum(s) == 10 * Sum(s[..1]) + a % 10;
  }

  /** The code as it runs: one local date, moved to the Thursday of its week. */
  method GetIsoWeekSalt(date: Date) returns (salt: string)
    requires Valid(date)
    ensures salt == Salt(date)
  {
    var normalizedDate := Utc(date.year, date.month, date.day);
    var dayNum := IsoDay(DayNumber(normalizedDate));
    normalizedDate := Move(normalizedDate, 4 - dayNum);
    assert normalizedDate == Thursday(date);
    ThursdayIs(date);
    var week := WeekOf(normalizedDate);
    salt := Decimal(normalizedDate.year) + "-W" + TwoDigits(week);
  }
}
