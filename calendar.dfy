/** Calendar days of the proleptic Gregorian calendar, as the engine uses them.

    The source keeps every day as an ISO 8601 complete calendar date in
    extended format (`YYYY-MM-DD`, ISO 8601:2004 section 4.1.2.2) and orders
    days by comparing those strings. Here a day is a validated year/month/day
    triple; `Before` is the lexicographic order on the triple, which is the
    order of the strings for four-digit years (see module IsoDate), and
    `DayNumber` counts days from 0000-01-01 so that calendar arithmetic is
    plain integer arithmetic. */
module Calendar {

  datatype Ymd = Ymd(year: int, month: int, day: int)

  predicate IsLeapYear(y: int) {
    y % 4 == 0 && (y % 100 != 0 || y % 400 == 0)
  }

  function DaysInMonth(y: int, m: int): (n: int)
    ensures 28 <= n <= 31
    ensures n == 31 <==> (m != 2 && m != 4 && m != 6 && m != 9 && m != 11)
    ensures m == 2 ==> (n == 29 <==> IsLeapYear(y))
  {
    if m == 2 then (if IsLeapYear(y) then 29 else 28)
    else if m == 4 || m == 6 || m == 9 || m == 11 then 30
    else 31
  }

  predicate IsValid(d: Ymd) {
    1 <= d.month <= 12 && 1 <= d.day <= DaysInMonth(d.year, d.month)
  }

  /** A well-formed calendar day. */
  type Date = d: Ymd | IsValid(d) witness Ymd(2000, 1, 1)

  /** The day of the month, 1..31 (JavaScript's `getDate`). */
  function DayOfMonth(d: Date): (r: int)
    ensures 1 <= r <= 31
    ensures r <= DaysInMonth(d.year, d.month)
  {
    d.day
  }

  // ---------------------------------------------------------------------
  // Day numbers

  /** Days in the years 0 .. y-1 (for negative y, minus the days in y .. -1). */
  function YearStart(y: int): int {
    365 * y + (y + 3) / 4 - (y + 99) / 100 + (y + 399) / 400
  }

  /** Days in the months of year y before month m. */
  function DaysBeforeMonth(y: int, m: int): int {
    var base :=
      if m <= 1 then 0 else if m == 2 then 31 else if m == 3 then 59
      else if m == 4 then 90 else if m == 5 then 120 else if m == 6 then 151
      else if m == 7 then 181 else if m == 8 then 212 else if m == 9 then 243
      else if m == 10 then 273 else if m == 11 then 304 else 334;
    if m > 2 && IsLeapYear(y) then base + 1 else base
  }

  function DaysInYear(y: int): int {
    if IsLeapYear(y) then 366 else 365
  }

  /** Days elapsed since 0000-01-01. */
  function DayNumber(d: Date): int {
    YearStart(d.year) + DaysBeforeMonth(d.year, d.month) + d.day - 1
  }

  lemma Step4(y: int)
    ensures (y + 4) / 4 == (y + 3) / 4 + (if y % 4 == 0 then 1 else 0)
  {
  }

  lemma Step100(y: int)
    ensures (y + 100) / 100 == (y + 99) / 100 + (if y % 100 == 0 then 1 else 0)
  {
  }

  lemma Step400(y: int)
    ensures (y + 400) / 400 == (y + 399) / 400 + (if y % 400 == 0 then 1 else 0)
  {
  }

  lemma YearStartStep(y: int)
    ensures YearStart(y + 1) == YearStart(y) + DaysInYear(y)
  {
    Step4(y);
    Step100(y);
    Step400(y);
    if y % 100 == 0 {
      Century(y);
    }
    if y % 400 == 0 {
      FourCenturies(y);
    }
  }

  /** A century year is a multiple of 4. */
  lemma Century(y: int)
    requires y % 100 == 0
    ensures y % 4 == 0
  {
    var q := y / 100;
    assert y == 4 * (25 * q);
  }

  /** A multiple of 400 is a century year. */
  lemma FourCenturies(y: int)
    requires y % 400 == 0
    ensures y % 100 == 0
  {
    var q := y / 400;
    assert y == 100 * (4 * q);
  }

  lemma {:induction false} YearStartMonotone(y1: int, y2: int)
    requires y1 <= y2
    ensures YearStart(y1) + 365 * (y2 - y1) <= YearStart(y2)
    decreases y2 - y1
  {
    if y1 < y2 {
      YearStartStep(y1);
      YearStartMonotone(y1 + 1, y2);
    }
  }

  lemma MonthStep(y: int, m: int)
    requires 1 <= m < 12
    ensures DaysBeforeMonth(y, m + 1) == DaysBeforeMonth(y, m) + DaysInMonth(y, m)
  {
  }

  lemma MonthsFitInYear(y: int, m: int)
    requires 1 <= m <= 12
    ensures DaysBeforeMonth(y, m) + DaysInMonth(y, m) <= DaysInYear(y)
  {
  }

  lemma {:induction false} MonthStartMonotone(y: int, m1: int, m2: int)
    requires 1 <= m1 < m2 <= 12
    ensures DaysBeforeMonth(y, m1) + DaysInMonth(y, m1) <= DaysBeforeMonth(y, m2)
    decreases m2 - m1
  {
    MonthStep(y, m1);
    if m1 + 1 < m2 {
      MonthStartMonotone(y, m1 + 1, m2);
    }
  }

  /** The day's offset inside its year is below the year's length. */
  lemma InsideYear(d: Date)
    ensures YearStart(d.year) <= DayNumber(d) < YearStart(d.year) + DaysInYear(d.year)
  {
    MonthsFitInYear(d.year, d.month);
  }

  // ---------------------------------------------------------------------
  // Chronological order

  /** `a` is an earlier day than `b`: the string comparison `a < b` on
      `YYYY-MM-DD` texts. */
  predicate Before(a: Date, b: Date) {
    a.year < b.year
    || (a.year == b.year && a.month < b.month)
    || (a.year == b.year && a.month == b.month && a.day < b.day)
  }

  /** `a <= b` on the `YYYY-MM-DD` texts. */
  predicate AtMost(a: Date, b: Date) {
    !Before(b, a)
  }

  lemma BeforeSmaller(a: Date, b: Date)
    requires Before(a, b)
    ensures DayNumber(a) < DayNumber(b)
  {
    if a.year < b.year {
      InsideYear(a);
      YearStartStep(a.year);
      YearStartMonotone(a.year + 1, b.year);
    } else if a.month < b.month {
      MonthStartMonotone(a.year, a.month, b.month);
    }
  }

  /** The lexicographic order on days is the order of their day numbers. */
  lemma BeforeIffSmaller(a: Date, b: Date)
    ensures Before(a, b) <==> DayNumber(a) < DayNumber(b)
  {
    if Before(a, b) {
      BeforeSmaller(a, b);
    } else if Before(b, a) {
      BeforeSmaller(b, a);
    } else {
      assert a == b;
    }
  }

  lemma AtMostIffNotGreater(a: Date, b: Date)
    ensures AtMost(a, b) <==> DayNumber(a) <= DayNumber(b)
  {
    BeforeIffSmaller(b, a);
  }

  /** Two days with the same number are the same day. */
  lemma DayNumberInjective(a: Date, b: Date)
    requires DayNumber(a) == DayNumber(b)
    ensures a == b
  {
    if Before(a, b) {
      BeforeSmaller(a, b);
    } else if Before(b, a) {
      BeforeSmaller(b, a);
    }
  }

  // ---------------------------------------------------------------------
  // Stepping one day

  /** The next calendar day, rolling over month and year ends. */
  function NextDay(d: Date): (r: Date)
    ensures DayNumber(r) == DayNumber(d) + 1
  {
    NextDayLemma(d);
    NextDayRaw(d)
  }

  function NextDayRaw(d: Date): Date {
    if d.day < DaysInMonth(d.year, d.month) then Ymd(d.year, d.month, d.day + 1)
    else if d.month < 12 then Ymd(d.year, d.month + 1, 1)
    else Ymd(d.year + 1, 1, 1)
  }

  lemma NextDayLemma(d: Date)
    ensures DayNumber(NextDayRaw(d)) == DayNumber(d) + 1
  {
    if d.day < DaysInMonth(d.year, d.month) {
    } else if d.month < 12 {
      MonthStep(d.year, d.month);
    } else {
      YearStartStep(d.year);
    }
  }

  /** The previous calendar day, rolling back over month and year starts. */
  function PrevDay(d: Date): (r: Date)
    ensures DayNumber(r) == DayNumber(d) - 1
  {
    PrevDayLemma(d);
    PrevDayRaw(d)
  }

  function PrevDayRaw(d: Date): Date {
    if d.day > 1 then Ymd(d.year, d.month, d.day - 1)
    else if d.month > 1 then Ymd(d.year, d.month - 1, DaysInMonth(d.year, d.month - 1))
    else Ymd(d.year - 1, 12, 31)
  }

  lemma PrevDayLemma(d: Date)
    ensures DayNumber(PrevDayRaw(d)) == DayNumber(d) - 1
  {
    if d.day > 1 {
    } else if d.month > 1 {
      MonthStep(d.year, d.month - 1);
    } else {
      YearStartStep(d.year - 1);
    }
  }

  /** `addDays(d, delta)`: the day `delta` days after `d` (before it when
      `delta` is negative). */
  function AddDays(d: Date, delta: int): (r: Date)
    ensures DayNumber(r) == DayNumber(d) + delta
    decreases if delta >= 0 then delta else -delta
  {
    if delta == 0 then d
    else if delta > 0 then AddDays(NextDay(d), delta - 1)
    else AddDays(PrevDay(d), delta + 1)
  }

  /** The day with a given day number is unique, so `AddDays` is determined
      by its arithmetic. */
  lemma AddDaysZero(d: Date)
    ensures AddDays(d, 0) == d
  {
  }

  lemma AddDaysRoundTrip(d: Date, k: int)
    ensures AddDays(AddDays(d, k), -k) == d
  {
    DayNumberInjective(AddDays(AddDays(d, k), -k), d);
  }

  lemma AddDaysCompose(d: Date, j: int, k: int)
    ensures AddDays(AddDays(d, j), k) == AddDays(d, j + k)
  {
    DayNumberInjective(AddDays(AddDays(d, j), k), AddDays(d, j + k));
  }

  /** `addDays(d, 1)` is the next calendar day and is strictly later. */
  lemma AddOneIsNextDay(d: Date)
    ensures AddDays(d, 1) == NextDay(d)
    ensures Before(d, AddDays(d, 1))
  {
    BeforeIffSmaller(d, AddDays(d, 1));
  }

  /** `addDays(d, -1)` is the previous calendar day and is strictly earlier. */
  lemma SubtractOneIsPrevDay(d: Date)
    ensures AddDays(d, -1) == PrevDay(d)
    ensures Before(AddDays(d, -1), d)
  {
    BeforeIffSmaller(AddDays(d, -1), d);
  }

  /** Nothing lies strictly between a day and the next one. */
  lemma NothingBetweenNextDay(d: Date, x: Date)
    ensures Before(d, x) <==> AtMost(NextDay(d), x)
  {
    BeforeIffSmaller(d, x);
    AtMostIffNotGreater(NextDay(d), x);
  }

  // ---------------------------------------------------------------------
  // Day of the week

  /** JavaScript's `getDay`: Sunday is 0, Saturday is 6. The proleptic
      Gregorian 0000-01-01 was a Saturday. */
  function Weekday(d: Date): (w: int)
    ensures 0 <= w < 7
  {
    (DayNumber(d) + 6) % 7
  }

  lemma ModSucc(n: int)
    ensures (n + 1) % 7 == (n % 7 + 1) % 7
  {
    var q := n / 7;
    assert n == 7 * q + n % 7;
    if n % 7 == 6 {
      assert n + 1 == 7 * (q + 1);
    } else {
      assert n + 1 == 7 * q + (n % 7 + 1);
    }
  }

  lemma WeekdayOfNextDay(d: Date)
    ensures Weekday(NextDay(d)) == (Weekday(d) + 1) % 7
  {
    ModSucc(DayNumber(d) + 6);
  }

  lemma WeekdayWeekLater(d: Date)
    ensures Weekday(AddDays(d, 7)) == Weekday(d)
  {
    ModWeek(DayNumber(d) + 6);
  }

  lemma ModWeek(n: int)
    ensures (n + 7) % 7 == n % 7
  {
    assert n + 7 == 7 * (n / 7 + 1) + n % 7;
  }

  /** Worked examples: month and year roll-over, and two known weekdays. */
  lemma CalendarExamples()
    ensures NextDay(Ymd(2025, 1, 31)) == Ymd(2025, 2, 1)
    ensures NextDay(Ymd(2024, 2, 28)) == Ymd(2024, 2, 29)
    ensures NextDay(Ymd(2025, 2, 28)) == Ymd(2025, 3, 1)
    ensures NextDay(Ymd(2025, 12, 31)) == Ymd(2026, 1, 1)
    ensures PrevDay(Ymd(2025, 3, 1)) == Ymd(2025, 2, 28)
    ensures Weekday(Ymd(2025, 1, 29)) == 3
    ensures Weekday(Ymd(2025, 1, 31)) == 5
  {
  }
}
