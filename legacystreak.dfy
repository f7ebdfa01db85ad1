/** The older streak routine, `computeStreakFromDailyCompletion`, and its
    day-range helper `getDateRange`.

    It shares the run functions of `StreakCalculator` for the longest run and
    the last completed day, but its current streak is the run that ends at
    today (when today is done) or at the last completed day, so a later
    missed day does not reset it. */
module LegacyStreak {
  import opened Wrappers
  import opened Calendar
  import opened DateRange
  import opened StreakCalculator

  /** `StreakResult` of `streak.util`. */
  datatype LegacyResult = LegacyResult(
    currentStreak: int,
    longestStreak: int,
    lastCompletedDate: Option<Date>,
    lastStreakStartDate: Option<Date>)

  /** `datesSorted.indexOf(x)`: the first position of `x`, or -1. */
  function IndexOf(s: seq<Date>, x: Date): (i: int)
    ensures -1 <= i < |s|
    ensures i == -1 <==> x !in s
    ensures 0 <= i ==> s[i] == x && forall k :: 0 <= k < i ==> s[k] != x
  {
    if s == [] then -1
    else if s[0] == x then 0
    else
      var j := IndexOf(s[1..], x);
      assert forall k :: 1 <= k < |s| ==> s[k] == s[1..][k - 1];
      if j == -1 then -1 else j + 1
  }

  /** The completed run ending at position `i`, and the day it starts on. */
  function RunEndingAt(s: seq<Date>, c: set<Date>, i: int): (r: (nat, Option<Date>))
    requires 0 <= i < |s|
    ensures r.0 == TrailingRun(s[..i + 1], c)
    ensures r.0 > 0 ==> r.1 == Some(s[i + 1 - r.0])
  {
    var n := TrailingRun(s[..i + 1], c);
    (n, if n > 0 then Some(s[i + 1 - n]) else None)
  }

  /** What `computeStreakFromDailyCompletion(s, c, today)` returns. */
  function Legacy(s: seq<Date>, c: set<Date>, today: Date): (r: LegacyResult)
    ensures s == [] ==> r == LegacyResult(0, 0, None, None)
  {
    if s == [] then LegacyResult(0, 0, None, None)
    else
      var longest := LongestRun(s, c);
      var last := LastCompleted(s, c);
      if today in c then
        var i := IndexOf(s, today);
        if i == -1 then LegacyResult(1, longest, last, Some(today))
        else
          var run := RunEndingAt(s, c, i);
          LegacyResult(run.0, longest, last, run.1)
      else if last.Some? then
        var i := IndexOf(s, last.value);
        var run := RunEndingAt(s, c, i);
        LegacyResult(run.0, longest, last, run.1)
      else LegacyResult(0, longest, last, None)
  }

  /** The backward `while` loop: count completed days from position `i`
      down, remembering the earliest one reached. */
  method CountBack(s: seq<Date>, c: set<Date>, i0: int) returns (count: int, start: Option<Date>)
    requires 0 <= i0 < |s|
    ensures (count, start) == RunEndingAt(s, c, i0)
  {
    var i := i0;
    count := 0;
    start := None;
    while i >= 0 && s[i] in c
      invariant -1 <= i <= i0
      invariant count == i0 - i
      invariant AllCompleted(s, c, i + 1, i0 + 1)
      invariant start == if count > 0 then Some(s[i + 1]) else None
    {
      count := count + 1;
      start := Some(s[i]);
      i := i - 1;
    }
    var p := s[..i0 + 1];
    assert forall k :: i + 1 <= k < i0 + 1 ==> p[k] == s[k];
    TrailingRunIsMaximal(p, c, i + 1);
    TrailingRunExact(p, c);
    if i >= 0 {
      assert p[i] == s[i];
    }
  }

  /** `computeStreakFromDailyCompletion`: a forward pass for the longest run
      and the last completed day, then a backward count for the current
      streak. */
  method ComputeStreakFromDailyCompletion(datesSorted: seq<Date>, completedDates: set<Date>, today: Date)
    returns (r: LegacyResult)
    ensures r == Legacy(datesSorted, completedDates, today)
  {
    if |datesSorted| == 0 {
      return LegacyResult(0, 0, None, None);
    }
    var longestStreak := 0;
    var currentRun := 0;
    var lastCompletedDate: Option<Date> := None;
    var currentStreak := 0;
    var lastStreakStartDate: Option<Date> := None;
    for j := 0 to |datesSorted|
      invariant currentRun == TrailingRun(datesSorted[..j], completedDates)
      invariant Max(longestStreak, currentRun) == LongestRun(datesSorted[..j], completedDates)
      invariant lastCompletedDate == LastCompleted(datesSorted[..j], completedDates)
    {
      var d := datesSorted[j];
      assert datesSorted[..j + 1][..j] == datesSorted[..j];
      if d in completedDates {
        currentRun := currentRun + 1;
        lastCompletedDate := Some(d);
      } else {
        longestStreak := Max(longestStreak, currentRun);
        currentRun := 0;
      }
    }
    longestStreak := Max(longestStreak, currentRun);
    assert datesSorted[..|datesSorted|] == datesSorted;

    if today in completedDates {
      var i := IndexOf(datesSorted, today);
      if i == -1 {
        currentStreak := 1;
        lastStreakStartDate := Some(today);
      } else {
        currentStreak, lastStreakStartDate := CountBack(datesSorted, completedDates, i);
      }
    } else if lastCompletedDate.Some? {
      var i := IndexOf(datesSorted, lastCompletedDate.value);
      currentStreak, lastStreakStartDate := CountBack(datesSorted, completedDates, i);
    }
    r := LegacyResult(currentStreak, longestStreak, lastCompletedDate, lastStreakStartDate);
  }

  /** `getDateRange`: from `start`, push the day and step to the next
      calendar day while it is not after `end`. */
  method GetDateRange(start: Date, end: Date) returns (dates: seq<Date>)
    ensures dates == DaysBetween(start, end)
  {
    dates := [];
    var current := start;
    while !Before(end, current)
      invariant dates + DaysBetween(current, end) == DaysBetween(start, end)
      decreases DayNumber(end) - DayNumber(current) + 1
    {
      BeforeIffSmaller(end, current);
      assert DaysBetween(current, end) == [current] + DaysBetween(NextDay(current), end);
      dates := dates + [current];
      current := NextDay(current);
    }
    assert DaysBetween(current, end) == [];
  }

  // ---------------------------------------------------------------------
  // Properties

  /** The completed run ending at a completed position `i`: at least 1 long,
      all completed, and preceded by a missed day or the start of the list. */
  lemma RunEndingAtShape(s: seq<Date>, c: set<Date>, i: int)
    requires 0 <= i < |s| && s[i] in c
    ensures var n := RunEndingAt(s, c, i).0;
            1 <= n <= i + 1 && AllCompleted(s, c, i + 1 - n, i + 1)
            && (n <= i ==> s[i - n] !in c)
  {
    var p := s[..i + 1];
    TrailingRunExact(p, c);
    assert p[i] == s[i];
    assert forall k :: 0 <= k < |p| ==> p[k] == s[k];
  }

  /** When today is done and listed, the current streak is the completed run
      ending at today's (first) position, and it starts on that run's first
      day. */
  lemma TodayDoneListed(s: seq<Date>, c: set<Date>, today: Date)
    requires today in c && today in s
    ensures var i := IndexOf(s, today);
            var r := Legacy(s, c, today);
            1 <= r.currentStreak <= i + 1
            && AllCompleted(s, c, i + 1 - r.currentStreak, i + 1)
            && (r.currentStreak <= i ==> s[i - r.currentStreak] !in c)
            && r.lastStreakStartDate == Some(s[i + 1 - r.currentStreak])
  {
    RunEndingAtShape(s, c, IndexOf(s, today));
  }

  /** When today is done but not listed, the current streak is 1, even if
      no listed day is done and the longest run is 0. */
  lemma TodayDoneUnlisted(s: seq<Date>, c: set<Date>, today: Date)
    requires s != [] && today in c && today !in s
    ensures Legacy(s, c, today).currentStreak == 1
    ensures Legacy(s, c, today).lastStreakStartDate == Some(today)
  {
  }

  /** The current streak can exceed the longest run. */
  lemma CurrentAboveLongest(a: Date, today: Date)
    requires a != today
    ensures Legacy([a], {today}, today).currentStreak == 1
    ensures Legacy([a], {today}, today).longestStreak == 0
  {
    assert [a][..0] == [];
  }

  /** When today is not done, the current streak is the completed run ending
      at the last completed day: days missed after it do not reset it, and
      it is 0 only when no listed day is done. */
  lemma TodayNotDone(s: seq<Date>, c: set<Date>, today: Date)
    requires today !in c
    ensures var r := Legacy(s, c, today);
            (r.currentStreak == 0 <==> forall k :: 0 <= k < |s| ==> s[k] !in c)
            && (r.lastCompletedDate.Some? ==>
                  var i := IndexOf(s, r.lastCompletedDate.value);
                  r.currentStreak == TrailingRun(s[..i + 1], c) >= 1)
  {
    LastCompletedExact(s, c);
    var r := Legacy(s, c, today);
    if r.lastCompletedDate.Some? {
      var i := IndexOf(s, r.lastCompletedDate.value);
      var p := s[..i + 1];
      assert p[i] == s[i];
    }
  }

  /** Unlike `computeFullStreakStats`, a missed last day does not zero the
      current streak: one done day followed by a missed one gives 1 here and
      0 there (with today elsewhere). */
  lemma DiffersFromCalculator(a: Date, b: Date, today: Date)
    requires a != b && today != a && today != b
    ensures Legacy([a, b], {a}, today).currentStreak == 1
    ensures FullStreak([a, b], {a}, Some(today)).currentStreak == 0
  {
    var s := [a, b];
    assert s[..1] == [a] && [a][..0] == [];
    assert LastCompleted(s, {a}) == Some(a);
    assert IndexOf(s, a) == 0;
    assert TrailingRun(s[..1], {a}) == 1;
  }

  /** The longest run and last completed day agree with
      `computeFullStreakStats`. */
  lemma AgreesOnLongestAndLast(s: seq<Date>, c: set<Date>, today: Date)
    ensures Legacy(s, c, today).longestStreak == FullStreak(s, c, Some(today)).longestStreak
    ensures Legacy(s, c, today).lastCompletedDate == FullStreak(s, c, Some(today)).lastCompletedDate
  {
  }
}
