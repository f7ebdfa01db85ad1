/** `computeFullStreakStats` and `computeStreakUpTo`: the run-length walk
    over the scheduled days of a habit, a category or a user.

    The walk is specified by four recursive functions on the prefix walked
    so far (`TrailingRun`, `LongestRun`, `LastCompleted`, `LastGapRun`); the
    method's loop keeps each counter equal to its function, and the lemmas
    below say what the functions mean. */
module StreakCalculator {
  import opened Wrappers
  import opened Calendar

  /** `StreakResult`. */
  datatype StreakResult = StreakResult(
    currentStreak: int,
    longestStreak: int,
    lastCompletedDate: Option<Date>)

  function Max(a: int, b: int): int {
    if a < b then b else a
  }

  /** All entries `s[i..j]` are completed days. */
  predicate AllCompleted(s: seq<Date>, c: set<Date>, i: int, j: int)
    requires 0 <= i <= j <= |s|
  {
    forall k :: i <= k < j ==> s[k] in c
  }

  /** The number of completed entries at the end of `s` (`run`). */
  function TrailingRun(s: seq<Date>, c: set<Date>): (r: nat)
    ensures r <= |s|
    ensures s != [] && s[|s| - 1] !in c ==> r == 0
  {
    if s == [] || s[|s| - 1] !in c then 0 else TrailingRun(s[..|s| - 1], c) + 1
  }

  /** The longest block of consecutive completed entries (`longestStreak`). */
  function LongestRun(s: seq<Date>, c: set<Date>): (r: nat)
    ensures TrailingRun(s, c) <= r <= |s|
  {
    if s == [] then 0 else Max(LongestRun(s[..|s| - 1], c), TrailingRun(s, c))
  }

  /** The last completed entry (`lastCompletedDate`). */
  function LastCompleted(s: seq<Date>, c: set<Date>): (r: Option<Date>)
    ensures r.Some? ==> r.value in c && r.value in s
  {
    if s == [] then None
    else if s[|s| - 1] in c then Some(s[|s| - 1])
    else LastCompleted(s[..|s| - 1], c)
  }

  /** The length of the last completed block that a missed entry closed, 0
      when no block has been closed yet (`lastRunLengthWhenGap`). */
  function LastGapRun(s: seq<Date>, c: set<Date>): (r: nat)
    ensures r <= LongestRun(s, c)
  {
    if s == [] then 0
    else
      var init := s[..|s| - 1];
      if s[|s| - 1] in c then LastGapRun(init, c)
      else if TrailingRun(init, c) > 0 then TrailingRun(init, c)
      else LastGapRun(init, c)
  }

  /** `onlyTodayPending`: the last scheduled day is today, it is not done
      yet, and the last completed day is the scheduled day before it. */
  predicate OnlyTodayPending(s: seq<Date>, c: set<Date>, today: Option<Date>) {
    today.Some? && |s| >= 2 && s[|s| - 1] == today.value && today.value !in c
    && LastCompleted(s, c) == Some(s[|s| - 2])
  }

  /** What `computeFullStreakStats(s, c, today)` returns. */
  function FullStreak(s: seq<Date>, c: set<Date>, today: Option<Date>): (r: StreakResult)
    ensures 0 <= r.currentStreak <= r.longestStreak <= |s|
    ensures s == [] ==> r == StreakResult(0, 0, None)
  {
    var current := if OnlyTodayPending(s, c, today) then LastGapRun(s, c) else TrailingRun(s, c);
    StreakResult(current, LongestRun(s, c), LastCompleted(s, c))
  }

  /** `computeFullStreakStats`: one pass over the scheduled days. */
  method ComputeFullStreakStats(scheduledAsc: seq<Date>, completedDates: set<Date>, today: Option<Date>)
    returns (r: StreakResult)
    ensures r == FullStreak(scheduledAsc, completedDates, today)
  {
    var longestStreak := 0;
    var run := 0;
    var lastCompletedDate: Option<Date> := None;
    var lastRunLengthWhenGap := 0;
    for i := 0 to |scheduledAsc|
      invariant run == TrailingRun(scheduledAsc[..i], completedDates)
      invariant longestStreak == LongestRun(scheduledAsc[..i], completedDates)
      invariant lastCompletedDate == LastCompleted(scheduledAsc[..i], completedDates)
      invariant lastRunLengthWhenGap == LastGapRun(scheduledAsc[..i], completedDates)
    {
      var date := scheduledAsc[i];
      assert scheduledAsc[..i + 1][..i] == scheduledAsc[..i];
      if date in completedDates {
        run := run + 1;
        longestStreak := Max(longestStreak, run);
        lastCompletedDate := Some(date);
      } else {
        if run > 0 {
          lastRunLengthWhenGap := run;
        }
        run := 0;
      }
    }
    assert scheduledAsc[..|scheduledAsc|] == scheduledAsc;
    var n := |scheduledAsc|;
    var pendingToday := today.Some? && n >= 1 && scheduledAsc[n - 1] == today.value
                        && today.value !in completedDates;
    var onlyTodayPending := pendingToday && n >= 2 && lastCompletedDate == Some(scheduledAsc[n - 2]);
    var currentStreak := if onlyTodayPending then lastRunLengthWhenGap else run;
    r := StreakResult(currentStreak, longestStreak, lastCompletedDate);
  }

  /** `scheduledAsc.filter(d => d <= upToDateInclusive)`. */
  function ScheduledUpTo(s: seq<Date>, cutoff: Date): (r: seq<Date>)
    ensures |r| <= |s|
    ensures forall k :: 0 <= k < |r| ==> r[k] in s && AtMost(r[k], cutoff)
    ensures forall k :: 0 <= k < |s| && AtMost(s[k], cutoff) ==> s[k] in r
  {
    if s == [] then []
    else
      var rest := ScheduledUpTo(s[1..], cutoff);
      assert forall k :: 1 <= k < |s| ==> s[k] == s[1..][k - 1];
      if AtMost(s[0], cutoff) then [s[0]] + rest else rest
  }

  /** `computeStreakUpTo`: the trailing run and last completed day over the
      scheduled days up to the cutoff, without the grace rule. */
  method ComputeStreakUpTo(scheduledAsc: seq<Date>, completedDates: set<Date>, upToDateInclusive: Date)
    returns (streak: int, lastCompletedDate: Option<Date>)
    ensures streak == TrailingRun(ScheduledUpTo(scheduledAsc, upToDateInclusive), completedDates)
    ensures lastCompletedDate == LastCompleted(ScheduledUpTo(scheduledAsc, upToDateInclusive), completedDates)
  {
    var upTo := ScheduledUpTo(scheduledAsc, upToDateInclusive);
    var full := ComputeFullStreakStats(upTo, completedDates, None);
    streak := full.currentStreak;
    lastCompletedDate := full.lastCompletedDate;
  }

  // ---------------------------------------------------------------------
  // What the functions mean

  /** The trailing run is a completed block reaching the end, and the entry
      before it (if any) is missed. */
  lemma {:induction false} TrailingRunExact(s: seq<Date>, c: set<Date>)
    ensures AllCompleted(s, c, |s| - TrailingRun(s, c), |s|)
    ensures TrailingRun(s, c) < |s| ==> s[|s| - TrailingRun(s, c) - 1] !in c
  {
    if s != [] && s[|s| - 1] in c {
      var init := s[..|s| - 1];
      TrailingRunExact(init, c);
      assert forall k :: 0 <= k < |init| ==> init[k] == s[k];
    }
  }

  /** Any completed block reaching the end is no longer than the trailing run. */
  lemma {:induction false} TrailingRunIsMaximal(s: seq<Date>, c: set<Date>, i: int)
    requires 0 <= i <= |s| && AllCompleted(s, c, i, |s|)
    ensures |s| - i <= TrailingRun(s, c)
  {
    if i < |s| {
      var init := s[..|s| - 1];
      assert forall k :: i <= k < |init| ==> init[k] == s[k];
      TrailingRunIsMaximal(init, c, i);
    }
  }

  /** No completed block is longer than `LongestRun`. */
  lemma {:induction false} LongestRunIsMaximal(s: seq<Date>, c: set<Date>, i: int, j: int)
    requires 0 <= i <= j <= |s| && AllCompleted(s, c, i, j)
    ensures j - i <= LongestRun(s, c)
  {
    if j == |s| {
      TrailingRunIsMaximal(s, c, i);
    } else {
      var init := s[..|s| - 1];
      assert forall k :: i <= k < j ==> init[k] == s[k];
      LongestRunIsMaximal(init, c, i, j);
    }
  }

  /** `s[i..i + n]` is a block of completed entries. */
  predicate HasBlock(s: seq<Date>, c: set<Date>, i: int, n: int) {
    0 <= i && 0 <= n && i + n <= |s| && forall k :: i <= k < i + n ==> s[k] in c
  }

  /** Some completed block has length `LongestRun`. */
  lemma {:induction false} LongestRunIsAttained(s: seq<Date>, c: set<Date>)
    ensures exists i :: HasBlock(s, c, i, LongestRun(s, c))
  {
    if s == [] {
      assert LongestRun(s, c) == 0 && HasBlock(s, c, 0, 0);
    } else {
      var init := s[..|s| - 1];
      var n := LongestRun(s, c);
      if n == TrailingRun(s, c) {
        TrailingRunExact(s, c);
        assert HasBlock(s, c, |s| - n, n);
      } else {
        assert n == LongestRun(init, c);
        LongestRunIsAttained(init, c);
        var i :| HasBlock(init, c, i, n);
        assert forall k :: i <= k < i + n ==> init[k] == s[k];
        assert HasBlock(s, c, i, n);
      }
    }
  }

  /** `LastCompleted` is the completed entry with no completed entry after
      it, and `None` exactly when no entry is completed. */
  lemma {:induction false} LastCompletedExact(s: seq<Date>, c: set<Date>)
    ensures LastCompleted(s, c).None? <==> forall k :: 0 <= k < |s| ==> s[k] !in c
    ensures LastCompleted(s, c).Some? ==>
              exists i :: 0 <= i < |s| && s[i] == LastCompleted(s, c).value
                          && forall k :: i < k < |s| ==> s[k] !in c
  {
    if s != [] {
      var init := s[..|s| - 1];
      LastCompletedExact(init, c);
      assert forall k :: 0 <= k < |init| ==> init[k] == s[k];
      if s[|s| - 1] in c {
        assert s[|s| - 1] == LastCompleted(s, c).value;
      } else if LastCompleted(s, c).Some? {
        var i :| 0 <= i < |init| && init[i] == LastCompleted(init, c).value
                 && forall k :: i < k < |init| ==> init[k] !in c;
        assert s[i] == LastCompleted(s, c).value;
      }
    }
  }

  /** The number of scheduled entries that are completed. */
  function CountCompleted(s: seq<Date>, c: set<Date>): (r: nat)
    ensures r <= |s|
  {
    if s == [] then 0
    else CountCompleted(s[..|s| - 1], c) + (if s[|s| - 1] in c then 1 else 0)
  }

  lemma {:induction false} TrailingRunAtMostCount(s: seq<Date>, c: set<Date>)
    ensures TrailingRun(s, c) <= CountCompleted(s, c)
  {
    if s != [] {
      TrailingRunAtMostCount(s[..|s| - 1], c);
    }
  }

  /** `currentStreak <= longestStreak <= completed scheduled days <= scheduled days`. */
  lemma {:induction false} StreakBounds(s: seq<Date>, c: set<Date>, today: Option<Date>)
    ensures FullStreak(s, c, today).currentStreak <= FullStreak(s, c, today).longestStreak
    ensures FullStreak(s, c, today).longestStreak <= CountCompleted(s, c) <= |s|
  {
    if s != [] {
      StreakBounds(s[..|s| - 1], c, None);
      TrailingRunAtMostCount(s, c);
    }
  }

  /** Only whether each scheduled entry is completed matters. */
  lemma {:induction false} SameOnSchedule(s: seq<Date>, c1: set<Date>, c2: set<Date>)
    requires forall k :: 0 <= k < |s| ==> (s[k] in c1 <==> s[k] in c2)
    ensures TrailingRun(s, c1) == TrailingRun(s, c2)
    ensures LongestRun(s, c1) == LongestRun(s, c2)
    ensures LastCompleted(s, c1) == LastCompleted(s, c2)
    ensures LastGapRun(s, c1) == LastGapRun(s, c2)
  {
    if s != [] {
      var init := s[..|s| - 1];
      assert forall k :: 0 <= k < |init| ==> init[k] == s[k];
      SameOnSchedule(init, c1, c2);
    }
  }

  /** Completed days that are not scheduled never change the result. */
  lemma UnscheduledIrrelevant(s: seq<Date>, c: set<Date>, today: Option<Date>)
    ensures FullStreak(s, c, today) == FullStreak(s, c * (set x | x in s), today)
  {
    var c2 := c * (set x | x in s);
    assert forall k :: 0 <= k < |s| ==> s[k] in s;
    SameOnSchedule(s, c, c2);
  }

  /** The current streak. With the grace condition (today is the last
      scheduled day, still pending, and the scheduled day before it is
      done) it is the run ending at that earlier day, at least 1; otherwise
      it is the trailing run, which is 0 once the last scheduled day is
      missed. */
  lemma CurrentStreakRule(s: seq<Date>, c: set<Date>, today: Option<Date>)
    ensures var grace := today.Some? && |s| >= 2 && s[|s| - 1] == today.value
                         && today.value !in c && s[|s| - 2] in c;
            (grace ==> FullStreak(s, c, today).currentStreak == TrailingRun(s[..|s| - 1], c) >= 1)
            && (!grace ==> FullStreak(s, c, today).currentStreak == TrailingRun(s, c))
  {
    if today.Some? && |s| >= 2 && s[|s| - 1] == today.value && today.value !in c && s[|s| - 2] in c {
      var init := s[..|s| - 1];
      assert init[|init| - 1] == s[|s| - 2];
      assert LastCompleted(s, c) == LastCompleted(init, c) == Some(s[|s| - 2]);
      assert OnlyTodayPending(s, c, today);
      assert LastGapRun(s, c) == TrailingRun(init, c);
    }
  }

  /** With a cutoff on or after every scheduled day, `computeStreakUpTo`
      gives the full result without today. */
  lemma {:induction false} UpToEverything(s: seq<Date>, c: set<Date>, cutoff: Date)
    requires forall k :: 0 <= k < |s| ==> AtMost(s[k], cutoff)
    ensures ScheduledUpTo(s, cutoff) == s
    ensures TrailingRun(ScheduledUpTo(s, cutoff), c) == FullStreak(s, c, None).currentStreak
    ensures LastCompleted(ScheduledUpTo(s, cutoff), c) == FullStreak(s, c, None).lastCompletedDate
  {
    if s != [] {
      UpToEverything(s[1..], c, cutoff);
    }
  }
  // ---------------------------------------------------------------------
  // Worked scenarios of the habit statistics

  /** One more scheduled entry: how each counter of the walk moves. */
  lemma Snoc(s: seq<Date>, c: set<Date>, x: Date)
    ensures TrailingRun(s + [x], c) == if x in c then TrailingRun(s, c) + 1 else 0
    ensures LongestRun(s + [x], c) == Max(LongestRun(s, c), TrailingRun(s + [x], c))
    ensures LastCompleted(s + [x], c) == if x in c then Some(x) else LastCompleted(s, c)
    ensures LastGapRun(s + [x], c) ==
              if x !in c && TrailingRun(s, c) > 0 then TrailingRun(s, c) else LastGapRun(s, c)
  {
    assert (s + [x])[..|s|] == s;
  }

  /** Eight scheduled days (2025-01-22 to 01-29 in the Anki scenario), all
      done except the fifth (the 26th) and the last, which is today and
      still pending: the streak shown is the two days before today, the
      longest run the first four. */
  lemma AnkiMissed26(s: seq<Date>, c: set<Date>)
    requires |s| == 8 && s[0] in c && s[1] in c && s[2] in c && s[3] in c && s[4] !in c && s[5] in c && s[6] in c && s[7] !in c
    ensures FullStreak(s, c, Some(s[7])) == StreakResult(2, 4, Some(s[6]))
  {
    var p1 := [] + [s[0]];
    var p2 := p1 + [s[1]];
    var p3 := p2 + [s[2]];
    var p4 := p3 + [s[3]];
    var p5 := p4 + [s[4]];
    var p6 := p5 + [s[5]];
    var p7 := p6 + [s[6]];
    assert s == p7 + [s[7]];
    assert TrailingRun(p4, c) == 4 == LongestRun(p4, c) && LastGapRun(p4, c) == 0 by {
      Snoc([], c, s[0]); Snoc(p1, c, s[1]); Snoc(p2, c, s[2]); Snoc(p3, c, s[3]);
    }
    assert TrailingRun(p7, c) == 2 && LongestRun(p7, c) == 4 && LastCompleted(p7, c) == Some(s[6]) by {
      Snoc(p4, c, s[4]); Snoc(p5, c, s[5]); Snoc(p6, c, s[6]);
    }
    Snoc(p7, c, s[7]);
  }

  /** As above with the second day (the 23rd) missed instead of the fifth:
      the streak shown is the five days before today, also the longest. */
  lemma AnkiMissed23(s: seq<Date>, c: set<Date>)
    requires |s| == 8 && s[0] in c && s[1] !in c && s[2] in c && s[3] in c && s[4] in c && s[5] in c && s[6] in c && s[7] !in c
    ensures FullStreak(s, c, Some(s[7])) == StreakResult(5, 5, Some(s[6]))
  {
    var p1 := [] + [s[0]];
    var p2 := p1 + [s[1]];
    var p3 := p2 + [s[2]];
    var p4 := p3 + [s[3]];
    var p5 := p4 + [s[4]];
    var p6 := p5 + [s[5]];
    var p7 := p6 + [s[6]];
    assert s == p7 + [s[7]];
    assert TrailingRun(p4, c) == 2 && LongestRun(p4, c) == 2 by {
      Snoc([], c, s[0]); Snoc(p1, c, s[1]); Snoc(p2, c, s[2]); Snoc(p3, c, s[3]);
    }
    assert TrailingRun(p7, c) == 5 && LongestRun(p7, c) == 5 && LastCompleted(p7, c) == Some(s[6]) by {
      Snoc(p4, c, s[4]); Snoc(p5, c, s[5]); Snoc(p6, c, s[6]);
    }
    Snoc(p7, c, s[7]);
  }

  /** Monday/Wednesday/Friday: the first two scheduled days (2025-01-27
      and 01-29) done, the third (Friday 01-31) is today and pending, so
      the streak shown is 2. */
  lemma WeekdaysScenario(s: seq<Date>, c: set<Date>)
    requires |s| == 3 && s[0] in c && s[1] in c && s[2] !in c
    ensures FullStreak(s, c, Some(s[2])) == StreakResult(2, 2, Some(s[1]))
  {
    assert s == [] + [s[0]] + [s[1]] + [s[2]];
    Snoc([], c, s[0]);
    Snoc([] + [s[0]], c, s[1]);
    Snoc([] + [s[0]] + [s[1]], c, s[2]);
  }

  /** Day 31 of each month from January to May is scheduled only in
      January, March and May. January and March are done, May is missed and
      today is 2025-06-01: the current streak is 0, the longest 2. */
  lemma MonthEndMissed()
    ensures var s: seq<Date> := [Ymd(2025, 1, 31), Ymd(2025, 3, 31), Ymd(2025, 5, 31)];
            FullStreak(s, {s[0], s[1]}, Some(Ymd(2025, 6, 1))) == StreakResult(0, 2, Some(s[1]))
  {
    var s: seq<Date> := [Ymd(2025, 1, 31), Ymd(2025, 3, 31), Ymd(2025, 5, 31)];
    var c := {s[0], s[1]};
    assert s[2] !in c;
    assert s == [] + [s[0]] + [s[1]] + [s[2]];
    Snoc([], c, s[0]);
    Snoc([] + [s[0]], c, s[1]);
    Snoc([] + [s[0]] + [s[1]], c, s[2]);
  }

  /** With day 30 instead, scheduled in January and March and both done,
      the current streak on 2025-04-01 is 2. */
  lemma MonthEndKept()
    ensures var s: seq<Date> := [Ymd(2025, 1, 30), Ymd(2025, 3, 30)];
            FullStreak(s, {s[0], s[1]}, Some(Ymd(2025, 4, 1))) == StreakResult(2, 2, Some(s[1]))
  {
    var t: seq<Date> := [Ymd(2025, 1, 30), Ymd(2025, 3, 30)];
    var d := {t[0], t[1]};
    assert t == [] + [t[0]] + [t[1]];
    Snoc([], d, t[0]);
    Snoc([] + [t[0]], d, t[1]);
  }
}
