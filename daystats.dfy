/** What `CategoryStatsUpdater` and `UserStatsUpdater` share line for line
    (each file has its own copy): the whole-day incremental step, the
    earliest start date, `buildTodoMap`, and the walk that picks the
    scheduled and the completed days for a recalculation. */
module DayStats {
  import opened Wrappers
  import opened Calendar
  import opened Model
  import opened StreakCalculator
  import opened HabitDate
  import opened DateRange

  // ---------------------------------------------------------------------
  // The incremental step

  /** The counters the incremental step writes, `None` when it returns
      without writing. `todayComplete` and `yesterdayComplete` are the
      whole-day tests on `date` and on the calendar day before it. */
  function DayIncrement(stored: StreakFields, date: Date, todayComplete: bool, yesterdayComplete: bool)
    : (r: Option<StreakFields>)
    ensures r.None? <==> !todayComplete && stored.lastCompletedDate != Some(date)
    ensures r.Some? ==> r.value.longestStreak >= stored.longestStreak
                        && r.value.longestStreak >= r.value.currentStreak
    ensures r.Some? && stored.totalCompletions >= 0 ==> r.value.totalCompletions >= 0
    ensures r.Some? && stored.currentStreak >= 0 ==> r.value.currentStreak >= 0
  {
    var yesterday := AddDays(date, -1);
    if todayComplete then
      var current := if stored.lastCompletedDate == Some(yesterday) then stored.currentStreak + 1 else 1;
      Some(StreakFields(current, Max(stored.longestStreak, current), Some(date), stored.totalCompletions + 1))
    else if stored.lastCompletedDate == Some(date) then
      var current := if yesterdayComplete then Max(0, stored.currentStreak - 1) else 0;
      var last := if yesterdayComplete then Some(yesterday) else None;
      Some(StreakFields(current, Max(stored.longestStreak, current), last, Max(0, stored.totalCompletions - 1)))
    else None
  }

  /** Completing a day that follows the last completed day and then undoing
      it gives back the stored counters (the longest streak keeps the peak
      it reached). */
  lemma CompleteThenUndo(stored: StreakFields, date: Date)
    requires stored.lastCompletedDate == Some(AddDays(date, -1))
    requires stored.currentStreak >= 0 && stored.totalCompletions >= 0
    ensures var once := DayIncrement(stored, date, true, true);
            once.Some? && once.value.lastCompletedDate == Some(date)
            && var back := DayIncrement(once.value, date, false, true);
               back.Some?
               && back.value.currentStreak == stored.currentStreak
               && back.value.lastCompletedDate == stored.lastCompletedDate
               && back.value.totalCompletions == stored.totalCompletions
               && back.value.longestStreak == Max(stored.longestStreak, stored.currentStreak + 1)
  {
  }

  /** The step is not idempotent: a second "complete" for the same day
      counts the day again and restarts the streak at 1, because the last
      completed day is then `date`, not yesterday. */
  lemma RepeatRestartsStreak(stored: StreakFields, date: Date)
    requires stored.lastCompletedDate == Some(AddDays(date, -1)) && stored.currentStreak == 3
    ensures var once := DayIncrement(stored, date, true, true);
            once.Some? && once.value.currentStreak == 4
            && var twice := DayIncrement(once.value, date, true, true);
               twice.Some? && twice.value.currentStreak == 1
               && twice.value.totalCompletions == stored.totalCompletions + 2
  {
    AddDaysZero(date);
    assert AddDays(date, -1) != date by {
      assert DayNumber(AddDays(date, -1)) == DayNumber(date) - 1;
    }
  }

  /** Whole-day completions in calendar order, each one step. */
  function CompleteEach(stored: StreakFields, days: seq<Date>): StreakFields {
    if days == [] then stored
    else
      var before := CompleteEach(stored, days[..|days| - 1]);
      DayIncrement(before, days[|days| - 1], true, false).value
  }

  predicate Consecutive(days: seq<Date>) {
    forall i :: 0 < i < |days| ==> days[i] == AddDays(days[i - 1], 1)
  }

  /** From an empty row, completing `n` consecutive days one after the other
      gives a streak, longest streak and total of `n`, ending on the last
      of them. */
  lemma {:induction false} ConsecutiveDaysCount(days: seq<Date>)
    requires |days| > 0 && Consecutive(days)
    ensures CompleteEach(ZeroFields, days)
            == StreakFields(|days|, |days|, Some(days[|days| - 1]), |days|)
  {
    if |days| > 1 {
      var init := days[..|days| - 1];
      assert Consecutive(init);
      ConsecutiveDaysCount(init);
      var last := days[|days| - 1];
      AddDaysRoundTrip(days[|days| - 2], 1);
      assert init[|init| - 1] == AddDays(last, -1);
    }
  }

  /** On those days, when every one is scheduled and done, a recalculation
      reaches the same counters: the two paths agree. */
  lemma {:induction false} RecalculationAgrees(days: seq<Date>, today: Option<Date>)
    requires |days| > 0 && Consecutive(days)
    ensures var full := FullStreak(days, (set d | d in days), today);
            var inc := CompleteEach(ZeroFields, days);
            full.currentStreak == inc.currentStreak && full.longestStreak == inc.longestStreak
            && full.lastCompletedDate == inc.lastCompletedDate
  {
    var c := set d | d in days;
    ConsecutiveDaysCount(days);
    assert AllCompleted(days, c, 0, |days|);
    TrailingRunIsMaximal(days, c, 0);
    CurrentStreakRule(days, c, today);
    assert days[|days| - 1] in c;
    assert LastCompleted(days, c) == Some(days[|days| - 1]);
  }

  // ---------------------------------------------------------------------
  // Which habits count, and from when

  function Filter(s: seq<Habit>, p: Habit -> bool): (r: seq<Habit>)
    ensures |r| <= |s|
    ensures forall x :: x in r <==> x in s && p(x)
  {
    if s == [] then []
    else
      var rest := Filter(s[..|s| - 1], p);
      assert s == s[..|s| - 1] + [s[|s| - 1]];
      rest + if p(s[|s| - 1]) then [s[|s| - 1]] else []
  }

  /** `habits.filter((h) => h.active)`. */
  function ActiveHabits(habits: seq<Habit>): (r: seq<Habit>)
    ensures forall h :: h in r <==> h in habits && h.active
  {
    Filter(habits, (h: Habit) => h.active)
  }

  /** The reduce that picks the earliest `start_date` of the active habits. */
  function MinStart(habits: seq<Habit>): (r: Date)
    requires |habits| > 0
    ensures exists k :: 0 <= k < |habits| && habits[k].startDate == r
    ensures forall k :: 0 <= k < |habits| ==> AtMost(r, habits[k].startDate)
  {
    if |habits| == 1 then habits[0].startDate
    else
      var min := MinStart(habits[..|habits| - 1]);
      var s := habits[|habits| - 1].startDate;
      assert forall k :: 0 <= k < |habits| - 1 ==> habits[..|habits| - 1][k] == habits[k];
      if Before(s, min) then s else min
  }

  // ---------------------------------------------------------------------
  // buildTodoMap

  /** `buildTodoMap(todos)`: date, then habit id, to the row; a later row
      for the same date and habit replaces an earlier one. */
  function TodoMapOf(todos: seq<Todo>): map<Date, map<string, Todo>> {
    if todos == [] then map[]
    else
      var t := todos[|todos| - 1];
      var m := TodoMapOf(todos[..|todos| - 1]);
      var inner := if t.date in m then m[t.date] else map[];
      m[t.date := inner[t.habitId := t]]
  }

  method BuildTodoMap(todos: seq<Todo>) returns (m: map<Date, map<string, Todo>>)
    ensures m == TodoMapOf(todos)
  {
    m := map[];
    for j := 0 to |todos|
      invariant m == TodoMapOf(todos[..j])
    {
      var t := todos[j];
      assert todos[..j + 1][..j] == todos[..j];
      if t.date !in m {
        m := m[t.date := map[]];
      }
      m := m[t.date := m[t.date][t.habitId := t]];
    }
    assert todos[..|todos|] == todos;
  }

  predicate RowFor(t: Todo, d: Date, habitId: string) {
    t.date == d && t.habitId == habitId
  }

  /** `todos[k]` is the last row for this date and habit. */
  predicate LastRowFor(todos: seq<Todo>, d: Date, habitId: string, k: int) {
    0 <= k < |todos| && RowFor(todos[k], d, habitId)
    && forall j :: k < j < |todos| ==> !RowFor(todos[j], d, habitId)
  }

  /** A date is a key exactly when some row carries it. */
  lemma {:induction false} TodoMapDates(todos: seq<Todo>, d: Date)
    ensures d in TodoMapOf(todos) <==> exists k :: 0 <= k < |todos| && todos[k].date == d
  {
    if todos != [] {
      var init := todos[..|todos| - 1];
      TodoMapDates(init, d);
      assert forall k :: 0 <= k < |init| ==> init[k] == todos[k];
    }
  }

  /** The map holds a row for a date and habit exactly when the input does,
      and it is the last such row of the input. */
  lemma {:induction false} TodoMapLastWins(todos: seq<Todo>, d: Date, habitId: string)
    ensures var m := TodoMapOf(todos);
            (d in m && habitId in m[d] <==> exists k :: 0 <= k < |todos| && RowFor(todos[k], d, habitId))
            && (d in m && habitId in m[d] ==> exists k :: LastRowFor(todos, d, habitId, k) && m[d][habitId] == todos[k])
  {
    if todos != [] {
      var init := todos[..|todos| - 1];
      var t := todos[|todos| - 1];
      TodoMapLastWins(init, d, habitId);
      assert forall k :: 0 <= k < |init| ==> init[k] == todos[k];
      var m := TodoMapOf(todos);
      if RowFor(t, d, habitId) {
        assert LastRowFor(todos, d, habitId, |todos| - 1);
      } else if d in m && habitId in m[d] {
        assert d in TodoMapOf(init) && habitId in TodoMapOf(init)[d];
        var k :| LastRowFor(init, d, habitId, k) && TodoMapOf(init)[d][habitId] == init[k];
        assert LastRowFor(todos, d, habitId, k);
      }
    }
  }

  // ---------------------------------------------------------------------
  // The scheduled and the completed days

  /** The per-day habit filter: started by `d`, not ended before `d`, and
      due on `d`. The end-date test repeats the one inside
      `IsValidForTargetDate`: a habit is scheduled exactly when it has
      started and is due. */
  predicate ScheduledOn(h: Habit, d: Date)
    ensures ScheduledOn(h, d) <==> AtMost(h.startDate, d) && IsValidForTargetDate(h, d)
  {
    AtMost(h.startDate, d)
    && (h.endDate.None? || AtMost(d, h.endDate.value))
    && IsValidForTargetDate(h, d)
  }

  function ScheduledHabits(habits: seq<Habit>, d: Date): (r: seq<Habit>)
    ensures forall h :: h in r <==> h in habits && ScheduledOn(h, d)
  {
    Filter(habits, (h: Habit) => ScheduledOn(h, d))
  }

  /** `scheduledHabits.every(...)`: each has a row on the day and it is DONE. */
  predicate AllHabitsDone(habits: seq<Habit>, rows: map<string, Todo>) {
    forall i :: 0 <= i < |habits| ==> habits[i].id in rows && rows[habits[i].id].status == Done
  }

  /** A day is completed when some habit is scheduled on it, it has rows,
      and every scheduled habit's row is DONE. */
  predicate DayCompleted(habits: seq<Habit>, todoMap: map<Date, map<string, Todo>>, d: Date) {
    var scheduled := ScheduledHabits(habits, d);
    |scheduled| > 0 && d in todoMap && AllHabitsDone(scheduled, todoMap[d])
  }

  /** The days of `dates` on which some habit is scheduled, in order. */
  function ScheduledDays(dates: seq<Date>, habits: seq<Habit>): (r: seq<Date>)
    ensures |r| <= |dates|
  {
    if dates == [] then []
    else
      var d := dates[|dates| - 1];
      ScheduledDays(dates[..|dates| - 1], habits) + if |ScheduledHabits(habits, d)| > 0 then [d] else []
  }

  /** The completed days of `dates`. */
  function CompletedDays(dates: seq<Date>, habits: seq<Habit>, todoMap: map<Date, map<string, Todo>>): set<Date> {
    if dates == [] then {}
    else
      var d := dates[|dates| - 1];
      CompletedDays(dates[..|dates| - 1], habits, todoMap) + if DayCompleted(habits, todoMap, d) then {d} else {}
  }

  /** `getCompletedAndScheduledDates(ForCategory)`. */
  method GetCompletedAndScheduledDates(dates: seq<Date>, activeHabits: seq<Habit>,
                                       todoMap: map<Date, map<string, Todo>>)
    returns (completed: set<Date>, scheduled: seq<Date>)
    ensures completed == CompletedDays(dates, activeHabits, todoMap)
    ensures scheduled == ScheduledDays(dates, activeHabits)
  {
    completed := {};
    scheduled := [];
    for j := 0 to |dates|
      invariant completed == CompletedDays(dates[..j], activeHabits, todoMap)
      invariant scheduled == ScheduledDays(dates[..j], activeHabits)
    {
      var dateStr := dates[j];
      assert dates[..j + 1][..j] == dates[..j];
      var scheduledHabits := ScheduledHabits(activeHabits, dateStr);
      if |scheduledHabits| == 0 {
        continue;
      }
      scheduled := scheduled + [dateStr];
      if dateStr !in todoMap {
        continue;
      }
      var allDone := AllHabitsDone(scheduledHabits, todoMap[dateStr]);
      if allDone {
        completed := completed + {dateStr};
      }
    }
    assert dates[..|dates|] == dates;
  }

  /** The scheduled days are exactly the days of `dates` on which some
      habit is scheduled. */
  lemma {:induction false} ScheduledDaysExact(dates: seq<Date>, habits: seq<Habit>, d: Date)
    ensures d in ScheduledDays(dates, habits) <==> d in dates && exists h :: h in habits && ScheduledOn(h, d)
  {
    if dates != [] {
      var init := dates[..|dates| - 1];
      ScheduledDaysExact(init, habits, d);
      assert dates == init + [dates[|dates| - 1]];
      var hs := ScheduledHabits(habits, d);
      if |hs| > 0 {
        assert hs[0] in hs;
      }
    }
  }

  /** The completed days are exactly the days of `dates` that pass the
      whole-day test; in particular each is a scheduled day. */
  lemma {:induction false} CompletedDaysExact(dates: seq<Date>, habits: seq<Habit>,
                                              todoMap: map<Date, map<string, Todo>>, d: Date)
    ensures d in CompletedDays(dates, habits, todoMap) <==> d in dates && DayCompleted(habits, todoMap, d)
    ensures d in CompletedDays(dates, habits, todoMap) ==> d in ScheduledDays(dates, habits)
  {
    if dates != [] {
      var init := dates[..|dates| - 1];
      CompletedDaysExact(init, habits, todoMap, d);
      assert dates == init + [dates[|dates| - 1]];
    }
    if d in CompletedDays(dates, habits, todoMap) {
      ScheduledDaysExact(dates, habits, d);
      var hs := ScheduledHabits(habits, d);
      assert hs[0] in hs;
    }
  }

  /** A day with a scheduled habit is completed exactly when every habit
      scheduled on it has a row on it whose last occurrence in the input is
      DONE; a missing row blocks the day. */
  lemma CompletedDayFromRows(dates: seq<Date>, habits: seq<Habit>, todos: seq<Todo>, d: Date)
    requires d in dates && exists h :: h in habits && ScheduledOn(h, d)
    ensures d in CompletedDays(dates, habits, TodoMapOf(todos)) <==>
            forall h :: h in habits && ScheduledOn(h, d) ==>
              exists k :: LastRowFor(todos, d, h.id, k) && todos[k].status == Done
  {
    var m := TodoMapOf(todos);
    CompletedDaysExact(dates, habits, m, d);
    var hs := ScheduledHabits(habits, d);
    forall h | h in hs
      ensures DoneIn(m, d, h.id) <==> exists k :: LastRowFor(todos, d, h.id, k) && todos[k].status == Done
    {
      HabitDoneOnDay(todos, d, h.id);
    }
    var h0 :| h0 in habits && ScheduledOn(h0, d);
    assert h0 in hs;
    AllHabitsDoneMembers(hs, m, d);
  }

  /** The map holds a DONE row for the habit on the day. */
  predicate DoneIn(m: map<Date, map<string, Todo>>, d: Date, habitId: string) {
    d in m && habitId in m[d] && m[d][habitId].status == Done
  }

  /** The map's row for a habit on a day is DONE exactly when the input's
      last row for them is. */
  lemma HabitDoneOnDay(todos: seq<Todo>, d: Date, habitId: string)
    ensures DoneIn(TodoMapOf(todos), d, habitId) <==>
            exists k :: LastRowFor(todos, d, habitId, k) && todos[k].status == Done
  {
    var m := TodoMapOf(todos);
    TodoMapLastWins(todos, d, habitId);
    if exists k :: LastRowFor(todos, d, habitId, k) && todos[k].status == Done {
      var k :| LastRowFor(todos, d, habitId, k) && todos[k].status == Done;
      assert RowFor(todos[k], d, habitId);
      var k' :| LastRowFor(todos, d, habitId, k') && m[d][habitId] == todos[k'];
      assert k == k';
    }
  }

  /** A nonempty list of scheduled habits is all done on a day exactly when
      each of them has a DONE row there. */
  lemma AllHabitsDoneMembers(hs: seq<Habit>, m: map<Date, map<string, Todo>>, d: Date)
    requires |hs| > 0
    ensures (d in m && AllHabitsDone(hs, m[d])) <==> forall h :: h in hs ==> DoneIn(m, d, h.id)
  {
    if forall h :: h in hs ==> DoneIn(m, d, h.id) {
      assert DoneIn(m, d, hs[0].id);
      forall i | 0 <= i < |hs|
        ensures hs[i].id in m[d] && m[d][hs[i].id].status == Done
      {
        assert hs[i] in hs;
      }
    }
  }

  // ---------------------------------------------------------------------
  // The recalculated row

  /** What a recalculation writes for the active habits: the full walk over
      the scheduled days from the earliest start date to today, with the
      completed days, and the number of completed days as the total. */
  function DayRecalculated(active: seq<Habit>, todos: seq<Todo>, today: Date): (r: StreakFields)
    requires |active| > 0
    ensures 0 <= r.currentStreak <= r.longestStreak
            <= |ScheduledDays(DaysBetween(MinStart(active), today), active)|
    ensures r.totalCompletions == |CompletedDays(DaysBetween(MinStart(active), today), active, TodoMapOf(todos))|
  {
    var dates := DaysBetween(MinStart(active), today);
    var completed := CompletedDays(dates, active, TodoMapOf(todos));
    var full := FullStreak(ScheduledDays(dates, active), completed, Some(today));
    StreakFields(full.currentStreak, full.longestStreak, full.lastCompletedDate, |completed|)
  }

  /** The last completed day a recalculation writes is a completed day
      between the earliest start date and today. */
  lemma RecalculatedLast(active: seq<Habit>, todos: seq<Todo>, today: Date)
    requires |active| > 0
    ensures var r := DayRecalculated(active, todos, today);
            var dates := DaysBetween(MinStart(active), today);
            r.lastCompletedDate.Some? ==>
              var d := r.lastCompletedDate.value;
              d in CompletedDays(dates, active, TodoMapOf(todos))
              && AtMost(MinStart(active), d) && AtMost(d, today)
              && DayCompleted(active, TodoMapOf(todos), d)
  {
    var r := DayRecalculated(active, todos, today);
    var dates := DaysBetween(MinStart(active), today);
    var m := TodoMapOf(todos);
    var completed := CompletedDays(dates, active, m);
    var scheduled := ScheduledDays(dates, active);
    assert r.lastCompletedDate == LastCompleted(scheduled, completed);
    if r.lastCompletedDate.Some? {
      var d := r.lastCompletedDate.value;
      CompletedDaysExact(dates, active, m, d);
      InDaysBetween(MinStart(active), today, d);
    }
  }
}
