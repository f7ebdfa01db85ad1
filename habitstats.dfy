/** `HabitStatsUpdater`: the HABIT stats row, moved one todo status change
    at a time (`updateIncremental`) or rebuilt from the todo rows
    (`recalculate`).

    The collaborators the updater calls are parameters: the stored row as
    `getHabitStats` reads it, the habit `getHabitById` returns, and the two
    queries `getScheduledDates(habit, upTo)` and
    `findAllByDateRange(userId, from, to)` as functions. */
module HabitStats {
  import opened Wrappers
  import opened Calendar
  import opened Model
  import opened StreakCalculator
  import opened CompletedDates
  import opened StatsKeys
  import opened StatsStore
  import opened DateSort

  /** `getPreviousScheduledDate`: the greatest scheduled day strictly before
      `date`, `None` when there is none. */
  function PreviousScheduledDate(scheduled: seq<Date>, date: Date): (r: Option<Date>)
    ensures r.None? <==> forall x :: x in scheduled ==> !Before(x, date)
    ensures r.Some? ==> r.value in scheduled && Before(r.value, date)
                        && forall x :: x in scheduled && Before(x, date) ==> AtMost(x, r.value)
  {
    LastBeforeIsGreatest(scheduled, date);
    LastBefore(SortDates(scheduled), date)
  }

  /** The row `updateIncremental` writes, given the stored counters, the
      status change, the habit's schedule up to `date` and its todo rows from
      its start date to `date`. */
  function HabitIncrement(stored: StreakFields, date: Date,
                          newStatus: Option<TodoStatus>, previousStatus: Option<TodoStatus>,
                          scheduled: seq<Date>, todoList: seq<Todo>, habitId: string): (r: StreakFields)
    ensures r.longestStreak >= stored.longestStreak && r.longestStreak >= r.currentStreak
    ensures stored.totalCompletions >= 0 ==> r.totalCompletions >= 0
    ensures stored.currentStreak >= 0 ==> r.currentStreak >= 0
  {
    var prev := PreviousScheduledDate(scheduled, date);
    var (current, last, total) :=
      if newStatus == Some(Done) then
        (if prev.Some? && stored.lastCompletedDate == prev then stored.currentStreak + 1 else 1,
         Some(date), stored.totalCompletions + 1)
      else if previousStatus == Some(Done) then
        var total := Max(0, stored.totalCompletions - 1);
        if stored.lastCompletedDate != Some(date) then (stored.currentStreak, stored.lastCompletedDate, total)
        else if prev.None? then (0, None, total)
        else
          var upTo := ScheduledUpTo(SortDates(scheduled), prev.value);
          var done := HabitDoneDates(todoList, habitId);
          (TrailingRun(upTo, done), LastCompleted(upTo, done), total)
      else (stored.currentStreak, stored.lastCompletedDate, stored.totalCompletions);
    StreakFields(current, Max(stored.longestStreak, current), last, total)
  }

  function HabitKey(userId: string, habitId: string): Key {
    Key(PartitionKey(userId), SortKey(HabitScope, habitId, ""))
  }

  /** `updateIncremental({userId, habitId, date, newStatus, previousStatus})`. */
  method UpdateIncremental(store: Store, userId: string, habitId: string, date: Date,
                           newStatus: Option<TodoStatus>, previousStatus: Option<TodoStatus>,
                           stored: StreakFields, habit: Habit,
                           schedule: (Habit, Date) -> seq<Date>,
                           findAll: (string, Date, Date) -> seq<Todo>, now: string)
    modifies store
    ensures store.rows == old(store.rows)[HabitKey(userId, habitId) :=
              Upsert(old(store.Get(PartitionKey(userId), SortKey(HabitScope, habitId, ""))),
                     HabitIncrement(stored, date, newStatus, previousStatus, schedule(habit, date),
                                    findAll(userId, habit.startDate, date), habitId),
                     now)]
  {
    var currentStreak := stored.currentStreak;
    var lastCompletedDate := stored.lastCompletedDate;
    var totalCompletions := stored.totalCompletions;
    var longestStreak := stored.longestStreak;
    var sortedScheduled := SortDates(schedule(habit, date));
    var previousScheduledDate := PreviousScheduledDate(schedule(habit, date), date);
    if newStatus == Some(Done) {
      totalCompletions := totalCompletions + 1;
      if previousScheduledDate.Some? && lastCompletedDate == previousScheduledDate {
        currentStreak := currentStreak + 1;
        lastCompletedDate := Some(date);
      } else {
        currentStreak := 1;
        lastCompletedDate := Some(date);
      }
    } else if previousStatus == Some(Done) {
      totalCompletions := Max(0, totalCompletions - 1);
      if lastCompletedDate == Some(date) {
        if previousScheduledDate.None? {
          currentStreak := 0;
          lastCompletedDate := None;
        } else {
          var todoList := findAll(userId, habit.startDate, date);
          var completedDates := CompletedHabitDates(todoList, habitId);
          var streak, lastInRange := ComputeStreakUpTo(sortedScheduled, completedDates, previousScheduledDate.value);
          currentStreak := streak;
          lastCompletedDate := lastInRange;
        }
      }
    }
    longestStreak := Max(longestStreak, currentStreak);
    var fields := StreakFields(currentStreak, longestStreak, lastCompletedDate, totalCompletions);
    assert fields == HabitIncrement(stored, date, newStatus, previousStatus, schedule(habit, date),
                                    findAll(userId, habit.startDate, date), habitId);
    store.UpdateStreakFields(PartitionKey(userId), SortKey(HabitScope, habitId, ""), fields, now);
  }

  /** The row `recalculate` writes: the full walk over the sorted schedule up
      to the end date, with the habit's DONE days, and the number of those
      days as the total. */
  function Recalculated(scheduled: seq<Date>, todoList: seq<Todo>, habitId: string, today: Date): (r: StreakFields)
    ensures 0 <= r.currentStreak <= r.longestStreak <= |scheduled|
    ensures r.totalCompletions == |HabitDoneDates(todoList, habitId)|
    ensures r.lastCompletedDate.Some? ==> r.lastCompletedDate.value in scheduled
                                          && r.lastCompletedDate.value in HabitDoneDates(todoList, habitId)
  {
    var done := HabitDoneDates(todoList, habitId);
    var sorted := SortDates(scheduled);
    var full := FullStreak(sorted, done, Some(today));
    assert full.lastCompletedDate == LastCompleted(sorted, done);
    SameElements(scheduled, sorted);
    StreakFields(full.currentStreak, full.longestStreak, full.lastCompletedDate, |done|)
  }

  /** `recalculate(userId, habitId)`, with the clock as `today` and `now`. */
  method Recalculate(store: Store, userId: string, habitId: string, habit: Habit,
                     schedule: (Habit, Date) -> seq<Date>,
                     findAll: (string, Date, Date) -> seq<Todo>, today: Date, now: string)
    modifies store
    ensures store.rows == old(store.rows)[HabitKey(userId, habitId) :=
              Upsert(old(store.Get(PartitionKey(userId), SortKey(HabitScope, habitId, ""))),
                     Recalculated(schedule(habit, GetEndDate(habit, today)),
                                  findAll(userId, habit.startDate, GetEndDate(habit, today)), habitId, today),
                     now)]
  {
    var queryEndDate := GetEndDate(habit, today);
    var todoList := findAll(userId, habit.startDate, queryEndDate);
    var completedDates := CompletedHabitDates(todoList, habitId);
    var sortedAsc := SortDates(schedule(habit, queryEndDate));
    var full := ComputeFullStreakStats(sortedAsc, completedDates, Some(today));
    store.UpdateStreakFields(PartitionKey(userId), SortKey(HabitScope, habitId, ""),
                             StreakFields(full.currentStreak, full.longestStreak, full.lastCompletedDate, |completedDates|), now);
  }

  // ---------------------------------------------------------------------
  // What an incremental step does

  /** `p` is the greatest scheduled day strictly before `date`. */
  predicate IsLatestBefore(scheduled: seq<Date>, date: Date, p: Date) {
    p in scheduled && Before(p, date)
    && forall x :: x in scheduled && Before(x, date) ==> AtMost(x, p)
  }

  /** There is only one greatest scheduled day before `date`. */
  lemma LatestBeforeUnique(scheduled: seq<Date>, date: Date, p: Date)
    ensures IsLatestBefore(scheduled, date, p) <==> PreviousScheduledDate(scheduled, date) == Some(p)
  {
    var prev := PreviousScheduledDate(scheduled, date);
    if IsLatestBefore(scheduled, date, p) {
      assert prev.Some?;
      assert AtMost(p, prev.value) && AtMost(prev.value, p);
      assert prev.value == p by {
        var q := prev.value;
        assert !Before(q, p) && !Before(p, q);
      }
    }
  }

  /** A DONE adds one to the total, makes `date` the last completed day, and
      extends the streak exactly when the stored last completed day is the
      greatest scheduled day before `date`; otherwise the streak restarts
      at 1. */
  lemma DoneStep(stored: StreakFields, date: Date, previousStatus: Option<TodoStatus>,
                 scheduled: seq<Date>, todoList: seq<Todo>, habitId: string)
    ensures var r := HabitIncrement(stored, date, Some(Done), previousStatus, scheduled, todoList, habitId);
            r.totalCompletions == stored.totalCompletions + 1
            && r.lastCompletedDate == Some(date)
            && r.currentStreak == (if stored.lastCompletedDate.Some?
                                      && IsLatestBefore(scheduled, date, stored.lastCompletedDate.value)
                                   then stored.currentStreak + 1 else 1)
            && r.longestStreak == Max(stored.longestStreak, r.currentStreak)
  {
    if stored.lastCompletedDate.Some? {
      LatestBeforeUnique(scheduled, date, stored.lastCompletedDate.value);
    }
  }

  /** The other transitions: undoing a DONE lowers the total (never below 0)
      and, unless it was the last completed day, keeps the streak; undoing
      the last completed day with no earlier scheduled day clears the
      streak; a change that neither sets nor clears DONE keeps the
      counters. */
  lemma OtherSteps(stored: StreakFields, date: Date,
                   newStatus: Option<TodoStatus>, previousStatus: Option<TodoStatus>,
                   scheduled: seq<Date>, todoList: seq<Todo>, habitId: string)
    requires newStatus != Some(Done)
    ensures var r := HabitIncrement(stored, date, newStatus, previousStatus, scheduled, todoList, habitId);
            r.longestStreak == Max(stored.longestStreak, r.currentStreak)
            && (previousStatus == Some(Done) ==>
                  r.totalCompletions == Max(0, stored.totalCompletions - 1)
                  && (stored.lastCompletedDate != Some(date) ==>
                        r.currentStreak == stored.currentStreak && r.lastCompletedDate == stored.lastCompletedDate)
                  && (stored.lastCompletedDate == Some(date) && (forall x :: x in scheduled ==> !Before(x, date)) ==>
                        r.currentStreak == 0 && r.lastCompletedDate.None?))
            && (previousStatus != Some(Done) ==>
                  r.currentStreak == stored.currentStreak && r.lastCompletedDate == stored.lastCompletedDate
                  && r.totalCompletions == stored.totalCompletions)
  {
  }

  /** Undoing the DONE of the last completed day, when an earlier scheduled
      day exists: the streak becomes the number of consecutive DONE
      scheduled days ending at that earlier day, and the last completed day
      becomes the latest DONE scheduled day up to it. */
  lemma UndoRecomputes(stored: StreakFields, date: Date, newStatus: Option<TodoStatus>,
                       scheduled: seq<Date>, todoList: seq<Todo>, habitId: string)
    requires newStatus != Some(Done) && stored.lastCompletedDate == Some(date)
    requires exists x :: x in scheduled && Before(x, date)
    ensures var r := HabitIncrement(stored, date, newStatus, Some(Done), scheduled, todoList, habitId);
            var prev := PreviousScheduledDate(scheduled, date);
            var upTo := ScheduledUpTo(SortDates(scheduled), prev.value);
            var done := HabitDoneDates(todoList, habitId);
            prev.Some?
            && 0 <= r.currentStreak <= |upTo|
            && AllCompleted(upTo, done, |upTo| - r.currentStreak, |upTo|)
            && (r.currentStreak < |upTo| ==> upTo[|upTo| - r.currentStreak - 1] !in done)
            && (r.lastCompletedDate.None? <==> forall k :: 0 <= k < |upTo| ==> upTo[k] !in done)
            && (r.lastCompletedDate.Some? ==> r.lastCompletedDate.value in scheduled
                                              && AtMost(r.lastCompletedDate.value, prev.value)
                                              && r.lastCompletedDate.value in done)
  {
    var prev := PreviousScheduledDate(scheduled, date);
    var upTo := ScheduledUpTo(SortDates(scheduled), prev.value);
    var done := HabitDoneDates(todoList, habitId);
    UndoIsRecompute(stored, date, newStatus, scheduled, todoList, habitId);
    TrailingRunExact(upTo, done);
    LastCompletedExact(upTo, done);
    var last := LastCompleted(upTo, done);
    if last.Some? {
      UpToIsScheduled(scheduled, prev.value, last.value);
    }
  }

  /** The undo branch of `HabitIncrement` recomputes over the scheduled days
      up to the previous scheduled day. */
  lemma UndoIsRecompute(stored: StreakFields, date: Date, newStatus: Option<TodoStatus>,
                        scheduled: seq<Date>, todoList: seq<Todo>, habitId: string)
    requires newStatus != Some(Done) && stored.lastCompletedDate == Some(date)
    requires exists x :: x in scheduled && Before(x, date)
    ensures var r := HabitIncrement(stored, date, newStatus, Some(Done), scheduled, todoList, habitId);
            var prev := PreviousScheduledDate(scheduled, date);
            var upTo := ScheduledUpTo(SortDates(scheduled), prev.value);
            prev.Some?
            && r.currentStreak == TrailingRun(upTo, HabitDoneDates(todoList, habitId))
            && r.lastCompletedDate == LastCompleted(upTo, HabitDoneDates(todoList, habitId))
  {
  }

  /** A day of the sorted schedule up to `cutoff` is a scheduled day no
      later than `cutoff`. */
  lemma UpToIsScheduled(scheduled: seq<Date>, cutoff: Date, v: Date)
    requires v in ScheduledUpTo(SortDates(scheduled), cutoff)
    ensures v in scheduled && AtMost(v, cutoff)
  {
    var sorted := SortDates(scheduled);
    SameElements(scheduled, sorted);
    var upTo := ScheduledUpTo(sorted, cutoff);
    var k :| 0 <= k < |upTo| && upTo[k] == v;
  }

  // ---------------------------------------------------------------------
  // Across steps

  /** One status change of a todo row of the habit, with what the
      collaborators return for it. */
  datatype Change = Change(date: Date, newStatus: Option<TodoStatus>, previousStatus: Option<TodoStatus>,
                           scheduled: seq<Date>, todoList: seq<Todo>)

  /** The counters after a series of incremental steps. */
  function Replay(stored: StreakFields, changes: seq<Change>, habitId: string): StreakFields {
    if changes == [] then stored
    else
      var c := changes[|changes| - 1];
      HabitIncrement(Replay(stored, changes[..|changes| - 1], habitId),
                     c.date, c.newStatus, c.previousStatus, c.scheduled, c.todoList, habitId)
  }

  /** Incremental steps never lower `longestStreak`, never make the total
      negative and keep `longestStreak` at or above the current streak. */
  lemma {:induction false} ReplayRatchets(stored: StreakFields, changes: seq<Change>, habitId: string)
    requires stored.totalCompletions >= 0 && stored.currentStreak >= 0
    ensures var r := Replay(stored, changes, habitId);
            r.longestStreak >= stored.longestStreak
            && r.totalCompletions >= 0 && r.currentStreak >= 0
            && (changes != [] ==> r.longestStreak >= r.currentStreak)
  {
    if changes != [] {
      ReplayRatchets(stored, changes[..|changes| - 1], habitId);
    }
  }

  /** `recalculate` overwrites `longestStreak`: a stored longest streak of 5
      becomes 0 when the schedule up to the end date is empty. */
  lemma RecalculateLowersLongest(item: StatsItem, todoList: seq<Todo>, habitId: string, today: Date, now: string)
    requires item.fields.longestStreak == 5
    ensures Upsert(Some(item), Recalculated([], todoList, habitId, today), now).fields.longestStreak
            == 0 < item.fields.longestStreak
  {
  }
}
