/** `CategoryStatsUpdater`: the CATEGORY stats row, moved when a whole
    category day becomes complete or stops being complete
    (`updateIncremental`), or rebuilt from the active habits of the category
    and their todo rows (`recalculate`).

    The collaborators are parameters: the stored row as `getHabitStats`
    reads it, `getTodoListByDate(userId, ·)` and
    `findAllByDateRange(userId, ·, ·)` as functions, and the user's habits
    as `getAllHabits(userId)` returns them. */
module CategoryStats {
  import opened Wrappers
  import opened Calendar
  import opened Model
  import opened StreakCalculator
  import opened StatsKeys
  import opened StatsStore
  import opened DateRange
  import opened DayStats

  /** The todo-list entries of one category. */
  function OfCategory(list: seq<TodoListItem>, categoryId: string): (r: seq<TodoListItem>)
    ensures forall t :: t in r <==> t in list && t.categoryId == categoryId
  {
    if list == [] then []
    else
      var rest := OfCategory(list[..|list| - 1], categoryId);
      var t := list[|list| - 1];
      assert list == list[..|list| - 1] + [t];
      rest + if t.categoryId == categoryId then [t] else []
  }

  /** `isAllTodoByCategoryCompleted` on the day's list: the category has an
      entry that day and every entry of it is DONE. */
  function CategoryComplete(list: seq<TodoListItem>, categoryId: string): (r: bool)
    ensures r <==> (exists t :: t in list && t.categoryId == categoryId)
                   && forall t :: t in list && t.categoryId == categoryId ==> t.status == Done
  {
    var own := OfCategory(list, categoryId);
    assert own != [] ==> own[0] in own;
    DayComplete(own)
  }

  function CategoryKey(userId: string, categoryId: string): Key {
    Key(PartitionKey(userId), SortKey(CategoryScope, "", categoryId))
  }

  /** `updateIncremental({userId, habitId, categoryId, date})`; a missing
      category id reads as the empty text. */
  method UpdateIncremental(store: Store, userId: string, habitId: string, categoryId: Option<string>, date: Date,
                           stored: StreakFields, todoListOn: Date -> seq<TodoListItem>, now: string)
    modifies store
    ensures var cid := categoryId.GetOr("");
            var r := DayIncrement(stored, date, CategoryComplete(todoListOn(date), cid),
                                  CategoryComplete(todoListOn(AddDays(date, -1)), cid));
            store.rows == if r.None? then old(store.rows)
                          else old(store.rows)[CategoryKey(userId, cid) :=
                                 Upsert(old(store.Get(PartitionKey(userId), SortKey(CategoryScope, "", cid))), r.value, now)]
  {
    var cid := categoryId.GetOr("");
    var isAllTodayComplete := CategoryComplete(todoListOn(date), cid);
    var currentStreak := stored.currentStreak;
    var lastCompletedDate := stored.lastCompletedDate;
    var totalCompletions := stored.totalCompletions;
    var longestStreak := stored.longestStreak;
    var yesterday := AddDays(date, -1);
    if isAllTodayComplete {
      totalCompletions := totalCompletions + 1;
      if lastCompletedDate == Some(yesterday) {
        currentStreak := currentStreak + 1;
        lastCompletedDate := Some(date);
      } else {
        currentStreak := 1;
        lastCompletedDate := Some(date);
      }
    } else if lastCompletedDate == Some(date) {
      totalCompletions := Max(0, totalCompletions - 1);
      var isAllYesterdayComplete := CategoryComplete(todoListOn(yesterday), cid);
      if isAllYesterdayComplete {
        currentStreak := Max(0, currentStreak - 1);
        lastCompletedDate := Some(yesterday);
      } else {
        currentStreak := 0;
        lastCompletedDate := None;
      }
    } else {
      return;
    }
    longestStreak := Max(longestStreak, currentStreak);
    var fields := StreakFields(currentStreak, longestStreak, lastCompletedDate, totalCompletions);
    assert Some(fields) == DayIncrement(stored, date, isAllTodayComplete, CategoryComplete(todoListOn(yesterday), cid));
    store.UpdateStreakFields(PartitionKey(userId), SortKey(CategoryScope, habitId, cid), fields, now);
  }

  /** `getHabitsByCategory`: the user's habits filed under the category. */
  function HabitsOfCategory(habits: seq<Habit>, categoryId: string): (r: seq<Habit>)
    ensures forall h :: h in r <==> h in habits && h.categoryId == categoryId
  {
    Filter(habits, (h: Habit) => h.categoryId == categoryId)
  }

  /** `recalculate(userId, categoryId)`, with the clock as `today` and `now`.
      Nothing is written when the category has no active habit. */
  method Recalculate(store: Store, userId: string, categoryId: string, allHabits: seq<Habit>,
                     findAll: (Date, Date) -> seq<Todo>, today: Date, now: string)
    modifies store
    ensures var active := ActiveHabits(HabitsOfCategory(allHabits, categoryId));
            store.rows == if active == [] then old(store.rows)
                          else old(store.rows)[CategoryKey(userId, categoryId) :=
                                 Upsert(old(store.Get(PartitionKey(userId), SortKey(CategoryScope, "", categoryId))),
                                        DayRecalculated(active, findAll(MinStart(active), today), today), now)]
  {
    var habits := HabitsOfCategory(allHabits, categoryId);
    if |habits| == 0 {
      assert ActiveHabits(habits) == [];
      return;
    }
    var activeHabits := ActiveHabits(habits);
    if |activeHabits| == 0 {
      return;
    }
    var startDate := MinStart(activeHabits);
    var allDates := DatesRange(startDate, today);
    var todos := findAll(startDate, today);
    var todosByDateAndHabit := BuildTodoMap(todos);
    var completedDates, scheduledDates := GetCompletedAndScheduledDates(allDates, activeHabits, todosByDateAndHabit);
    var full := ComputeFullStreakStats(scheduledDates, completedDates, Some(today));
    store.UpdateStreakFields(PartitionKey(userId), SortKey(CategoryScope, "", categoryId),
                             StreakFields(full.currentStreak, full.longestStreak, full.lastCompletedDate, |completedDates|), now);
  }

  /** A category with no active habit, or no habit at all, is skipped;
      otherwise the active habits decide, and inactive or foreign habits
      never count. */
  lemma RecalculateScope(allHabits: seq<Habit>, categoryId: string)
    ensures var active := ActiveHabits(HabitsOfCategory(allHabits, categoryId));
            (active == [] <==> forall h :: h in allHabits && h.categoryId == categoryId ==> !h.active)
            && forall h :: h in active <==> h in allHabits && h.categoryId == categoryId && h.active
  {
    var active := ActiveHabits(HabitsOfCategory(allHabits, categoryId));
    if active != [] {
      assert active[0] in active;
    }
  }
}
