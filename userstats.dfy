/** `UserStatsUpdater`: the USER stats row, moved when the user's whole day
    becomes complete or stops being complete (`updateIncremental`), or
    rebuilt from all active habits and their todo rows (`recalculate`).

    The collaborators are parameters, as for the category updater. */
module UserStats {
  import opened Wrappers
  import opened Calendar
  import opened Model
  import opened StreakCalculator
  import opened StatsKeys
  import opened StatsStore
  import opened DateRange
  import opened DayStats
  import opened CategoryStats

  function UserKey(userId: string): Key {
    Key(PartitionKey(userId), SortKey(UserScope, "", ""))
  }

  /** `isAllTodoByUserCompleted` is `DayComplete` on the day's list. The
      user's day is complete exactly when the list is non-empty and each
      category with an entry that day is complete. */
  lemma UserCompleteIsEveryCategory(list: seq<TodoListItem>)
    ensures DayComplete(list) <==>
            |list| > 0 && forall t :: t in list ==> CategoryComplete(list, t.categoryId)
  {
    if |list| > 0 && forall t :: t in list ==> CategoryComplete(list, t.categoryId) {
      forall i | 0 <= i < |list|
        ensures list[i].status == Done
      {
        assert CategoryComplete(list, list[i].categoryId);
      }
    }
  }

  /** `updateIncremental({userId, habitId, date})`. */
  method UpdateIncremental(store: Store, userId: string, habitId: string, date: Date,
                           stored: StreakFields, todoListOn: Date -> seq<TodoListItem>, now: string)
    modifies store
    ensures var r := DayIncrement(stored, date, DayComplete(todoListOn(date)), DayComplete(todoListOn(AddDays(date, -1))));
            store.rows == if r.None? then old(store.rows)
                          else old(store.rows)[UserKey(userId) :=
                                 Upsert(old(store.Get(PartitionKey(userId), SortKey(UserScope, "", ""))), r.value, now)]
  {
    var isAllTodayComplete := DayComplete(todoListOn(date));
    var currentStreak := stored.currentStreak;
    var lastCompletedDate := stored.lastCompletedDate;
    var totalCompletions := stored.totalCompletions;
    var longestStreak := stored.longestStreak;
    var yesterday := AddDays(date, -1);
    if isAllTodayComplete {
      totalCompletions := totalCompletions + 1;
      if lastCompletedDate == Some(yesterday) {
        currentStreak := currentStreak + 1;
        lastCompletedDate := Some(date);
      } else {
        currentStreak := 1;
        lastCompletedDate := Some(date);
      }
    } else if lastCompletedDate == Some(date) {
      totalCompletions := Max(0, totalCompletions - 1);
      var isAllYesterdayComplete := DayComplete(todoListOn(yesterday));
      if isAllYesterdayComplete {
        currentStreak := Max(0, currentStreak - 1);
        lastCompletedDate := Some(yesterday);
      } else {
        currentStreak := 0;
        lastCompletedDate := None;
      }
    } else {
      return;
    }
    longestStreak := Max(longestStreak, currentStreak);
    store.UpdateStreakFields(PartitionKey(userId), SortKey(UserScope, habitId, ""),
                             StreakFields(currentStreak, longestStreak, lastCompletedDate, totalCompletions), now);
  }

  /** `recalculate(userId)`, with the clock as `today` and `now`. Nothing is
      written when the user has no active habit. */
  method Recalculate(store: Store, userId: string, allHabits: seq<Habit>,
                     findAll: (Date, Date) -> seq<Todo>, today: Date, now: string)
    modifies store
    ensures var active := ActiveHabits(allHabits);
            store.rows == if active == [] then old(store.rows)
                          else old(store.rows)[UserKey(userId) :=
                                 Upsert(old(store.Get(PartitionKey(userId), SortKey(UserScope, "", ""))),
                                        DayRecalculated(active, findAll(MinStart(active), today), today), now)]
  {
    if |allHabits| == 0 {
      assert ActiveHabits(allHabits) == [];
      return;
    }
    var activeHabits := ActiveHabits(allHabits);
    if |activeHabits| == 0 {
      return;
    }
    var startDate := MinStart(activeHabits);
    var endDate := today;
    var allDates := DatesRange(startDate, today);
    var todos := findAll(startDate, endDate);
    var todosByDateAndHabit := BuildTodoMap(todos);
    var completedDates, scheduledDates := GetCompletedAndScheduledDates(allDates, activeHabits, todosByDateAndHabit);
    var full := ComputeFullStreakStats(scheduledDates, completedDates, Some(today));
    store.UpdateStreakFields(PartitionKey(userId), SortKey(UserScope, "", ""),
                             StreakFields(full.currentStreak, full.longestStreak, full.lastCompletedDate, |completedDates|), now);
  }
}
