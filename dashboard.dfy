/** `StatsDashboardAggregator`: the month view of the statistics. Its
    counters (completed days, totals, best streak in the month) and which
    optional parts it fills in; the rates and daily averages are
    floating-point quotients and are left out.

    The collaborators are parameters: `getTodoListByDate(userId, date,
    categoryId, habitId)` and `findAllByDateRange(userId, from, to)` as
    functions, `getAllHabits(userId, categoryId)` as the habits it returns,
    and the stats rows as the store. */
module Dashboard {
  import opened Wrappers
  import opened Calendar
  import opened Model
  import opened StreakCalculator
  import opened StatsKeys
  import opened StatsStore
  import opened DateRange
  import opened DateSort

  // ---------------------------------------------------------------------
  // calculateBestStreakFromDates

  /** `diffDays === 1`: `b` is the calendar day after `a`. */
  predicate NextOf(a: Date, b: Date) {
    DayNumber(b) - DayNumber(a) == 1
  }

  /** The length of the chain of one-day steps that ends at the last entry. */
  function ChainEnd(s: seq<Date>): (r: nat)
    requires |s| > 0
    ensures 1 <= r <= |s|
  {
    if |s| == 1 then 1
    else if NextOf(s[|s| - 2], s[|s| - 1]) then ChainEnd(s[..|s| - 1]) + 1
    else 1
  }

  /** The longest chain of one-day steps, 0 for no dates. */
  function BestChain(s: seq<Date>): (r: nat)
    ensures s == [] <==> r == 0
    ensures r <= |s|
    ensures s != [] ==> ChainEnd(s) <= r
  {
    if s == [] then 0 else Max(BestChain(s[..|s| - 1]), ChainEnd(s))
  }

  /** `calculateBestStreakFromDates(completedDates)`. */
  method CalculateBestStreakFromDates(completedDates: seq<Date>) returns (best: int)
    ensures best == BestChain(completedDates)
  {
    if |completedDates| == 0 {
      return 0;
    }
    var bestStreak := 1;
    var currentStreak := 1;
    assert completedDates[..1] == [completedDates[0]];
    for i := 1 to |completedDates|
      invariant currentStreak == ChainEnd(completedDates[..i])
      invariant bestStreak == BestChain(completedDates[..i])
    {
      var prefix := completedDates[..i + 1];
      assert prefix[..i] == completedDates[..i];
      assert prefix[i - 1] == completedDates[i - 1] && prefix[i] == completedDates[i];
      if DayNumber(completedDates[i]) - DayNumber(completedDates[i - 1]) == 1 {
        currentStreak := currentStreak + 1;
        bestStreak := Max(bestStreak, currentStreak);
      } else {
        currentStreak := 1;
      }
    }
    assert completedDates[..|completedDates|] == completedDates;
    best := bestStreak;
  }

  /** `s[i..i + n]` steps one calendar day at a time. */
  predicate HasChain(s: seq<Date>, i: int, n: int) {
    0 <= i && 1 <= n && i + n <= |s| && forall k :: i < k < i + n ==> NextOf(s[k - 1], s[k])
  }

  lemma {:induction false} ChainEndExact(s: seq<Date>)
    requires |s| > 0
    ensures HasChain(s, |s| - ChainEnd(s), ChainEnd(s))
    ensures ChainEnd(s) < |s| ==> !NextOf(s[|s| - ChainEnd(s) - 1], s[|s| - ChainEnd(s)])
  {
    if |s| == 1 {
      assert ChainEnd(s) == 1;
    } else if NextOf(s[|s| - 2], s[|s| - 1]) {
      var init := s[..|s| - 1];
      ChainEndExact(init);
      var e := ChainEnd(init);
      var i := |init| - e;
      assert ChainEnd(s) == e + 1;
      assert i > 0 ==> init[|init| - e - 1] == init[i - 1] && init[|init| - e] == init[i];
      ChainExtends(s, i, e);
      assert i > 0 ==> s[|s| - ChainEnd(s) - 1] == s[i - 1] && s[|s| - ChainEnd(s)] == s[i];
    } else {
      assert ChainEnd(s) == 1;
    }
  }

  /** A chain ending at the next-to-last date grows by the last date when
      that is one day later. */
  lemma ChainExtends(s: seq<Date>, i: int, n: int)
    requires |s| > 1 && NextOf(s[|s| - 2], s[|s| - 1])
    requires HasChain(s[..|s| - 1], i, n) && i + n == |s| - 1
    requires i > 0 ==> !NextOf(s[..|s| - 1][i - 1], s[..|s| - 1][i])
    ensures HasChain(s, i, n + 1)
    ensures i > 0 ==> !NextOf(s[i - 1], s[i])
  {
    var init := s[..|s| - 1];
    forall k | i < k < i + n + 1
      ensures NextOf(s[k - 1], s[k])
    {
      if k < |s| - 1 {
        assert init[k - 1] == s[k - 1] && init[k] == s[k];
      }
    }
    if i > 0 {
      assert init[i - 1] == s[i - 1] && init[i] == s[i];
    }
  }

  lemma {:induction false} ChainEndIsMaximal(s: seq<Date>, i: int)
    requires HasChain(s, i, |s| - i)
    ensures |s| - i <= ChainEnd(s)
  {
    if i < |s| - 1 {
      var init := s[..|s| - 1];
      assert forall k :: 0 <= k < |init| ==> init[k] == s[k];
      ChainEndIsMaximal(init, i);
    }
  }

  /** The best streak is the length of the longest run of dates each one
      day after the one before: no run is longer, and one has that length.
      A gap or a repeated date breaks a run. */
  lemma {:induction false} BestChainIsLongest(s: seq<Date>, i: int, n: int)
    ensures HasChain(s, i, n) ==> n <= BestChain(s)
    ensures s != [] ==> exists j :: HasChain(s, j, BestChain(s))
  {
    if s != [] {
      var init := s[..|s| - 1];
      assert forall k :: 0 <= k < |init| ==> init[k] == s[k];
      BestChainIsLongest(init, i, n);
      if HasChain(s, i, n) {
        if i + n == |s| {
          ChainEndIsMaximal(s, i);
        } else {
          assert HasChain(init, i, n);
        }
      }
      ChainEndExact(s);
      if BestChain(s) != ChainEnd(s) {
        var j :| HasChain(init, j, BestChain(init));
        assert HasChain(s, j, BestChain(s));
      }
    }
  }

  // ---------------------------------------------------------------------
  // The month

  /** `datesRange(firstDay, lastDay)` for the month: one entry per day. */
  function MonthDays(year: int, month: int): (r: seq<Date>)
    requires 1 <= month <= 12
    ensures |r| == DaysInMonth(year, month)
  {
    DaysBetween(Ymd(year, month, 1), Ymd(year, month, DaysInMonth(year, month)))
  }

  /** The days of `dates` whose todo list is non-empty and all DONE, in order. */
  function CompleteDaysOf(dates: seq<Date>, listOn: Date -> seq<TodoListItem>): (r: seq<Date>)
    ensures |r| <= |dates|
    ensures forall d :: d in r <==> d in dates && DayComplete(listOn(d))
  {
    if dates == [] then []
    else
      var d := dates[|dates| - 1];
      var init := dates[..|dates| - 1];
      assert dates == init + [d];
      CompleteDaysOf(init, listOn) + if DayComplete(listOn(d)) then [d] else []
  }

  /** One of the three loops of `getData` that collect the complete days. */
  method CollectCompleteDays(dates: seq<Date>, listOn: Date -> seq<TodoListItem>) returns (completed: seq<Date>)
    ensures completed == CompleteDaysOf(dates, listOn)
  {
    completed := [];
    for j := 0 to |dates|
      invariant completed == CompleteDaysOf(dates[..j], listOn)
    {
      var date := dates[j];
      assert dates[..j + 1][..j] == dates[..j];
      var todoList := listOn(date);
      var allDone := |todoList| > 0 && AllDone(todoList);
      if allDone {
        completed := completed + [date];
      }
    }
    assert dates[..|dates|] == dates;
  }

  /** The number of DONE rows whose habit `keep` admits. */
  function CountDone(todos: seq<Todo>, keep: string -> bool): (r: nat)
    ensures r <= |todos|
  {
    if todos == [] then 0
    else
      var t := todos[|todos| - 1];
      CountDone(todos[..|todos| - 1], keep) + if keep(t.habitId) && t.status == Done then 1 else 0
  }

  /** JavaScript truthiness of an optional text: present and not empty. */
  predicate Given(o: Option<string>) {
    o.Some? && o.value != ""
  }

  // ---------------------------------------------------------------------
  // getData

  datatype HabitForSelectedDate = HabitForSelectedDate(
    id: string, title: string, emoji: string, categoryId: string, status: TodoStatus)

  datatype CategoryPart = CategoryPart(
    streak: int, longestStreak: int, totalCompletions: int,
    monthTotalCompletions: int, monthBestStreak: int)

  datatype HabitPart = HabitPart(streak: int, monthTotalCompletions: int, monthBestStreak: int)

  /** `StatsDashboardData` without its rates and averages; an absent
      optional field is `None`. */
  datatype DashboardData = DashboardData(
    completedDates: seq<Date>,
    globalStreak: int,
    globalLongestStreak: int,
    globalTotalCompletions: int,
    lastCompletedDate: Option<Date>,
    monthCompletionCount: int,
    daysInMonth: int,
    monthTotalCompletions: int,
    monthBestStreak: int,
    habitsForSelectedDate: Option<seq<HabitForSelectedDate>>,
    category: Option<CategoryPart>,
    habit: Option<HabitPart>)

  function ForSelectedDate(list: seq<TodoListItem>): (r: seq<HabitForSelectedDate>)
    ensures |r| == |list|
    ensures forall i :: 0 <= i < |r| ==> r[i].id == list[i].id && r[i].status == list[i].status
  {
    seq(|list|, i requires 0 <= i < |list| =>
      HabitForSelectedDate(list[i].id, list[i].title, list[i].emoji, list[i].categoryId, list[i].status))
  }

  function Lookup(rows: map<Key, StatsItem>, k: Key): Option<StreakFields> {
    if k in rows then Some(rows[k].fields) else None
  }

  function CurrentOr0(s: Option<StreakFields>): int { if s.Some? then s.value.currentStreak else 0 }
  function LongestOr0(s: Option<StreakFields>): int { if s.Some? then s.value.longestStreak else 0 }
  function TotalOr0(s: Option<StreakFields>): int { if s.Some? then s.value.totalCompletions else 0 }

  /** The category part: its stats row (zeros when missing), the DONE rows
      of its habits in the month, and its best streak in the month. */
  function CategoryPartOf(rows: map<Key, StatsItem>, userId: string, categoryId: string, days: seq<Date>,
                          listOn: (Date, Option<string>, Option<string>) -> seq<TodoListItem>,
                          monthTodos: seq<Todo>, categoryHabits: seq<Habit>): CategoryPart
  {
    var stats := Lookup(rows, Key(PartitionKey(userId), SortKey(CategoryScope, "", categoryId)));
    var ids := set h | h in categoryHabits :: h.id;
    CategoryPart(CurrentOr0(stats), LongestOr0(stats), TotalOr0(stats),
                 CountDone(monthTodos, (id: string) => id in ids),
                 BestChain(SortDates(CompleteDaysOf(days, (d: Date) => listOn(d, Some(categoryId), None)))))
  }

  /** The habit part: its current streak (0 when the row is missing), its
      DONE rows in the month, and its best streak in the month. */
  function HabitPartOf(rows: map<Key, StatsItem>, userId: string, habitId: string, days: seq<Date>,
                       listOn: (Date, Option<string>, Option<string>) -> seq<TodoListItem>,
                       monthTodos: seq<Todo>): HabitPart
  {
    var stats := Lookup(rows, Key(PartitionKey(userId), SortKey(HabitScope, habitId, "")));
    HabitPart(CurrentOr0(stats),
              CountDone(monthTodos, (id: string) => id == habitId),
              BestChain(SortDates(CompleteDaysOf(days, (d: Date) => listOn(d, None, Some(habitId))))))
  }

  /** The dashboard `getData` returns for the month `year`-`month`. */
  function Data(rows: map<Key, StatsItem>, userId: string, year: int, month: int,
                categoryId: Option<string>, habitId: Option<string>, selectedDate: Option<Date>,
                listOn: (Date, Option<string>, Option<string>) -> seq<TodoListItem>,
                monthTodos: seq<Todo>, categoryHabits: seq<Habit>): DashboardData
    requires 1 <= month <= 12
  {
    var days := MonthDays(year, month);
    var completed := SortDates(CompleteDaysOf(days, (d: Date) => listOn(d, categoryId, habitId)));
    var user := Lookup(rows, Key(PartitionKey(userId), SortKey(UserScope, "", "")));
    DashboardData(
      completed,
      CurrentOr0(user), LongestOr0(user), TotalOr0(user),
      if user.Some? then user.value.lastCompletedDate else None,
      |completed|, DaysInMonth(year, month),
      CountDone(monthTodos, (_: string) => true),
      BestChain(completed),
      if selectedDate.Some? then Some(ForSelectedDate(listOn(selectedDate.value, categoryId, habitId))) else None,
      if Given(categoryId) then Some(CategoryPartOf(rows, userId, categoryId.value, days, listOn, monthTodos, categoryHabits))
      else None,
      if Given(habitId) then Some(HabitPartOf(rows, userId, habitId.value, days, listOn, monthTodos)) else None)
  }

  /** The `if (categoryId)` block of `getData`. */
  method CategoryBlock(store: Store, userId: string, categoryId: string, monthDates: seq<Date>,
                       listOn: (Date, Option<string>, Option<string>) -> seq<TodoListItem>,
                       allMonthTodos: seq<Todo>, categoryHabits: seq<Habit>)
    returns (part: CategoryPart)
    ensures part == CategoryPartOf(store.rows, userId, categoryId, monthDates, listOn, allMonthTodos, categoryHabits)
  {
    var categoryHabitIds := set h | h in categoryHabits :: h.id;
    var categoryMonthTotalCompletions := CountDone(allMonthTodos, (id: string) => id in categoryHabitIds);
    var categoryCompletedDates := CollectCompleteDays(monthDates, (d: Date) => listOn(d, Some(categoryId), None));
    categoryCompletedDates := SortDates(categoryCompletedDates);
    var categoryMonthBestStreak := CalculateBestStreakFromDates(categoryCompletedDates);
    var categoryStats := store.Get(PartitionKey(userId), SortKey(CategoryScope, "", categoryId));
    var stats := if categoryStats.Some? then Some(categoryStats.value.fields) else None;
    part := CategoryPart(CurrentOr0(stats), LongestOr0(stats), TotalOr0(stats),
                         categoryMonthTotalCompletions, categoryMonthBestStreak);
  }

  /** The `if (habitId)` block of `getData`. */
  method HabitBlock(store: Store, userId: string, habitId: string, monthDates: seq<Date>,
                    listOn: (Date, Option<string>, Option<string>) -> seq<TodoListItem>,
                    allMonthTodos: seq<Todo>)
    returns (part: HabitPart)
    ensures part == HabitPartOf(store.rows, userId, habitId, monthDates, listOn, allMonthTodos)
  {
    var habitMonthTotalCompletions := CountDone(allMonthTodos, (id: string) => id == habitId);
    var habitCompletedDates := CollectCompleteDays(monthDates, (d: Date) => listOn(d, None, Some(habitId)));
    habitCompletedDates := SortDates(habitCompletedDates);
    var habitMonthBestStreak := CalculateBestStreakFromDates(habitCompletedDates);
    var habitStats := store.Get(PartitionKey(userId), SortKey(HabitScope, habitId, ""));
    var stats := if habitStats.Some? then Some(habitStats.value.fields) else None;
    part := HabitPart(CurrentOr0(stats), habitMonthTotalCompletions, habitMonthBestStreak);
  }

  /** `getData(userId, month, categoryId, habitId, selectedDate)` with the
      month given as its year and month numbers. */
  method GetData(store: Store, userId: string, year: int, month: int,
                 categoryId: Option<string>, habitId: Option<string>, selectedDate: Option<Date>,
                 listOn: (Date, Option<string>, Option<string>) -> seq<TodoListItem>,
                 findAll: (Date, Date) -> seq<Todo>, categoryHabits: seq<Habit>)
    returns (result: DashboardData)
    requires 1 <= month <= 12
    ensures result == Data(store.rows, userId, year, month, categoryId, habitId, selectedDate, listOn,
                           findAll(Ymd(year, month, 1), Ymd(year, month, DaysInMonth(year, month))), categoryHabits)
  {
    var firstDay := Ymd(year, month, 1);
    var lastDay := Ymd(year, month, DaysInMonth(year, month));
    var daysInMonth := DaysInMonth(year, month);
    var monthDates := DatesRange(firstDay, lastDay);
    var completedDates := CollectCompleteDays(monthDates, (d: Date) => listOn(d, categoryId, habitId));
    completedDates := SortDates(completedDates);

    var habitsForSelectedDate: Option<seq<HabitForSelectedDate>> := None;
    if selectedDate.Some? {
      habitsForSelectedDate := Some(ForSelectedDate(listOn(selectedDate.value, categoryId, habitId)));
    }

    var userStats := store.Get(PartitionKey(userId), SortKey(UserScope, "", ""));
    var user := if userStats.Some? then Some(userStats.value.fields) else None;

    var allMonthTodos := findAll(firstDay, lastDay);
    var monthTotalCompletions := CountDone(allMonthTodos, (_: string) => true);
    var monthBestStreak := CalculateBestStreakFromDates(completedDates);

    var category: Option<CategoryPart> := None;
    if Given(categoryId) {
      var part := CategoryBlock(store, userId, categoryId.value, monthDates, listOn, allMonthTodos, categoryHabits);
      category := Some(part);
    }
    var habit: Option<HabitPart> := None;
    if Given(habitId) {
      var part := HabitBlock(store, userId, habitId.value, monthDates, listOn, allMonthTodos);
      habit := Some(part);
    }

    result := DashboardData(
      completedDates,
      CurrentOr0(user), LongestOr0(user), TotalOr0(user),
      if user.Some? then user.value.lastCompletedDate else None,
      |completedDates|, daysInMonth,
      monthTotalCompletions, monthBestStreak,
      habitsForSelectedDate, category, habit);
  }

  // ---------------------------------------------------------------------
  // What the dashboard promises

  /** Sorting an ascending list leaves it as it is. */
  lemma {:induction false} SortSorted(s: seq<Date>)
    requires Sorted(s)
    ensures SortDates(s) == s
  {
    if s != [] {
      assert Sorted(s[1..]);
      SortSorted(s[1..]);
      assert s == [s[0]] + s[1..];
    }
  }

  /** The complete days of an ascending list of days ascend too. */
  lemma {:induction false} CompleteDaysSorted(dates: seq<Date>, listOn: Date -> seq<TodoListItem>)
    requires Sorted(dates)
    ensures Sorted(CompleteDaysOf(dates, listOn))
  {
    if dates != [] {
      var init := dates[..|dates| - 1];
      assert Sorted(init);
      CompleteDaysSorted(init, listOn);
      var r := CompleteDaysOf(dates, listOn);
      var rest := CompleteDaysOf(init, listOn);
      forall i | 0 <= i < |rest|
        ensures AtMost(rest[i], dates[|dates| - 1])
      {
        assert rest[i] in rest;
        var k :| 0 <= k < |init| && init[k] == rest[i];
      }
    }
  }

  /** `completedDates` lists, in ascending order, exactly the days of the
      month whose (filtered) todo list is non-empty and all DONE; their
      count is at most the days in the month and the best streak at most
      that count. */
  lemma MonthCompletion(rows: map<Key, StatsItem>, userId: string, year: int, month: int,
                        categoryId: Option<string>, habitId: Option<string>, selectedDate: Option<Date>,
                        listOn: (Date, Option<string>, Option<string>) -> seq<TodoListItem>,
                        monthTodos: seq<Todo>, categoryHabits: seq<Habit>)
    requires 1 <= month <= 12
    ensures var r := Data(rows, userId, year, month, categoryId, habitId, selectedDate, listOn, monthTodos, categoryHabits);
            Sorted(r.completedDates)
            && (forall d :: d in r.completedDates <==>
                  d.year == year && d.month == month && DayComplete(listOn(d, categoryId, habitId)))
            && r.monthCompletionCount == |r.completedDates| <= r.daysInMonth == DaysInMonth(year, month)
            && 0 <= r.monthBestStreak <= r.monthCompletionCount
            && 0 <= r.monthTotalCompletions <= |monthTodos|
  {
    var days := MonthDays(year, month);
    var first := Ymd(year, month, 1);
    var last := Ymd(year, month, DaysInMonth(year, month));
    DaysBetweenShape(first, last);
    assert Sorted(days);
    var listOnDay := (d: Date) => listOn(d, categoryId, habitId);
    CompleteDaysSorted(days, listOnDay);
    SortSorted(CompleteDaysOf(days, listOnDay));
    forall d: Date
      ensures d in days <==> d.year == year && d.month == month
    {
      InDaysBetween(first, last, d);
    }
  }

  /** The optional parts: the category part exactly when a category id is
      given, the habit part exactly when a habit id is given, the selected
      day's list exactly when a day is selected; a missing stats row reads
      as zero counters and no last completed day. */
  lemma OptionalParts(rows: map<Key, StatsItem>, userId: string, year: int, month: int,
                      categoryId: Option<string>, habitId: Option<string>, selectedDate: Option<Date>,
                      listOn: (Date, Option<string>, Option<string>) -> seq<TodoListItem>,
                      monthTodos: seq<Todo>, categoryHabits: seq<Habit>)
    requires 1 <= month <= 12
    ensures var r := Data(rows, userId, year, month, categoryId, habitId, selectedDate, listOn, monthTodos, categoryHabits);
            (r.category.Some? <==> Given(categoryId))
            && (r.habit.Some? <==> Given(habitId))
            && (r.habitsForSelectedDate.Some? <==> selectedDate.Some?)
            && (Key(PartitionKey(userId), SortKey(UserScope, "", "")) !in rows ==>
                  r.globalStreak == 0 && r.globalLongestStreak == 0 && r.globalTotalCompletions == 0
                  && r.lastCompletedDate.None?)
            && (r.category.Some? && Key(PartitionKey(userId), SortKey(CategoryScope, "", categoryId.value)) !in rows ==>
                  r.category.value.streak == 0 && r.category.value.longestStreak == 0
                  && r.category.value.totalCompletions == 0)
            && (r.habit.Some? && Key(PartitionKey(userId), SortKey(HabitScope, habitId.value, "")) !in rows ==>
                  r.habit.value.streak == 0)
  {
  }

  /** The habit's month total counts only its own DONE rows, and never
      exceeds the month total. */
  lemma HabitTotalWithinMonthTotal(todos: seq<Todo>, habitId: string)
    ensures CountDone(todos, (id: string) => id == habitId) <= CountDone(todos, (_: string) => true)
    ensures CountDone(todos, (id: string) => id == habitId)
            == |set k | 0 <= k < |todos| && todos[k].habitId == habitId && todos[k].status == Done|
  {
    HabitWithinAll(todos, habitId);
    HabitDoneCount(todos, habitId);
  }

  lemma {:induction false} HabitWithinAll(todos: seq<Todo>, habitId: string)
    ensures CountDone(todos, (id: string) => id == habitId) <= CountDone(todos, (_: string) => true)
  {
    if todos != [] {
      HabitWithinAll(todos[..|todos| - 1], habitId);
    }
  }

  /** The indices of the habit's DONE rows. */
  function HabitDoneIndices(todos: seq<Todo>, habitId: string): set<int> {
    set k | 0 <= k < |todos| && todos[k].habitId == habitId && todos[k].status == Done
  }

  lemma {:induction false} HabitDoneCount(todos: seq<Todo>, habitId: string)
    ensures CountDone(todos, (id: string) => id == habitId) == |HabitDoneIndices(todos, habitId)|
  {
    if todos != [] {
      var init := todos[..|todos| - 1];
      HabitDoneCount(init, habitId);
      DoneIndicesSnoc(todos, habitId);
    }
  }

  lemma DoneIndicesSnoc(todos: seq<Todo>, habitId: string)
    requires todos != []
    ensures var n := |todos| - 1;
            HabitDoneIndices(todos, habitId)
            == HabitDoneIndices(todos[..n], habitId)
               + if todos[n].habitId == habitId && todos[n].status == Done then {n} else {}
  {
    var init := todos[..|todos| - 1];
    assert forall k :: 0 <= k < |init| ==> init[k] == todos[k];
  }
}
