/** The records the engine works on: habits, todo rows, todo-list items,
    stats rows and categories, with dates as `Calendar.Date`. */
module Model {
  import opened Wrappers
  import opened Calendar

  /** `TODO_STATUS`. */
  datatype TodoStatus = Pending | Skipped | Done

  /** `TODO_STATUS_ORDER`: pending first, done last. */
  function StatusOrder(s: TodoStatus): (r: int)
    ensures 0 <= r <= 2
    ensures s == Pending <==> r == 0
    ensures s == Done <==> r == 2
  {
    match s
    case Pending => 0
    case Skipped => 1
    case Done => 2
  }

  /** `TODO_PERIOD_ORDER[p] || 999`: Morning, Afternoon, Evening, Anytime, and
      any other text after them. */
  function PeriodOrder(p: string): (r: int)
    ensures 1 <= r <= 999
    ensures r == 999 <==> p !in {"Morning", "Afternoon", "Evening", "Anytime"}
  {
    if p == "Morning" then 1
    else if p == "Afternoon" then 2
    else if p == "Evening" then 3
    else if p == "Anytime" then 4
    else 999
  }

  /** A JavaScript number as far as the engine uses one: an integer or NaN
      (what `parseInt` gives for text without digits). */
  datatype Number = Int(n: int) | NaN

  /** A habit. `period_type` and `period` keep their text, as stored;
      `end_date` is its date part, `None` when absent or empty; a missing
      `period_value` is the empty text. */
  datatype Habit = Habit(
    id: string,
    userId: string,
    title: string,
    description: Option<string>,
    color: string,
    emoji: string,
    unit: string,
    value: string,
    periodType: string,
    periodValue: string,
    categoryId: string,
    period: string,
    reminderEnabled: Option<bool>,
    reminderTime: string,
    startDate: Date,
    endDate: Option<Date>,
    active: bool,
    createdAt: string,
    updatedAt: string)

  /** A todo row: one habit on one day. */
  datatype Todo = Todo(
    userId: string,
    habitId: string,
    date: Date,
    status: TodoStatus,
    progress: Number,
    target: Number,
    notes: string,
    createdAt: string,
    updatedAt: string)

  /** An entry of the day's todo list (`TodoList`). */
  datatype TodoListItem = TodoListItem(
    id: string,
    title: string,
    color: string,
    emoji: string,
    unit: string,
    targetValue: string,
    categoryId: string,
    period: string,
    active: bool,
    status: TodoStatus,
    progressValue: string,
    notes: string,
    updatedAt: string)

  datatype Scope = HabitScope | CategoryScope | UserScope

  /** The four counters every stats row carries. */
  datatype StreakFields = StreakFields(
    currentStreak: int,
    longestStreak: int,
    lastCompletedDate: Option<Date>,
    totalCompletions: int)

  const ZeroFields := StreakFields(0, 0, None, 0)

  /** A stats row. A row first written by a streak update has no identity
      attributes; they read as empty texts and no scope. */
  datatype StatsItem = StatsItem(
    habitId: string,
    userId: string,
    categoryId: string,
    scope: Option<Scope>,
    fields: StreakFields,
    createdAt: string,
    updatedAt: string)

  datatype Category = Category(
    id: string,
    userId: string,
    name: string,
    createdAt: string,
    updatedAt: string)

  predicate AllDone(list: seq<TodoListItem>) {
    forall i :: 0 <= i < |list| ==> list[i].status == Done
  }

  /** `list.length > 0 && list.every(t => t.status === DONE)`: the test the
      engine uses for "the whole day is complete". */
  predicate DayComplete(list: seq<TodoListItem>) {
    |list| > 0 && AllDone(list)
  }
}
