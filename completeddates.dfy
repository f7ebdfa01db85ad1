/** The completed-day builders of `completedDates.ts`: the days a habit was
    done, and the days on which every todo row of a category (or of the
    whole user) was done. */
module CompletedDates {
  import opened Calendar
  import opened Model

  // ---------------------------------------------------------------------
  // Specification functions, on the rows walked so far

  /** The dates of the DONE rows of one habit. */
  function HabitDoneDates(todos: seq<Todo>, habitId: string): set<Date> {
    if todos == [] then {}
    else
      var t := todos[|todos| - 1];
      HabitDoneDates(todos[..|todos| - 1], habitId)
        + (if t.habitId == habitId && t.status == Done then {t.date} else {})
  }

  /** The rows whose habit is in `habitIds`, in order. */
  function OfHabits(todos: seq<Todo>, habitIds: set<string>): (r: seq<Todo>)
    ensures |r| <= |todos|
  {
    if todos == [] then []
    else
      var t := todos[|todos| - 1];
      OfHabits(todos[..|todos| - 1], habitIds) + (if t.habitId in habitIds then [t] else [])
  }

  /** The rows dated `d`, in order (`byDate.get(d)`). */
  function RowsOn(todos: seq<Todo>, d: Date): (r: seq<Todo>)
    ensures |r| <= |todos|
    ensures forall k :: 0 <= k < |r| ==> r[k] in todos && r[k].date == d
  {
    if todos == [] then []
    else
      var t := todos[|todos| - 1];
      RowsOn(todos[..|todos| - 1], d) + (if t.date == d then [t] else [])
  }

  predicate AllRowsDone(rows: seq<Todo>) {
    forall k :: 0 <= k < |rows| ==> rows[k].status == Done
  }

  /** The dates on which some row exists. */
  function RowDates(todos: seq<Todo>): set<Date> {
    set k | 0 <= k < |todos| :: todos[k].date
  }

  /** The days that have rows and whose rows are all DONE. */
  function CompleteDays(todos: seq<Todo>): set<Date> {
    set d | d in RowDates(todos) && AllRowsDone(RowsOn(todos, d))
  }

  // ---------------------------------------------------------------------
  // The builders

  /** `getCompletedDatesFromTodoList`: the reduce that adds the date of each
      DONE row of the habit. */
  method CompletedHabitDates(todos: seq<Todo>, habitId: string) returns (dates: set<Date>)
    ensures dates == HabitDoneDates(todos, habitId)
  {
    dates := {};
    for j := 0 to |todos|
      invariant dates == HabitDoneDates(todos[..j], habitId)
    {
      var t := todos[j];
      assert todos[..j + 1][..j] == todos[..j];
      if t.habitId == habitId && t.status == Done {
        dates := dates + {t.date};
      }
    }
    assert todos[..|todos|] == todos;
  }

  /** The first loop of the category builder: group the rows of the
      category's habits by date, keeping their order; rows of other habits
      are skipped. */
  method GroupCategoryByDate(todos: seq<Todo>, habitIds: set<string>) returns (byDate: map<Date, seq<Todo>>)
    ensures byDate == DateGroups(OfHabits(todos, habitIds))
  {
    byDate := map[];
    for j := 0 to |todos|
      invariant byDate == DateGroups(OfHabits(todos[..j], habitIds))
    {
      var t := todos[j];
      assert todos[..j + 1] == todos[..j] + [t];
      OfHabitsSnoc(todos[..j], t, habitIds);
      if t.habitId !in habitIds {
        assert OfHabits(todos[..j + 1], habitIds) == OfHabits(todos[..j], habitIds);
        continue;
      }
      assert OfHabits(todos[..j + 1], habitIds) == OfHabits(todos[..j], habitIds) + [t];
      DateGroupsStep(byDate, OfHabits(todos[..j], habitIds), t);
      if t.date !in byDate {
        byDate := byDate[t.date := []];
      }
      byDate := byDate[t.date := byDate[t.date] + [t]];
    }
    assert todos[..|todos|] == todos;
  }

  /** The first loop of the user builder: group every row by date, keeping
      their order. */
  method GroupUserByDate(todos: seq<Todo>) returns (byDate: map<Date, seq<Todo>>)
    ensures byDate == DateGroups(todos)
  {
    byDate := map[];
    for j := 0 to |todos|
      invariant byDate == DateGroups(todos[..j])
    {
      var t := todos[j];
      assert todos[..j + 1] == todos[..j] + [t];
      DateGroupsStep(byDate, todos[..j], t);
      if t.date !in byDate {
        byDate := byDate[t.date := []];
      }
      byDate := byDate[t.date := byDate[t.date] + [t]];
    }
    assert todos[..|todos|] == todos;
  }

  lemma OfHabitsSnoc(todos: seq<Todo>, t: Todo, habitIds: set<string>)
    ensures OfHabits(todos + [t], habitIds) == OfHabits(todos, habitIds) + if t.habitId in habitIds then [t] else []
  {
    assert (todos + [t])[..|todos|] == todos;
  }

  /** One turn of the first loop: an absent date starts an empty group, and
      the row is pushed onto its date's group. */
  lemma DateGroupsStep(byDate: map<Date, seq<Todo>>, rows: seq<Todo>, t: Todo)
    requires byDate == DateGroups(rows)
    ensures var m := if t.date !in byDate then byDate[t.date := []] else byDate;
            m[t.date := m[t.date] + [t]] == DateGroups(rows + [t])
  {
    DateGroupsSnoc(rows, t);
    if t.date !in byDate {
      UpdateTwice(byDate, t.date, [], [] + [t]);
    }
  }

  /** What the grouping holds: the dates that have rows, each with its rows
      in order. */
  lemma DateGroupsExact(rows: seq<Todo>)
    ensures forall d :: d in DateGroups(rows) <==> d in RowDates(rows)
    ensures forall d :: d in DateGroups(rows) ==> DateGroups(rows)[d] == RowsOn(rows, d)
  {
    forall d
      ensures d in DateGroups(rows) <==> d in RowDates(rows)
      ensures d in DateGroups(rows) ==> DateGroups(rows)[d] == RowsOn(rows, d)
    {
      DateGroupsKeys(rows, d);
      if d in DateGroups(rows) {
        DateGroupsValues(rows, d);
      }
    }
  }

  /** A second write to the same key replaces the first. */
  lemma UpdateTwice<K, V>(m: map<K, V>, k: K, a: V, b: V)
    ensures m[k := a][k := b] == m[k := b]
  {
  }

  /** The map `byDate` after the first loop has walked `rows`. */
  function DateGroups(rows: seq<Todo>): map<Date, seq<Todo>> {
    if rows == [] then map[]
    else
      var g := DateGroups(rows[..|rows| - 1]);
      var t := rows[|rows| - 1];
      var own := if t.date in g then g[t.date] else [];
      g[t.date := own + [t]]
  }

  lemma DateGroupsSnoc(rows: seq<Todo>, t: Todo)
    ensures var g := DateGroups(rows);
            DateGroups(rows + [t]) == g[t.date := (if t.date in g then g[t.date] else []) + [t]]
  {
    assert (rows + [t])[..|rows|] == rows;
  }

  /** The keys are the dates that have rows. */
  lemma {:induction false} DateGroupsKeys(rows: seq<Todo>, d: Date)
    ensures d in DateGroups(rows) <==> d in RowDates(rows)
  {
    if rows != [] {
      var init := rows[..|rows| - 1];
      DateGroupsKeys(init, d);
      RowDatesSnoc(init, rows[|rows| - 1]);
      assert init + [rows[|rows| - 1]] == rows;
    }
  }

  /** Each group holds the rows of its date, in order. */
  lemma {:induction false} DateGroupsValues(rows: seq<Todo>, d: Date)
    requires d in DateGroups(rows)
    ensures DateGroups(rows)[d] == RowsOn(rows, d)
  {
    var init := rows[..|rows| - 1];
    var t := rows[|rows| - 1];
    if d in DateGroups(init) {
      DateGroupsValues(init, d);
    } else if d == t.date {
      DateGroupsKeys(init, d);
      RowsOnNonEmpty(init, d);
    }
  }

  /** The second loop: keep the dates whose list is non-empty and all DONE. */
  method CompleteKeys(byDate: map<Date, seq<Todo>>) returns (completed: set<Date>)
    ensures completed == set d | d in byDate && |byDate[d]| > 0 && AllRowsDone(byDate[d])
  {
    completed := {};
    var pending := byDate.Keys;
    while pending != {}
      invariant pending <= byDate.Keys
      invariant completed == set d | d in byDate && d !in pending && |byDate[d]| > 0 && AllRowsDone(byDate[d])
      decreases |pending|
    {
      var d :| d in pending;
      var list := byDate[d];
      if |list| > 0 && AllRowsDone(list) {
        completed := completed + {d};
      }
      pending := pending - {d};
    }
  }

  /** `getCompletedCategoryDatesFromTodoList`. */
  method CompletedCategoryDates(todos: seq<Todo>, habitIds: set<string>) returns (completed: set<Date>)
    ensures completed == CompleteDays(OfHabits(todos, habitIds))
  {
    var byDate := GroupCategoryByDate(todos, habitIds);
    DateGroupsExact(OfHabits(todos, habitIds));
    completed := CompleteKeys(byDate);
    ByDateComplete(byDate, OfHabits(todos, habitIds));
  }

  /** `getCompletedUserDatesFromTodoList`. */
  method CompletedUserDates(todos: seq<Todo>) returns (completed: set<Date>)
    ensures completed == CompleteDays(todos)
  {
    var byDate := GroupUserByDate(todos);
    DateGroupsExact(todos);
    completed := CompleteKeys(byDate);
    ByDateComplete(byDate, todos);
  }

  // ---------------------------------------------------------------------
  // Proof steps

  lemma RowDatesSnoc(todos: seq<Todo>, t: Todo)
    ensures RowDates(todos + [t]) == RowDates(todos) + {t.date}
  {
    var s := todos + [t];
    assert forall k :: 0 <= k < |todos| ==> s[k] == todos[k];
    assert s[|todos|] == t;
  }

  /** A day has rows exactly when some row is dated that day. */
  lemma {:induction false} RowsOnNonEmpty(todos: seq<Todo>, d: Date)
    ensures |RowsOn(todos, d)| > 0 <==> d in RowDates(todos)
  {
    if todos != [] {
      var init := todos[..|todos| - 1];
      RowsOnNonEmpty(init, d);
      RowDatesSnoc(init, todos[|todos| - 1]);
      assert init + [todos[|todos| - 1]] == todos;
    }
  }

  lemma ByDateComplete(byDate: map<Date, seq<Todo>>, rows: seq<Todo>)
    requires forall d :: d in byDate <==> d in RowDates(rows)
    requires forall d :: d in byDate ==> byDate[d] == RowsOn(rows, d)
    ensures (set d | d in byDate && |byDate[d]| > 0 && AllRowsDone(byDate[d])) == CompleteDays(rows)
  {
    forall d | d in byDate
      ensures |byDate[d]| > 0
    {
      RowsOnNonEmpty(rows, d);
    }
  }

  // ---------------------------------------------------------------------
  // What the builders return

  /** A date is a done date of the habit exactly when some row of that habit
      on that date is DONE; rows of other habits never contribute. */
  lemma {:induction false} HabitDoneDatesExact(todos: seq<Todo>, habitId: string, d: Date)
    ensures d in HabitDoneDates(todos, habitId) <==>
            exists k :: 0 <= k < |todos| && todos[k].habitId == habitId
                        && todos[k].status == Done && todos[k].date == d
  {
    if todos != [] {
      var init := todos[..|todos| - 1];
      HabitDoneDatesExact(init, habitId, d);
      assert forall k :: 0 <= k < |init| ==> init[k] == todos[k];
    }
  }

  /** Membership in a grouped day's rows. */
  lemma {:induction false} RowsOnMembers(todos: seq<Todo>, d: Date, t: Todo)
    ensures t in RowsOn(todos, d) <==> t in todos && t.date == d
  {
    if todos != [] {
      var init := todos[..|todos| - 1];
      RowsOnMembers(init, d, t);
      assert todos == init + [todos[|todos| - 1]];
    }
  }

  /** Membership in the admitted rows. */
  lemma {:induction false} OfHabitsMembers(todos: seq<Todo>, habitIds: set<string>, t: Todo)
    ensures t in OfHabits(todos, habitIds) <==> t in todos && t.habitId in habitIds
  {
    if todos != [] {
      var init := todos[..|todos| - 1];
      OfHabitsMembers(init, habitIds, t);
      assert todos == init + [todos[|todos| - 1]];
    }
  }

  /** A category day is complete exactly when the category has at least one
      row on it and all of them are DONE. A habit of the category with no row
      on that day does not block it. */
  lemma CategoryDayExact(todos: seq<Todo>, habitIds: set<string>, d: Date)
    ensures d in CompleteDays(OfHabits(todos, habitIds)) <==>
            (exists t :: t in todos && t.habitId in habitIds && t.date == d)
            && (forall t :: t in todos && t.habitId in habitIds && t.date == d ==> t.status == Done)
  {
    var rows := OfHabits(todos, habitIds);
    RowsOnNonEmpty(rows, d);
    forall t
      ensures t in RowsOn(rows, d) <==> t in todos && t.habitId in habitIds && t.date == d
    {
      RowsOnMembers(rows, d, t);
      OfHabitsMembers(todos, habitIds, t);
    }
    if d in CompleteDays(rows) {
      var r := RowsOn(rows, d);
      assert r[0] in r;
    }
  }

  /** The user builder is the category builder with every habit admitted. */
  lemma UserIsCategoryOfAllHabits(todos: seq<Todo>, habitIds: set<string>)
    requires forall k :: 0 <= k < |todos| ==> todos[k].habitId in habitIds
    ensures OfHabits(todos, habitIds) == todos
    ensures CompleteDays(todos) == CompleteDays(OfHabits(todos, habitIds))
  {
    AllAdmitted(todos, habitIds);
  }

  /** With every habit admitted, no row is filtered out. */
  lemma {:induction false} AllAdmitted(todos: seq<Todo>, habitIds: set<string>)
    requires forall k :: 0 <= k < |todos| ==> todos[k].habitId in habitIds
    ensures OfHabits(todos, habitIds) == todos
  {
    if todos != [] {
      var init := todos[..|todos| - 1];
      AllAdmitted(init, habitIds);
      assert todos == init + [todos[|todos| - 1]];
    }
  }

  /** Every date a builder returns is the date of some input row. */
  lemma OutputDatesAreInput(todos: seq<Todo>, habitIds: set<string>, habitId: string)
    ensures forall d :: d in HabitDoneDates(todos, habitId) ==> d in RowDates(todos)
    ensures CompleteDays(todos) <= RowDates(todos)
    ensures CompleteDays(OfHabits(todos, habitIds)) <= RowDates(todos)
  {
    forall d | d in HabitDoneDates(todos, habitId)
      ensures d in RowDates(todos)
    {
      HabitDoneDatesExact(todos, habitId, d);
    }
    var rows := OfHabits(todos, habitIds);
    forall d | d in RowDates(rows)
      ensures d in RowDates(todos)
    {
      var k :| 0 <= k < |rows| && rows[k].date == d;
      OfHabitsMembers(todos, habitIds, rows[k]);
      var i :| 0 <= i < |todos| && todos[i] == rows[k];
    }
  }
}
