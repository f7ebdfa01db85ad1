/** The todo table (`TodoRepository`): one row per user, day and habit
    under the keys `USER#<userId>` / `DATE#<YYYY-MM-DD>#HABIT#<habitId>`, the
    writes the services make, and the "first day not done" scan. */
module TodoRepository {
  import opened Wrappers
  import opened Calendar
  import opened IsoDate
  import opened Model
  import opened DateRange

  /** `generatePK(userId)`. */
  function TodoPK(userId: string): (r: string)
    ensures |r| == 5 + |userId| && r[..5] == "USER#" && r[5..] == userId
  {
    "USER#" + userId
  }

  /** `generateSK(date, habitId)`. */
  function TodoSK(date: Date, habitId: string): (r: string)
    requires FourDigitYear(date)
    ensures |r| == 22 + |habitId| && r[..5] == "DATE#" && r[5..15] == Iso(date) && r[15..22] == "#HABIT#"
            && r[22..] == habitId
  {
    "DATE#" + Iso(date) + "#HABIT#" + habitId
  }

  /** Two rows share a key exactly when they are for the same user, day and
      habit: the fixed-width date keeps the sort key unambiguous even when
      a habit id contains `#`. */
  lemma TodoKeysInjective(u1: string, d1: Date, h1: string, u2: string, d2: Date, h2: string)
    requires FourDigitYear(d1) && FourDigitYear(d2)
    ensures TodoPK(u1) == TodoPK(u2) && TodoSK(d1, h1) == TodoSK(d2, h2) <==> u1 == u2 && d1 == d2 && h1 == h2
  {
    if TodoPK(u1) == TodoPK(u2) {
      assert u1 == TodoPK(u1)[5..] && u2 == TodoPK(u2)[5..];
    }
    if TodoSK(d1, h1) == TodoSK(d2, h2) {
      var s1 := TodoSK(d1, h1);
      var s2 := TodoSK(d2, h2);
      assert Iso(d1) == s1[5..15] && Iso(d2) == s2[5..15];
      assert h1 == s1[22..] && h2 == s2[22..];
      IsoInjective(d1, d2);
    }
  }

  /** The (user, day, habit) a row is stored under. */
  datatype TodoKey = TodoKey(userId: string, date: Date, habitId: string)

  function KeyOf(t: Todo): TodoKey {
    TodoKey(t.userId, t.date, t.habitId)
  }

  class TodoTable {
    var rows: map<TodoKey, Todo>

    /** Every row sits under its own key. */
    predicate Valid()
      reads this
    {
      forall k :: k in rows ==> KeyOf(rows[k]) == k
    }

    constructor()
      ensures rows == map[] && Valid()
    {
      rows := map[];
    }

    /** `findByUserDateAndHabit`: the row, or `None`. */
    function Find(userId: string, date: Date, habitId: string): (r: Option<Todo>)
      reads this
      ensures r.Some? <==> TodoKey(userId, date, habitId) in rows
      ensures r.Some? ==> r.value == rows[TodoKey(userId, date, habitId)]
    {
      if TodoKey(userId, date, habitId) in rows then Some(rows[TodoKey(userId, date, habitId)]) else None
    }

    /** `createOrUpdate(todo)`: a put of the whole row, stamped with the
        repository's own clock reading `writeTime`. */
    method CreateOrUpdate(todo: Todo, writeTime: string)
      modifies this
      ensures rows == old(rows)[KeyOf(todo) := todo.(updatedAt := writeTime)]
      ensures old(Valid()) ==> Valid()
    {
      rows := rows[KeyOf(todo) := todo.(updatedAt := writeTime)];
    }

    /** `delete(userId, date, habitId)`. */
    method Delete(userId: string, date: Date, habitId: string)
      modifies this
      ensures rows == old(rows) - {TodoKey(userId, date, habitId)}
      ensures old(Valid()) ==> Valid()
    {
      rows := rows - {TodoKey(userId, date, habitId)};
    }

    /** `updateNotes`: sets `notes` and `updatedAt` of an existing row and
        leaves every other field as it was. */
    method UpdateNotes(userId: string, date: Date, habitId: string, notes: string, writeTime: string)
      requires TodoKey(userId, date, habitId) in rows
      modifies this
      ensures rows == old(rows)[TodoKey(userId, date, habitId) :=
                                old(rows)[TodoKey(userId, date, habitId)].(notes := notes, updatedAt := writeTime)]
      ensures old(Valid()) ==> Valid()
    {
      var k := TodoKey(userId, date, habitId);
      rows := rows[k := rows[k].(notes := notes, updatedAt := writeTime)];
    }
  }

  /** `todos.filter(t => t.habitId === habitId)`, in input order. */
  function HabitTodos(todos: seq<Todo>, habitId: string): (r: seq<Todo>)
    ensures forall t :: t in r <==> t in todos && t.habitId == habitId
  {
    if todos == [] then []
    else
      var rest := HabitTodos(todos[1..], habitId);
      assert todos == [todos[0]] + todos[1..];
      if todos[0].habitId == habitId then [todos[0]] + rest else rest
  }

  /** `new Map(rows.map(t => [t.date, t]))`: a later row of the same day
      replaces an earlier one. */
  function ByDate(rows: seq<Todo>): (m: map<Date, Todo>)
    ensures forall d :: d in m <==> exists t :: t in rows && t.date == d
    ensures forall d :: d in m ==> m[d] in rows && m[d].date == d
  {
    if rows == [] then map[]
    else
      var init := rows[..|rows| - 1];
      var t := rows[|rows| - 1];
      assert rows == init + [t];
      ByDate(init)[t.date := t]
  }

  /** The habit's rows by day: only rows of `habitId` are looked at. */
  function TodoByDate(todos: seq<Todo>, habitId: string): (m: map<Date, Todo>)
    ensures forall d :: d in m <==> exists t :: t in todos && t.habitId == habitId && t.date == d
    ensures forall d :: d in m ==> m[d] in todos && m[d].habitId == habitId && m[d].date == d
  {
    ByDate(HabitTodos(todos, habitId))
  }

  /** `!todo || todo.status !== DONE`: a day with no row counts as not done. */
  predicate NotDoneOn(byDate: map<Date, Todo>, d: Date) {
    d !in byDate || byDate[d].status != Done
  }

  /** The last day of `days` that is not done. */
  function LatestNotDone(days: seq<Date>, byDate: map<Date, Todo>): Option<Date> {
    if days == [] then None
    else if NotDoneOn(byDate, days[|days| - 1]) then Some(days[|days| - 1])
    else LatestNotDone(days[..|days| - 1], byDate)
  }

  /** The first day of `days` that is not done. */
  function EarliestNotDone(days: seq<Date>, byDate: map<Date, Todo>): Option<Date> {
    if days == [] then None
    else if NotDoneOn(byDate, days[0]) then Some(days[0])
    else EarliestNotDone(days[1..], byDate)
  }

  /** `findMinDateByHabitWhereNotDone(userId, habitId, startDate, endDate)`
      over the user's rows in the range (`findAllByDateRange`), with the
      clock's day as `today`: the day range is built, then scanned from the
      end backwards, and the first not-done day met is returned. */
  method FindMinDateByHabitWhereNotDone(todos: seq<Todo>, habitId: string, startDate: Date, endDate: Option<Date>,
                                        today: Date)
    returns (r: Option<Date>)
    ensures r == LatestNotDone(DaysBetween(startDate, endDate.GetOr(today)), TodoByDate(todos, habitId))
  {
    var effectiveEndDate := endDate.GetOr(today);
    var todoByDate := TodoByDate(todos, habitId);
    var dates := DatesRange(startDate, effectiveEndDate);
    r := ScanFromEnd(dates, todoByDate);
  }

  /** The backward `for` loop of the scan. */
  method ScanFromEnd(dates: seq<Date>, todoByDate: map<Date, Todo>) returns (r: Option<Date>)
    ensures r == LatestNotDone(dates, todoByDate)
  {
    var i := |dates|;
    assert dates[..i] == dates;
    while i > 0
      invariant 0 <= i <= |dates|
      invariant LatestNotDone(dates, todoByDate) == LatestNotDone(dates[..i], todoByDate)
    {
      var prefix := dates[..i];
      assert prefix[..i - 1] == dates[..i - 1] && prefix[i - 1] == dates[i - 1];
      if NotDoneOn(todoByDate, dates[i - 1]) {
        return Some(dates[i - 1]);
      }
      i := i - 1;
    }
    return None;
  }

  /** The scan as its documentation describes it: from the start forwards,
      so the smallest not-done day is returned. */
  method FindMinDateCorrected(todos: seq<Todo>, habitId: string, startDate: Date, endDate: Option<Date>, today: Date)
    returns (r: Option<Date>)
    ensures r == EarliestNotDone(DaysBetween(startDate, endDate.GetOr(today)), TodoByDate(todos, habitId))
  {
    var todoByDate := TodoByDate(todos, habitId);
    var dates := DatesRange(startDate, endDate.GetOr(today));
    r := ScanFromStart(dates, todoByDate);
  }

  /** A forward scan over the days. */
  method ScanFromStart(dates: seq<Date>, todoByDate: map<Date, Todo>) returns (r: Option<Date>)
    ensures r == EarliestNotDone(dates, todoByDate)
  {
    for i := 0 to |dates|
      invariant EarliestNotDone(dates, todoByDate) == EarliestNotDone(dates[i..], todoByDate)
    {
      assert dates[i..][1..] == dates[i + 1..];
      if NotDoneOn(todoByDate, dates[i]) {
        return Some(dates[i]);
      }
    }
    return None;
  }

  lemma {:induction false} LatestNotDoneIsLast(days: seq<Date>, byDate: map<Date, Todo>)
    ensures var r := LatestNotDone(days, byDate);
            (r.None? <==> forall k :: 0 <= k < |days| ==> !NotDoneOn(byDate, days[k]))
            && (r.Some? ==> exists i :: 0 <= i < |days| && days[i] == r.value && NotDoneOn(byDate, r.value)
                                        && forall k :: i < k < |days| ==> !NotDoneOn(byDate, days[k]))
  {
    if days != [] {
      var init := days[..|days| - 1];
      LatestNotDoneIsLast(init, byDate);
      assert forall k :: 0 <= k < |init| ==> init[k] == days[k];
      if !NotDoneOn(byDate, days[|days| - 1]) {
        var r := LatestNotDone(init, byDate);
        if r.Some? {
          var i :| 0 <= i < |init| && init[i] == r.value && NotDoneOn(byDate, r.value)
                   && forall k :: i < k < |init| ==> !NotDoneOn(byDate, init[k]);
          assert days[i] == r.value;
        }
      }
    }
  }

  lemma {:induction false} EarliestNotDoneIsFirst(days: seq<Date>, byDate: map<Date, Todo>)
    ensures var r := EarliestNotDone(days, byDate);
            (r.None? <==> forall k :: 0 <= k < |days| ==> !NotDoneOn(byDate, days[k]))
            && (r.Some? ==> exists i :: 0 <= i < |days| && days[i] == r.value && NotDoneOn(byDate, r.value)
                                        && forall k :: 0 <= k < i ==> !NotDoneOn(byDate, days[k]))
  {
    if days != [] {
      var rest := days[1..];
      EarliestNotDoneIsFirst(rest, byDate);
      assert forall k :: 0 <= k < |rest| ==> rest[k] == days[k + 1];
      if !NotDoneOn(byDate, days[0]) {
        var r := EarliestNotDone(rest, byDate);
        if r.Some? {
          var i :| 0 <= i < |rest| && rest[i] == r.value && NotDoneOn(byDate, r.value)
                   && forall k :: 0 <= k < i ==> !NotDoneOn(byDate, rest[k]);
          assert days[i + 1] == r.value;
        } else {
          assert forall k :: 1 <= k < |days| ==> days[k] == rest[k - 1];
        }
      }
    }
  }

  /** A day between the bounds sits in the range at its distance from
      `start`. */
  lemma DayAt(start: Date, end: Date, d: Date)
    requires AtMost(start, d) && AtMost(d, end)
    ensures var days := DaysBetween(start, end);
            0 <= DayNumber(d) - DayNumber(start) < |days| && days[DayNumber(d) - DayNumber(start)] == d
  {
    AtMostIffNotGreater(start, d);
    AtMostIffNotGreater(d, end);
    BeforeIffSmaller(end, start);
    var days := DaysBetween(start, end);
    DayNumberInjective(days[DayNumber(d) - DayNumber(start)], d);
  }

  /** What the scan as written returns, over the calendar: `None` exactly
      when every day of [start, end] has a DONE row of the habit; otherwise a
      not-done day in the range after which every day up to `end` is done,
      that is the LATEST not-done day. */
  lemma FindMinAsWritten(todos: seq<Todo>, habitId: string, start: Date, end: Date)
    ensures var m := TodoByDate(todos, habitId);
            var r := LatestNotDone(DaysBetween(start, end), m);
            (r.None? <==> forall d :: AtMost(start, d) && AtMost(d, end) ==> !NotDoneOn(m, d))
            && (r.Some? ==> AtMost(start, r.value) && AtMost(r.value, end) && NotDoneOn(m, r.value)
                            && forall d :: Before(r.value, d) && AtMost(d, end) ==> !NotDoneOn(m, d))
  {
    var m := TodoByDate(todos, habitId);
    var days := DaysBetween(start, end);
    LatestNotDoneIsLast(days, m);
    forall d | AtMost(start, d) && AtMost(d, end)
      ensures d in days
    {
      DayAt(start, end, d);
    }
    var r := LatestNotDone(days, m);
    if r.Some? {
      var i :| 0 <= i < |days| && days[i] == r.value && NotDoneOn(m, r.value)
               && forall k :: i < k < |days| ==> !NotDoneOn(m, days[k]);
      InDaysBetween(start, end, r.value);
      forall d | Before(r.value, d) && AtMost(d, end)
        ensures !NotDoneOn(m, d)
      {
        BeforeIffSmaller(r.value, d);
        AtMostIffNotGreater(start, r.value);
        AtMostIffNotGreater(start, d);
        DayAt(start, end, d);
        assert days[DayNumber(d) - DayNumber(start)] == d;
      }
    }
  }

  /** The corrected scan returns the SMALLEST not-done day of the range, as
      the method's documentation promises, and `None` exactly as before. */
  lemma FindMinCorrected(todos: seq<Todo>, habitId: string, start: Date, end: Date)
    ensures var m := TodoByDate(todos, habitId);
            var r := EarliestNotDone(DaysBetween(start, end), m);
            (r.None? <==> forall d :: AtMost(start, d) && AtMost(d, end) ==> !NotDoneOn(m, d))
            && (r.Some? ==> AtMost(start, r.value) && AtMost(r.value, end) && NotDoneOn(m, r.value)
                            && forall d :: AtMost(start, d) && Before(d, r.value) ==> !NotDoneOn(m, d))
  {
    var m := TodoByDate(todos, habitId);
    var days := DaysBetween(start, end);
    EarliestNotDoneIsFirst(days, m);
    forall d | AtMost(start, d) && AtMost(d, end)
      ensures d in days
    {
      DayAt(start, end, d);
    }
    var r := EarliestNotDone(days, m);
    if r.Some? {
      var i :| 0 <= i < |days| && days[i] == r.value && NotDoneOn(m, r.value)
               && forall k :: 0 <= k < i ==> !NotDoneOn(m, days[k]);
      InDaysBetween(start, end, r.value);
      forall d | AtMost(start, d) && Before(d, r.value)
        ensures !NotDoneOn(m, d)
      {
        BeforeIffSmaller(d, r.value);
        AtMostIffNotGreater(r.value, end);
        AtMostIffNotGreater(d, end);
        DayAt(start, end, d);
        assert days[DayNumber(d) - DayNumber(start)] == d;
      }
    }
  }

  /** The discrepancy on the smallest input: a two-day range with no rows.
      The scan as written answers the second day, the documented minimum is
      the first. */
  lemma FindMinReturnsLatest()
    ensures LatestNotDone(DaysBetween(Ymd(2025, 1, 1), Ymd(2025, 1, 2)), TodoByDate([], "h")) == Some(Ymd(2025, 1, 2))
    ensures EarliestNotDone(DaysBetween(Ymd(2025, 1, 1), Ymd(2025, 1, 2)), TodoByDate([], "h")) == Some(Ymd(2025, 1, 1))
  {
    var days := DaysBetween(Ymd(2025, 1, 1), Ymd(2025, 1, 2));
    DaysBetweenShape(Ymd(2025, 1, 1), Ymd(2025, 1, 2));
    assert NextDay(Ymd(2025, 1, 1)) == Ymd(2025, 1, 2);
    assert |days| == 2;
    assert TodoByDate([], "h") == map[];
  }
}
