/** `TodoService`: the progress rule, marking a habit on a day, the day's todo
    list (merge of due habits with their rows, then ordered), the per-day
    summary, and notes. The habit table is a map from id to habit; the clock
    readings are parameters. */
module TodoService {
  import opened Wrappers
  import opened Calendar
  import opened Text
  import opened Model
  import opened HabitDate
  import opened DateRange
  import opened Errors
  import opened TodoRepository
  import CategoryStats

  // ---------------------------------------------------------------------
  // Progress

  /** `getProgressValue(existing, status, target, progressValue)`. */
  function ProgressValue(existing: Option<Todo>, status: TodoStatus, target: Number, progressValue: Option<int>)
    : (r: Number)
    ensures existing.Some? && existing.value.status == Done && status != Done ==> r == Int(0)
    ensures status == Done ==> r == target
    ensures status == Skipped ==> r == Int(0)
    ensures status != Done ==> r.Int? && (r.n == 0 || (status == Pending && progressValue == Some(r.n)))
    ensures !(existing.Some? && existing.value.status == Done) && status == Pending ==>
              r == if progressValue.Some? && progressValue.value != 0 then Int(progressValue.value) else Int(0)
  {
    if existing.Some? && existing.value.status == Done && status != Done then Int(0)
    else if status == Done then target
    else if status == Skipped then Int(0)
    else
      assert status == Pending;
      match progressValue
      case Some(v) => if v != 0 then Int(v) else Int(0)
      case None => Int(0)
  }

  /** Taking a DONE mark back loses the progress supplied with it: the same
      PENDING request that keeps a value on a fresh row gives 0 once the row
      was DONE. */
  lemma UndoDoneDropsProgress(row: Todo, target: Number, v: int)
    requires v != 0
    ensures ProgressValue(None, Pending, target, Some(v)) == Int(v)
    ensures ProgressValue(Some(row.(status := Done)), Pending, target, Some(v)) == Int(0)
    ensures ProgressValue(Some(row.(status := Done)), Done, target, Some(v)) == target
  {
  }

  /** `parseInt(habit.value)` as a JavaScript number. */
  function ParseNumber(s: string): (r: Number)
    ensures r.NaN? <==> ParseInt(s).None?
    ensures r.Int? ==> ParseInt(s) == Some(r.n)
  {
    match ParseInt(s)
    case Some(n) => Int(n)
    case None => NaN
  }

  /** `progress.toString()`. */
  function NumberText(n: Number): (s: string)
    ensures s != []
  {
    match n
    case Int(v) => IntToString(v)
    case NaN => "NaN"
  }

  // ---------------------------------------------------------------------
  // Marking a habit on a day

  /** The habit table as `habitRepository.findById` reads it. */
  type HabitTable = map<string, Habit>

  /** `findById` followed by the ownership test every operation makes. */
  function OwnedHabit(habits: HabitTable, userId: string, habitId: string): (r: Result<Habit, PlanlyError>)
    ensures r.Ok? <==> habitId in habits && habits[habitId].userId == userId
    ensures r.Ok? ==> r.value == habits[habitId]
    ensures r.Err? ==> r.error.statusCode == 404 && r.error.errorType == "NOT_FOUND"
  {
    if habitId in habits && habits[habitId].userId == userId then Ok(habits[habitId])
    else Err(NotFoundError(Some("Habit " + habitId + " not found")))
  }

  /** The row `createOrUpdate` writes: the status and progress of the
      request, the target read from the habit, and the notes and creation
      time of the row it replaces. */
  function NewTodo(habit: Habit, existing: Option<Todo>, userId: string, habitId: string, date: Date,
                   status: TodoStatus, progressValue: Option<int>, now: string): (t: Todo)
    ensures t.userId == userId && t.habitId == habitId && t.date == date && t.status == status
    ensures t.target == ParseNumber(habit.value)
    ensures t.progress == ProgressValue(existing, status, ParseNumber(habit.value), progressValue)
    ensures t.notes == if existing.Some? then existing.value.notes else ""
    ensures t.createdAt == if existing.Some? && existing.value.createdAt != "" then existing.value.createdAt else now
    ensures t.updatedAt == now
  {
    var target := ParseNumber(habit.value);
    Todo(userId, habitId, date, status, ProgressValue(existing, status, target, progressValue), target,
         if existing.Some? then existing.value.notes else "",
         if existing.Some? && existing.value.createdAt != "" then existing.value.createdAt else now,
         now)
  }

  /** `createOrUpdate({userId, habitId, date, status, progressValue})`: fails
      with NotFound and writes nothing when the habit is missing or belongs to
      someone else; otherwise puts the new row under the (user, day, habit)
      key and returns it. `now` is the service's clock reading, `writeTime`
      the repository's. */
  method CreateOrUpdate(table: TodoTable, habits: HabitTable, userId: string, habitId: string, date: Date,
                        status: TodoStatus, progressValue: Option<int>, now: string, writeTime: string)
    returns (r: Result<Todo, PlanlyError>)
    modifies table
    ensures OwnedHabit(habits, userId, habitId).Err? ==>
              r == Err(OwnedHabit(habits, userId, habitId).error) && table.rows == old(table.rows)
    ensures OwnedHabit(habits, userId, habitId).Ok? ==>
              var t := NewTodo(habits[habitId], old(table.Find(userId, date, habitId)), userId, habitId, date,
                               status, progressValue, now);
              r == Ok(t) && table.rows == old(table.rows)[TodoKey(userId, date, habitId) := t.(updatedAt := writeTime)]
  {
    var owned := OwnedHabit(habits, userId, habitId);
    if owned.Err? {
      return Err(owned.error);
    }
    var existing := table.Find(userId, date, habitId);
    var todo := NewTodo(owned.value, existing, userId, habitId, date, status, progressValue, now);
    table.CreateOrUpdate(todo, writeTime);
    return Ok(todo);
  }

  /** A second request for the same day and habit replaces the row but keeps
      its notes and creation time. */
  lemma CreateOrUpdateKeepsNotes(habit: Habit, row: Todo, userId: string, habitId: string, date: Date,
                                 status: TodoStatus, progressValue: Option<int>, now: string)
    requires row.createdAt != ""
    ensures var t := NewTodo(habit, Some(row), userId, habitId, date, status, progressValue, now);
            t.notes == row.notes && t.createdAt == row.createdAt
            && NewTodo(habit, Some(t), userId, habitId, date, status, progressValue, now).notes == row.notes
            && NewTodo(habit, Some(t), userId, habitId, date, status, progressValue, now).createdAt == row.createdAt
  {
  }

  // ---------------------------------------------------------------------
  // The day's todo list

  /** One entry of the list: the habit's own fields, merged with its row for
      the day when there is one. */
  function ItemFor(h: Habit, todo: Option<Todo>): (r: TodoListItem)
    ensures r.id == h.id && r.title == h.title && r.color == h.color && r.emoji == h.emoji && r.unit == h.unit
    ensures r.targetValue == h.value && r.period == h.period && r.active == h.active && r.categoryId == h.categoryId
    ensures todo.None? ==> r.status == Pending && r.progressValue == "0" && r.notes == "" && r.updatedAt == h.updatedAt
    ensures todo.Some? ==> r.status == todo.value.status && r.notes == todo.value.notes
                           && r.progressValue == NumberText(todo.value.progress)
                           && r.updatedAt == (if todo.value.updatedAt != "" then todo.value.updatedAt else h.updatedAt)
  {
    match todo
    case None =>
      TodoListItem(h.id, h.title, h.color, h.emoji, h.unit, h.value, h.categoryId, h.period, h.active,
                   Pending, "0", "", h.updatedAt)
    case Some(t) =>
      TodoListItem(h.id, h.title, h.color, h.emoji, h.unit, h.value, h.categoryId, h.period, h.active,
                   t.status, NumberText(t.progress), t.notes,
                   if t.updatedAt != "" then t.updatedAt else h.updatedAt)
  }

  /** The sort comparator `(a, b) => ... <= 0`: status order first, then
      period order. */
  predicate ItemLeq(a: TodoListItem, b: TodoListItem)
    ensures ItemLeq(a, b) ==> StatusOrder(a.status) <= StatusOrder(b.status)
  {
    StatusOrder(a.status) < StatusOrder(b.status)
    || (StatusOrder(a.status) == StatusOrder(b.status) && PeriodOrder(a.period) <= PeriodOrder(b.period))
  }

  /** The comparator orders every pair one way or the other. */
  lemma ItemLeqTotal(a: TodoListItem, b: TodoListItem)
    ensures ItemLeq(a, b) || ItemLeq(b, a)
  {
  }

  predicate Ordered(s: seq<TodoListItem>) {
    forall i, j :: 0 <= i < j < |s| ==> ItemLeq(s[i], s[j])
  }

  function InsertItem(x: TodoListItem, s: seq<TodoListItem>): (r: seq<TodoListItem>)
    requires Ordered(s)
    ensures Ordered(r) && multiset(r) == multiset(s) + multiset{x}
  {
    if s == [] then [x]
    else if ItemLeq(x, s[0]) then [x] + s
    else
      var rest := InsertItem(x, s[1..]);
      assert s == [s[0]] + s[1..];
      ConsOrdered(s[0], x, s[1..], rest);
      [s[0]] + rest
  }

  /** Putting the head back in front of the insertion into the tail keeps
      the order, since the head precedes both the tail and `x`. */
  lemma ConsOrdered(h: TodoListItem, x: TodoListItem, tail: seq<TodoListItem>, rest: seq<TodoListItem>)
    requires Ordered([h] + tail) && !ItemLeq(x, h)
    requires Ordered(rest) && multiset(rest) == multiset(tail) + multiset{x}
    ensures Ordered([h] + rest)
  {
    forall y | y in rest
      ensures ItemLeq(h, y)
    {
      assert y in multiset(rest);
      if y != x {
        assert y in multiset(tail);
        var j :| 0 <= j < |tail| && tail[j] == y;
        assert ([h] + tail)[0] == h && ([h] + tail)[j + 1] == y;
      }
    }
    PrependOrdered(h, rest);
  }

  /** An entry that precedes every element of an ordered list may go in
      front. */
  lemma PrependOrdered(h: TodoListItem, rest: seq<TodoListItem>)
    requires Ordered(rest) && forall y :: y in rest ==> ItemLeq(h, y)
    ensures Ordered([h] + rest)
  {
    var r := [h] + rest;
    forall i, j | 0 <= i < j < |r|
      ensures ItemLeq(r[i], r[j])
    {
      assert r[j] == rest[j - 1];
      if i > 0 {
        assert r[i] == rest[i - 1];
      }
    }
  }

  /** `todoList.sort(comparator)`: an ordered permutation of its input. An
      element goes in front of the first element it does not exceed, so
      entries that compare equal keep their input order. */
  function SortItems(s: seq<TodoListItem>): (r: seq<TodoListItem>)
    ensures Ordered(r) && multiset(r) == multiset(s) && |r| == |s|
  {
    if s == [] then []
    else
      assert s == [s[0]] + s[1..];
      InsertItem(s[0], SortItems(s[1..]))
  }

  /** The merged entries of the due habits, in the habits' order. */
  function Items(rows: map<TodoKey, Todo>, eligible: seq<Habit>, userId: string, date: Date): (r: seq<TodoListItem>)
    ensures |r| == |eligible|
    ensures forall i :: 0 <= i < |eligible| ==>
              r[i] == ItemFor(eligible[i], if TodoKey(userId, date, eligible[i].id) in rows
                                           then Some(rows[TodoKey(userId, date, eligible[i].id)]) else None)
  {
    seq(|eligible|, i requires 0 <= i < |eligible| =>
      ItemFor(eligible[i], if TodoKey(userId, date, eligible[i].id) in rows
                           then Some(rows[TodoKey(userId, date, eligible[i].id)]) else None))
  }

  /** The list `getTodoListByDate` returns for the habits the habit table
      lists for the day (`findAllByDate`). */
  function TodoListOf(rows: map<TodoKey, Todo>, habitsOfDay: seq<Habit>, userId: string, date: Date)
    : seq<TodoListItem>
  {
    SortItems(Items(rows, FilterEligibleHabits(habitsOfDay, date), userId, date))
  }

  /** `getTodoListByDate(userId, date)`: keeps the habits due that day, merges
      each with its row, and sorts the entries. */
  method GetTodoListByDate(table: TodoTable, habitsOfDay: seq<Habit>, userId: string, date: Date)
    returns (list: seq<TodoListItem>)
    ensures list == TodoListOf(table.rows, habitsOfDay, userId, date)
  {
    var eligible := FilterEligibleHabits(habitsOfDay, date);
    var todoList: seq<TodoListItem> := [];
    for i := 0 to |eligible|
      invariant |todoList| == i
      invariant forall k :: 0 <= k < i ==> todoList[k] == Items(table.rows, eligible, userId, date)[k]
    {
      var todo := table.Find(userId, date, eligible[i].id);
      todoList := todoList + [ItemFor(eligible[i], todo)];
    }
    assert todoList == Items(table.rows, eligible, userId, date);
    list := SortItems(todoList);
  }

  /** What the day's list holds: one entry per due habit, the merged entries
      rearranged into status-then-period order; a due habit without a row
      is listed as PENDING with progress "0". */
  lemma TodoListShape(rows: map<TodoKey, Todo>, habitsOfDay: seq<Habit>, userId: string, date: Date)
    ensures var eligible := FilterEligibleHabits(habitsOfDay, date);
            var list := TodoListOf(rows, habitsOfDay, userId, date);
            |list| == |eligible|
            && Ordered(list)
            && multiset(list) == multiset(Items(rows, eligible, userId, date))
            && (forall h :: h in habitsOfDay && IsValidForTargetDate(h, date) && TodoKey(userId, date, h.id) !in rows
                  ==> ItemFor(h, None) in list)
            && (forall t :: t in list ==> exists h :: h in habitsOfDay && IsValidForTargetDate(h, date) && t.id == h.id)
  {
    MissingListedPending(rows, habitsOfDay, userId, date);
    ListedAreDue(rows, habitsOfDay, userId, date);
  }

  lemma MissingListedPending(rows: map<TodoKey, Todo>, habitsOfDay: seq<Habit>, userId: string, date: Date)
    ensures forall h :: h in habitsOfDay && IsValidForTargetDate(h, date) && TodoKey(userId, date, h.id) !in rows
              ==> ItemFor(h, None) in TodoListOf(rows, habitsOfDay, userId, date)
  {
    var eligible := FilterEligibleHabits(habitsOfDay, date);
    var items := Items(rows, eligible, userId, date);
    var list := TodoListOf(rows, habitsOfDay, userId, date);
    assert multiset(list) == multiset(items);
    forall h | h in habitsOfDay && IsValidForTargetDate(h, date) && TodoKey(userId, date, h.id) !in rows
      ensures ItemFor(h, None) in list
    {
      assert h in eligible;
      var i :| 0 <= i < |eligible| && eligible[i] == h;
      assert items[i] == ItemFor(h, None);
      assert items[i] in multiset(items);
    }
  }

  lemma ListedAreDue(rows: map<TodoKey, Todo>, habitsOfDay: seq<Habit>, userId: string, date: Date)
    ensures forall t :: t in TodoListOf(rows, habitsOfDay, userId, date) ==>
              exists h :: h in habitsOfDay && IsValidForTargetDate(h, date) && t.id == h.id
  {
    var eligible := FilterEligibleHabits(habitsOfDay, date);
    var items := Items(rows, eligible, userId, date);
    var list := TodoListOf(rows, habitsOfDay, userId, date);
    assert multiset(list) == multiset(items);
    forall t | t in list
      ensures exists h :: h in habitsOfDay && IsValidForTargetDate(h, date) && t.id == h.id
    {
      assert t in multiset(list);
      assert t in items;
      var i :| 0 <= i < |items| && items[i] == t;
      assert eligible[i] in eligible;
    }
  }

  // ---------------------------------------------------------------------
  // Daily summary

  datatype Counts = Counts(done: int, skipped: int, pending: int, total: int)

  datatype CategoryCounts = CategoryCounts(categoryId: string, counts: Counts)

  datatype DaySummary = DaySummary(date: Date, total: Counts, categories: seq<CategoryCounts>)

  /** `list.filter(t => t.status === status).length`. */
  function CountStatus(list: seq<TodoListItem>, status: TodoStatus): (n: nat)
    ensures n <= |list|
  {
    if list == [] then 0
    else CountStatus(list[..|list| - 1], status) + if list[|list| - 1].status == status then 1 else 0
  }

  function CountsOf(list: seq<TodoListItem>): Counts {
    Counts(CountStatus(list, Done), CountStatus(list, Skipped), CountStatus(list, Pending), |list|)
  }

  /** Every entry has exactly one of the three statuses. */
  lemma {:induction false} StatusCountsAddUp(list: seq<TodoListItem>)
    ensures CountStatus(list, Done) + CountStatus(list, Skipped) + CountStatus(list, Pending) == |list|
  {
    if list != [] {
      StatusCountsAddUp(list[..|list| - 1]);
    }
  }

  /** The keys of `todosByCategory` in insertion order: each category id once,
      where it first occurs. */
  function CategoryOrder(list: seq<TodoListItem>): (ids: seq<string>)
    ensures forall c :: c in ids <==> exists t :: t in list && t.categoryId == c
  {
    if list == [] then []
    else
      var init := list[..|list| - 1];
      var t := list[|list| - 1];
      assert list == init + [t];
      var ids := CategoryOrder(init);
      if t.categoryId in ids then ids else ids + [t.categoryId]
  }

  predicate Distinct(ids: seq<string>) {
    forall i, j :: 0 <= i < j < |ids| ==> ids[i] != ids[j]
  }

  lemma {:induction false} CategoryOrderDistinct(list: seq<TodoListItem>)
    ensures Distinct(CategoryOrder(list))
  {
    if list != [] {
      CategoryOrderDistinct(list[..|list| - 1]);
    }
  }

  /** One summary entry per category id, in the given order. */
  function CategorySummaries(list: seq<TodoListItem>, ids: seq<string>): (r: seq<CategoryCounts>)
    ensures |r| == |ids|
    ensures forall i :: 0 <= i < |ids| ==> r[i] == CategoryCounts(ids[i], CountsOf(CategoryStats.OfCategory(list, ids[i])))
  {
    if ids == [] then []
    else
      CategorySummaries(list, ids[..|ids| - 1])
        + [CategoryCounts(ids[|ids| - 1], CountsOf(CategoryStats.OfCategory(list, ids[|ids| - 1])))]
  }

  /** The summary of one day's list. */
  function SummaryOf(date: Date, list: seq<TodoListItem>): DaySummary {
    DaySummary(date, CountsOf(list), CategorySummaries(list, CategoryOrder(list)))
  }

  /** The per-day body of `getDailySummary`: counts the statuses, groups the
      entries by category, then counts each group. */
  method Summarize(date: Date, list: seq<TodoListItem>) returns (s: DaySummary)
    ensures s == SummaryOf(date, list)
  {
    var ids, byCategory := GroupByCategory(list);
    var categories := CountGroups(list, ids, byCategory);
    s := DaySummary(date, CountsOf(list), categories);
  }

  /** The `forEach` filling `todosByCategory`: a new key starts an empty
      group, and every entry is pushed onto its category's group. */
  method GroupByCategory(list: seq<TodoListItem>) returns (ids: seq<string>, byCategory: map<string, seq<TodoListItem>>)
    ensures ids == CategoryOrder(list)
    ensures forall c :: c in byCategory <==> c in ids
    ensures forall c :: c in byCategory ==> byCategory[c] == CategoryStats.OfCategory(list, c)
  {
    ids := [];
    byCategory := map[];
    for i := 0 to |list|
      invariant ids == CategoryOrder(list[..i])
      invariant byCategory == GroupsOf(list[..i])
    {
      var t := list[i];
      assert list[..i + 1][..i] == list[..i];
      GroupsOfKeys(list[..i], t.categoryId);
      if t.categoryId !in byCategory {
        byCategory := byCategory[t.categoryId := []];
        ids := ids + [t.categoryId];
      }
      byCategory := byCategory[t.categoryId := byCategory[t.categoryId] + [t]];
    }
    assert list[..|list|] == list;
    forall c
      ensures c in byCategory <==> c in ids
      ensures c in byCategory ==> byCategory[c] == CategoryStats.OfCategory(list, c)
    {
      GroupsOfKeys(list, c);
      if c in byCategory {
        GroupsOfValues(list, c);
      }
    }
  }

  /** The map `todosByCategory` after the `forEach` over `list`. */
  function GroupsOf(list: seq<TodoListItem>): map<string, seq<TodoListItem>> {
    if list == [] then map[]
    else
      var g := GroupsOf(list[..|list| - 1]);
      var t := list[|list| - 1];
      var own := if t.categoryId in g then g[t.categoryId] else [];
      g[t.categoryId := own + [t]]
  }

  /** The keys are the category ids that occur. */
  lemma {:induction false} GroupsOfKeys(list: seq<TodoListItem>, c: string)
    ensures c in GroupsOf(list) <==> c in CategoryOrder(list)
  {
    if list != [] {
      GroupsOfKeys(list[..|list| - 1], c);
    }
  }

  /** Each group holds the entries of its category, in list order. */
  lemma {:induction false} GroupsOfValues(list: seq<TodoListItem>, c: string)
    requires c in GroupsOf(list)
    ensures GroupsOf(list)[c] == CategoryStats.OfCategory(list, c)
  {
    var init := list[..|list| - 1];
    var t := list[|list| - 1];
    assert list == init + [t];
    OfCategoryAppend(init, t, c);
    if c in GroupsOf(init) {
      GroupsOfValues(init, c);
    } else if c == t.categoryId {
      GroupsOfKeys(init, c);
      NewCategoryEmpty(init, c);
    }
  }

  lemma OfCategoryAppend(pre: seq<TodoListItem>, t: TodoListItem, c: string)
    ensures CategoryStats.OfCategory(pre + [t], c)
            == CategoryStats.OfCategory(pre, c) + if t.categoryId == c then [t] else []
  {
    assert (pre + [t])[..|pre|] == pre;
  }

  /** A category that has not occurred yet has no entries. */
  lemma NewCategoryEmpty(pre: seq<TodoListItem>, c: string)
    requires c !in CategoryOrder(pre)
    ensures CategoryStats.OfCategory(pre, c) == []
  {
    var own := CategoryStats.OfCategory(pre, c);
    if own != [] {
      assert false;
    }
  }

  /** `Object.entries(todosByCategory).map(...)`: the counts of each group, in
      key insertion order. */
  method CountGroups(list: seq<TodoListItem>, ids: seq<string>, byCategory: map<string, seq<TodoListItem>>)
    returns (categories: seq<CategoryCounts>)
    requires forall c :: c in ids ==> c in byCategory && byCategory[c] == CategoryStats.OfCategory(list, c)
    ensures categories == CategorySummaries(list, ids)
  {
    categories := [];
    for k := 0 to |ids|
      invariant categories == CategorySummaries(list, ids[..k])
    {
      assert ids[..k + 1][..k] == ids[..k];
      var group := byCategory[ids[k]];
      categories := categories + [CategoryCounts(ids[k], CountsOf(group))];
    }
    assert ids[..|ids|] == ids;
  }

  /** The sum of the category totals. */
  function SumTotals(cats: seq<CategoryCounts>): int {
    if cats == [] then 0 else SumTotals(cats[..|cats| - 1]) + cats[|cats| - 1].counts.total
  }

  function Occurrences(ids: seq<string>, c: string): nat {
    if ids == [] then 0 else Occurrences(ids[..|ids| - 1], c) + if ids[|ids| - 1] == c then 1 else 0
  }

  lemma {:induction false} OccursOnce(ids: seq<string>, c: string)
    requires Distinct(ids)
    ensures Occurrences(ids, c) == if c in ids then 1 else 0
  {
    if ids != [] {
      var init := ids[..|ids| - 1];
      OccursOnce(init, c);
      assert ids == init + [ids[|ids| - 1]];
      assert ids[|ids| - 1] !in init by {
        assert forall j :: 0 <= j < |init| ==> init[j] == ids[j];
      }
    }
  }

  /** Appending an entry adds one to the total of every listed category it
      belongs to. */
  lemma {:induction false} SumTotalsSnoc(list: seq<TodoListItem>, t: TodoListItem, ids: seq<string>)
    ensures SumTotals(CategorySummaries(list + [t], ids))
            == SumTotals(CategorySummaries(list, ids)) + Occurrences(ids, t.categoryId)
  {
    if ids != [] {
      var init := ids[..|ids| - 1];
      var c := ids[|ids| - 1];
      SumTotalsSnoc(list, t, init);
      assert (list + [t])[..|list|] == list;
      var after := CategorySummaries(list + [t], ids);
      var before := CategorySummaries(list, ids);
      assert after[..|after| - 1] == CategorySummaries(list + [t], init);
      assert before[..|before| - 1] == CategorySummaries(list, init);
    }
  }

  /** Over distinct ids that cover every entry's category, the category
      totals add up to the number of entries. */
  lemma {:induction false} SumTotalsCover(list: seq<TodoListItem>, ids: seq<string>)
    requires Distinct(ids)
    requires forall t :: t in list ==> t.categoryId in ids
    ensures SumTotals(CategorySummaries(list, ids)) == |list|
  {
    if list == [] {
      EmptyGroups(ids);
    } else {
      var init := list[..|list| - 1];
      var t := list[|list| - 1];
      assert list == init + [t];
      SumTotalsCover(init, ids);
      SumTotalsSnoc(init, t, ids);
      OccursOnce(ids, t.categoryId);
    }
  }

  lemma {:induction false} EmptyGroups(ids: seq<string>)
    ensures SumTotals(CategorySummaries([], ids)) == 0
  {
    if ids != [] {
      EmptyGroups(ids[..|ids| - 1]);
      var cats := CategorySummaries([], ids);
      assert cats[..|cats| - 1] == CategorySummaries([], ids[..|ids| - 1]);
    }
  }

  /** The day summary adds up: done + skipped + pending is the day's total,
      in the whole and per category; every category present that day is
      listed once; and the category totals sum to the day's total. */
  lemma SummaryAddsUp(date: Date, list: seq<TodoListItem>)
    ensures var s := SummaryOf(date, list);
            s.total.done + s.total.skipped + s.total.pending == s.total.total == |list|
            && (forall c :: c in s.categories ==> c.counts.done + c.counts.skipped + c.counts.pending == c.counts.total)
            && (forall i, j :: 0 <= i < j < |s.categories| ==> s.categories[i].categoryId != s.categories[j].categoryId)
            && (forall t :: t in list ==> exists c :: c in s.categories && c.categoryId == t.categoryId)
            && SumTotals(s.categories) == s.total.total
  {
    var ids := CategoryOrder(list);
    StatusCountsAddUp(list);
    CategoryOrderDistinct(list);
    CategoryCountsAddUp(list, ids);
    CategoriesCover(list, ids);
    SumTotalsCover(list, ids);
  }

  lemma CategoryCountsAddUp(list: seq<TodoListItem>, ids: seq<string>)
    ensures forall c :: c in CategorySummaries(list, ids) ==>
              c.counts.done + c.counts.skipped + c.counts.pending == c.counts.total
  {
    var cats := CategorySummaries(list, ids);
    forall c | c in cats
      ensures c.counts.done + c.counts.skipped + c.counts.pending == c.counts.total
    {
      var i :| 0 <= i < |cats| && cats[i] == c;
      StatusCountsAddUp(CategoryStats.OfCategory(list, ids[i]));
    }
  }

  lemma CategoriesCover(list: seq<TodoListItem>, ids: seq<string>)
    requires forall t :: t in list ==> t.categoryId in ids
    ensures forall t :: t in list ==> exists c :: c in CategorySummaries(list, ids) && c.categoryId == t.categoryId
  {
    var cats := CategorySummaries(list, ids);
    forall t | t in list
      ensures exists c :: c in cats && c.categoryId == t.categoryId
    {
      var i :| 0 <= i < |ids| && ids[i] == t.categoryId;
      assert cats[i] in cats;
    }
  }

  /** `getDailySummary(userId, startDate, endDate)`: one summary per day of
      the range, each over that day's todo list. `habitsOn(d)` is what the
      habit table lists for day `d`. */
  method GetDailySummary(table: TodoTable, habitsOn: Date -> seq<Habit>, userId: string, startDate: Date, endDate: Date)
    returns (summaries: seq<DaySummary>)
    ensures var days := DaysBetween(startDate, endDate);
            |summaries| == |days|
            && forall i :: 0 <= i < |days| ==>
                 summaries[i] == SummaryOf(days[i], TodoListOf(table.rows, habitsOn(days[i]), userId, days[i]))
  {
    var dates := DatesRange(startDate, endDate);
    summaries := [];
    for i := 0 to |dates|
      invariant |summaries| == i
      invariant forall k :: 0 <= k < i ==> summaries[k] == DaySummaryOf(table.rows, habitsOn, userId, dates[k])
    {
      var summary := SummarizeDay(table, habitsOn, userId, dates[i]);
      summaries := summaries + [summary];
    }
  }

  /** One turn of the loop over the days: the day's list, then its summary. */
  method SummarizeDay(table: TodoTable, habitsOn: Date -> seq<Habit>, userId: string, d: Date) returns (s: DaySummary)
    ensures s == DaySummaryOf(table.rows, habitsOn, userId, d)
  {
    var todoList := GetTodoListByDate(table, habitsOn(d), userId, d);
    s := Summarize(d, todoList);
  }

  /** The summary of day `d`. */
  function DaySummaryOf(rows: map<TodoKey, Todo>, habitsOn: Date -> seq<Habit>, userId: string, d: Date): DaySummary {
    SummaryOf(d, TodoListOf(rows, habitsOn(d), userId, d))
  }

  // ---------------------------------------------------------------------
  // Notes

  /** `updateNotes(userId, habitId, date, notes)` as written: with no row yet
      it creates a PENDING row through `createOrUpdate`, whose notes are
      empty, so the supplied notes are lost; otherwise it sets the notes. */
  method UpdateNotes(table: TodoTable, habits: HabitTable, userId: string, habitId: string, date: Date, notes: string,
                     now: string, writeTime: string)
    returns (r: Result<(), PlanlyError>)
    modifies table
    ensures table.rows == NotesAsWritten(old(table.rows), habits, userId, habitId, date, notes, now, writeTime)
    ensures r.Err? <==> OwnedHabit(habits, userId, habitId).Err?
  {
    var owned := OwnedHabit(habits, userId, habitId);
    if owned.Err? {
      return Err(owned.error);
    }
    var existing := table.Find(userId, date, habitId);
    if existing.None? {
      var created := CreateOrUpdate(table, habits, userId, habitId, date, Pending, Some(0), now, writeTime);
    } else {
      table.UpdateNotes(userId, date, habitId, notes, writeTime);
    }
    return Ok(());
  }

  /** The table after `updateNotes` as written. */
  function NotesAsWritten(rows: map<TodoKey, Todo>, habits: HabitTable, userId: string, habitId: string, date: Date,
                          notes: string, now: string, writeTime: string): map<TodoKey, Todo>
  {
    var k := TodoKey(userId, date, habitId);
    if OwnedHabit(habits, userId, habitId).Err? then rows
    else if k !in rows then
      rows[k := NewTodo(habits[habitId], None, userId, habitId, date, Pending, Some(0), now).(updatedAt := writeTime)]
    else rows[k := rows[k].(notes := notes, updatedAt := writeTime)]
  }

  /** The discrepancy: a first note on a day with no row is stored as the
      empty text. */
  lemma FirstNoteIsLost(habit: Habit, now: string, writeTime: string)
    ensures var habits := map[habit.id := habit];
            var k := TodoKey(habit.userId, Ymd(2025, 1, 1), habit.id);
            var after := NotesAsWritten(map[], habits, habit.userId, habit.id, Ymd(2025, 1, 1), "drink water", now, writeTime);
            k in after && after[k].notes == "" != "drink water"
  {
  }

  /** `updateNotes` with the notes passed on when the row is created. */
  function NotesCorrected(rows: map<TodoKey, Todo>, habits: HabitTable, userId: string, habitId: string, date: Date,
                          notes: string, now: string, writeTime: string): map<TodoKey, Todo>
  {
    var k := TodoKey(userId, date, habitId);
    if OwnedHabit(habits, userId, habitId).Err? then rows
    else if k !in rows then
      rows[k := NewTodo(habits[habitId], None, userId, habitId, date, Pending, Some(0), now)
                  .(notes := notes, updatedAt := writeTime)]
    else rows[k := rows[k].(notes := notes, updatedAt := writeTime)]
  }

  method UpdateNotesCorrected(table: TodoTable, habits: HabitTable, userId: string, habitId: string, date: Date,
                              notes: string, now: string, writeTime: string)
    returns (r: Result<(), PlanlyError>)
    modifies table
    ensures table.rows == NotesCorrected(old(table.rows), habits, userId, habitId, date, notes, now, writeTime)
    ensures r.Err? <==> OwnedHabit(habits, userId, habitId).Err?
  {
    var owned := OwnedHabit(habits, userId, habitId);
    if owned.Err? {
      return Err(owned.error);
    }
    var existing := table.Find(userId, date, habitId);
    if existing.None? {
      var todo := NewTodo(owned.value, None, userId, habitId, date, Pending, Some(0), now).(notes := notes);
      table.CreateOrUpdate(todo, writeTime);
    } else {
      table.UpdateNotes(userId, date, habitId, notes, writeTime);
    }
    return Ok(());
  }

  /** After the corrected update the day's row of an owned habit carries the
      supplied notes, whether or not it existed; an existing row keeps its
      status and progress; a new one is PENDING with progress 0; no other
      row changes; and a foreign or missing habit changes nothing. */
  lemma NotesCorrectedStoresNotes(rows: map<TodoKey, Todo>, habits: HabitTable, userId: string, habitId: string,
                                  date: Date, notes: string, now: string, writeTime: string)
    ensures var k := TodoKey(userId, date, habitId);
            var after := NotesCorrected(rows, habits, userId, habitId, date, notes, now, writeTime);
            (OwnedHabit(habits, userId, habitId).Err? ==> after == rows)
            && (OwnedHabit(habits, userId, habitId).Ok? ==>
                  k in after && after[k].notes == notes
                  && (k in rows ==> after[k].status == rows[k].status && after[k].progress == rows[k].progress)
                  && (k !in rows ==> after[k].status == Pending && after[k].progress == Int(0)))
            && (forall k2 :: k2 != k ==> (k2 in after <==> k2 in rows) && (k2 in rows ==> after[k2] == rows[k2]))
  {
  }
}
