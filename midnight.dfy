/** The stats midnight job: for every user, load yesterday's todo list and,
    unless it is empty or entirely DONE, recalculate the streaks of each
    habit the user took no action on (no todo row for yesterday). The
    recalculation itself is not part of this model: the job's outcome is the
    sequence of calls it makes, and `fails` says which call throws. */
module Midnight {
  import opened Wrappers
  import opened Calendar
  import opened Model
  import opened TodoRepository

  /** `recalculateStreaksAfterMidnight(userId, habitId, categoryId)`. */
  datatype RecalcCall = RecalcCall(userId: string, habitId: string, categoryId: string)

  /** The two early `continue`s: nothing was due, or everything was done. */
  predicate UserSkipped(list: seq<TodoListItem>) {
    |list| == 0 || AllDone(list)
  }

  /** The call made for a list entry; a missing category id reads as the
      empty text. */
  function CallFor(userId: string, item: TodoListItem): RecalcCall {
    RecalcCall(userId, item.id, item.categoryId)
  }

  /** The lookups of yesterday's rows, one per entry, in list order. */
  function Lookups(userId: string, list: seq<TodoListItem>, yesterday: Date): (r: seq<TodoKey>)
    ensures |r| == |list|
    ensures forall j :: 0 <= j < |list| ==> r[j] == TodoKey(userId, yesterday, list[j].id)
  {
    seq(|list|, j requires 0 <= j < |list| => TodoKey(userId, yesterday, list[j].id))
  }

  /** The calls for the entries that have no row for yesterday, in list
      order. */
  function Candidates(userId: string, list: seq<TodoListItem>, rows: map<TodoKey, Todo>, yesterday: Date)
    : (r: seq<RecalcCall>)
    ensures forall c :: c in r <==> exists item :: item in list && TodoKey(userId, yesterday, item.id) !in rows
                                                   && c == CallFor(userId, item)
  {
    if list == [] then []
    else
      var init := list[..|list| - 1];
      var item := list[|list| - 1];
      assert list == init + [item];
      Candidates(userId, init, rows, yesterday)
        + if TodoKey(userId, yesterday, item.id) !in rows then [CallFor(userId, item)] else []
  }

  function UserLookups(userId: string, list: seq<TodoListItem>, yesterday: Date): seq<TodoKey> {
    if UserSkipped(list) then [] else Lookups(userId, list, yesterday)
  }

  function UserCalls(userId: string, list: seq<TodoListItem>, rows: map<TodoKey, Todo>, yesterday: Date)
    : seq<RecalcCall>
  {
    if UserSkipped(list) then [] else Candidates(userId, list, rows, yesterday)
  }

  /** Every lookup a complete run makes, user after user. */
  function AllLookups(users: seq<string>, listOf: string -> seq<TodoListItem>, yesterday: Date): seq<TodoKey> {
    if users == [] then []
    else AllLookups(users[..|users| - 1], listOf, yesterday)
         + UserLookups(users[|users| - 1], listOf(users[|users| - 1]), yesterday)
  }

  /** Every call a complete run makes, user after user. */
  function AllCalls(users: seq<string>, listOf: string -> seq<TodoListItem>, rows: map<TodoKey, Todo>, yesterday: Date)
    : seq<RecalcCall>
  {
    if users == [] then []
    else AllCalls(users[..|users| - 1], listOf, rows, yesterday)
         + UserCalls(users[|users| - 1], listOf(users[|users| - 1]), rows, yesterday)
  }

  /** No call in `calls` throws. */
  predicate NoneFail(calls: seq<RecalcCall>, fails: RecalcCall -> bool) {
    forall c :: c in calls ==> !fails(c)
  }

  lemma NoneFailAppend(a: seq<RecalcCall>, b: seq<RecalcCall>, fails: RecalcCall -> bool)
    requires NoneFail(a, fails) && NoneFail(b, fails)
    ensures NoneFail(a + b, fails)
  {
  }

  /** `handler()`, with the clock's day as `today`, the user table as `users`,
      `getTodoListByDate(userId, yesterday)` as `listOf`. It returns the
      job's result (`recalcCount`, or the call that threw), the users whose
      list was loaded, the row lookups and the successful calls. A complete
      run makes exactly the calls `AllCalls` lists; a failing call stops the
      job right there, for this user and every later one. */
  method Handler(users: seq<string>, table: TodoTable, listOf: string -> seq<TodoListItem>,
                 fails: RecalcCall -> bool, today: Date)
    returns (result: Result<nat, RecalcCall>, listed: seq<string>, lookups: seq<TodoKey>, calls: seq<RecalcCall>)
    ensures Completes(users, table.rows, listOf, fails, AddDays(today, -1), result, listed, lookups, calls)
  {
    var yesterday := AddDays(today, -1);
    if |users| == 0 {
      return Ok(0), [], [], [];
    }
    result, listed, lookups, calls := RunUsers(users, table, listOf, fails, yesterday);
  }

  /** What a run of the job over `users` leaves: a complete run has loaded
      every list, made every lookup and every call `AllCalls` lists, none of
      which failed, and counts them; a run that stopped at a failing call
      has done a prefix of all that, the failing call being the next one. */
  predicate Completes(users: seq<string>, rows: map<TodoKey, Todo>, listOf: string -> seq<TodoListItem>,
                      fails: RecalcCall -> bool, yesterday: Date,
                      result: Result<nat, RecalcCall>, listed: seq<string>, lookups: seq<TodoKey>,
                      calls: seq<RecalcCall>)
  {
    var all := AllCalls(users, listOf, rows, yesterday);
    (result.Ok? ==> listed == users && lookups == AllLookups(users, listOf, yesterday) && calls == all
                    && result.value == |calls| && NoneFail(all, fails))
    && (result.Err? ==> fails(result.error) && calls + [result.error] <= all
                        && listed <= users && lookups <= AllLookups(users, listOf, yesterday))
    && NoneFail(calls, fails)
  }

  /** The loop over the users, each one's list loaded for `yesterday`. */
  method RunUsers(users: seq<string>, table: TodoTable, listOf: string -> seq<TodoListItem>,
                  fails: RecalcCall -> bool, yesterday: Date)
    returns (result: Result<nat, RecalcCall>, listed: seq<string>, lookups: seq<TodoKey>, calls: seq<RecalcCall>)
    ensures Completes(users, table.rows, listOf, fails, yesterday, result, listed, lookups, calls)
  {
    listed, lookups, calls := [], [], [];
    var recalcCount := 0;
    for i := 0 to |users|
      invariant listed == users[..i]
      invariant lookups == AllLookups(users[..i], listOf, yesterday)
      invariant calls == AllCalls(users[..i], listOf, table.rows, yesterday)
      invariant recalcCount == |calls|
      invariant NoneFail(calls, fails)
    {
      var userId := users[i];
      var failed, userLookups, userCalls := ProcessUser(table, userId, listOf(userId), fails, yesterday);
      listed := listed + [userId];
      if failed.Some? {
        StoppedRun(users, table.rows, listOf, fails, yesterday, i, lookups, userLookups, calls, userCalls,
                   failed.value);
        return Err(failed.value), listed, lookups + userLookups, calls + userCalls;
      }
      UserStep(users, listOf, table.rows, yesterday, i);
      NoneFailAppend(calls, userCalls, fails);
      lookups := lookups + userLookups;
      calls := calls + userCalls;
      recalcCount := recalcCount + |userCalls|;
    }
    assert users[..|users|] == users;
    return Ok(recalcCount), listed, lookups, calls;
  }

  /** A call that fails while the `i`-th user's list is being worked off
      leaves a stopped run. */
  lemma StoppedRun(users: seq<string>, rows: map<TodoKey, Todo>, listOf: string -> seq<TodoListItem>,
                   fails: RecalcCall -> bool, yesterday: Date, i: nat,
                   lookups: seq<TodoKey>, userLookups: seq<TodoKey>, calls: seq<RecalcCall>,
                   userCalls: seq<RecalcCall>, failed: RecalcCall)
    requires i < |users|
    requires lookups == AllLookups(users[..i], listOf, yesterday)
    requires calls == AllCalls(users[..i], listOf, rows, yesterday)
    requires NoneFail(calls, fails) && NoneFail(userCalls, fails) && fails(failed)
    requires userLookups <= UserLookups(users[i], listOf(users[i]), yesterday)
    requires userCalls + [failed] <= UserCalls(users[i], listOf(users[i]), rows, yesterday)
    ensures Completes(users, rows, listOf, fails, yesterday, Err(failed), users[..i + 1], lookups + userLookups,
                      calls + userCalls)
  {
    RunStopsAt(users, listOf, rows, yesterday, i, lookups, userLookups, calls, userCalls + [failed]);
    NoneFailAppend(calls, userCalls, fails);
    assert calls + (userCalls + [failed]) == calls + userCalls + [failed];
  }

  /** One more user extends the run by that user's lookups and calls. */
  lemma UserStep(users: seq<string>, listOf: string -> seq<TodoListItem>, rows: map<TodoKey, Todo>, yesterday: Date,
                 i: nat)
    requires i < |users|
    ensures users[..i + 1] == users[..i] + [users[i]]
    ensures AllLookups(users[..i + 1], listOf, yesterday)
            == AllLookups(users[..i], listOf, yesterday) + UserLookups(users[i], listOf(users[i]), yesterday)
    ensures AllCalls(users[..i + 1], listOf, rows, yesterday)
            == AllCalls(users[..i], listOf, rows, yesterday) + UserCalls(users[i], listOf(users[i]), rows, yesterday)
  {
    assert users[..i + 1][..i] == users[..i] && users[..i + 1][i] == users[i];
  }

  /** The body of the loop over users: the two early `continue`s, then the
      loop over the user's list. */
  method ProcessUser(table: TodoTable, userId: string, todoListYesterday: seq<TodoListItem>,
                     fails: RecalcCall -> bool, yesterday: Date)
    returns (failed: Option<RecalcCall>, lookups: seq<TodoKey>, calls: seq<RecalcCall>)
    ensures failed.None? ==> lookups == UserLookups(userId, todoListYesterday, yesterday)
                             && calls == UserCalls(userId, todoListYesterday, table.rows, yesterday)
    ensures failed.Some? ==> fails(failed.value)
                             && calls + [failed.value] <= UserCalls(userId, todoListYesterday, table.rows, yesterday)
                             && lookups <= UserLookups(userId, todoListYesterday, yesterday)
    ensures NoneFail(calls, fails)
  {
    if |todoListYesterday| == 0 {
      return None, [], [];
    }
    var isAllCompleted := |todoListYesterday| > 0 && AllDone(todoListYesterday);
    if isAllCompleted {
      return None, [], [];
    }
    failed, lookups, calls := RecalculateUser(table, userId, todoListYesterday, fails, yesterday);
  }

  /** Where a failing call leaves the run: what was done before it is a
      prefix of the complete run, and so are the users listed. */
  lemma RunStopsAt(users: seq<string>, listOf: string -> seq<TodoListItem>, rows: map<TodoKey, Todo>, yesterday: Date,
                   i: nat, lookups: seq<TodoKey>, userLookups: seq<TodoKey>, calls: seq<RecalcCall>,
                   userCalls: seq<RecalcCall>)
    requires i < |users|
    requires lookups == AllLookups(users[..i], listOf, yesterday)
    requires calls == AllCalls(users[..i], listOf, rows, yesterday)
    requires userLookups <= UserLookups(users[i], listOf(users[i]), yesterday)
    requires userCalls <= UserCalls(users[i], listOf(users[i]), rows, yesterday)
    ensures lookups + userLookups <= AllLookups(users, listOf, yesterday)
    ensures calls + userCalls <= AllCalls(users, listOf, rows, yesterday)
    ensures users[..i + 1] <= users
  {
    AllPrefix(users, listOf, rows, yesterday, i + 1);
    assert users[..i + 1][..i] == users[..i] && users[..i + 1][i] == users[i];
    PrefixAppend(lookups, userLookups, UserLookups(users[i], listOf(users[i]), yesterday));
    PrefixAppend(calls, userCalls, UserCalls(users[i], listOf(users[i]), rows, yesterday));
    PrefixTrans(lookups + userLookups, AllLookups(users[..i + 1], listOf, yesterday), AllLookups(users, listOf, yesterday));
    PrefixTrans(calls + userCalls, AllCalls(users[..i + 1], listOf, rows, yesterday), AllCalls(users, listOf, rows, yesterday));
  }

  /** The inner loop over one user's list: look the row up, skip the entry
      when there is one, otherwise recalculate; a failing call ends the
      loop and is reported. */
  method RecalculateUser(table: TodoTable, userId: string, list: seq<TodoListItem>, fails: RecalcCall -> bool,
                         yesterday: Date)
    returns (failed: Option<RecalcCall>, lookups: seq<TodoKey>, calls: seq<RecalcCall>)
    ensures failed.None? ==> lookups == Lookups(userId, list, yesterday)
                             && calls == Candidates(userId, list, table.rows, yesterday)
    ensures failed.Some? ==> fails(failed.value) && calls + [failed.value] <= Candidates(userId, list, table.rows, yesterday)
                             && lookups <= Lookups(userId, list, yesterday)
    ensures NoneFail(calls, fails)
  {
    lookups, calls := [], [];
    for j := 0 to |list|
      invariant lookups == Lookups(userId, list[..j], yesterday)
      invariant calls == Candidates(userId, list[..j], table.rows, yesterday)
      invariant NoneFail(calls, fails)
    {
      var item := list[j];
      ItemStep(userId, list, table.rows, yesterday, j);
      CandidatesPrefix(userId, list, table.rows, yesterday, j + 1);
      lookups := lookups + [TodoKey(userId, yesterday, item.id)];
      var todo := table.Find(userId, yesterday, item.id);
      if todo.Some? {
        continue;
      }
      var call := RecalcCall(userId, item.id, item.categoryId);
      if fails(call) {
        assert Lookups(userId, list[..j + 1], yesterday) <= Lookups(userId, list, yesterday);
        return Some(call), lookups, calls;
      }
      NoneFailAppend(calls, [call], fails);
      calls := calls + [call];
    }
    assert list[..|list|] == list;
    return None, lookups, calls;
  }

  /** One more list entry extends the user's lookups by its row's key, and
      the calls by its call when there is no such row. */
  lemma ItemStep(userId: string, list: seq<TodoListItem>, rows: map<TodoKey, Todo>, yesterday: Date, j: nat)
    requires j < |list|
    ensures Lookups(userId, list[..j + 1], yesterday)
            == Lookups(userId, list[..j], yesterday) + [TodoKey(userId, yesterday, list[j].id)]
    ensures Candidates(userId, list[..j + 1], rows, yesterday)
            == Candidates(userId, list[..j], rows, yesterday)
               + if TodoKey(userId, yesterday, list[j].id) !in rows then [CallFor(userId, list[j])] else []
  {
    assert list[..j + 1][..j] == list[..j];
  }

  lemma PrefixTrans<T>(a: seq<T>, b: seq<T>, c: seq<T>)
    requires a <= b && b <= c
    ensures a <= c
  {
    assert forall k :: 0 <= k < |a| ==> a[k] == b[k] == c[k];
  }

  lemma PrefixAppend<T>(p: seq<T>, a: seq<T>, b: seq<T>)
    requires a <= b
    ensures p + a <= p + b
  {
    assert forall k :: 0 <= k < |p + a| ==> (p + a)[k] == (p + b)[k];
  }

  /** A user's calls so far are a prefix of all of that user's calls. */
  lemma {:induction false} CandidatesPrefix(userId: string, list: seq<TodoListItem>, rows: map<TodoKey, Todo>,
                                            yesterday: Date, j: nat)
    requires j <= |list|
    ensures Candidates(userId, list[..j], rows, yesterday) <= Candidates(userId, list, rows, yesterday)
  {
    if j < |list| {
      var init := list[..|list| - 1];
      CandidatesPrefix(userId, init, rows, yesterday, j);
      assert init[..j] == list[..j];
    } else {
      assert list[..j] == list;
    }
  }

  /** The calls and lookups of the first `i` users are a prefix of the whole
      run's. */
  lemma {:induction false} AllPrefix(users: seq<string>, listOf: string -> seq<TodoListItem>,
                                     rows: map<TodoKey, Todo>, yesterday: Date, i: nat)
    requires i <= |users|
    ensures AllCalls(users[..i], listOf, rows, yesterday) <= AllCalls(users, listOf, rows, yesterday)
    ensures AllLookups(users[..i], listOf, yesterday) <= AllLookups(users, listOf, yesterday)
  {
    if i < |users| {
      var init := users[..|users| - 1];
      AllPrefix(init, listOf, rows, yesterday, i);
      assert init[..i] == users[..i];
    } else {
      assert users[..i] == users;
    }
  }

  /** A habit on a user's list is recalculated exactly when the list is
      neither empty nor all DONE and the habit has no row for yesterday: an
      existing PENDING or SKIPPED row suppresses the recalculation. */
  lemma RecalcIffNoRow(userId: string, list: seq<TodoListItem>, rows: map<TodoKey, Todo>, yesterday: Date,
                       item: TodoListItem)
    requires item in list
    ensures CallFor(userId, item) in UserCalls(userId, list, rows, yesterday)
            <==> !AllDone(list) && TodoKey(userId, yesterday, item.id) !in rows
  {
    if CallFor(userId, item) in UserCalls(userId, list, rows, yesterday) {
      var other :| other in list && TodoKey(userId, yesterday, other.id) !in rows && CallFor(userId, item) == CallFor(userId, other);
      assert other.id == item.id;
    }
  }

  /** A user with nothing due yesterday, or with everything done, costs no
      row lookup and no recalculation; with no users at all nothing runs. */
  lemma SkippedUsersCostNothing(users: seq<string>, listOf: string -> seq<TodoListItem>, rows: map<TodoKey, Todo>,
                                yesterday: Date)
    requires forall u :: u in users ==> UserSkipped(listOf(u))
    ensures AllLookups(users, listOf, yesterday) == [] && AllCalls(users, listOf, rows, yesterday) == []
  {
    if users != [] {
      SkippedUsersCostNothing(users[..|users| - 1], listOf, rows, yesterday);
    }
  }

  /** The mixed list of the job's tests: habit-1 DONE and habit-3 SKIPPED
      have rows, habit-2 has none; three lookups, one recalculation. */
  lemma MixedListScenario(yesterday: Date, done: Todo, skipped: Todo, h1: TodoListItem, h2: TodoListItem,
                          h3: TodoListItem)
    requires h1.id == "habit-1" && h1.status == Done
    requires h2.id == "habit-2" && h2.status == Pending && h2.categoryId == "cat-1"
    requires h3.id == "habit-3" && h3.status == Skipped
    ensures var rows := map[TodoKey("user-1", yesterday, "habit-1") := done,
                            TodoKey("user-1", yesterday, "habit-3") := skipped];
            |UserLookups("user-1", [h1, h2, h3], yesterday)| == 3
            && UserCalls("user-1", [h1, h2, h3], rows, yesterday) == [RecalcCall("user-1", "habit-2", "cat-1")]
  {
    var list := [h1, h2, h3];
    var rows := map[TodoKey("user-1", yesterday, "habit-1") := done,
                    TodoKey("user-1", yesterday, "habit-3") := skipped];
    assert !AllDone(list) by { assert list[1].status != Done; }
    assert list[..2][..1] == [h1] && list[..2] == [h1, h2] && list[..1] == [h1];
    assert [h1][..0] == [];
    assert Candidates("user-1", [h1], rows, yesterday) == [];
    assert Candidates("user-1", [h1, h2], rows, yesterday) == [RecalcCall("user-1", "habit-2", "cat-1")];
  }
}
