/** `StatsService.createStats`: the three zeroed stats rows written when a
    habit is created, as the code does it (an unconditional put per scope)
    and as the design intends it (CATEGORY and USER rows only when absent). */
module StatsService {
  import opened Wrappers
  import opened Model
  import opened StatsKeys
  import opened StatsStore

  const Scopes: seq<Scope> := [HabitScope, CategoryScope, UserScope]

  function KeyOf(scope: Scope, userId: string, habitId: string, categoryId: string): Key {
    Key(PartitionKey(userId), SortKey(scope, habitId, categoryId))
  }

  /** The row `createStats` builds for one scope. */
  function NewRow(scope: Scope, userId: string, habitId: string, categoryId: string, now: string): (r: StatsItem)
    ensures r.fields == ZeroFields && r.scope == Some(scope)
    ensures r.habitId == habitId && r.userId == userId && r.categoryId == categoryId
    ensures r.createdAt == now && r.updatedAt == now
  {
    StatsItem(habitId, userId, categoryId, Some(scope), ZeroFields, now, now)
  }

  /** The table after `createStats` as written: three puts. */
  function Created(rows: map<Key, StatsItem>, userId: string, habitId: string, categoryId: string, now: string)
    : map<Key, StatsItem>
  {
    rows[KeyOf(HabitScope, userId, habitId, categoryId) := NewRow(HabitScope, userId, habitId, categoryId, now)]
        [KeyOf(CategoryScope, userId, habitId, categoryId) := NewRow(CategoryScope, userId, habitId, categoryId, now)]
        [KeyOf(UserScope, userId, habitId, categoryId) := NewRow(UserScope, userId, habitId, categoryId, now)]
  }

  /** `createStats(userId, habitId, categoryId)`, with the clock as `now`. */
  method CreateStats(store: Store, userId: string, habitId: string, categoryId: string, now: string)
    returns (created: seq<StatsItem>)
    modifies store
    ensures created == seq(3, i requires 0 <= i < 3 => NewRow(Scopes[i], userId, habitId, categoryId, now))
    ensures store.rows == Created(old(store.rows), userId, habitId, categoryId, now)
  {
    created := [];
    for i := 0 to 3
      invariant created == seq(i, j requires 0 <= j < i => NewRow(Scopes[j], userId, habitId, categoryId, now))
      invariant store.rows == if i == 0 then old(store.rows)
                              else if i == 1 then old(store.rows)[KeyOf(HabitScope, userId, habitId, categoryId) := NewRow(HabitScope, userId, habitId, categoryId, now)]
                              else if i == 2 then old(store.rows)[KeyOf(HabitScope, userId, habitId, categoryId) := NewRow(HabitScope, userId, habitId, categoryId, now)]
                                                    [KeyOf(CategoryScope, userId, habitId, categoryId) := NewRow(CategoryScope, userId, habitId, categoryId, now)]
                              else Created(old(store.rows), userId, habitId, categoryId, now)
    {
      var scope := Scopes[i];
      var stats := NewRow(scope, userId, habitId, categoryId, now);
      store.Put(PartitionKey(userId), SortKey(scope, habitId, categoryId), stats);
      created := created + [stats];
    }
  }

  /** `createStats` writes exactly the three keys, each a zeroed row of its
      scope, and leaves every other row alone. */
  lemma CreatedRows(rows: map<Key, StatsItem>, userId: string, habitId: string, categoryId: string, now: string)
    ensures var r := Created(rows, userId, habitId, categoryId, now);
            (forall k :: k in r <==> k in rows || k in {KeyOf(HabitScope, userId, habitId, categoryId),
                                                         KeyOf(CategoryScope, userId, habitId, categoryId),
                                                         KeyOf(UserScope, userId, habitId, categoryId)})
            && (forall scope :: KeyOf(scope, userId, habitId, categoryId) in r
                 && r[KeyOf(scope, userId, habitId, categoryId)].fields == ZeroFields
                 && r[KeyOf(scope, userId, habitId, categoryId)].scope == Some(scope))
            && (forall k :: (k in rows && k !in {KeyOf(HabitScope, userId, habitId, categoryId),
                                                  KeyOf(CategoryScope, userId, habitId, categoryId),
                                                  KeyOf(UserScope, userId, habitId, categoryId)})
                            ==> k in r && r[k] == rows[k])
  {
    forall scope
      ensures KeyOf(scope, userId, habitId, categoryId) in Created(rows, userId, habitId, categoryId, now)
      ensures Created(rows, userId, habitId, categoryId, now)[KeyOf(scope, userId, habitId, categoryId)]
              == NewRow(scope, userId, habitId, categoryId, now)
    {
      SortKeyInjective(scope, habitId, categoryId, HabitScope, habitId, categoryId);
      SortKeyInjective(scope, habitId, categoryId, CategoryScope, habitId, categoryId);
      SortKeyInjective(scope, habitId, categoryId, UserScope, habitId, categoryId);
    }
  }

  /** The design's rule: the HABIT row is always (re)written, the CATEGORY
      and USER rows only when there is none yet. */
  function CreatedIfAbsent(rows: map<Key, StatsItem>, userId: string, habitId: string, categoryId: string, now: string)
    : map<Key, StatsItem>
  {
    var hk := KeyOf(HabitScope, userId, habitId, categoryId);
    var ck := KeyOf(CategoryScope, userId, habitId, categoryId);
    var uk := KeyOf(UserScope, userId, habitId, categoryId);
    var r1 := rows[hk := NewRow(HabitScope, userId, habitId, categoryId, now)];
    var r2 := if ck in rows then r1 else r1[ck := NewRow(CategoryScope, userId, habitId, categoryId, now)];
    if uk in rows then r2 else r2[uk := NewRow(UserScope, userId, habitId, categoryId, now)]
  }

  /** `createStats` with the CATEGORY and USER puts made conditional. */
  method CreateStatsIfAbsent(store: Store, userId: string, habitId: string, categoryId: string, now: string)
    modifies store
    ensures store.rows == CreatedIfAbsent(old(store.rows), userId, habitId, categoryId, now)
  {
    SortKeyInjective(HabitScope, habitId, categoryId, CategoryScope, habitId, categoryId);
    SortKeyInjective(HabitScope, habitId, categoryId, UserScope, habitId, categoryId);
    SortKeyInjective(CategoryScope, habitId, categoryId, UserScope, habitId, categoryId);
    store.Put(PartitionKey(userId), SortKey(HabitScope, habitId, categoryId), NewRow(HabitScope, userId, habitId, categoryId, now));
    if store.Get(PartitionKey(userId), SortKey(CategoryScope, habitId, categoryId)).None? {
      store.Put(PartitionKey(userId), SortKey(CategoryScope, habitId, categoryId), NewRow(CategoryScope, userId, habitId, categoryId, now));
    }
    if store.Get(PartitionKey(userId), SortKey(UserScope, habitId, categoryId)).None? {
      store.Put(PartitionKey(userId), SortKey(UserScope, habitId, categoryId), NewRow(UserScope, userId, habitId, categoryId, now));
    }
  }

  /** As written, adding a habit to a category whose row holds a streak
      resets that row to zero. */
  lemma CreateStatsResetsCategory(userId: string, habitId: string, categoryId: string, now: string, item: StatsItem)
    requires item.fields.currentStreak == 5
    ensures var k := KeyOf(CategoryScope, userId, habitId, categoryId);
            var r := Created(map[k := item], userId, habitId, categoryId, now);
            r[k].fields.currentStreak == 0 != item.fields.currentStreak
  {
    var k := KeyOf(CategoryScope, userId, habitId, categoryId);
    SortKeyInjective(CategoryScope, habitId, categoryId, UserScope, habitId, categoryId);
  }

  /** The corrected creation keeps existing CATEGORY and USER rows, zeroes
      the HABIT row, and creates zeroed rows where none existed. */
  lemma CreatedIfAbsentKeepsRows(rows: map<Key, StatsItem>, userId: string, habitId: string, categoryId: string, now: string)
    ensures var r := CreatedIfAbsent(rows, userId, habitId, categoryId, now);
            (forall k :: k in rows ==> k in r)
            && r[KeyOf(HabitScope, userId, habitId, categoryId)] == NewRow(HabitScope, userId, habitId, categoryId, now)
            && (forall scope :: scope != HabitScope ==>
                  var k := KeyOf(scope, userId, habitId, categoryId);
                  k in r && r[k] == if k in rows then rows[k] else NewRow(scope, userId, habitId, categoryId, now))
  {
    SortKeyInjective(HabitScope, habitId, categoryId, CategoryScope, habitId, categoryId);
    SortKeyInjective(HabitScope, habitId, categoryId, UserScope, habitId, categoryId);
    SortKeyInjective(CategoryScope, habitId, categoryId, UserScope, habitId, categoryId);
  }
}
