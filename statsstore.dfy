/** The stats table as the engine uses it: rows under a (partition key, sort
    key) pair, an unconditional put (`StatsRepository.create`), a read
    (`get`), and the streak-field upsert (`updateStreakFields`). */
module StatsStore {
  import opened Wrappers
  import opened Model

  datatype Key = Key(pk: string, sk: string)

  /** The row `updateStreakFields` leaves behind: the four counters and
      `updatedAt` are set; a missing row is created holding only those. */
  function Upsert(prior: Option<StatsItem>, f: StreakFields, now: string): (r: StatsItem)
    ensures r.fields == f && r.updatedAt == now
    ensures prior.Some? ==> r.habitId == prior.value.habitId && r.userId == prior.value.userId
                            && r.categoryId == prior.value.categoryId && r.scope == prior.value.scope
                            && r.createdAt == prior.value.createdAt
    ensures prior.None? ==> r.scope.None? && r.habitId == "" && r.categoryId == ""
  {
    match prior
    case Some(item) => item.(fields := f, updatedAt := now)
    case None => StatsItem("", "", "", None, f, "", now)
  }

  class Store {
    var rows: map<Key, StatsItem>

    constructor()
      ensures rows == map[]
    {
      rows := map[];
    }

    /** `get(PK, SK)`: the row, or `None`. */
    function Get(pk: string, sk: string): (r: Option<StatsItem>)
      reads this
      ensures r.Some? <==> Key(pk, sk) in rows
      ensures r.Some? ==> r.value == rows[Key(pk, sk)]
    {
      if Key(pk, sk) in rows then Some(rows[Key(pk, sk)]) else None
    }

    /** `create(stats)`: a put that replaces any row under the same key. */
    method Put(pk: string, sk: string, item: StatsItem)
      modifies this
      ensures rows == old(rows)[Key(pk, sk) := item]
    {
      rows := rows[Key(pk, sk) := item];
    }

    /** `updateStreakFields(PK, SK, fields)`. */
    method UpdateStreakFields(pk: string, sk: string, f: StreakFields, now: string)
      modifies this
      ensures rows == old(rows)[Key(pk, sk) := Upsert(old(Get(pk, sk)), f, now)]
    {
      rows := rows[Key(pk, sk) := Upsert(Get(pk, sk), f, now)];
    }
  }
}
