/** The keys of the stats table (`generatePK`, `generateSK`) and the end of
    a habit's statistics window (`getEndDate`). */
module StatsKeys {
  import opened Wrappers
  import opened Calendar
  import opened Model

  /** `generatePK(userId)`: the partition key of every row of a user. */
  function PartitionKey(userId: string): (k: string)
    ensures |k| == 5 + |userId| && k[..5] == "USER#" && k[5..] == userId
  {
    "USER#" + userId
  }

  /** `generateSK(scope, habitId, categoryId)`. The closed `Scope` type makes
      the invalid-scope error unreachable. */
  function SortKey(scope: Scope, habitId: string, categoryId: string): (k: string)
    ensures |k| >= 10 && k[..6] == "STATS#"
  {
    match scope
    case HabitScope => "STATS#HABIT#" + habitId
    case CategoryScope => "STATS#CATEGORY#" + categoryId
    case UserScope => "STATS#USER"
  }

  /** The identifier a sort key depends on: the habit for HABIT, the
      category for CATEGORY, nothing for USER. */
  function ScopeId(scope: Scope, habitId: string, categoryId: string): string {
    match scope
    case HabitScope => habitId
    case CategoryScope => categoryId
    case UserScope => ""
  }

  /** Reads a sort key back into its scope and identifier. */
  function ParseSortKey(k: string): Option<(Scope, string)> {
    if |k| >= 12 && k[..12] == "STATS#HABIT#" then Some((HabitScope, k[12..]))
    else if |k| >= 15 && k[..15] == "STATS#CATEGORY#" then Some((CategoryScope, k[15..]))
    else if k == "STATS#USER" then Some((UserScope, ""))
    else None
  }

  /** A sort key reads back as its scope and the one identifier it uses. */
  lemma SortKeyRoundTrip(scope: Scope, habitId: string, categoryId: string)
    ensures ParseSortKey(SortKey(scope, habitId, categoryId))
            == Some((scope, ScopeId(scope, habitId, categoryId)))
  {
    var k := SortKey(scope, habitId, categoryId);
    match scope
    case HabitScope =>
      assert k[..12] == "STATS#HABIT#" && k[12..] == habitId;
    case CategoryScope =>
      assert k[6] == 'C' && k[..15] == "STATS#CATEGORY#" && k[15..] == categoryId;
    case UserScope =>
      assert k[6] == 'U';
  }

  /** Two sort keys are equal exactly when they have the same scope and the
      same identifier for it: keys never collide across scopes, the HABIT
      key ignores the category and the CATEGORY key ignores the habit. */
  lemma SortKeyInjective(s1: Scope, h1: string, c1: string, s2: Scope, h2: string, c2: string)
    ensures SortKey(s1, h1, c1) == SortKey(s2, h2, c2)
            <==> s1 == s2 && ScopeId(s1, h1, c1) == ScopeId(s2, h2, c2)
  {
    SortKeyRoundTrip(s1, h1, c1);
    SortKeyRoundTrip(s2, h2, c2);
  }

  /** `generatePK` is injective. */
  lemma PartitionKeyInjective(u1: string, u2: string)
    ensures PartitionKey(u1) == PartitionKey(u2) <==> u1 == u2
  {
    if PartitionKey(u1) == PartitionKey(u2) {
      assert u1 == PartitionKey(u1)[5..];
    }
  }

  /** `getEndDate(habit)`: the later of today and the end date, today when
      there is none. So it is never before today and may lie in the future. */
  function GetEndDate(h: Habit, today: Date): (r: Date)
    ensures AtMost(today, r)
    ensures h.endDate.Some? ==> AtMost(h.endDate.value, r)
    ensures r == today || Some(r) == h.endDate
  {
    var endDate := if h.endDate.None? then today else h.endDate.value;
    if AtMost(endDate, today) then today else endDate
  }
}
