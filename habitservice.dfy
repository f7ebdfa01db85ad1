/** `HabitService`: creating a habit with defaults, reading, updating and
    deleting it behind an ownership check, over the habit table as a map
    from id to habit. The id (`uuidv4()`) and the clock are parameters. */
module HabitService {
  import opened Wrappers
  import opened Calendar
  import opened Model
  import opened Errors

  /** `Partial<Habit>`: each field is `None` when the request leaves it out.
      `description` and `endDate` may be supplied as empty, hence the
      nested option. */
  datatype HabitData = HabitData(
    id: Option<string>,
    userId: Option<string>,
    title: Option<string>,
    description: Option<Option<string>>,
    color: Option<string>,
    emoji: Option<string>,
    unit: Option<string>,
    value: Option<string>,
    periodType: Option<string>,
    periodValue: Option<string>,
    categoryId: Option<string>,
    period: Option<string>,
    reminderEnabled: Option<bool>,
    reminderTime: Option<string>,
    startDate: Option<Date>,
    endDate: Option<Option<Date>>,
    active: Option<bool>,
    createdAt: Option<string>,
    updatedAt: Option<string>)

  /** A request that supplies nothing. */
  const NoData := HabitData(None, None, None, None, None, None, None, None, None, None, None, None, None, None,
                            None, None, None, None, None)

  /** `field || fallback` on a text: a missing or empty text gives the
      fallback. */
  function OrDefault(field: Option<string>, fallback: string): (r: string)
    ensures field.Some? && field.value != "" ==> r == field.value
    ensures field.None? || field.value == "" ==> r == fallback
  {
    if field.Some? && field.value != "" then field.value else fallback
  }

  /** The habit `create(userId, habitData)` builds. `now` is the clock
      reading and `today` its date part, the default start date. The
      reminder flag is not copied: the new habit has none. */
  function NewHabit(userId: string, data: HabitData, id: string, now: string, today: Date): (h: Habit)
    ensures h.id == id && h.userId == userId && h.createdAt == now && h.updatedAt == now
    ensures h.title == OrDefault(data.title, "") && h.color == OrDefault(data.color, "#000000")
    ensures h.emoji == OrDefault(data.emoji, "📝") && h.unit == OrDefault(data.unit, "count")
    ensures h.value == OrDefault(data.value, "1") && h.periodType == OrDefault(data.periodType, "every_day")
    ensures h.periodValue == OrDefault(data.periodValue, "") && h.categoryId == OrDefault(data.categoryId, "")
    ensures h.period == OrDefault(data.period, "Anytime") && h.reminderTime == OrDefault(data.reminderTime, "")
    ensures h.startDate == data.startDate.GetOr(today)
    ensures h.endDate == if data.endDate.Some? then data.endDate.value else None
    ensures h.active == data.active.GetOr(true)
    ensures h.description == if data.description.Some? then data.description.value else None
    ensures h.reminderEnabled.None?
  {
    Habit(id, userId, OrDefault(data.title, ""),
          if data.description.Some? then data.description.value else None,
          OrDefault(data.color, "#000000"), OrDefault(data.emoji, "📝"), OrDefault(data.unit, "count"),
          OrDefault(data.value, "1"), OrDefault(data.periodType, "every_day"), OrDefault(data.periodValue, ""),
          OrDefault(data.categoryId, ""), OrDefault(data.period, "Anytime"), None, OrDefault(data.reminderTime, ""),
          data.startDate.GetOr(today), if data.endDate.Some? then data.endDate.value else None,
          data.active.GetOr(true), now, now)
  }

  /** An empty request gives the documented defaults: an every-day habit,
      "1 count", any time of day, active, starting today, never ending; an
      explicit `active: false` is kept. */
  lemma CreateDefaults(userId: string, id: string, now: string, today: Date)
    ensures var h := NewHabit(userId, NoData, id, now, today);
            h.title == "" && h.color == "#000000" && h.unit == "count" && h.value == "1"
            && h.periodType == "every_day" && h.periodValue == "" && h.period == "Anytime"
            && h.categoryId == "" && h.endDate.None? && h.startDate == today && h.active
    ensures !NewHabit(userId, NoData.(active := Some(false)), id, now, today).active
    ensures NewHabit(userId, NoData.(title := Some("")), id, now, today).title == ""
  {
  }

  /** `{ ...existing, ...habitData, id: existing.id, userId: existing.userId }`:
      every supplied field overrides the stored one, except the id and the
      owner. */
  function Merge(existing: Habit, data: HabitData): (h: Habit)
    ensures h.id == existing.id && h.userId == existing.userId
    ensures h.title == data.title.GetOr(existing.title) && h.color == data.color.GetOr(existing.color)
    ensures h.emoji == data.emoji.GetOr(existing.emoji) && h.unit == data.unit.GetOr(existing.unit)
    ensures h.value == data.value.GetOr(existing.value) && h.periodType == data.periodType.GetOr(existing.periodType)
    ensures h.periodValue == data.periodValue.GetOr(existing.periodValue)
    ensures h.categoryId == data.categoryId.GetOr(existing.categoryId) && h.period == data.period.GetOr(existing.period)
    ensures h.reminderTime == data.reminderTime.GetOr(existing.reminderTime)
    ensures h.startDate == data.startDate.GetOr(existing.startDate) && h.endDate == data.endDate.GetOr(existing.endDate)
    ensures h.active == data.active.GetOr(existing.active) && h.description == data.description.GetOr(existing.description)
    ensures h.reminderEnabled == (if data.reminderEnabled.Some? then Some(data.reminderEnabled.value) else existing.reminderEnabled)
    ensures h.createdAt == data.createdAt.GetOr(existing.createdAt) && h.updatedAt == data.updatedAt.GetOr(existing.updatedAt)
  {
    Habit(existing.id, existing.userId, data.title.GetOr(existing.title), data.description.GetOr(existing.description),
          data.color.GetOr(existing.color), data.emoji.GetOr(existing.emoji), data.unit.GetOr(existing.unit),
          data.value.GetOr(existing.value), data.periodType.GetOr(existing.periodType),
          data.periodValue.GetOr(existing.periodValue), data.categoryId.GetOr(existing.categoryId),
          data.period.GetOr(existing.period),
          if data.reminderEnabled.Some? then Some(data.reminderEnabled.value) else existing.reminderEnabled,
          data.reminderTime.GetOr(existing.reminderTime), data.startDate.GetOr(existing.startDate),
          data.endDate.GetOr(existing.endDate), data.active.GetOr(existing.active),
          data.createdAt.GetOr(existing.createdAt), data.updatedAt.GetOr(existing.updatedAt))
  }

  /** An update cannot move a habit to another id or owner, and one that
      supplies nothing gives the stored habit back. */
  lemma MergeKeepsIdentity(existing: Habit, data: HabitData, otherId: string, otherUser: string)
    ensures Merge(existing, data.(id := Some(otherId), userId := Some(otherUser))).id == existing.id
    ensures Merge(existing, data.(id := Some(otherId), userId := Some(otherUser))).userId == existing.userId
    ensures Merge(existing, NoData) == existing
  {
  }

  class HabitStore {
    var habits: map<string, Habit>

    /** Every habit sits under its own id. */
    predicate Valid()
      reads this
    {
      forall id :: id in habits ==> habits[id].id == id
    }

    constructor()
      ensures habits == map[] && Valid()
    {
      habits := map[];
    }

    /** `create(userId, habitData)` with the fresh id `id`; the put is
        conditional on the id being new, which a v4 uuid is. */
    method Create(userId: string, data: HabitData, id: string, now: string, today: Date) returns (h: Habit)
      requires id !in habits
      modifies this
      ensures h == NewHabit(userId, data, id, now, today)
      ensures habits == old(habits)[id := h]
      ensures old(Valid()) ==> Valid()
    {
      h := NewHabit(userId, data, id, now, today);
      habits := habits[id := h];
    }

    /** `getAllHabits(userId)`: the user's habits, in no particular order. */
    function AllHabits(userId: string): (r: set<Habit>)
      reads this
      ensures forall h :: h in r <==> h in habits.Values && h.userId == userId
    {
      set h | h in habits.Values && h.userId == userId
    }

    /** The two checks of `getHabitById`, `update` and `delete`: missing, then
        owned by someone else; both are NotFound. */
    function Owned(userId: string, id: string, missingMessage: string): (r: Result<Habit, PlanlyError>)
      reads this
      ensures r.Ok? <==> id in habits && habits[id].userId == userId
      ensures r.Ok? ==> r.value == habits[id]
      ensures r.Err? ==> r.error.statusCode == 404 && r.error.errorType == "NOT_FOUND"
      ensures id !in habits ==> r == Err(NotFoundError(Some(missingMessage)))
    {
      if id !in habits then Err(NotFoundError(Some(missingMessage)))
      else if habits[id].userId != userId then
        Err(NotFoundError(Some("Habit " + id + " could not be found for user " + userId)))
      else Ok(habits[id])
    }

    /** `getHabitById(userId, id)`. */
    function GetHabitById(userId: string, id: string): (r: Result<Habit, PlanlyError>)
      reads this
      ensures r.Ok? <==> id in habits && habits[id].userId == userId
      ensures r.Ok? ==> r.value == habits[id]
    {
      Owned(userId, id, "Habit " + id + " could not be found")
    }

    /** `getHabitsByDate(userId, date)`: a stub that answers an empty list
        whatever the table holds. */
    function GetHabitsByDate(userId: string, date: Date): (r: seq<Habit>)
      ensures r == []
    {
      []
    }

    /** `update(userId, id, habitData)`: writes the merged habit, stamped by
        the repository with `writeTime`, and returns it as merged. */
    method Update(userId: string, id: string, data: HabitData, writeTime: string) returns (r: Result<Habit, PlanlyError>)
      modifies this
      ensures old(Owned(userId, id, "Habit " + id + " could not be found")).Err? ==>
                r == old(Owned(userId, id, "Habit " + id + " could not be found")) && habits == old(habits)
      ensures old(Owned(userId, id, "Habit " + id + " could not be found")).Ok? ==>
                r == Ok(Merge(old(habits)[id], data)) && habits == old(habits)[id := Merge(old(habits)[id], data).(updatedAt := writeTime)]
      ensures old(Valid()) ==> Valid()
    {
      var existing := Owned(userId, id, "Habit " + id + " could not be found");
      if existing.Err? {
        return existing;
      }
      var updated := Merge(existing.value, data);
      habits := habits[id := updated.(updatedAt := writeTime)];
      return Ok(updated);
    }

    /** `delete(userId, id)`: removes the habit only when both checks
        pass. */
    method Delete(userId: string, id: string) returns (r: Result<(), PlanlyError>)
      modifies this
      ensures r.Ok? <==> id in old(habits) && old(habits)[id].userId == userId
      ensures r.Ok? ==> habits == old(habits) - {id}
      ensures r.Err? ==> habits == old(habits) && r.error.statusCode == 404
      ensures id !in old(habits) ==> r == Err(NotFoundError(Some("Habit not found")))
      ensures old(Valid()) ==> Valid()
    {
      var habit := Owned(userId, id, "Habit not found");
      if habit.Err? {
        return Err(habit.error);
      }
      habits := habits - {id};
      return Ok(());
    }
  }
}
