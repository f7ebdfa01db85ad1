# planly-api streak and statistics engine, in Dafny

This project models the deterministic core of the planly-api habit tracker.
A user has habits. Each habit has a schedule: every day, some weekdays, or
some days of the month. Each day, each habit gets a todo row that is
PENDING, SKIPPED or DONE. From those rows the engine keeps streak
statistics for three scopes: a habit, a category of habits, and the user as
a whole.

The model covers:

- **Calendar.** Calendar days, `addDays` and `datesRange`. The `YYYY-MM-DD`
  text of a day, whose string order is the engine's date order.
- **Schedules.** The weekday parser, and the rule for when a habit is due
  (`isValidForTargetDate`, `filterEligibleHabits`).
- **Streak walks.** The two streak walks (`StreakCalculator` and the older
  `streak.util`), the dashboard's best-streak count, and the builders of
  completed-day sets.
- **Stats rows.** The stats row keys, and the stats table with its put and
  its upsert. `createStats`. The incremental and full-recalculation updaters
  for the HABIT, CATEGORY and USER rows. The month dashboard.
- **Todos.** The todo table, and the todo service: the progress rule, the
  day's todo list and its order, the daily summary, and notes.
- **Midnight job.** The rule for which habits it recalculates.
- **CRUD.** The habit and category services with their defaults, ownership
  checks, lower-casing and name uniqueness.
- **Errors.** `PlanlyError` and its status-code table.

Dates are validated year/month/day values of the proleptic Gregorian
calendar (`Calendar.Date`). Their order is lexicographic on
(year, month, day), and `Calendar.BeforeIffSmaller` proves it is the order
of their day numbers. For four-digit years, `IsoDate.IsoOrder` proves it is
also the string order of their `YYYY-MM-DD` texts (ISO 8601:2004, section
4.1.2.2, complete calendar date, extended format).

Inputs from outside the core become parameters:

- "today", every timestamp and every fresh uuid;
- the habit list, the schedule of a habit, the todo rows of a date range,
  and a day's todo list;
- whether a recalculation call fails.

Two kinds of state live in `class`es whose methods update `map` fields:

- The stores: the stats table, the todo table, the habit table and the
  category table.
- The loops of the source: these are methods with loop invariants, proved
  equal to recursive specification functions. Lemmas then prove what the
  source promises about those functions.

## Model

| member | source | states |
|---|---|---|
| `Util.LookupDay` | src/utils/util.ts:4-12 | a token found in the day table has its index 0..6 as value; any other token gives no value |
| `Util.ParseDayOfWeek` | src/utils/util.ts:14-22 | a result is a weekday number 0..6 whose table token is the trimmed, upper-cased input; no result exactly when that token is not in the table |
| `Util.ParseDayOfWeekTable` | src/utils/util.ts:4-12 | each of SUN..SAT parses to its own index 0..6 |
| `Util.ParseDayOfWeekNormalised` | src/utils/util.ts:15 | surrounding whitespace and letter case never change the parse |
| `Util.ParsePaddedLowerWed` | src/utils/util.ts:14-22 | " wed " parses to 3 |
| `Util.ParseMixedCaseWed` | src/utils/util.ts:14-22 | "Wed" parses to 3 |
| `Util.ParseLongNameRejected` | src/utils/util.ts:14-22 | "WEDNESDAY" is not a day token |
| `Text.Trim` | src/utils/util.ts:15 | the trimmed text neither starts nor ends with JavaScript whitespace and is no longer than the input |
| `Text.TrimIsInfix` | src/utils/util.ts:15 | trimming removes only whitespace, and only from the two ends |
| `Text.TrimIdempotent` | src/utils/util.ts:15 | trimming twice is trimming once |
| `Text.ToUpper` | src/utils/util.ts:15 | upper-casing keeps the length and maps every character |
| `Text.ToLower` | src/services/CategoryService.ts:10 | lower-casing keeps the length and maps every character |
| `Text.ToLowerIdempotent` | src/services/CategoryService.ts:10 | lower-casing twice is lower-casing once |
| `Text.Split` | src/utils/habitDate.util.ts:25 | `split(sep)` always gives at least one piece; its pieces and their join are stated by the two lemmas below |
| `Text.SplitPiecesLackSeparator` | src/utils/habitDate.util.ts:25 | the pieces of a split never contain the separator |
| `Text.SplitJoin` | src/utils/habitDate.util.ts:25 | joining the pieces with the separator gives the text back |
| `Text.ParseInt` | src/utils/habitDate.util.ts:35 | `parseInt` on blank text is NaN, and only a leading minus sign gives a negative number |
| `Text.ParseIntOfIntToString` | src/services/TodoService.ts:36 | `parseInt` reads back every integer that `toString` wrote |
| `Text.ParseIntOfDigits` | src/utils/habitDate.util.ts:35 | `parseInt` on a decimal numeral without leading zeros gives its value |
| `Calendar.DaysInMonth` | src/utils/util.ts:34-41 | a month has 28 to 31 days: 31 exactly for the long months, and February has 29 exactly in leap years |
| `Calendar.DayOfMonth` | src/utils/habitDate.util.ts:36 | the day of the month lies in 1..31 and within the month's length |
| `Calendar.Weekday` | src/utils/habitDate.util.ts:28 | the weekday lies in 0..6, with Sunday as 0 |
| `Calendar.WeekdayOfNextDay` | src/utils/habitDate.util.ts:28 | the next day's weekday is one more, modulo 7 |
| `Calendar.WeekdayWeekLater` | src/utils/habitDate.util.ts:28 | seven days later is the same weekday |
| `Calendar.BeforeIffSmaller` | src/services/stats/StatsKeyGenerator.ts:28 | a day sorts before another exactly when its day number is smaller |
| `Calendar.AtMostIffNotGreater` | src/utils/habitDate.util.ts:12 | "not after" on days is "not greater" on day numbers |
| `Calendar.DayNumberInjective` | src/utils/util.ts:34-41 | two days with the same day number are the same day |
| `Calendar.NextDay` | src/utils/util.ts:37-40 | the next calendar day has the next day number, rolling over month and year ends |
| `Calendar.PrevDay` | src/utils/util.ts:37-40 | the previous calendar day has the previous day number |
| `Calendar.NothingBetweenNextDay` | src/utils/util.ts:37-40 | no day lies strictly between a day and the next one |
| `Calendar.AddDays` | src/utils/util.ts:35-41 | `addDays(d, k)` is the day whose number is `d`'s number plus `k` |
| `Calendar.AddDaysZero` | src/utils/util.ts:34-41 | adding 0 days gives the same day |
| `Calendar.AddDaysRoundTrip` | src/utils/util.ts:34-41 | adding `k` days and then `-k` days gives the day back |
| `Calendar.AddDaysCompose` | src/utils/util.ts:34-41 | adding `j` days and then `k` days adds `j + k` days |
| `Calendar.AddOneIsNextDay` | src/utils/util.ts:37-40 | adding one day is the next calendar day and strictly later |
| `Calendar.SubtractOneIsPrevDay` | src/utils/util.ts:35-41 | adding -1 days is the previous calendar day and strictly earlier |
| `Calendar.CalendarExamples` | src/utils/util.ts:37-40 | 2025-01-31 is followed by 2025-02-01, the leap day and the year end roll over correctly, and 2025-01-29 is a Wednesday |
| `IsoDate.Iso` | src/services/stats/StatsKeyGenerator.ts:28 | the text of a day has ten characters: four digits, a dash, two digits, a dash, two digits |
| `IsoDate.ParseIso` | src/utils/util.ts:36 | text that reads as a date has ten characters and a four-digit year |
| `IsoDate.IsoRoundTrip` | src/utils/util.ts:36 | reading a day's text gives the day back |
| `IsoDate.ParseIsoInverse` | src/utils/util.ts:36 | text that reads as a date is exactly that date's text |
| `IsoDate.IsoInjective` | src/services/stats/StatsKeyGenerator.ts:28 | two days have the same text exactly when they are the same day |
| `IsoDate.IsoOrder` | src/services/stats/StatsKeyGenerator.ts:28 | comparing the texts with `<` is comparing the days chronologically |
| `IsoDate.IsoAtMost` | src/utils/habitDate.util.ts:12 | comparing the texts with `<=` is "not after" on days |
| `IsoDate.IsoExamples` | src/services/stats/StatsKeyGenerator.ts:28 | the text of 2025-01-31 is "2025-01-31" |
| `DateRange.DaysBetween` | src/services/stats/dateUtils.ts:6-14 | the range has `end - start + 1` days (none when end is earlier), and entry `i` is the start plus `i` days |
| `DateRange.DatesRange` | src/services/stats/dateUtils.ts:6-14 | the push-and-step loop builds exactly `DaysBetween(start, end)` |
| `DateRange.DaysBetweenShape` | src/services/stats/dateUtils.ts:8-12 | the range is empty when start > end; otherwise it starts at start, ends at end, steps by `addDays(_, 1)` and strictly ascends |
| `DateRange.InDaysBetween` | src/services/stats/dateUtils.ts:9-11 | a day is in the range exactly when it lies between the two bounds |
| `DateRange.DatesRangeExample` | src/services/stats/dateUtils.ts:8-12 | the range 2025-01-31 to 2025-02-01 has those two days, and a reversed range is empty |
| `HabitDate.AllowedWeekdays` | src/utils/habitDate.util.ts:24-27 | the parsed weekday list holds only numbers 0..6 |
| `HabitDate.AllowedWeekdaysMembers` | src/utils/habitDate.util.ts:24-29 | a weekday is allowed exactly when some comma-separated token parses to it; other tokens are dropped |
| `HabitDate.AllowedMonthDays` | src/utils/habitDate.util.ts:35 | one parsed value per token: `parseInt` of the trimmed token, NaN as none |
| `HabitDate.AllowedMonthDaysMembers` | src/utils/habitDate.util.ts:35-37 | a value is allowed exactly when some token parses to it |
| `HabitDate.IsValidForTargetDate` | src/utils/habitDate.util.ts:7-42 | only a recognised period type (`every_day`, `specific_days_week`, `specific_days_month`) can make a habit due; the end-date cut-off is stated by `NotDueAfterEnd` |
| `HabitDate.KindOf` | src/utils/habitDate.util.ts:17-41 | the three period types are recognised exactly by their names; anything else is unknown |
| `HabitDate.NotDueAfterEnd` | src/utils/habitDate.util.ts:10-15 | a day after the end date is never due, whatever the period type |
| `HabitDate.EveryDayDue` | src/utils/habitDate.util.ts:18-19 | an every-day habit is due on every day up to its end date |
| `HabitDate.NotDueWithoutRule` | src/utils/habitDate.util.ts:21-40 | weekly and monthly habits without a period value, and habits of an unknown type, are never due |
| `HabitDate.WeeklyDue` | src/utils/habitDate.util.ts:24-29 | a weekly habit is due exactly when some listed token names the day's weekday |
| `HabitDate.MonthlyDue` | src/utils/habitDate.util.ts:35-37 | a monthly habit is due exactly when some listed number is the day of the month |
| `HabitDate.StartDateIgnored` | src/utils/habitDate.util.ts:7-41 | the start date plays no part in whether a habit is due |
| `HabitDate.Day31SkipsShortMonths` | src/utils/habitDate.util.ts:35-37 | a day-31 habit is never due in a month of fewer than 31 days |
| `HabitDate.FilterEligibleHabits` | src/utils/habitDate.util.ts:47-52 | the result holds exactly the due habits, as an order-preserving subsequence of the input |
| `StreakCalculator.TrailingRun` | src/services/stats/StreakCalculator.ts:40-44 | the trailing run is at most the length, and 0 when the last scheduled day is not completed |
| `StreakCalculator.LongestRun` | src/services/stats/StreakCalculator.ts:29-33 | the longest run lies between the trailing run and the number of scheduled days |
| `StreakCalculator.LastCompleted` | src/services/stats/StreakCalculator.ts:33 | a last completed day is both scheduled and completed |
| `StreakCalculator.LastGapRun` | src/services/stats/StreakCalculator.ts:29-44 | the run a missed day closed is no longer than the longest run |
| `StreakCalculator.FullStreak` | src/services/stats/StreakCalculator.ts:19-46 | `0 <= current <= longest <= scheduled days`, and no scheduled days give (0, 0, none) |
| `StreakCalculator.ComputeFullStreakStats` | src/services/stats/StreakCalculator.ts:19-46 | the one-pass loop returns `FullStreak` of its inputs |
| `StreakCalculator.ScheduledUpTo` | src/services/stats/StreakCalculator.ts:56 | the filtered schedule holds exactly the scheduled days not after the cutoff |
| `StreakCalculator.ComputeStreakUpTo` | src/services/stats/StreakCalculator.ts:51-59 | the result is the trailing run and the last completed day of the schedule up to the cutoff |
| `StreakCalculator.TrailingRunExact` | src/services/stats/StreakCalculator.ts:40-44 | the trailing run is a completed block reaching the end, and the entry before it is not completed |
| `StreakCalculator.TrailingRunIsMaximal` | src/services/stats/StreakCalculator.ts:40-44 | no completed block reaching the end is longer than the trailing run |
| `StreakCalculator.LongestRunIsMaximal` | src/services/stats/StreakCalculator.ts:29-33 | no block of consecutive completed scheduled days is longer than the longest run |
| `StreakCalculator.LongestRunIsAttained` | src/services/stats/StreakCalculator.ts:29-33 | some completed block is exactly as long as the longest run |
| `StreakCalculator.LastCompletedExact` | src/services/stats/StreakCalculator.ts:33 | none exactly when no scheduled day is completed; otherwise the completed day with no completed day after it |
| `StreakCalculator.CountCompleted` | src/services/stats/StreakCalculator.ts:29-30 | at most the number of scheduled days are completed |
| `StreakCalculator.TrailingRunAtMostCount` | src/services/stats/StreakCalculator.ts:29-44 | the trailing run is at most the number of completed scheduled days |
| `StreakCalculator.StreakBounds` | src/services/stats/StreakCalculator.ts:29-44 | current <= longest <= completed scheduled days <= scheduled days |
| `StreakCalculator.SameOnSchedule` | src/services/stats/StreakCalculator.ts:29-30 | two completion sets that agree on the scheduled days give the same counters |
| `StreakCalculator.UnscheduledIrrelevant` | src/services/stats/StreakCalculator.ts:29-30 | completed days that are not scheduled never change the result |
| `StreakCalculator.CurrentStreakRule` | src/services/stats/StreakCalculator.ts:40-44 | current is the trailing run, except under the grace rule (last day is today, pending, and the day before it is done), where it is the run ending at the second-last day |
| `StreakCalculator.UpToEverything` | src/services/stats/StreakCalculator.ts:51-59 | with a cutoff on or after every scheduled day, the up-to walk agrees with the full walk without today |
| `StreakCalculator.Snoc` | src/services/stats/StreakCalculator.ts:29-39 | one more scheduled day moves each counter as the loop body does |
| `StreakCalculator.AnkiMissed26` | tests/services/StatsService.test.ts:309-356 | the eight-day Anki run with the fifth day missed and today pending gives current 2, longest 4 |
| `StreakCalculator.AnkiMissed23` | tests/services/StatsService.test.ts:358-405 | the same run with the second day missed gives current 5, longest 5 |
| `StreakCalculator.WeekdaysScenario` | tests/services/StatsService.test.ts:442-479 | Monday and Wednesday done with Friday today and pending gives current 2 |
| `StreakCalculator.MonthEndKept` | tests/services/StatsService.test.ts:718-752 | a day-30 schedule skips February: January and March done give a current streak of 2 |
| `StreakCalculator.MonthEndMissed` | tests/services/StatsService.test.ts:754-789 | a day-31 schedule skips February and April: May missed gives a current streak of 0 and a longest of 2 |
| `LegacyStreak.IndexOf` | src/utils/streak.util.ts:49 | `indexOf` is -1 exactly when the day is absent; otherwise it is the day's first position |
| `LegacyStreak.RunEndingAt` | src/utils/streak.util.ts:54-60 | the run ending at a position is the trailing run of the prefix up to it, and starts on its first day |
| `LegacyStreak.Legacy` | src/utils/streak.util.ts:20-82 | an empty list gives 0, 0 and no dates |
| `LegacyStreak.CountBack` | src/utils/streak.util.ts:54-73 | the backward loop returns the run ending at the position and its start day |
| `LegacyStreak.ComputeStreakFromDailyCompletion` | src/utils/streak.util.ts:20-82 | the routine returns `Legacy` of its inputs |
| `LegacyStreak.GetDateRange` | src/utils/streak.util.ts:87-97 | every calendar day from start to end, ascending |
| `LegacyStreak.RunEndingAtShape` | src/utils/streak.util.ts:54-60 | the run ending at a completed position is at least 1 long and completed throughout |
| `LegacyStreak.TodayDoneListed` | src/utils/streak.util.ts:47-60 | when today is done and listed, current is the run ending at today and the streak starts on that run's first day |
| `LegacyStreak.TodayDoneUnlisted` | src/utils/streak.util.ts:50-52 | when today is done but not listed, current is 1 and the streak starts today |
| `LegacyStreak.CurrentAboveLongest` | src/utils/streak.util.ts:50-52 | current can be 1 while longest is 0 |
| `LegacyStreak.TodayNotDone` | src/utils/streak.util.ts:62-73 | when today is not done, current is the run ending at the last completed day |
| `LegacyStreak.DiffersFromCalculator` | src/utils/streak.util.ts:62-73 | a missed last day keeps the old routine's streak at 1 but zeroes `computeFullStreakStats`' |
| `LegacyStreak.AgreesOnLongestAndLast` | src/utils/streak.util.ts:35-44 | the longest run and last completed day agree with `computeFullStreakStats` |
| `CompletedDates.OfHabits` | src/services/stats/completedDates.ts:18 | the filter keeps at most the input's rows; what it keeps is stated by `OfHabitsMembers` |
| `CompletedDates.OfHabitsMembers` | src/services/stats/completedDates.ts:18 | a row is kept exactly when it is an input row whose habit is admitted |
| `CompletedDates.RowsOn` | src/services/stats/completedDates.ts:18-21 | a day's group holds input rows of that day |
| `CompletedDates.CompletedHabitDates` | src/services/stats/completedDates.ts:5-12 | the reduce builds exactly the dates of this habit's DONE rows |
| `CompletedDates.GroupCategoryByDate` | src/services/stats/completedDates.ts:16-21 | the category builder's first loop leaves the grouping of the category's rows by date |
| `CompletedDates.GroupUserByDate` | src/services/stats/completedDates.ts:33-37 | the user builder's first loop leaves the grouping of all rows by date |
| `CompletedDates.DateGroupsExact` | src/services/stats/completedDates.ts:16-21 | the grouping has a key exactly for each date with rows, and each key maps to that date's rows in input order |
| `CompletedDates.CompleteKeys` | src/services/stats/completedDates.ts:23-27 | the second loop keeps exactly the dates whose group is non-empty and all DONE |
| `CompletedDates.CompletedCategoryDates` | src/services/stats/completedDates.ts:15-29 | the category builder returns the complete days of the category's rows |
| `CompletedDates.CompletedUserDates` | src/services/stats/completedDates.ts:32-45 | the user builder returns the complete days of all rows |
| `CompletedDates.HabitDoneDatesExact` | src/services/stats/completedDates.ts:5-12 | a date is returned exactly when a DONE row of this habit carries it; other habits never contribute |
| `CompletedDates.CategoryDayExact` | src/services/stats/completedDates.ts:15-29 | a day is complete exactly when some admitted row exists on it and every admitted row on it is DONE |
| `CompletedDates.UserIsCategoryOfAllHabits` | src/services/stats/completedDates.ts:32-45 | the user builder is the category builder with every habit admitted |
| `CompletedDates.OutputDatesAreInput` | src/services/stats/completedDates.ts:8-44 | every returned date is the date of some input row |
| `CompletedDates.RowsOnNonEmpty` | src/services/stats/completedDates.ts:18-22 | a day has a group exactly when some row is dated that day |
| `StatsKeys.PartitionKey` | src/services/stats/StatsKeyGenerator.ts:5-7 | the partition key is "USER#" followed by the user id |
| `StatsKeys.SortKey` | src/services/stats/StatsKeyGenerator.ts:9-19 | every sort key starts with "STATS#" |
| `StatsKeys.SortKeyRoundTrip` | src/services/stats/StatsKeyGenerator.ts:9-19 | a sort key reads back as its scope and the one identifier that scope uses |
| `StatsKeys.SortKeyInjective` | src/services/stats/StatsKeyGenerator.ts:11-16 | sort keys are equal exactly when the scope and its identifier are equal, so scopes never collide |
| `StatsKeys.PartitionKeyInjective` | src/services/stats/StatsKeyGenerator.ts:5-7 | partition keys are equal exactly when the user ids are |
| `StatsKeys.GetEndDate` | src/services/stats/StatsKeyGenerator.ts:22-29 | the end date is today or the habit's end date, and never before either |
| `StatsStore.Upsert` | src/repositories/StatsRepository.ts:23-49 | an upsert sets the four counters and the stamp; it keeps the identity of an existing row, and a new row has none |
| `StatsStore.Store.Get` | src/repositories/StatsRepository.ts:51-59 | the row under the key, or none exactly when there is none |
| `StatsStore.Store.Put` | src/repositories/StatsRepository.ts:14-21 | a put replaces whatever row was under the key |
| `StatsStore.Store.UpdateStreakFields` | src/repositories/StatsRepository.ts:23-49 | the row under the key becomes the upsert of the old row with the new counters |
| `StatsService.NewRow` | src/services/StatsService.ts:16-28 | a created row has all counters 0, no last completed day, and its scope and identity |
| `StatsService.CreateStats` | src/services/StatsService.ts:7-35 | writes the HABIT, CATEGORY and USER rows, zeroed, over whatever was there |
| `StatsService.CreatedRows` | src/services/StatsService.ts:13-34 | after `createStats` exactly the three keys are (re)written, each with a zeroed row, and all other rows are unchanged |
| `StatsService.CreateStatsResetsCategory` | src/services/StatsService.ts:13-34 | as written, a category row holding a streak of 5 is reset to 0 when a habit is added |
| `StatsService.CreateStatsIfAbsent` | src/services/StatsService.ts:7-35 | corrected creation: the CATEGORY and USER puts are conditional |
| `StatsService.CreatedIfAbsentKeepsRows` | src/services/StatsService.ts:13-34 | corrected creation keeps existing CATEGORY and USER rows, zeroes the HABIT row, and adds missing rows zeroed |
| `DateSort.SortDates` | src/services/stats/HabitStatsUpdater.ts:155 | `sort()` returns an ascending permutation of its input |
| `DateSort.FilterBefore` | src/services/stats/HabitStatsUpdater.ts:156 | the filter keeps exactly the days before the date, and keeps them sorted |
| `DateSort.LastBeforeIsGreatest` | src/services/stats/HabitStatsUpdater.ts:153-158 | the last entry of the sorted, filtered schedule is the greatest scheduled day before the date |
| `HabitStats.PreviousScheduledDate` | src/services/stats/HabitStatsUpdater.ts:153-158 | none exactly when no scheduled day is before the date; otherwise a scheduled day before it |
| `HabitStats.LatestBeforeUnique` | src/services/stats/HabitStatsUpdater.ts:153-158 | the previous scheduled date is exactly the greatest scheduled day before the date |
| `HabitStats.HabitIncrement` | src/services/stats/HabitStatsUpdater.ts:53-82 | the incremental step never lowers longest, keeps longest >= current, and never makes the total or current negative |
| `HabitStats.UpdateIncremental` | src/services/stats/HabitStatsUpdater.ts:35-105 | the HABIT row is upserted with the incremental counters |
| `HabitStats.DoneStep` | src/services/stats/HabitStatsUpdater.ts:53-61 | DONE adds one to the total and makes the date the last completed day; current grows by one exactly when the last completed day was the previous scheduled day, and is otherwise 1 |
| `HabitStats.OtherSteps` | src/services/stats/HabitStatsUpdater.ts:62-67 | leaving DONE lowers the total, floored at 0; other transitions keep it. Streak fields stay unless the undone day was the last completed day, and they reset to 0 and none when no earlier day was scheduled |
| `HabitStats.UndoRecomputes` | src/services/stats/HabitStatsUpdater.ts:68-77 | undoing the last completed day, with an earlier scheduled day, recomputes current and last over the schedule up to that earlier day |
| `HabitStats.UndoIsRecompute` | src/services/stats/HabitStatsUpdater.ts:68-77 | the undo branch's counters are the trailing run and last completed day of the sorted schedule up to the previous scheduled date |
| `HabitStats.UpToIsScheduled` | src/services/stats/HabitStatsUpdater.ts:70-74 | every day of the sorted schedule up to the cutoff is a scheduled day not after it |
| `HabitStats.ReplayRatchets` | src/services/stats/HabitStatsUpdater.ts:82 | any series of incremental steps never lowers longest and never makes the counters negative |
| `HabitStats.Recalculated` | src/services/stats/HabitStatsUpdater.ts:115-142 | the recomputed row has `0 <= current <= longest <= scheduled days`, a total equal to the number of DONE dates, and a scheduled last day |
| `HabitStats.Recalculate` | src/services/stats/HabitStatsUpdater.ts:107-151 | the HABIT row is upserted with the full walk over the sorted schedule |
| `HabitStats.RecalculateLowersLongest` | src/services/stats/HabitStatsUpdater.ts:137-142 | a recalculation overwrites a stored longest streak of 5 with the recomputed 0 |
| `DayStats.DayIncrement` | src/services/stats/CategoryStatsUpdater.ts:59-87 | nothing is written exactly when the day is not complete and was not the last completed day; a write never lowers longest or makes a counter negative |
| `DayStats.CompleteThenUndo` | src/services/stats/CategoryStatsUpdater.ts:59-80 | completing the day after the last completed day and then undoing it restores the counters |
| `DayStats.RepeatRestartsStreak` | src/services/stats/CategoryStatsUpdater.ts:59-69 | a second "complete" for the same day restarts current at 1 and counts the day twice |
| `DayStats.ConsecutiveDaysCount` | src/services/stats/CategoryStatsUpdater.ts:59-69 | completing `n` consecutive days from an empty row gives current, longest and total `n` |
| `DayStats.RecalculationAgrees` | src/services/stats/CategoryStatsUpdater.ts:151-162 | on such days a recalculation gives the same current, longest and last completed day |
| `DayStats.Filter` | src/services/stats/CategoryStatsUpdater.ts:117 | the filter keeps exactly the habits that pass the test |
| `DayStats.ActiveHabits` | src/services/stats/CategoryStatsUpdater.ts:117 | exactly the active habits are kept |
| `DayStats.MinStart` | src/services/stats/CategoryStatsUpdater.ts:126-129 | the earliest start date is one habit's start date and not after any other's |
| `DayStats.BuildTodoMap` | src/services/stats/CategoryStatsUpdater.ts:166-180 | the loop builds the map from date and habit id to row |
| `DayStats.TodoMapDates` | src/services/stats/CategoryStatsUpdater.ts:166-180 | a date is a key exactly when some row carries it |
| `DayStats.TodoMapLastWins` | src/services/stats/CategoryStatsUpdater.ts:166-180 | the map holds a row for a date and habit exactly when the input does, and that row is the last such input row |
| `DayStats.ScheduledOn` | src/services/stats/CategoryStatsUpdater.ts:192-199 | the filter's own end-date test is redundant: a habit is scheduled on a day exactly when it has started by then and `isValidForTargetDate` holds |
| `DayStats.ScheduledHabits` | src/services/stats/CategoryStatsUpdater.ts:190-199 | the day's habits are exactly those started, not ended and due on it |
| `DayStats.ScheduledDays` | src/services/stats/CategoryStatsUpdater.ts:182-224 | at most the input days are scheduled |
| `DayStats.GetCompletedAndScheduledDates` | src/services/stats/CategoryStatsUpdater.ts:182-224 | the loop returns the scheduled days in order and the completed days |
| `DayStats.ScheduledDaysExact` | src/services/stats/CategoryStatsUpdater.ts:182-224 | a day is scheduled exactly when it is an input day and some active habit is in its window and due on it |
| `DayStats.CompletedDaysExact` | src/services/stats/CategoryStatsUpdater.ts:182-224 | a day is completed exactly when it passes the day test, and every completed day is scheduled |
| `DayStats.HabitDoneOnDay` | src/services/stats/CategoryStatsUpdater.ts:166-180 | the map's row for a habit on a day is DONE exactly when the input's last row for them is |
| `DayStats.CompletedDayFromRows` | src/services/stats/CategoryStatsUpdater.ts:182-224 | a day with a scheduled habit is completed exactly when every scheduled habit's last row for the day is DONE |
| `DayStats.DayRecalculated` | src/services/stats/CategoryStatsUpdater.ts:151-162 | the recomputed row has `0 <= current <= longest` and a total equal to the number of completed days |
| `DayStats.RecalculatedLast` | src/services/stats/CategoryStatsUpdater.ts:151-162 | the recomputed last completed day is a completed day |
| `CategoryStats.OfCategory` | src/services/stats/CategoryStatsUpdater.ts:231-235 | the category's entries are exactly the list entries with its id |
| `CategoryStats.CategoryComplete` | src/services/stats/CategoryStatsUpdater.ts:231-235 | a category day is complete exactly when it has an entry and all its entries are DONE |
| `CategoryStats.UpdateIncremental` | src/services/stats/CategoryStatsUpdater.ts:42-103 | the CATEGORY row is upserted with the day step, or left alone when the step writes nothing |
| `CategoryStats.HabitsOfCategory` | src/services/stats/CategoryStatsUpdater.ts:226-229 | exactly the user's habits filed under the category |
| `CategoryStats.Recalculate` | src/services/stats/CategoryStatsUpdater.ts:105-164 | nothing is written without an active habit; otherwise the CATEGORY row is upserted with the full walk over the active habits |
| `CategoryStats.RecalculateScope` | src/services/stats/CategoryStatsUpdater.ts:108-124 | the recalculation is skipped exactly when no habit of the category is active, and only its active habits count |
| `UserStats.UserCompleteIsEveryCategory` | src/services/stats/UserStatsUpdater.ts:206-209 | the user's day is complete exactly when the list is non-empty and every category on it is complete |
| `UserStats.UpdateIncremental` | src/services/stats/UserStatsUpdater.ts:41-97 | the "STATS#USER" row is upserted with the day step over the whole list, or left alone |
| `UserStats.Recalculate` | src/services/stats/UserStatsUpdater.ts:99-144 | nothing is written without an active habit; otherwise the USER row is upserted with the full walk over all active habits |
| `Dashboard.ChainEnd` | src/services/stats/StatsDashboardAggregator.ts:33-44 | the chain ending at the last entry has length 1 to the list length |
| `Dashboard.BestChain` | src/services/stats/StatsDashboardAggregator.ts:27-47 | the best chain is 0 exactly for no dates, at most the list length, and at least the final chain |
| `Dashboard.CalculateBestStreakFromDates` | src/services/stats/StatsDashboardAggregator.ts:27-47 | the loop returns the best chain |
| `Dashboard.ChainEndExact` | src/services/stats/StatsDashboardAggregator.ts:33-44 | the final chain steps one day at a time, and the step before it does not |
| `Dashboard.ChainEndIsMaximal` | src/services/stats/StatsDashboardAggregator.ts:33-44 | no one-day-step chain reaching the end is longer |
| `Dashboard.BestChainIsLongest` | src/services/stats/StatsDashboardAggregator.ts:27-47 | the best streak is the length of the longest run of one-day steps, and such a run exists; a gap or repeat restarts the count |
| `Dashboard.MonthDays` | src/services/stats/StatsDashboardAggregator.ts:92-98 | the month's range has as many days as the month |
| `Dashboard.CompleteDaysOf` | src/services/stats/StatsDashboardAggregator.ts:99-107 | exactly the days whose todo list is non-empty and all DONE, in input order |
| `Dashboard.CollectCompleteDays` | src/services/stats/StatsDashboardAggregator.ts:99-107 | the loop collects `CompleteDaysOf` the days |
| `Dashboard.CountDone` | src/services/stats/StatsDashboardAggregator.ts:135-138 | the DONE count is at most the number of rows |
| `Dashboard.ForSelectedDate` | src/services/stats/StatsDashboardAggregator.ts:109-120 | one entry per list item, with its id and status |
| `Dashboard.CategoryBlock` | src/services/stats/StatsDashboardAggregator.ts:148-169 | the category block computes the category part of the dashboard |
| `Dashboard.HabitBlock` | src/services/stats/StatsDashboardAggregator.ts:177-194 | the habit block computes the habit part of the dashboard |
| `Dashboard.GetData` | src/services/stats/StatsDashboardAggregator.ts:83-234 | `getData` returns the specified dashboard of the month |
| `Dashboard.SortSorted` | src/services/stats/StatsDashboardAggregator.ts:107 | sorting an ascending list leaves it as it is |
| `Dashboard.CompleteDaysSorted` | src/services/stats/StatsDashboardAggregator.ts:107 | the complete days of an ascending list ascend too |
| `Dashboard.MonthCompletion` | src/services/stats/StatsDashboardAggregator.ts:98-131 | `completedDates` lists, ascending, exactly the month's complete days; their count is at most the month's length, and the month's best streak is at most that count |
| `Dashboard.OptionalParts` | src/services/stats/StatsDashboardAggregator.ts:209-231 | the category part is present exactly when a category id is given, the habit part exactly when a habit id is, the selected-date list exactly when a date is; a missing stats row reads as zeros and no date |
| `Dashboard.HabitTotalWithinMonthTotal` | src/services/stats/StatsDashboardAggregator.ts:135-180 | the habit's month total counts only its own DONE rows and never exceeds the month total |
| `Model.StatusOrder` | src/constants/todo.constants.ts:10-14 | PENDING sorts first (0), DONE last (2) |
| `Model.PeriodOrder` | src/constants/todo.constants.ts:16-21 | the four periods are ranked, and any other period ranks last (999) |
| `Errors.DefaultErrorType` | src/errors/PlanlyError.ts:16-31 | the type is never empty, and is INTERNAL_SERVER_ERROR exactly for 500 and unmapped codes |
| `Errors.DefaultErrorTypeReadsBack` | src/errors/PlanlyError.ts:16-31 | every mapped code has its own type, so the table reads back |
| `Errors.NewError` | src/errors/PlanlyError.ts:6-14 | the status code defaults to 500; an explicit error type wins, otherwise the table decides |
| `Errors.SubclassCodes` | src/errors/PlanlyError.ts:34-81 | each subclass has its fixed code and type; ValidationError is 400 with VALIDATION_ERROR, unlike the table's BAD_REQUEST; NotFound's default message |
| `TodoRepository.TodoPK` | src/repositories/TodoRepository.ts:133-136 | the partition key is `USER#` followed by the user id, which reads back from it |
| `TodoRepository.TodoSK` | src/repositories/TodoRepository.ts:138-141 | the sort key is `DATE#`, the ten-character ISO date, `#HABIT#` and the habit id, each at a fixed position |
| `TodoRepository.TodoKeysInjective` | src/repositories/TodoRepository.ts:133-141 | two todo keys are equal exactly when user, day and habit are |
| `TodoRepository.TodoTable.Find` | src/repositories/TodoRepository.ts:29-41 | the row under (user, day, habit), or none exactly when there is none |
| `TodoRepository.TodoTable.CreateOrUpdate` | src/repositories/TodoRepository.ts:8-27 | a put of the whole row under its own key, stamped, keeping the table valid |
| `TodoRepository.TodoTable.Delete` | src/repositories/TodoRepository.ts:43-53 | removes exactly the row under the key |
| `TodoRepository.TodoTable.UpdateNotes` | src/repositories/TodoRepository.ts:116-131 | sets the notes and the stamp of the existing row and nothing else |
| `TodoRepository.HabitTodos` | src/repositories/TodoRepository.ts:91 | exactly the rows of the habit |
| `TodoRepository.ByDate` | src/repositories/TodoRepository.ts:92 | one entry per date with rows, mapping to a row of that date |
| `TodoRepository.TodoByDate` | src/repositories/TodoRepository.ts:91-92 | only rows of the given habit are looked at |
| `TodoRepository.FindMinDateByHabitWhereNotDone` | src/repositories/TodoRepository.ts:83-113 | returns the latest not-done day of the range, which ends today when no end date is given |
| `TodoRepository.ScanFromEnd` | src/repositories/TodoRepository.ts:104-111 | the backward loop returns the last not-done day |
| `TodoRepository.LatestNotDoneIsLast` | src/repositories/TodoRepository.ts:104-111 | the backward scan's day is not done and every later day is done |
| `TodoRepository.FindMinAsWritten` | src/repositories/TodoRepository.ts:104-113 | none exactly when every day of the range is done; otherwise a not-done day of the range after which every day is done |
| `TodoRepository.FindMinReturnsLatest` | src/repositories/TodoRepository.ts:75-111 | on a two-day range with no rows the scan returns the second day, not the first |
| `TodoRepository.FindMinDateCorrected` | src/repositories/TodoRepository.ts:75-79 | the corrected scan returns the earliest not-done day of the range |
| `TodoRepository.ScanFromStart` | src/repositories/TodoRepository.ts:75-79 | the forward loop returns the first not-done day |
| `TodoRepository.EarliestNotDoneIsFirst` | src/repositories/TodoRepository.ts:75-79 | the forward scan's day is not done and every earlier day is done |
| `TodoRepository.FindMinCorrected` | src/repositories/TodoRepository.ts:75-79 | none exactly when every day is done; otherwise the smallest not-done day of the range |
| `TodoService.ProgressValue` | src/services/TodoService.ts:196-215 | leaving DONE gives 0; DONE gives the target; SKIPPED gives 0; otherwise the supplied value when non-zero, else 0 |
| `TodoService.UndoDoneDropsProgress` | src/services/TodoService.ts:202-204 | the same PENDING request keeps its value on a fresh row but gives 0 on a row that was DONE |
| `TodoService.ParseNumber` | src/services/TodoService.ts:36 | the target is NaN exactly when `parseInt` fails, and otherwise its value |
| `TodoService.OwnedHabit` | src/services/TodoService.ts:27-30 | succeeds exactly when the habit exists and belongs to the user; otherwise NotFound (404) |
| `TodoService.NewTodo` | src/services/TodoService.ts:38-50 | the written row carries the request, the parsed target and the progress rule; it keeps the old notes and creation stamp |
| `TodoService.CreateOrUpdate` | src/services/TodoService.ts:23-55 | without the habit, NotFound and nothing is written; otherwise the row is written under its key |
| `TodoService.CreateOrUpdateKeepsNotes` | src/services/TodoService.ts:38-50 | a second request for the same day keeps the notes and creation stamp |
| `TodoService.ItemFor` | src/services/TodoService.ts:69-84 | an entry copies the habit's fields; with no row it is PENDING with progress "0" and empty notes |
| `TodoService.ItemLeq` | src/services/TodoService.ts:95-110 | an item sorts before another only if its status comes no later in the order PENDING, SKIPPED, DONE |
| `TodoService.ItemLeqTotal` | src/services/TodoService.ts:95-110 | the comparator orders every pair of items one way or the other |
| `TodoService.SortItems` | src/services/TodoService.ts:87-111 | the sort returns an ordered permutation of its input |
| `TodoService.Items` | src/services/TodoService.ts:66-85 | one merged entry per due habit, in the habits' order |
| `TodoService.GetTodoListByDate` | src/services/TodoService.ts:57-112 | the day's list is the sorted merge of the due habits |
| `TodoService.TodoListShape` | src/services/TodoService.ts:57-112 | the list is a permutation of the due habits' entries, ordered by status and then period; every habit without a row appears as PENDING, and every entry is a due habit |
| `TodoService.CountStatus` | src/services/TodoService.ts:132-134 | a status count is at most the list length |
| `TodoService.StatusCountsAddUp` | src/services/TodoService.ts:132-135 | done + skipped + pending is the list length |
| `TodoService.CategoryOrder` | src/services/TodoService.ts:138-147 | the category ids are exactly those of the entries |
| `TodoService.CategoryOrderDistinct` | src/services/TodoService.ts:138-147 | each category id appears once |
| `TodoService.CategorySummaries` | src/services/TodoService.ts:147-160 | one summary per category id, counting that category's entries |
| `TodoService.Summarize` | src/services/TodoService.ts:127-170 | the per-day body computes the day's summary |
| `TodoService.GroupByCategory` | src/services/TodoService.ts:138-145 | the grouping loop maps each category id, in first-seen order, to its entries |
| `TodoService.CountGroups` | src/services/TodoService.ts:147-160 | the mapping over the groups gives the category summaries |
| `TodoService.SumTotalsCover` | src/services/TodoService.ts:138-160 | over distinct ids covering every entry, the category totals sum to the list length |
| `TodoService.SummaryAddsUp` | src/services/TodoService.ts:132-160 | per day done + skipped + pending = total, and the category totals sum to the day total |
| `TodoService.CategoryCountsAddUp` | src/services/TodoService.ts:147-160 | in each category, done + skipped + pending = total |
| `TodoService.CategoriesCover` | src/services/TodoService.ts:138-160 | every entry's category has a summary |
| `TodoService.GetDailySummary` | src/services/TodoService.ts:114-176 | one summary per day of the range, in order, each the summary of that day's list |
| `TodoService.UpdateNotes` | src/services/TodoService.ts:178-193 | as written: NotFound exactly when the habit is not owned; a missing row is created with empty notes |
| `TodoService.FirstNoteIsLost` | src/services/TodoService.ts:186-188 | as written, a first note on a day without a row is stored as "" |
| `TodoService.UpdateNotesCorrected` | src/services/TodoService.ts:178-193 | corrected: the notes are also passed on when the row is created |
| `TodoService.NotesCorrectedStoresNotes` | src/services/TodoService.ts:178-193 | after the corrected update, the day's row of an owned habit carries the notes |
| `Midnight.Lookups` | src/handlers/stats-midnight/index.ts:51-52 | one lookup per entry, keyed by user, yesterday and habit |
| `Midnight.Candidates` | src/handlers/stats-midnight/index.ts:51-64 | exactly the calls for entries with no row for yesterday |
| `Midnight.Handler` | src/handlers/stats-midnight/index.ts:20-90 | a complete run makes exactly the calls and lookups of all users with yesterday = `addDays(today, -1)`, and its count equals the calls made; a failing call stops the whole job |
| `Midnight.RunUsers` | src/handlers/stats-midnight/index.ts:34-84 | the loop over users ends in `Completes`: every list loaded, every lookup and call made and counted, or a prefix of them ending at the failing call |
| `Midnight.StoppedRun` | src/handlers/stats-midnight/index.ts:62-83 | a call failing inside one user's list leaves a run that loaded the users up to that one and stopped right before the next call |
| `Midnight.UserStep` | src/handlers/stats-midnight/index.ts:36-84 | one more user extends the run by exactly that user's lookups and calls |
| `Midnight.ProcessUser` | src/handlers/stats-midnight/index.ts:38-75 | skips a user with an empty or all-DONE list; otherwise it looks up every entry and recalculates those without a row |
| `Midnight.RecalculateUser` | src/handlers/stats-midnight/index.ts:51-75 | the inner loop makes the user's lookups and calls, and stops at the first failing call |
| `Midnight.RunStopsAt` | src/handlers/stats-midnight/index.ts:62-83 | what was done before a failing call is a prefix of the complete run |
| `Midnight.CandidatesPrefix` | src/handlers/stats-midnight/index.ts:51-64 | the calls over a prefix of the list are a prefix of the user's calls |
| `Midnight.AllPrefix` | src/handlers/stats-midnight/index.ts:36-84 | the calls and lookups of the first users are a prefix of the whole run's |
| `Midnight.RecalcIffNoRow` | src/handlers/stats-midnight/index.ts:44-63 | a habit is recalculated exactly when the list is not all DONE and it has no row for yesterday; a missing category id reads as "" |
| `Midnight.SkippedUsersCostNothing` | src/handlers/stats-midnight/index.ts:26-50 | users with an empty or all-DONE list cost no lookup and no call; no users, nothing runs |
| `Midnight.MixedListScenario` | tests/handlers/stats-midnight/index.test.ts:130-147 | of DONE, no-row and SKIPPED habits only the one without a row is recalculated, after three lookups |
| `HabitService.OrDefault` | src/services/HabitService.ts:16-28 | a missing or empty text gives the default |
| `HabitService.NewHabit` | src/services/HabitService.ts:9-37 | the new habit carries every supplied field or its default, today as start date, active unless false is supplied, and one stamp |
| `HabitService.CreateDefaults` | src/services/HabitService.ts:13-32 | an empty request gives "", "#000000", "count", "1", every_day, "", "Anytime", no end date, start today and active; an explicit false stays false |
| `HabitService.Merge` | src/services/HabitService.ts:75-80 | every supplied field overrides the stored one, except id and owner |
| `HabitService.MergeKeepsIdentity` | src/services/HabitService.ts:75-80 | an update cannot change the id or owner, and an empty update gives the habit back |
| `HabitService.HabitStore.Create` | src/services/HabitService.ts:9-37 | the new habit is stored under its fresh id |
| `HabitService.HabitStore.AllHabits` | src/services/HabitService.ts:39-41 | exactly the user's habits |
| `HabitService.HabitStore.Owned` | src/services/HabitService.ts:43-55 | found exactly when the habit exists and belongs to the user; otherwise NotFound (404) |
| `HabitService.HabitStore.GetHabitById` | src/services/HabitService.ts:43-55 | the habit exactly when it exists and belongs to the user |
| `HabitService.HabitStore.GetHabitsByDate` | src/services/HabitService.ts:57-62 | always the empty list |
| `HabitService.HabitStore.Update` | src/services/HabitService.ts:64-85 | without ownership, NotFound and nothing is written; otherwise the merged habit is stored and returned |
| `HabitService.HabitStore.Delete` | src/services/HabitService.ts:87-99 | removes the habit exactly when both checks pass; otherwise NotFound and nothing changes |
| `CategoryService.Capitalize` | src/services/CategoryService.ts:102-105 | same length; first character upper-cased, the rest lower-cased; "" stays "" |
| `CategoryService.CapitalizeIdempotent` | src/services/CategoryService.ts:102-105 | capitalising twice is capitalising once |
| `CategoryService.CapitalizeChangesCaseOnly` | src/services/CategoryService.ts:102-105 | on ASCII names capitalising changes case only, so the stored name is recovered by lower-casing |
| `CategoryService.CapitalizeDotlessI` | src/services/CategoryService.ts:102-105 | outside ASCII this fails: dotless i capitalises to "I", which lower-cases to "i" |
| `CategoryService.Format` | src/services/CategoryService.ts:107-112 | the answer is the category with its name capitalised |
| `CategoryService.RenameKeepsValid` | src/services/CategoryService.ts:72-82 | renaming to a lower-case name no other category of the owner has keeps names unique |
| `CategoryService.CategoryStore.FindByName` | src/repositories/CategoryRepository.ts:42-64 | none exactly when the user has no category of exactly that name; otherwise one that does |
| `CategoryService.CategoryStore.Create` | src/services/CategoryService.ts:9-30 | Conflict exactly when the user already has the lower-cased name; otherwise stored lower-case and answered capitalised; names stay unique |
| `CategoryService.CategoryStore.AllCategories` | src/services/CategoryService.ts:32-35 | exactly the user's categories, capitalised |
| `CategoryService.CategoryStore.Owned` | src/services/CategoryService.ts:37-46 | found exactly when the category exists and belongs to the user; otherwise NotFound (404) |
| `CategoryService.CategoryStore.GetCategoryById` | src/services/CategoryService.ts:37-48 | the owned category, capitalised; otherwise NotFound |
| `CategoryService.CategoryStore.GetCategoryByName` | src/services/CategoryService.ts:50-58 | found exactly when a category has that exact name, so a name with a capital letter is never found |
| `CategoryService.CategoryStore.Update` | src/services/CategoryService.ts:60-86 | NotFound without ownership; the same name ignoring case writes nothing and answers the stored category unformatted; a name held by another category is a Conflict; otherwise stored lower-case; names stay unique |
| `CategoryService.CategoryStore.Delete` | src/services/CategoryService.ts:88-99 | removes the category exactly when both checks pass; otherwise NotFound and nothing changes |

## Left out

- `Calendar.AddDays`: does not model JavaScript's two-digit-year rule. `Date.UTC` (src/utils/util.ts:38) reads the years 0..99 as 1900..1999, so the source's `addDays` on a date before the year 100 answers in the twentieth century. The model adds days within the stated year, and so do the members built on it (`DateRange.DatesRange`, the "yesterday" of `Midnight.Handler`, the day before in `DayStats.DayIncrement`).
- `Dashboard.MonthDays`: the same rule applies to `new Date(y, m, 0)` (src/services/stats/StatsDashboardAggregator.ts:94-95). For the years 0..99 the source counts the days of the month in 1900+y, so February of the year 0 has 28 days there and 29 in the model.
- `Dashboard.GetData`: inherits the `MonthDays` gap for the years 0..99.
- Time zones. The São Paulo `toLocaleDateString` and the 03:00-UTC anchoring of `todayISO` and `addDays` are not modelled. Neither is the local-versus-UTC mismatch between `toISOString` and `getDay`/`getDate`. Days are abstract calendar days, and "today" is a parameter.
- Clock, uuid and I/O. Every timestamp and fresh id is a parameter. DynamoDB queries, HTTP, authentication, secrets and logging are left out.
- Unseen collaborators. `getScheduledDates`, `getAllHabits(userId, categoryId)`, `findAllByDateRange`, `getHabitStats` and `recalculateStreaksAfterMidnight` are given to the model as values or functions.
- Floating point. The completion rates and daily averages of the dashboard are left out; only their integer numerators are modelled.
- Concurrency. `Promise.all` is modelled as sequential evaluation.
- `src/handlers/stats-job/index.ts`. It calls functions that do not exist in the source.
- Query order. `AllHabits`, `AllCategories` and `FindByName` do not model the query's result order. They return a set, or an arbitrary match.
- Timestamp dates. Start and end dates are dates only. `UserStatsUpdater.recalculate` passes an unsliced `start_date` to `datesRange`, and a timestamp there is not modelled.
- The `details` field of `PlanlyError`.
- The dashboard's month string. `getData` takes year and month as numbers rather than parsing "YYYY-MM". The `toISOString` shift of the last day of the month is not modelled.
- Text keys. `TodoRepository.TodoTable` and `StatsStore.Store` are keyed by structured keys. `TodoRepository.TodoKeysInjective` and `StatsKeys.SortKeyInjective` prove those keys are one-to-one with the text keys.
- `Object.entries`. It lists integer-like keys first, and that ordering is not modelled. Category summaries follow the order in which ids are first seen.
- Text case and numbers. Letter case mapping covers ASCII and the two non-ASCII letters that upper-case to ASCII; other Unicode case mappings are not modelled. JavaScript numbers are integers or NaN.
- `TodoService.SortItems`: states an ordered permutation, not stability (the source's `sort` is stable).
- `TodoRepository.TodoTable.UpdateNotes`: requires the row to exist, as both callers ensure; the upsert behaviour of `UpdateItem` on a missing row is not modelled.
- `HabitService.HabitStore.Create`: requires a fresh id, which a v4 uuid is taken to be; the conditional put's failure is not modelled.
- `CategoryService.CategoryStore.Create`: requires a fresh id, for the same reason.
- `CategoryService.CategoryStore.Update`: requires a valid table (ids match, names lower-case and unique per user), as every table built by these operations is.
- `StatsStore.Store.UpdateStreakFields`: models the write as succeeding. As written, the update expression sets `lastStreakStartDate` from a value the request never supplies, so DynamoDB's validation of the request decides what happens, and that validation is not modelled.
- `HabitService.NewHabit`: takes today's date as the default start date, where the source stores the full creation timestamp. It does not copy `reminderEnabled`, matching the source, which leaves it out of the created habit.
- `Dashboard.GetData`: the month must be 1..12; the source does not validate the month text.

## Findings

| source | as written | input that shows it | evidently intended | confidence | as-written member | corrected member |
|---|---|---|---|---|---|---|
| src/services/StatsService.ts:13-34 | `createStats` puts the CATEGORY and USER rows unconditionally, so adding a habit resets their streaks to 0 | a category row with current streak 5, then a new habit created in that category | create the CATEGORY and USER rows only when absent | not executed | `StatsService.CreateStatsResetsCategory` | `StatsService.CreatedIfAbsentKeepsRows` |
| src/repositories/TodoRepository.ts:75-111 | `findMinDateByHabitWhereNotDone` scans backward and returns the latest not-done day | range 2025-01-01..2025-01-02 with no rows: returns 2025-01-02 | the smallest not-done day, 2025-01-01, as its comment says | not executed | `TodoRepository.FindMinReturnsLatest` | `TodoRepository.FindMinCorrected` |
| src/services/TodoService.ts:186-188 | `updateNotes` on a day with no row creates one through `createOrUpdate`, which sets notes to "" | first note "x" for an owned habit on a day without a row: the stored notes are "" | store the supplied notes | not executed | `TodoService.FirstNoteIsLost` | `TodoService.NotesCorrectedStoresNotes` |
