/** Whether a habit is due on a day (`isValidForTargetDate`) and the filter
    built on it (`filterEligibleHabits`). */
module HabitDate {
  import opened Wrappers
  import opened Calendar
  import opened Text
  import opened Util
  import opened Model

  /** `period_value.split(",").map(parseDayOfWeek).filter(d => d !== null)`. */
  function AllowedWeekdays(tokens: seq<string>): (r: seq<int>)
    ensures forall w :: w in r ==> 0 <= w < 7
  {
    if tokens == [] then []
    else
      var rest := AllowedWeekdays(tokens[1..]);
      match ParseDayOfWeek(tokens[0])
      case Some(w) =>
        assert 0 <= w < 7;
        [w] + rest
      case None => rest
  }

  /** Some token of the list names the weekday `w`. */
  predicate SomeTokenNames(tokens: seq<string>, w: int) {
    exists k :: 0 <= k < |tokens| && ParseDayOfWeek(tokens[k]) == Some(w)
  }

  /** A weekday is allowed exactly when some token names it. */
  lemma {:induction false} AllowedWeekdaysMembers(tokens: seq<string>, w: int)
    ensures w in AllowedWeekdays(tokens) <==> SomeTokenNames(tokens, w)
  {
    if tokens != [] {
      AllowedWeekdaysMembers(tokens[1..], w);
      NamesCons(tokens, w);
    }
  }

  /** A list names `w` when its head does or its tail does. */
  lemma NamesCons(tokens: seq<string>, w: int)
    requires tokens != []
    ensures SomeTokenNames(tokens, w) <==>
            ParseDayOfWeek(tokens[0]) == Some(w) || SomeTokenNames(tokens[1..], w)
  {
    if SomeTokenNames(tokens[1..], w) {
      var k :| 0 <= k < |tokens[1..]| && ParseDayOfWeek(tokens[1..][k]) == Some(w);
      assert tokens[k + 1] == tokens[1..][k];
    }
    if SomeTokenNames(tokens, w) {
      var k :| 0 <= k < |tokens| && ParseDayOfWeek(tokens[k]) == Some(w);
      if k > 0 {
        assert tokens[1..][k - 1] == tokens[k];
      }
    }
  }

  /** `period_value.split(",").map(d => parseInt(d.trim()))`, NaN as `None`. */
  function AllowedMonthDays(tokens: seq<string>): (r: seq<Option<int>>)
    ensures |r| == |tokens|
    ensures forall k :: 0 <= k < |r| ==> r[k] == ParseInt(Trim(tokens[k]))
  {
    if tokens == [] then []
    else
      var rest := AllowedMonthDays(tokens[1..]);
      assert forall k :: 0 < k < |tokens| ==> tokens[1..][k - 1] == tokens[k];
      [ParseInt(Trim(tokens[0]))] + rest
  }

  /** The cases of the `switch` on `period_type`. */
  datatype PeriodKind = EveryDay | SpecificDaysWeek | SpecificDaysMonth | OtherKind

  function KindOf(periodType: string): (k: PeriodKind)
    ensures k == EveryDay <==> periodType == "every_day"
    ensures k == SpecificDaysWeek <==> periodType == "specific_days_week"
    ensures k == SpecificDaysMonth <==> periodType == "specific_days_month"
  {
    if periodType == "every_day" then EveryDay
    else if periodType == "specific_days_week" then SpecificDaysWeek
    else if periodType == "specific_days_month" then SpecificDaysMonth
    else OtherKind
  }

  predicate DueOnWeekday(periodValue: string, date: Date) {
    periodValue != "" && Weekday(date) in AllowedWeekdays(Split(periodValue, ','))
  }

  predicate DueOnDayOfMonth(periodValue: string, date: Date) {
    periodValue != "" && Some(DayOfMonth(date)) in AllowedMonthDays(Split(periodValue, ','))
  }

  /** `isValidForTargetDate(habit, date)`. A day after the end date is never
      due; otherwise the period type decides. The start date is not checked. */
  predicate IsValidForTargetDate(h: Habit, date: Date)
    ensures IsValidForTargetDate(h, date) ==> KindOf(h.periodType) != OtherKind
  {
    if h.endDate.Some? && Before(h.endDate.value, date) then false
    else match KindOf(h.periodType)
      case EveryDay => true
      case SpecificDaysWeek => DueOnWeekday(h.periodValue, date)
      case SpecificDaysMonth => DueOnDayOfMonth(h.periodValue, date)
      case OtherKind => false
  }

  predicate AfterEnd(h: Habit, date: Date) {
    h.endDate.Some? && Before(h.endDate.value, date)
  }

  /** A day after the end date is never due, whatever the period type. */
  lemma NotDueAfterEnd(h: Habit, date: Date)
    requires AfterEnd(h, date)
    ensures !IsValidForTargetDate(h, date)
  {
  }

  /** A daily habit is due on every day up to its end date. */
  lemma EveryDayDue(h: Habit, date: Date)
    requires !AfterEnd(h, date) && h.periodType == "every_day"
    ensures IsValidForTargetDate(h, date)
  {
  }

  /** Weekly and monthly habits without a period value, and habits of any
      other period type, are never due. */
  lemma NotDueWithoutRule(h: Habit, date: Date)
    requires h.periodType != "every_day"
    requires h.periodValue == "" || h.periodType !in {"specific_days_week", "specific_days_month"}
    ensures !IsValidForTargetDate(h, date)
  {
  }

  /** A weekly habit is due exactly when some listed token names the
      weekday; tokens that do not parse are ignored. */
  lemma WeeklyDue(h: Habit, date: Date)
    requires !AfterEnd(h, date) && h.periodType == "specific_days_week" && h.periodValue != ""
    ensures IsValidForTargetDate(h, date) <==> SomeTokenNames(Split(h.periodValue, ','), Weekday(date))
  {
    assert IsValidForTargetDate(h, date) <==> DueOnWeekday(h.periodValue, date) by {
      assert KindOf(h.periodType) == SpecificDaysWeek;
    }
    AllowedWeekdaysMembers(Split(h.periodValue, ','), Weekday(date));
  }

  /** Some token of the list reads (after trimming) as the value `x`. */
  predicate SomeTokenReads(tokens: seq<string>, x: Option<int>) {
    exists k :: 0 <= k < |tokens| && ParseInt(Trim(tokens[k])) == x
  }

  /** A monthly habit is due exactly when some listed number is the day of
      the month. */
  lemma MonthlyDue(h: Habit, date: Date)
    requires !AfterEnd(h, date) && h.periodType == "specific_days_month" && h.periodValue != ""
    ensures IsValidForTargetDate(h, date) <==>
              SomeTokenReads(Split(h.periodValue, ','), Some(DayOfMonth(date)))
  {
    assert IsValidForTargetDate(h, date) <==> DueOnDayOfMonth(h.periodValue, date) by {
      assert KindOf(h.periodType) == SpecificDaysMonth;
    }
    AllowedMonthDaysMembers(Split(h.periodValue, ','), Some(DayOfMonth(date)));
  }

  /** A value is among the parsed month days exactly when some token parses to it. */
  lemma AllowedMonthDaysMembers(tokens: seq<string>, x: Option<int>)
    ensures x in AllowedMonthDays(tokens) <==> SomeTokenReads(tokens, x)
  {
    var days := AllowedMonthDays(tokens);
    if x in days {
      var k :| 0 <= k < |days| && days[k] == x;
      assert ParseInt(Trim(tokens[k])) == x;
    }
    if SomeTokenReads(tokens, x) {
      var k :| 0 <= k < |tokens| && ParseInt(Trim(tokens[k])) == x;
      assert days[k] == x;
    }
  }

  /** The start date plays no part: callers must filter on it themselves. */
  lemma StartDateIgnored(h: Habit, date: Date, s: Date)
    ensures IsValidForTargetDate(h.(startDate := s), date) == IsValidForTargetDate(h, date)
  {
  }

  /** A monthly habit on day 31 never falls due in a shorter month. */
  lemma Day31SkipsShortMonths(h: Habit, date: Date)
    requires h.periodType == "specific_days_month" && h.periodValue == "31"
    requires DaysInMonth(date.year, date.month) < 31
    ensures !IsValidForTargetDate(h, date)
  {
    if AfterEnd(h, date) {
      NotDueAfterEnd(h, date);
    } else {
      MonthlyDue(h, date);
      SplitThirtyOne();
      ReadsThirtyOne();
      OneTokenReads("31", Some(DayOfMonth(date)));
      assert !SomeTokenReads(Split(h.periodValue, ','), Some(DayOfMonth(date)));
    }
  }

  lemma OneTokenReads(t: string, x: Option<int>)
    ensures SomeTokenReads([t], x) <==> ParseInt(Trim(t)) == x
  {
    if SomeTokenReads([t], x) {
      var k :| 0 <= k < |[t]| && ParseInt(Trim([t][k])) == x;
      assert k == 0;
    }
    assert [t][0] == t;
  }

  lemma SplitThirtyOne()
    ensures Split("31", ',') == ["31"]
  {
  }

  /** The token "31" reads as the number 31. */
  lemma ReadsThirtyOne()
    ensures ParseInt(Trim("31")) == Some(31)
  {
    var t := "31";
    assert !IsJsWhitespace(t[0]) && !IsJsWhitespace(t[1]);
    assert Trim(t) == t;
    assert LeadingDigits(t, 10) == t by {
      assert LeadingDigits(t[1..], 10) == t[1..];
    }
    assert DigitsValue(t, 10) == 31 by {
      assert t[..1] == "3";
      assert DigitsValue("3", 10) == 3;
    }
  }

  predicate IsSubsequence(xs: seq<Habit>, ys: seq<Habit>) {
    if xs == [] then true
    else if ys == [] then false
    else if xs[0] == ys[0] then IsSubsequence(xs[1..], ys[1..])
    else IsSubsequence(xs, ys[1..])
  }

  /** `filterEligibleHabits`: the habits due on `date`, in their input order. */
  function FilterEligibleHabits(habits: seq<Habit>, date: Date): (r: seq<Habit>)
    ensures |r| <= |habits|
    ensures forall h :: h in r <==> h in habits && IsValidForTargetDate(h, date)
    ensures IsSubsequence(r, habits)
  {
    if habits == [] then []
    else
      var rest := FilterEligibleHabits(habits[1..], date);
      if IsValidForTargetDate(habits[0], date) then [habits[0]] + rest else rest
  }
}
