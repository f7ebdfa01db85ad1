/** `datesRange`: every calendar day from a start day to an end day. */
module DateRange {
  import opened Calendar

  /** The consecutive days from `start` to `end`, both included; empty when
      `end` is earlier than `start`. Element `i` is `i` days after `start`. */
  function DaysBetween(start: Date, end: Date): (r: seq<Date>)
    ensures |r| == if Before(end, start) then 0 else DayNumber(end) - DayNumber(start) + 1
    ensures forall i :: 0 <= i < |r| ==> DayNumber(r[i]) == DayNumber(start) + i
    decreases DayNumber(end) - DayNumber(start) + 1
  {
    BeforeIffSmaller(end, start);
    if Before(end, start) then []
    else
      var rest := DaysBetween(NextDay(start), end);
      BeforeIffSmaller(end, NextDay(start));
      [start] + rest
  }

  /** The loop of `datesRange`: push `d`, then `d := addDays(d, 1)`, while
      `d <= end`. */
  method DatesRange(start: Date, end: Date) returns (dates: seq<Date>)
    ensures dates == DaysBetween(start, end)
  {
    dates := [];
    var d := start;
    while AtMost(d, end)
      invariant dates + DaysBetween(d, end) == DaysBetween(start, end)
      decreases DayNumber(end) - DayNumber(d) + 1
    {
      AtMostIffNotGreater(d, end);
      BeforeIffSmaller(end, d);
      assert DaysBetween(d, end) == [d] + DaysBetween(NextDay(d), end);
      dates := dates + [d];
      AddOneIsNextDay(d);
      d := AddDays(d, 1);
    }
    assert DaysBetween(d, end) == [];
  }

  /** What the range contains: it starts at `start`, ends at `end`, steps by
      one day, ascends strictly, and holds exactly the days in between. */
  lemma DaysBetweenShape(start: Date, end: Date)
    ensures var r := DaysBetween(start, end);
      && (r == [] <==> Before(end, start))
      && (r != [] ==> r[0] == start && r[|r| - 1] == end)
      && (forall i :: 0 <= i < |r| - 1 ==> r[i + 1] == AddDays(r[i], 1))
      && (forall i, j :: 0 <= i < j < |r| ==> Before(r[i], r[j]))
  {
    var r := DaysBetween(start, end);
    BeforeIffSmaller(end, start);
    if r != [] {
      DayNumberInjective(r[0], start);
      DayNumberInjective(r[|r| - 1], end);
    }
    forall i | 0 <= i < |r| - 1
      ensures r[i + 1] == AddDays(r[i], 1)
    {
      DayNumberInjective(r[i + 1], AddDays(r[i], 1));
    }
    forall i, j | 0 <= i < j < |r|
      ensures Before(r[i], r[j])
    {
      BeforeIffSmaller(r[i], r[j]);
    }
  }

  /** A day is in the range exactly when it lies between the bounds. */
  lemma InDaysBetween(start: Date, end: Date, x: Date)
    ensures x in DaysBetween(start, end) <==> AtMost(start, x) && AtMost(x, end)
  {
    var r := DaysBetween(start, end);
    AtMostIffNotGreater(start, x);
    AtMostIffNotGreater(x, end);
    BeforeIffSmaller(end, start);
    if AtMost(start, x) && AtMost(x, end) {
      var i := DayNumber(x) - DayNumber(start);
      DayNumberInjective(r[i], x);
    }
  }

  lemma DatesRangeExample()
    ensures DaysBetween(Ymd(2025, 1, 31), Ymd(2025, 2, 1)) == [Ymd(2025, 1, 31), Ymd(2025, 2, 1)]
    ensures DaysBetween(Ymd(2025, 2, 1), Ymd(2025, 1, 31)) == []
  {
    var r := DaysBetween(Ymd(2025, 1, 31), Ymd(2025, 2, 1));
    DaysBetweenShape(Ymd(2025, 1, 31), Ymd(2025, 2, 1));
    assert NextDay(Ymd(2025, 1, 31)) == Ymd(2025, 2, 1);
    assert DayNumber(Ymd(2025, 2, 1)) == DayNumber(Ymd(2025, 1, 31)) + 1;
  }
}
