/** The day-of-week token parser used by weekly schedules. */
module Util {
  import opened Wrappers
  import opened Text

  /** The accepted tokens; a token's index is its `getDay` number. */
  const DayTokens: seq<string> := ["SUN", "MON", "TUE", "WED", "THU", "FRI", "SAT"]

  /** `DAY_OF_WEEK_MAP[t]`: the index of `t` in the table, if any. */
  function LookupDay(t: string): (r: Option<int>)
    ensures r.Some? ==> 0 <= r.value < 7 && DayTokens[r.value] == t
    ensures r.None? ==> t !in DayTokens
  {
    if t == DayTokens[0] then Some(0)
    else if t == DayTokens[1] then Some(1)
    else if t == DayTokens[2] then Some(2)
    else if t == DayTokens[3] then Some(3)
    else if t == DayTokens[4] then Some(4)
    else if t == DayTokens[5] then Some(5)
    else if t == DayTokens[6] then Some(6)
    else None
  }

  /** `parseDayOfWeek`: trims and upper-cases the token, then looks it up
      among SUN..SAT; anything else gives `None` (the source's `null`). */
  function ParseDayOfWeek(value: string): (r: Option<int>)
    ensures r.Some? ==> 0 <= r.value < 7 && DayTokens[r.value] == ToUpper(Trim(value))
    ensures r.None? ==> ToUpper(Trim(value)) !in DayTokens
  {
    LookupDay(ToUpper(Trim(value)))
  }

  lemma TokensDistinct(i: int, j: int)
    requires 0 <= i < 7 && 0 <= j < 7 && DayTokens[i] == DayTokens[j]
    ensures i == j
  {
    assert DayTokens[i][0] == DayTokens[j][0] && DayTokens[i][1] == DayTokens[j][1];
  }

  lemma UpperOfCapitals(t: string)
    requires forall i :: 0 <= i < |t| ==> 'A' <= t[i] <= 'Z'
    ensures ToUpper(t) == t
  {
  }

  /** A token already made of capital letters is looked up as it is. */
  lemma ParseCapitals(t: string)
    requires t != [] && forall i :: 0 <= i < |t| ==> 'A' <= t[i] <= 'Z'
    ensures ParseDayOfWeek(t) == LookupDay(t)
  {
    UpperOfCapitals(t);
    TrimOfTrimmed(t);
  }

  /** Every token of the table parses to its own index. */
  lemma ParseDayOfWeekTable(k: int)
    requires 0 <= k < 7
    ensures ParseDayOfWeek(DayTokens[k]) == Some(k)
  {
    var t := DayTokens[k];
    assert |t| == 3 && forall i :: 0 <= i < 3 ==> 'A' <= t[i] <= 'Z';
    ParseCapitals(t);
    assert t in DayTokens;
    var r := LookupDay(t);
    TokensDistinct(r.value, k);
  }

  /** Upper-casing never produces whitespace out of a non-blank character. */
  lemma UpperKeepsNonBlank(c: char)
    requires !IsJsWhitespace(c)
    ensures !IsJsWhitespace(UpperChar(c))
  {
  }

  lemma TrimOfTrimmed(s: string)
    requires s == [] || (!IsJsWhitespace(s[0]) && !IsJsWhitespace(s[|s| - 1]))
    ensures Trim(s) == s
  {
  }

  /** Surrounding whitespace and letter case do not matter: the parser gives
      the same answer on the normalised token. */
  lemma ParseDayOfWeekNormalised(value: string)
    ensures ParseDayOfWeek(value) == ParseDayOfWeek(ToUpper(Trim(value)))
  {
    var t := Trim(value);
    var u := ToUpper(t);
    if t != [] {
      UpperKeepsNonBlank(t[0]);
      UpperKeepsNonBlank(t[|t| - 1]);
    }
    TrimOfTrimmed(u);
    ToUpperIdempotent(t);
  }

  lemma ParsePaddedLowerWed()
    ensures ParseDayOfWeek(" wed ") == Some(3)
  {
    var a := " wed ";
    assert a[1..] == "wed ";
    assert TrimStart("wed ") == "wed ";
    assert TrimStart(a) == "wed ";
    assert "wed "[..3] == "wed";
    assert TrimEnd("wed") == "wed";
    assert TrimEnd("wed ") == "wed";
    assert Trim(a) == "wed";
    var u := ToUpper("wed");
    assert u[0] == 'W' && u[1] == 'E' && u[2] == 'D';
    assert u == DayTokens[3];
    ParseDayOfWeekTable(3);
  }

  lemma ParseMixedCaseWed()
    ensures ParseDayOfWeek("Wed") == Some(3)
  {
    TrimOfTrimmed("Wed");
    var u := ToUpper("Wed");
    assert u[0] == 'W' && u[1] == 'E' && u[2] == 'D';
    assert u == DayTokens[3];
    ParseDayOfWeekTable(3);
  }

  lemma ParseLongNameRejected()
    ensures ParseDayOfWeek("WEDNESDAY") == None
  {
    ParseCapitals("WEDNESDAY");
  }
}
