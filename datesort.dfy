/** `[...dates].sort()` on `YYYY-MM-DD` texts, which orders them
    chronologically, and the "latest day before" query built on it. */
module DateSort {
  import opened Wrappers
  import opened Calendar

  predicate Sorted(s: seq<Date>) {
    forall i, j :: 0 <= i < j < |s| ==> AtMost(s[i], s[j])
  }

  function Insert(x: Date, s: seq<Date>): (r: seq<Date>)
    requires Sorted(s)
    ensures Sorted(r) && multiset(r) == multiset(s) + multiset{x}
  {
    if s == [] then [x]
    else if AtMost(x, s[0]) then [x] + s
    else
      var rest := Insert(x, s[1..]);
      assert s == [s[0]] + s[1..];
      ConsSorted(s[0], x, s[1..], rest);
      [s[0]] + rest
  }

  /** Putting the head back in front of the insertion into the tail keeps
      the order, since the head precedes both the tail and `x`. */
  lemma ConsSorted(h: Date, x: Date, tail: seq<Date>, rest: seq<Date>)
    requires Sorted([h] + tail) && !AtMost(x, h)
    requires Sorted(rest) && multiset(rest) == multiset(tail) + multiset{x}
    ensures Sorted([h] + rest)
  {
    forall k | 0 <= k < |rest|
      ensures AtMost(h, rest[k])
    {
      assert rest[k] in multiset(rest);
      if rest[k] != x {
        assert rest[k] in multiset(tail);
        var j :| 0 <= j < |tail| && tail[j] == rest[k];
        assert ([h] + tail)[0] == h && ([h] + tail)[j + 1] == rest[k];
      } else {
        assert Before(h, x);
      }
    }
    forall y | y in rest
      ensures AtMost(h, y)
    {
      var k :| 0 <= k < |rest| && rest[k] == y;
    }
    PrependSorted(h, rest);
  }

  /** The default `sort()`: ascending, a permutation of its input. */
  function SortDates(s: seq<Date>): (r: seq<Date>)
    ensures Sorted(r) && multiset(r) == multiset(s) && |r| == |s|
  {
    if s == [] then []
    else
      assert s == [s[0]] + s[1..];
      Insert(s[0], SortDates(s[1..]))
  }

  /** `sorted.filter(d => d < date)`. */
  function FilterBefore(s: seq<Date>, date: Date): (r: seq<Date>)
    ensures forall x :: x in r <==> x in s && Before(x, date)
    ensures Sorted(s) ==> Sorted(r)
  {
    if s == [] then []
    else
      var rest := FilterBefore(s[1..], date);
      assert s == [s[0]] + s[1..];
      assert forall x :: x in s[1..] ==> x in s;
      FilterStep(s, rest);
      if Before(s[0], date) then [s[0]] + rest else rest
  }

  /** The step of `FilterBefore`: a sublist of a sorted tail may follow the
      head. */
  lemma FilterStep(s: seq<Date>, rest: seq<Date>)
    requires s != [] && forall x :: x in rest ==> x in s[1..]
    requires Sorted(s[1..]) ==> Sorted(rest)
    ensures Sorted(s) ==> Sorted(rest) && Sorted([s[0]] + rest)
  {
    if Sorted(s) {
      HeadFirst(s);
      PrependSorted(s[0], rest);
    }
  }

  /** In a sorted list the tail is sorted and the head comes first. */
  lemma HeadFirst(s: seq<Date>)
    requires Sorted(s) && s != []
    ensures Sorted(s[1..]) && forall x :: x in s[1..] ==> AtMost(s[0], x)
  {
    forall x | x in s[1..]
      ensures AtMost(s[0], x)
    {
      var j :| 0 <= j < |s[1..]| && s[1..][j] == x;
      assert s[j + 1] == x;
    }
  }

  /** A day that precedes every element of a sorted list may go in front. */
  lemma PrependSorted(h: Date, rest: seq<Date>)
    requires Sorted(rest) && forall x :: x in rest ==> AtMost(h, x)
    ensures Sorted([h] + rest)
  {
    var r := [h] + rest;
    forall i, j | 0 <= i < j < |r|
      ensures AtMost(r[i], r[j])
    {
      assert r[j] == rest[j - 1];
      if i > 0 {
        assert r[i] == rest[i - 1];
      }
    }
  }

  /** `before[before.length - 1] ?? undefined`: the last scheduled day
      strictly before `date` in the sorted list. */
  function LastBefore(sorted: seq<Date>, date: Date): Option<Date> {
    var before := FilterBefore(sorted, date);
    if before == [] then None else Some(before[|before| - 1])
  }

  /** On the sorted schedule, the result is the greatest scheduled day
      before `date`, and `None` exactly when there is none. */
  lemma LastBeforeIsGreatest(s: seq<Date>, date: Date)
    ensures var r := LastBefore(SortDates(s), date);
            (r.None? <==> forall x :: x in s ==> !Before(x, date))
            && (r.Some? ==> r.value in s && Before(r.value, date)
                            && forall x :: x in s && Before(x, date) ==> AtMost(x, r.value))
  {
    var sorted := SortDates(s);
    SameElements(s, sorted);
    LastBeforeOfSorted(sorted, date);
  }

  lemma LastBeforeOfSorted(sorted: seq<Date>, date: Date)
    requires Sorted(sorted)
    ensures var r := LastBefore(sorted, date);
            (r.None? <==> forall x :: x in sorted ==> !Before(x, date))
            && (r.Some? ==> r.value in sorted && Before(r.value, date)
                            && forall x :: x in sorted && Before(x, date) ==> AtMost(x, r.value))
  {
    var before := FilterBefore(sorted, date);
    if before != [] {
      var last := before[|before| - 1];
      assert last in before;
      forall x | x in sorted && Before(x, date)
        ensures AtMost(x, last)
      {
        assert x in before;
        var k :| 0 <= k < |before| && before[k] == x;
        if k < |before| - 1 {
          assert AtMost(before[k], before[|before| - 1]);
        }
      }
    } else {
      forall x | x in sorted
        ensures !Before(x, date)
      {
        assert x in before <==> x in sorted && Before(x, date);
      }
    }
  }

  lemma SameElements(s: seq<Date>, t: seq<Date>)
    requires multiset(s) == multiset(t)
    ensures forall x :: x in s <==> x in t
  {
    forall x
      ensures x in s <==> x in t
    {
      assert x in s <==> x in multiset(s);
      assert x in t <==> x in multiset(t);
    }
  }
}
