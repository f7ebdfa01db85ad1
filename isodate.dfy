/** The `YYYY-MM-DD` text of a date (ISO 8601 complete calendar date,
    extended format, section 4.1.2.2 of ISO 8601:2004). The engine stores and
    compares dates as these strings; the lemmas here justify modelling them as
    `Calendar.Date` values: the text is injective, it reads back, and string
    order is date order. */
module IsoDate {
  import opened Wrappers
  import opened Calendar
  import opened Text

  /** The years a `YYYY` field can hold. */
  predicate FourDigitYear(d: Date) {
    0 <= d.year <= 9999
  }

  function Iso(d: Date): (s: string)
    requires FourDigitYear(d)
    ensures |s| == 10 && s[4] == '-' && s[7] == '-'
    ensures forall i :: 0 <= i < 10 && i != 4 && i != 7 ==> '0' <= s[i] <= '9'
  {
    Padded(d.year, 4) + "-" + Padded(d.month, 2) + "-" + Padded(d.day, 2)
  }

  predicate AllDigits(s: string) {
    forall i :: 0 <= i < |s| ==> '0' <= s[i] <= '9'
  }

  /** Reads a `YYYY-MM-DD` text; `None` for anything else, including
      well-formed text naming a day that does not exist. */
  function ParseIso(s: string): (r: Option<Date>)
    ensures r.Some? ==> |s| == 10 && FourDigitYear(r.value)
  {
    if |s| == 10 && s[4] == '-' && s[7] == '-'
       && AllDigits(s[..4]) && AllDigits(s[5..7]) && AllDigits(s[8..]) then
      var y := DigitsValue(s[..4], 10);
      var m := DigitsValue(s[5..7], 10);
      var dd := DigitsValue(s[8..], 10);
      DigitsValueBound(s[..4]);
      if IsValid(Ymd(y, m, dd)) then Some(Ymd(y, m, dd)) else None
    else None
  }

  lemma {:induction false} DigitsValueBound(z: string)
    requires AllDigits(z)
    ensures 0 <= DigitsValue(z, 10) < Pow10(|z|)
  {
    if z != [] {
      DigitsValueBound(z[..|z| - 1]);
    }
  }

  /** A digit string is the padded text of its own value. */
  lemma {:induction false} PaddedOfDigitsValue(z: string)
    requires AllDigits(z)
    ensures DigitsValue(z, 10) >= 0
    ensures Padded(DigitsValue(z, 10), |z|) == z
  {
    if z != [] {
      var init := z[..|z| - 1];
      PaddedOfDigitsValue(init);
      DigitsValueBound(init);
      var v := DigitsValue(z, 10);
      var k := DigitValue(z[|z| - 1]);
      assert v == DigitsValue(init, 10) * 10 + k && 0 <= k < 10;
      assert v / 10 == DigitsValue(init, 10) && v % 10 == k;
      assert DigitChar(k) == z[|z| - 1];
      assert z == init + [z[|z| - 1]];
    }
  }

  lemma IsoFields(d: Date)
    requires FourDigitYear(d)
    ensures Iso(d)[..4] == Padded(d.year, 4)
    ensures Iso(d)[5..7] == Padded(d.month, 2)
    ensures Iso(d)[8..] == Padded(d.day, 2)
  {
  }

  /** Reading the text of a date gives the date back. */
  lemma IsoRoundTrip(d: Date)
    requires FourDigitYear(d)
    ensures ParseIso(Iso(d)) == Some(d)
  {
    var s := Iso(d);
    IsoFields(d);
    PaddedValue(d.year, 4);
    PaddedValue(d.month, 2);
    PaddedValue(d.day, 2);
  }

  /** Text that reads as a date is exactly that date's text. */
  lemma ParseIsoInverse(s: string)
    requires ParseIso(s).Some?
    ensures Iso(ParseIso(s).value) == s
  {
    var d := ParseIso(s).value;
    PaddedOfDigitsValue(s[..4]);
    PaddedOfDigitsValue(s[5..7]);
    PaddedOfDigitsValue(s[8..]);
    IsoFields(d);
    assert s == s[..4] + "-" + s[5..7] + "-" + s[8..];
  }

  lemma IsoInjective(a: Date, b: Date)
    requires FourDigitYear(a) && FourDigitYear(b)
    ensures Iso(a) == Iso(b) <==> a == b
  {
    if Iso(a) == Iso(b) {
      IsoRoundTrip(a);
      IsoRoundTrip(b);
    }
  }

  /** Three dash-separated fields of matching widths compare field by field. */
  lemma FieldsOrder(x1: string, x2: string, x3: string, y1: string, y2: string, y3: string)
    requires |x1| == |y1| && |x2| == |y2|
    ensures StrLess(x1 + "-" + x2 + "-" + x3, y1 + "-" + y2 + "-" + y3)
        <==> StrLess(x1, y1) || (x1 == y1 && (StrLess(x2, y2) || (x2 == y2 && StrLess(x3, y3))))
  {
    assert x1 + "-" + x2 + "-" + x3 == x1 + ("-" + (x2 + ("-" + x3)));
    assert y1 + "-" + y2 + "-" + y3 == y1 + ("-" + (y2 + ("-" + y3)));
    StrLessConcat(x1, "-" + (x2 + ("-" + x3)), y1, "-" + (y2 + ("-" + y3)));
    StrLessConcat("-", x2 + ("-" + x3), "-", y2 + ("-" + y3));
    StrLessConcat(x2, "-" + x3, y2, "-" + y3);
    StrLessConcat("-", x3, "-", y3);
  }

  /** Comparing the texts with `<` orders dates chronologically: this is
      what makes the string comparisons in the engine correct. */
  lemma IsoOrder(a: Date, b: Date)
    requires FourDigitYear(a) && FourDigitYear(b)
    ensures StrLess(Iso(a), Iso(b)) <==> Before(a, b)
  {
    assert Pow10(4) == 10000 && Pow10(2) == 100;
    PaddedOrder(a.year, b.year, 4);
    PaddedOrder(a.month, b.month, 2);
    PaddedOrder(a.day, b.day, 2);
    FieldsOrder(Padded(a.year, 4), Padded(a.month, 2), Padded(a.day, 2),
                Padded(b.year, 4), Padded(b.month, 2), Padded(b.day, 2));
  }

  /** The comparison `x <= y` on texts, as used for date bounds. */
  lemma IsoAtMost(a: Date, b: Date)
    requires FourDigitYear(a) && FourDigitYear(b)
    ensures (StrLess(Iso(a), Iso(b)) || Iso(a) == Iso(b)) <==> AtMost(a, b)
  {
    IsoOrder(a, b);
    IsoInjective(a, b);
  }

  lemma IsoExamples()
    ensures Iso(Ymd(2025, 1, 31)) == "2025-01-31"
  {
    PaddedYear();
    assert Padded(1, 2) == "01";
    assert Padded(31, 2) == "31";
    assert "2025" + "-" + "01" + "-" + "31" == "2025-01-31";
  }

  lemma PaddedYear()
    ensures Padded(2025, 4) == "2025"
  {
    assert Padded(2, 1) == "2";
    assert Padded(20, 2) == "20";
    assert Padded(202, 3) == "202";
  }
}
