/** The JavaScript string operations the engine relies on: `trim`, case
    mapping, `split` on one separator character, `parseInt` without a radix,
    decimal rendering of integers, and the code-unit order of `<` on strings. */
module Text {
  import opened Wrappers

  // ---------------------------------------------------------------------
  // Whitespace and trim

  /** ECMAScript WhiteSpace and LineTerminator code points, which `trim` removes. */
  predicate IsJsWhitespace(c: char) {
    ('\U{9}' <= c <= '\U{D}') || c == ' ' || c == '\U{A0}' || c == '\U{1680}'
    || ('\U{2000}' <= c <= '\U{200A}') || c == '\U{2028}' || c == '\U{2029}'
    || c == '\U{202F}' || c == '\U{205F}' || c == '\U{3000}' || c == '\U{FEFF}'
  }

  predicate AllWhitespace(s: string) {
    forall i :: 0 <= i < |s| ==> IsJsWhitespace(s[i])
  }

  function TrimStart(s: string): (r: string)
    ensures |r| <= |s| && r == s[|s| - |r|..]
    ensures AllWhitespace(s[..|s| - |r|])
    ensures r == [] || !IsJsWhitespace(r[0])
  {
    if s != [] && IsJsWhitespace(s[0]) then
      var r := TrimStart(s[1..]);
      TrimStartStep(s, r);
      r
    else s
  }

  /** Dropping one more leading whitespace character keeps the contract. */
  lemma TrimStartStep(s: string, r: string)
    requires s != [] && IsJsWhitespace(s[0])
    requires |r| <= |s| - 1 && r == s[1..][|s| - 1 - |r|..]
    requires AllWhitespace(s[1..][..|s| - 1 - |r|])
    ensures r == s[|s| - |r|..]
    ensures AllWhitespace(s[..|s| - |r|])
  {
    var k := |s| - |r|;
    assert s[1..][k - 1..] == s[k..];
    assert s[..k] == [s[0]] + s[1..][..k - 1];
    WhitespaceCons(s[0], s[1..][..k - 1]);
  }

  lemma WhitespaceCons(c: char, w: string)
    requires IsJsWhitespace(c) && AllWhitespace(w)
    ensures AllWhitespace([c] + w)
  {
    var s := [c] + w;
    forall i | 0 <= i < |s|
      ensures IsJsWhitespace(s[i])
    {
      if i > 0 {
        assert s[i] == w[i - 1];
      }
    }
  }

  lemma WhitespaceSnoc(w: string, c: char)
    requires AllWhitespace(w) && IsJsWhitespace(c)
    ensures AllWhitespace(w + [c])
  {
    var s := w + [c];
    forall i | 0 <= i < |s|
      ensures IsJsWhitespace(s[i])
    {
      if i < |w| {
        assert s[i] == w[i];
      }
    }
  }

  function TrimEnd(s: string): (r: string)
    ensures |r| <= |s| && r == s[..|r|]
    ensures AllWhitespace(s[|r|..])
    ensures r == [] || !IsJsWhitespace(r[|r| - 1])
  {
    if s != [] && IsJsWhitespace(s[|s| - 1]) then
      var r := TrimEnd(s[..|s| - 1]);
      assert s[..|s| - 1][..|r|] == s[..|r|];
      assert s[|r|..] == s[..|s| - 1][|r|..] + [s[|s| - 1]];
      WhitespaceSnoc(s[..|s| - 1][|r|..], s[|s| - 1]);
      r
    else s
  }

  /** `s.trim()`: `s` with its leading and trailing whitespace removed. */
  function Trim(s: string): (r: string)
    ensures |r| <= |s|
    ensures r == [] || (!IsJsWhitespace(r[0]) && !IsJsWhitespace(r[|r| - 1]))
  {
    TrimEnd(TrimStart(s))
  }

  /** What `trim` removes is whitespace, from the two ends only. */
  lemma TrimIsInfix(s: string)
    ensures exists i, j :: (0 <= i <= j <= |s| && Trim(s) == s[i..j]
                            && AllWhitespace(s[..i]) && AllWhitespace(s[j..]))
  {
    var a := TrimStart(s);
    var r := TrimEnd(a);
    var i := |s| - |a|;
    assert r == s[i..i + |r|];
    assert s[i + |r|..] == a[|r|..];
  }

  /** Trimming twice is trimming once. */
  lemma TrimIdempotent(s: string)
    ensures Trim(Trim(s)) == Trim(s)
  {
    var r := Trim(s);
    assert TrimStart(r) == r;
    assert TrimEnd(r) == r;
  }

  // ---------------------------------------------------------------------
  // Case mapping

  /** `toUpperCase` on one character. ASCII letters, and the two non-ASCII
      letters whose upper case is an ASCII letter (dotless i and long s). */
  function UpperChar(c: char): char {
    if 'a' <= c <= 'z' then (c as int - 32) as char
    else if c == '\U{131}' then 'I'
    else if c == '\U{17F}' then 'S'
    else c
  }

  /** `toLowerCase` on one character, for ASCII letters. */
  function LowerChar(c: char): char {
    if 'A' <= c <= 'Z' then (c as int + 32) as char else c
  }

  function ToUpper(s: string): (r: string)
    ensures |r| == |s|
    ensures forall i :: 0 <= i < |s| ==> r[i] == UpperChar(s[i])
  {
    if s == [] then [] else [UpperChar(s[0])] + ToUpper(s[1..])
  }

  function ToLower(s: string): (r: string)
    ensures |r| == |s|
    ensures forall i :: 0 <= i < |s| ==> r[i] == LowerChar(s[i])
  {
    if s == [] then [] else [LowerChar(s[0])] + ToLower(s[1..])
  }

  lemma ToUpperIdempotent(s: string)
    ensures ToUpper(ToUpper(s)) == ToUpper(s)
  {
  }

  lemma ToLowerIdempotent(s: string)
    ensures ToLower(ToLower(s)) == ToLower(s)
  {
  }

  // ---------------------------------------------------------------------
  // split

  function IndexOfChar(s: string, c: char): (i: int)
    ensures -1 <= i < |s|
    ensures forall k :: 0 <= k < |s| && (i == -1 || k < i) ==> s[k] != c
    ensures 0 <= i ==> s[i] == c
  {
    if s == [] then -1
    else if s[0] == c then 0
    else
      var j := IndexOfChar(s[1..], c);
      if j == -1 then -1 else j + 1
  }

  /** `s.split(sep)` for a one-character separator: the pieces between
      separators, always at least one (`"".split(",")` is `[""]`). */
  function Split(s: string, sep: char): (parts: seq<string>)
    ensures |parts| >= 1
    decreases |s|
  {
    var i := IndexOfChar(s, sep);
    if i == -1 then [s] else [s[..i]] + Split(s[i + 1..], sep)
  }

  /** `parts.join(sep)`. */
  function Join(parts: seq<string>, sep: char): string
    requires |parts| >= 1
  {
    if |parts| == 1 then parts[0] else parts[0] + [sep] + Join(parts[1..], sep)
  }

  /** No piece contains the separator. */
  predicate PiecesLack(parts: seq<string>, sep: char) {
    forall k, m :: 0 <= k < |parts| && 0 <= m < |parts[k]| ==> parts[k][m] != sep
  }

  /** The pieces of a split never contain the separator. */
  lemma {:induction false} SplitPiecesLackSeparator(s: string, sep: char)
    ensures PiecesLack(Split(s, sep), sep)
    decreases |s|
  {
    var i := IndexOfChar(s, sep);
    if i != -1 {
      var tail := Split(s[i + 1..], sep);
      SplitPiecesLackSeparator(s[i + 1..], sep);
      SplitUnfold(s, sep);
      HeadLacksSeparator(s, sep);
      PiecesCons(s[..i], tail, sep);
    }
  }

  /** Splitting and joining again gives the original text back. */
  lemma {:induction false} SplitJoin(s: string, sep: char)
    ensures Join(Split(s, sep), sep) == s
    decreases |s|
  {
    var i := IndexOfChar(s, sep);
    if i != -1 {
      var rest := s[i + 1..];
      SplitJoin(rest, sep);
      SplitUnfold(s, sep);
      JoinCons(s[..i], Split(rest, sep), sep);
      AroundSeparator(s, sep, i);
    }
  }

  /** With a separator present, the first piece is the text before it. */
  lemma SplitUnfold(s: string, sep: char)
    requires IndexOfChar(s, sep) != -1
    ensures var i := IndexOfChar(s, sep);
            Split(s, sep) == [s[..i]] + Split(s[i + 1..], sep)
  {
  }

  lemma AroundSeparator(s: string, sep: char, i: int)
    requires 0 <= i < |s| && s[i] == sep
    ensures s == s[..i] + [sep] + s[i + 1..]
  {
  }

  lemma HeadLacksSeparator(s: string, sep: char)
    ensures var i := IndexOfChar(s, sep);
            i != -1 ==> forall m :: 0 <= m < |s[..i]| ==> s[..i][m] != sep
  {
  }

  lemma PiecesCons(p: string, tail: seq<string>, sep: char)
    requires forall m :: 0 <= m < |p| ==> p[m] != sep
    requires PiecesLack(tail, sep)
    ensures PiecesLack([p] + tail, sep)
  {
    var parts := [p] + tail;
    forall k, m | 0 <= k < |parts| && 0 <= m < |parts[k]|
      ensures parts[k][m] != sep
    {
      if k > 0 {
        assert parts[k] == tail[k - 1];
      }
    }
  }

  lemma JoinCons(p: string, tail: seq<string>, sep: char)
    requires |tail| >= 1
    ensures Join([p] + tail, sep) == p + [sep] + Join(tail, sep)
  {
    assert ([p] + tail)[1..] == tail;
  }

  // ---------------------------------------------------------------------
  // Digits and parseInt

  function DigitValue(c: char): int {
    if '0' <= c <= '9' then c as int - '0' as int
    else if 'a' <= c <= 'z' then c as int - 'a' as int + 10
    else if 'A' <= c <= 'Z' then c as int - 'A' as int + 10
    else 99
  }

  predicate IsDigitIn(c: char, radix: int) {
    DigitValue(c) < radix
  }

  /** The longest prefix of `s` made of digits of the radix. */
  function LeadingDigits(s: string, radix: int): (z: string)
    ensures |z| <= |s| && z == s[..|z|]
    ensures forall i :: 0 <= i < |z| ==> IsDigitIn(z[i], radix)
    ensures |z| == |s| || !IsDigitIn(s[|z|], radix)
  {
    if s != [] && IsDigitIn(s[0], radix) then
      var rest := LeadingDigits(s[1..], radix);
      assert s[..|rest| + 1] == [s[0]] + s[1..][..|rest|];
      [s[0]] + rest
    else []
  }

  function DigitsValue(z: string, radix: int): int {
    if z == [] then 0 else DigitsValue(z[..|z| - 1], radix) * radix + DigitValue(z[|z| - 1])
  }

  /** The JavaScript number `parseInt(s)` returns: `None` stands for NaN.
      Leading whitespace is skipped, one sign is accepted, a `0x`/`0X` prefix
      switches to base 16, and parsing stops at the first non-digit. */
  function ParseInt(s: string): (r: Option<int>)
    ensures TrimStart(s) == [] ==> r.None?
    ensures r.Some? && r.value < 0 ==> TrimStart(s)[0] == '-'
  {
    var t := TrimStart(s);
    if t != [] && (t[0] == '-' || t[0] == '+') then
      match ParseUnsigned(t[1..])
      case None => None
      case Some(v) => Some(if t[0] == '-' then -v else v)
    else ParseUnsigned(t)
  }

  /** The unsigned part of `parseInt`: a `0x`/`0X` prefix selects base 16,
      otherwise base 10; no digit at all gives NaN. */
  function ParseUnsigned(u: string): (r: Option<int>)
    ensures u == [] ==> r.None?
    ensures r.Some? ==> r.value >= 0
  {
    var hex := |u| >= 2 && u[0] == '0' && (u[1] == 'x' || u[1] == 'X');
    var radix := if hex then 16 else 10;
    var z := LeadingDigits(if hex then u[2..] else u, radix);
    if z == [] then None
    else
      DigitsValueNonNegative(z, radix);
      Some(DigitsValue(z, radix))
  }

  lemma {:induction false} DigitsValueNonNegative(z: string, radix: int)
    requires radix >= 0
    ensures DigitsValue(z, radix) >= 0
  {
    if z != [] {
      DigitsValueNonNegative(z[..|z| - 1], radix);
    }
  }

  function DigitChar(k: int): char
    requires 0 <= k < 10
  {
    ('0' as int + k) as char
  }

  /** Decimal digits of a natural number, without leading zeros. */
  function Decimal(n: nat): (s: string)
    ensures s != []
    ensures forall i :: 0 <= i < |s| ==> '0' <= s[i] <= '9'
    ensures n > 0 ==> s[0] != '0'
    ensures DigitsValue(s, 10) == n
  {
    if n < 10 then [DigitChar(n)]
    else
      var s := Decimal(n / 10) + [DigitChar(n % 10)];
      assert s[..|s| - 1] == Decimal(n / 10);
      s
  }

  /** `n.toString()` for an integer. */
  function IntToString(n: int): (s: string)
    ensures s != []
  {
    if n < 0 then "-" + Decimal(-n) else Decimal(n)
  }

  lemma DigitsAreLeadingDigits(z: string)
    requires forall i :: 0 <= i < |z| ==> '0' <= z[i] <= '9'
    ensures LeadingDigits(z, 10) == z
  {
    if z != [] {
      DigitsAreLeadingDigits(z[1..]);
    }
  }

  lemma TrimStartUnchanged(s: string)
    requires s != [] && !IsJsWhitespace(s[0])
    ensures TrimStart(s) == s
  {
  }

  lemma ParseUnsignedOfDigits(d: string)
    requires d != [] && forall i :: 0 <= i < |d| ==> '0' <= d[i] <= '9'
    requires |d| >= 2 ==> d[0] != '0'
    ensures ParseUnsigned(d) == Some(DigitsValue(d, 10))
  {
    DigitsAreLeadingDigits(d);
    assert !(|d| >= 2 && d[0] == '0');
  }

  /** `parseInt` on a decimal numeral without sign or `0x` prefix. */
  lemma ParseIntOfDigits(d: string)
    requires d != [] && forall i :: 0 <= i < |d| ==> '0' <= d[i] <= '9'
    requires |d| >= 2 ==> d[0] != '0'
    ensures ParseInt(d) == Some(DigitsValue(d, 10))
  {
    assert d[0] != '-' && d[0] != '+' && !IsJsWhitespace(d[0]);
    TrimStartUnchanged(d);
    assert ParseInt(d) == ParseUnsigned(d);
    ParseUnsignedOfDigits(d);
  }

  /** `parseInt` on a minus sign followed by such a numeral. */
  lemma ParseIntOfNegativeDigits(s: string)
    requires |s| >= 2 && s[0] == '-' && forall i :: 1 <= i < |s| ==> '0' <= s[i] <= '9'
    requires |s| >= 3 ==> s[1] != '0'
    ensures ParseInt(s) == Some(-DigitsValue(s[1..], 10))
  {
    TrimStartUnchanged(s);
    ParseUnsignedOfDigits(s[1..]);
  }

  /** `parseInt` reads back what `toString` wrote. */
  lemma ParseIntOfIntToString(n: int)
    ensures ParseInt(IntToString(n)) == Some(n)
  {
    var d := if n < 0 then Decimal(-n) else Decimal(n);
    if |d| >= 2 {
      assert n != 0;
    }
    if n < 0 {
      var s := "-" + d;
      assert s[1..] == d;
      ParseIntOfNegativeDigits(s);
    } else {
      ParseIntOfDigits(d);
    }
  }

  // ---------------------------------------------------------------------
  // String order

  /** `a < b` on JavaScript strings: code-unit lexicographic order. */
  predicate StrLess(a: string, b: string)
    decreases |a|
  {
    if a == [] then b != []
    else if b == [] then false
    else if a[0] != b[0] then a[0] < b[0]
    else StrLess(a[1..], b[1..])
  }

  lemma {:induction false} StrLessConcat(x1: string, y1: string, x2: string, y2: string)
    requires |x1| == |x2|
    ensures StrLess(x1 + y1, x2 + y2) <==> StrLess(x1, x2) || (x1 == x2 && StrLess(y1, y2))
    decreases |x1|
  {
    if x1 != [] {
      assert (x1 + y1)[1..] == x1[1..] + y1;
      assert (x2 + y2)[1..] == x2[1..] + y2;
      if x1[0] == x2[0] {
        StrLessConcat(x1[1..], y1, x2[1..], y2);
        assert x1 == x2 <==> x1[1..] == x2[1..] by {
          assert x1 == [x1[0]] + x1[1..];
          assert x2 == [x2[0]] + x2[1..];
        }
      }
    } else {
      assert x1 + y1 == y1;
      assert x2 + y2 == y2;
    }
  }

  lemma StrLessSingle(a: char, b: char)
    ensures StrLess([a], [b]) <==> a < b
  {
    assert [a][1..] == [];
  }

  function Pow10(k: nat): nat {
    if k == 0 then 1 else 10 * Pow10(k - 1)
  }

  /** `n` written with exactly `width` decimal digits (zero padded). */
  function Padded(n: nat, width: nat): (s: string)
    ensures |s| == width
    ensures forall i :: 0 <= i < |s| ==> '0' <= s[i] <= '9'
  {
    if width == 0 then [] else Padded(n / 10, width - 1) + [DigitChar(n % 10)]
  }

  lemma {:induction false} PaddedValue(n: nat, width: nat)
    requires n < Pow10(width)
    ensures DigitsValue(Padded(n, width), 10) == n
  {
    if width > 0 {
      var s := Padded(n, width);
      assert s[..|s| - 1] == Padded(n / 10, width - 1);
      assert s[|s| - 1] == DigitChar(n % 10);
      DropLastDigit(n, Pow10(width - 1));
      PaddedValue(n / 10, width - 1);
      assert DigitsValue(s, 10) == (n / 10) * 10 + n % 10;
    }
  }

  /** Dropping the last decimal digit of a number below `10 * p` leaves a
      number below `p`. */
  lemma DropLastDigit(n: nat, p: nat)
    requires n < 10 * p
    ensures n / 10 < p
  {
  }

  /** Fixed-width decimal texts compare as strings the way the numbers compare. */
  lemma {:induction false} PaddedOrder(a: nat, b: nat, width: nat)
    requires a < Pow10(width) && b < Pow10(width)
    ensures StrLess(Padded(a, width), Padded(b, width)) <==> a < b
    ensures Padded(a, width) == Padded(b, width) <==> a == b
  {
    if width > 0 {
      PaddedOrder(a / 10, b / 10, width - 1);
      StrLessConcat(Padded(a / 10, width - 1), [DigitChar(a % 10)],
                    Padded(b / 10, width - 1), [DigitChar(b % 10)]);
      StrLessSingle(DigitChar(a % 10), DigitChar(b % 10));
      var sa := Padded(a, width);
      var sb := Padded(b, width);
      if sa == sb {
        assert sa[width - 1] == sb[width - 1];
        assert sa[..width - 1] == sb[..width - 1];
        assert sa[..width - 1] == Padded(a / 10, width - 1);
        assert sb[..width - 1] == Padded(b / 10, width - 1);
      }
    } else {
      assert Padded(a, 0) == [] == Padded(b, 0);
    }
  }
}
