/** Decimal rendering of integers as the backend's f-strings produce it, and the
    time-of-day (`HH:MM`) and date (`Y-MM-DD`) strings written to the schedule
    store, each paired with a parser that recovers the numbers. */
module Format {
  import opened Results

  predicate IsDigit(c: char) {
    '0' <= c <= '9'
  }

  /** A non-empty run of decimal digits. */
  predicate IsNumeral(s: string) {
    |s| > 0 && forall i :: 0 <= i < |s| ==> IsDigit(s[i])
  }

  /** A numeral, optionally preceded by a minus sign. */
  predicate IsSignedNumeral(s: string) {
    IsNumeral(s) || (|s| >= 2 && s[0] == '-' && IsNumeral(s[1..]))
  }

  /** A numeral as Python prints it: no leading zero unless it is the single digit `0`. */
  predicate IsCanonicalNumeral(s: string) {
    IsNumeral(s) && (|s| == 1 || s[0] != '0')
  }

  /** `str(x)`: the canonical numeral of `x`, after a minus sign when `x` is negative. */
  predicate IsDecimalOf(t: string, x: int) {
    if x >= 0 then IsCanonicalNumeral(t) && NumeralValue(t) == x
    else |t| >= 2 && t[0] == '-' && IsCanonicalNumeral(t[1..]) && NumeralValue(t[1..]) == -x
  }

  /** `f"{x:02}"`: `str(x)`, with a `0` in front when that is a single digit. */
  predicate IsPaddedOf(t: string, x: int) {
    if 0 <= x < 10 then |t| == 2 && t[0] == '0' && t[1] as int - '0' as int == x
    else IsDecimalOf(t, x)
  }

  function DigitChar(d: nat): (c: char)
    requires d < 10
    ensures IsDigit(c) && c as int - '0' as int == d
  {
    ('0' as int + d) as char
  }

  /** The digits of a natural number, most significant first, without leading zeros. */
  function NatToString(n: nat): (r: string)
    ensures IsCanonicalNumeral(r)
    ensures n > 0 ==> r[0] != '0'
    ensures n < 10 <==> |r| == 1
    ensures 10 <= n < 100 ==> |r| == 2
    decreases n
  {
    if n < 10 then [DigitChar(n)] else NatToString(n / 10) + [DigitChar(n % 10)]
  }

  /** The number a run of digits denotes. */
  function NumeralValue(s: string): nat
    requires forall i :: 0 <= i < |s| ==> IsDigit(s[i])
  {
    if |s| == 0 then 0
    else
      assert IsDigit(s[|s| - 1]);
      NumeralValue(s[..|s| - 1]) * 10 + (s[|s| - 1] as int - '0' as int)
  }

  lemma {:induction false} NatToStringRoundTrip(n: nat)
    ensures NumeralValue(NatToString(n)) == n
    decreases n
  {
    if n >= 10 {
      var p := NatToString(n / 10);
      var r := NatToString(n);
      assert r[..|r| - 1] == p;
      NatToStringRoundTrip(n / 10);
    }
  }

  /** A numeral that does not start with `0` denotes a positive number. */
  lemma {:induction false} LeadingDigitPositive(s: string)
    requires IsNumeral(s) && s[0] != '0'
    ensures NumeralValue(s) >= 1
    decreases |s|
  {
    if |s| > 1 {
      var p := s[..|s| - 1];
      assert p[0] == s[0];
      LeadingDigitPositive(p);
    }
  }

  /** Canonical numerals are unique: the only one denoting a number is the one
      `NatToString` produces. */
  lemma {:induction false} CanonicalNumeralUnique(s: string)
    requires IsCanonicalNumeral(s)
    ensures NatToString(NumeralValue(s)) == s
    decreases |s|
  {
    var last := s[|s| - 1];
    var d := last as int - '0' as int;
    if |s| == 1 {
      assert DigitChar(d) == last;
    } else {
      var p := s[..|s| - 1];
      assert p[0] == s[0];
      assert IsCanonicalNumeral(p);
      LeadingDigitPositive(p);
      CanonicalNumeralUnique(p);
      var n := NumeralValue(s);
      assert n == NumeralValue(p) * 10 + d;
      assert n / 10 == NumeralValue(p) && n % 10 == d;
      assert DigitChar(d) == last;
      assert s == p + [last];
    }
  }

  /** Python's `str(i)`: a minus sign for negative numbers, then the digits. */
  function IntToString(i: int): (r: string)
    ensures IsSignedNumeral(r)
    ensures i >= 0 ==> IsCanonicalNumeral(r)
    ensures i < 0 ==> r[0] == '-' && IsCanonicalNumeral(r[1..]) && r[1] != '0'
    ensures IsDecimalOf(r, i)
  {
    if i < 0 then
      var r := "-" + NatToString(-i);
      assert r[1..] == NatToString(-i);
      NatToStringRoundTrip(-i);
      r
    else
      NatToStringRoundTrip(i);
      NatToString(i)
  }

  /** `str(x)` has exactly one rendering. */
  lemma DecimalOfUnique(t: string, x: int)
    requires IsDecimalOf(t, x)
    ensures t == IntToString(x)
  {
    if x >= 0 {
      CanonicalNumeralUnique(t);
    } else {
      CanonicalNumeralUnique(t[1..]);
      assert t == [t[0]] + t[1..];
    }
  }

  /** Reads an optionally signed decimal numeral; absent on anything else. */
  function ParseInt(s: string): (r: Option<int>)
    ensures r.Some? <==> IsSignedNumeral(s)
  {
    if IsNumeral(s) then Some(NumeralValue(s) as int)
    else if |s| >= 2 && s[0] == '-' && IsNumeral(s[1..]) then Some(0 - NumeralValue(s[1..]))
    else None
  }

  lemma IntToStringRoundTrip(i: int)
    ensures ParseInt(IntToString(i)) == Some(i)
  {
    if i < 0 {
      var m := NatToString(-i);
      var r := "-" + m;
      assert r == IntToString(i);
      assert r[1..] == m;
      assert !IsDigit(r[0]);
      NatToStringRoundTrip(-i);
      assert ParseInt(r) == Some(0 - NumeralValue(m));
    } else {
      NatToStringRoundTrip(i);
    }
  }

  /** `f"{i:02}"`: at least two characters, padded with a leading zero; a
      negative number already has two characters, so it is left as `str(i)`. */
  function Pad2(i: int): (r: string)
    ensures ParseInt(r) == Some(i)
    ensures 0 <= i < 100 ==> |r| == 2 && IsNumeral(r)
    ensures |r| >= 2
    ensures 0 <= i < 10 ==> r[0] == '0'
    ensures i >= 10 ==> IsCanonicalNumeral(r)
    ensures i < 0 ==> r[0] == '-' && IsCanonicalNumeral(r[1..]) && r[1] != '0'
    ensures IsPaddedOf(r, i)
  {
    if 0 <= i < 10 then
      var r := "0" + NatToString(i);
      assert r[..1] == "0";
      assert NumeralValue(r[..1]) == 0;
      assert r[..|r| - 1] == r[..1];
      NatToStringRoundTrip(i);
      r
    else
      IntToStringRoundTrip(i);
      IntToString(i)
  }

  /** `f"{x:02}"` has exactly one rendering. */
  lemma PaddedOfUnique(t: string, x: int)
    requires IsPaddedOf(t, x)
    ensures t == Pad2(x)
  {
    if 0 <= x < 10 {
      var r := Pad2(x);
      assert t[0] == r[0] && t[1] == r[1];
      assert t == [t[0], t[1]] && r == [r[0], r[1]];
    } else {
      DecimalOfUnique(t, x);
    }
  }

  /** The first position at or after `from` holding `c`, if any. */
  function IndexOf(s: string, c: char, from: nat): (r: Option<nat>)
    ensures r.Some? ==> from <= r.value < |s| && s[r.value] == c
    ensures r.Some? ==> forall k :: from <= k < r.value ==> s[k] != c
    ensures r.None? ==> forall k :: from <= k < |s| ==> s[k] != c
    decreases |s| - from
  {
    if from >= |s| then None
    else if s[from] == c then Some(from)
    else IndexOf(s, c, from + 1)
  }

  /** Two digits, a colon and two digits. */
  predicate IsTimeShape(t: string) {
    |t| == 5 && t[2] == ':' && IsNumeral(t[..2]) && IsNumeral(t[3..])
  }

  /** The given year as `str` prints it, a dash, two digits, a dash, two digits. */
  predicate IsDateShape(d: string, year: int) {
    var y := IntToString(year);
    && |d| == |y| + 6
    && d[..|y|] == y
    && d[|y|] == '-' && d[|y| + 3] == '-'
    && IsNumeral(d[|y| + 1..|y| + 3]) && IsNumeral(d[|y| + 4..])
  }

  /** `f"{hour:02}:{minute:02}"`: up to the first colon the padded hour, after it
      the padded minute. */
  predicate IsTimeOf(t: string, hour: int, minute: int) {
    var p := SplitOnce(t, ':', 0);
    p.Some? && IsPaddedOf(p.value.0, hour) && IsPaddedOf(p.value.1, minute)
  }

  /** `f"{year}-{month:02}-{day:02}"`: up to the first dash after the sign the
      year as `str` prints it, then the padded month and the padded day, split
      the same way. */
  predicate IsDateOf(d: string, year: int, month: int, day: int) {
    var p := SplitOnce(d, '-', 1);
    && p.Some? && IsDecimalOf(p.value.0, year)
    && var q := SplitOnce(p.value.1, '-', 1);
    && q.Some? && IsPaddedOf(q.value.0, month) && IsPaddedOf(q.value.1, day)
  }

  /** The schedule start time, `HH:MM`. */
  function FormatTime(hour: int, minute: int): (r: string)
    ensures 0 <= hour < 100 && 0 <= minute < 100 ==> IsTimeShape(r)
    ensures IsTimeOf(r, hour, minute)
  {
    var h, m := Pad2(hour), Pad2(minute);
    var r := h + ":" + m;
    assert r[..|h|] == h && r[|h|] == ':' && r[|h| + 1..] == m;
    assert r == h + [':'] + m;
    SplitAfterNumeral(h, ':', m, 0);
    r
  }

  /** The year's string followed by two two-digit numerals, each after a dash,
      has the shape of a date. */
  lemma DateShapeOf(year: int, m: string, d: string)
    requires |m| == 2 && IsNumeral(m) && |d| == 2 && IsNumeral(d)
    ensures IsDateShape(IntToString(year) + "-" + m + "-" + d, year)
  {
    var y := IntToString(year);
    var r := y + "-" + m + "-" + d;
    assert r[..|y|] == y;
    assert r[|y| + 1..|y| + 3] == m;
    assert r[|y| + 4..] == d;
  }

  /** A date built from three signed numerals splits back into them. */
  lemma DateSplits(y: string, m: string, d: string)
    requires IsSignedNumeral(y) && IsSignedNumeral(m) && IsSignedNumeral(d)
    ensures SplitOnce(y + "-" + m + "-" + d, '-', 1) == Some((y, m + "-" + d))
    ensures SplitOnce(m + "-" + d, '-', 1) == Some((m, d))
  {
    assert y + "-" + m + "-" + d == y + ['-'] + (m + "-" + d);
    SplitAfterNumeral(y, '-', m + "-" + d, 1);
    assert m + "-" + d == m + ['-'] + d;
    SplitAfterNumeral(m, '-', d, 1);
  }

  /** A schedule validity bound, `Y-MM-DD` (the year is not padded). */
  function FormatDate(year: int, month: int, day: int): (r: string)
    ensures 0 <= month < 100 && 0 <= day < 100 ==> IsDateShape(r, year)
    ensures IsDateOf(r, year, month, day)
  {
    var r := IntToString(year) + "-" + Pad2(month) + "-" + Pad2(day);
    DateSplits(IntToString(year), Pad2(month), Pad2(day));
    if 0 <= month < 100 && 0 <= day < 100 then
      DateShapeOf(year, Pad2(month), Pad2(day));
      r
    else r
  }

  /** The text before and after the first `sep` at or after `from`. */
  function SplitOnce(s: string, sep: char, from: nat): Option<(string, string)> {
    match IndexOf(s, sep, from)
    case None => None
    case Some(i) => Some((s[..i], s[i + 1..]))
  }

  /** Splits at the first `:` and reads both halves. */
  function ParseTime(s: string): Option<(int, int)> {
    match SplitOnce(s, ':', 0)
    case None => None
    case Some((hh, mm)) =>
      match (ParseInt(hh), ParseInt(mm))
      case (Some(h), Some(m)) => Some((h, m))
      case _ => None
  }

  /** Splits at the first `-` that is not a leading sign, twice, and reads the parts. */
  function ParseDate(s: string): Option<(int, int, int)> {
    match SplitOnce(s, '-', 1)
    case None => None
    case Some((yy, rest)) =>
      match SplitOnce(rest, '-', 1)
      case None => None
      case Some((mm, dd)) =>
        match (ParseInt(yy), ParseInt(mm), ParseInt(dd))
        case (Some(y), Some(m), Some(d)) => Some((y, m, d))
        case _ => None
  }

  /** A signed numeral holds no separator, and a minus sign only in front. */
  lemma SignedNumeralChars(t: string, k: int)
    requires IsSignedNumeral(t) && 0 <= k < |t|
    ensures t[k] != ':'
    ensures k >= 1 ==> t[k] != '-'
  {
  }

  /** After a signed numeral, the first separator found is the one that follows it. */
  lemma SplitAfterNumeral(t: string, sep: char, u: string, from: nat)
    requires IsSignedNumeral(t) && (sep == ':' || sep == '-')
    requires from == (if sep == ':' then 0 else 1)
    ensures SplitOnce(t + [sep] + u, sep, from) == Some((t, u))
  {
    var s := t + [sep] + u;
    forall k | from <= k < |t|
      ensures s[k] != sep
    {
      SignedNumeralChars(t, k);
    }
    assert s[|t|] == sep;
    assert IndexOf(s, sep, from) == Some(|t|);
    assert s[..|t|] == t;
    assert s[|t| + 1..] == u;
  }

  /** Reading back a formatted start time yields the hour and minute. */
  lemma {:induction false} TimeRoundTrip(hour: int, minute: int)
    ensures ParseTime(FormatTime(hour, minute)) == Some((hour, minute))
  {
    var t, u := Pad2(hour), Pad2(minute);
    assert FormatTime(hour, minute) == t + [':'] + u;
    SplitAfterNumeral(t, ':', u, 0);
  }

  /** Reading back a formatted validity bound yields the year, month and day. */
  lemma {:induction false} DateRoundTrip(year: int, month: int, day: int)
    ensures ParseDate(FormatDate(year, month, day)) == Some((year, month, day))
  {
    var y, m, d := IntToString(year), Pad2(month), Pad2(day);
    assert FormatDate(year, month, day) == y + "-" + m + "-" + d;
    DateSplits(y, m, d);
    IntToStringRoundTrip(year);
  }

  /** A split string is its two parts around the separator. */
  lemma SplitOnceJoins(s: string, sep: char, from: nat)
    requires SplitOnce(s, sep, from).Some?
    ensures s == SplitOnce(s, sep, from).value.0 + [sep] + SplitOnce(s, sep, from).value.1
  {
    var i := IndexOf(s, sep, from).value;
    assert s == s[..i] + [s[i]] + s[i + 1..];
  }

  /** Python's start time has exactly one rendering, the one `FormatTime` gives. */
  lemma TimeOfUnique(t: string, hour: int, minute: int)
    requires IsTimeOf(t, hour, minute)
    ensures t == FormatTime(hour, minute)
  {
    var p := SplitOnce(t, ':', 0).value;
    SplitOnceJoins(t, ':', 0);
    PaddedOfUnique(p.0, hour);
    PaddedOfUnique(p.1, minute);
  }

  /** A validity bound in Python's form is the year, the month and the day
      rendered as `str` and `f"{x:02}"` print them, joined by dashes. */
  lemma DateOfParts(t: string, year: int, month: int, day: int)
    requires IsDateOf(t, year, month, day)
    ensures t == IntToString(year) + ['-'] + (Pad2(month) + ['-'] + Pad2(day))
  {
    var p := SplitOnce(t, '-', 1).value;
    SplitOnceJoins(t, '-', 1);
    SplitOnceJoins(p.1, '-', 1);
    DecimalOfUnique(p.0, year);
    PaddedOfUnique(SplitOnce(p.1, '-', 1).value.0, month);
    PaddedOfUnique(SplitOnce(p.1, '-', 1).value.1, day);
  }

  /** Python's validity bound has exactly one rendering, the one `FormatDate` gives. */
  lemma DateOfUnique(t: string, year: int, month: int, day: int)
    requires IsDateOf(t, year, month, day)
    ensures t == FormatDate(year, month, day)
  {
    DateOfParts(t, year, month, day);
    var y, m, d := IntToString(year), Pad2(month), Pad2(day);
    assert y + "-" + m + "-" + d == y + ['-'] + (m + ['-'] + d);
  }
}
