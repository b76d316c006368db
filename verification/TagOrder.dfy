/** The ranking of tags is a total preorder, and date tags rank by calendar. */
module TagOrder {
  import opened Text
  import opened Tags

  // ---------------------------------------------------------------- what a version looks like

  lemma {:induction false} DigitRunOf(digits: string, rest: string)
    requires AllDigits(digits) && (rest == "" || !IsDigit(rest[0]))
    ensures DigitRun(digits + rest) == |digits|
  {
    if digits == "" {
      assert digits + rest == rest;
    } else {
      assert (digits + rest)[1..] == digits[1..] + rest;
      DigitRunOf(digits[1..], rest);
    }
  }

  lemma ComponentOf(digits: string, rest: string)
    requires digits != "" && AllDigits(digits)
    ensures Component(digits + "." + rest) == Some((digits, rest))
  {
    assert digits + "." + rest == digits + ("." + rest);
    DigitRunOf(digits, "." + rest);
    assert (digits + "." + rest)[|digits| + 1..] == rest;
  }

  /** The parts of the text of a version. */
  predicate VersionParts(mark: string, a: string, b: string, c: string, rest: string) {
    && mark in {"", "v"}
    && a != "" && AllDigits(a) && b != "" && AllDigits(b) && c != "" && AllDigits(c)
    && (rest == "" || !IsDigit(rest[0]))
  }

  /** A version is three numbers between dots, with or without `v` before them,
      whatever comes after them. */
  lemma VersionIsParsed(mark: string, a: string, b: string, c: string, rest: string)
    requires VersionParts(mark, a, b, c, rest)
    ensures ParseSemver(mark + (a + "." + (b + "." + (c + rest)))) == Some(Version(Atoi(a), Atoi(b), Atoi(c)))
  {
    var tail := a + "." + (b + "." + (c + rest));
    assert TrimPrefix(mark + tail, "v") == tail by {
      assert tail[0] == a[0] && IsDigit(tail[0]);
      assert mark == "" ==> mark + tail == tail;
    }
    ComponentOf(a, b + "." + (c + rest));
    ComponentOf(b, c + rest);
    DigitRunOf(c, rest);
    assert (c + rest)[..|c|] == c;
  }

  lemma ComponentIs(s: string) returns (digits: string, rest: string)
    requires Component(s).Some?
    ensures Component(s) == Some((digits, rest)) && s == digits + "." + rest
    ensures digits != "" && AllDigits(digits)
  {
    digits, rest := s[..DigitRun(s)], s[DigitRun(s) + 1..];
  }

  /** Nothing else is taken for a version. */
  lemma ParsedIsVersion(tag: string)
    returns (mark: string, a: string, b: string, c: string, rest: string)
    requires IsSemver(tag)
    ensures VersionParts(mark, a, b, c, rest) && tag == mark + (a + "." + (b + "." + (c + rest)))
  {
    mark := if HasPrefix(tag, "v") then "v" else "";
    var s, s2;
    a, s := ComponentIs(TrimPrefix(tag, "v"));
    b, s2 := ComponentIs(s);
    var n := DigitRun(s2);
    c, rest := s2[..n], s2[n..];
    assert c + rest == s2;
    assert tag == mark + TrimPrefix(tag, "v");
  }

  // ---------------------------------------------------------------- the string order

  lemma {:induction false} LessTotal(a: string, b: string)
    ensures !(Less(a, b) && Less(b, a))
    ensures Less(a, b) || Less(b, a) || a == b
    decreases |a|
  {
    if a != "" && b != "" && a[0] == b[0] {
      LessTotal(a[1..], b[1..]);
      assert a == [a[0]] + a[1..] && b == [b[0]] + b[1..];
    }
  }

  lemma {:induction false} LessTransitive(a: string, b: string, c: string)
    requires Less(a, b) && Less(b, c)
    ensures Less(a, c)
    decreases |a|
  {
    if a != "" && a[0] == b[0] == c[0] {
      LessTransitive(a[1..], b[1..], c[1..]);
    }
  }

  lemma LessIrreflexive(a: string)
    ensures !Less(a, a)
  {
    LessTotal(a, a);
  }

  /** Strings of equal length in front are compared first. */
  lemma {:induction false} LessConcat(a: string, x: string, b: string, y: string)
    requires |a| == |b|
    ensures Less(a + x, b + y) <==> Less(a, b) || (a == b && Less(x, y))
    decreases |a|
  {
    if a == "" {
      assert a + x == x && b + y == y;
    } else {
      LessConcat(a[1..], x, b[1..], y);
      assert (a + x)[1..] == a[1..] + x && (b + y)[1..] == b[1..] + y;
      assert a == [a[0]] + a[1..] && b == [b[0]] + b[1..];
    }
  }

  /** Digit strings of equal length are ordered as the numbers they denote. */
  lemma {:induction false} LessIsNumeric(a: string, b: string)
    requires |a| == |b| && AllDigits(a) && AllDigits(b)
    ensures Less(a, b) <==> Value(a) < Value(b)
    ensures a == b <==> Value(a) == Value(b)
    decreases |a|
  {
    if a != "" {
      var n := |a| - 1;
      var x, y := a[n..], b[n..];
      LessIsNumeric(a[..n], b[..n]);
      LessConcat(a[..n], x, b[..n], y);
      assert a == a[..n] + x && b == b[..n] + y && x == [a[n]] && y == [b[n]];
      assert Less(x, y) <==> a[n] < b[n] by {
        assert x[1..] == "" && y[1..] == "";
      }
      assert IsDigit(a[n]) && IsDigit(b[n]);
    }
  }

  // ---------------------------------------------------------------- the preorder

  lemma {:induction false} GtTransitive(a: Version, b: Version, c: Version)
    requires !Gt(b, a) && !Gt(c, b)
    ensures !Gt(c, a)
  {
  }

  /** No tag ranks above itself, and swapping two tags flips the sign. */
  lemma CompareAntisymmetric(a: string, b: string)
    ensures CompareTags(a, a) == 0
    ensures CompareTags(a, b) == -CompareTags(b, a)
  {
    LessIrreflexive(a);
    LessIrreflexive(NormalizeDateTag(a));
    LessTotal(a, b);
    LessTotal(NormalizeDateTag(a), NormalizeDateTag(b));
  }

  lemma NotLessTransitive(a: string, b: string, c: string)
    requires !Less(a, b) && !Less(b, c)
    ensures !Less(a, c)
  {
    LessTotal(a, b);
    LessTotal(b, c);
    LessTotal(a, c);
    if Less(b, a) && Less(c, b) {
      LessTransitive(c, b, a);
    }
  }

  /** Ranking at least as high is transitive over all strings. */
  lemma CompareTransitive(a: string, b: string, c: string)
    requires CompareTags(a, b) >= 0 && CompareTags(b, c) >= 0
    ensures CompareTags(a, c) >= 0
    ensures CompareTags(a, b) > 0 || CompareTags(b, c) > 0 ==> CompareTags(a, c) > 0
  {
    CompareWeakTransitive(a, b, c);
    CompareAntisymmetric(a, b);
    CompareAntisymmetric(b, c);
    CompareAntisymmetric(a, c);
    if CompareTags(a, c) == 0 {
      CompareWeakTransitive(c, a, b);
      CompareWeakTransitive(b, c, a);
    }
  }

  lemma CompareWeakTransitive(a: string, b: string, c: string)
    requires CompareTags(a, b) >= 0 && CompareTags(b, c) >= 0
    ensures CompareTags(a, c) >= 0
  {
    if IsSemver(a) && IsSemver(b) && IsSemver(c) {
      GtTransitive(ParseSemver(a).value, ParseSemver(b).value, ParseSemver(c).value);
    } else if !IsSemver(a) && !IsSemver(b) && !IsSemver(c) {
      LessTotal(a, b);
      LessTotal(b, c);
      LessTotal(NormalizeDateTag(a), NormalizeDateTag(b));
      LessTotal(NormalizeDateTag(b), NormalizeDateTag(c));
      if IsDateTag(a) && IsDateTag(b) && IsDateTag(c) {
        NotLessTransitive(NormalizeDateTag(a), NormalizeDateTag(b), NormalizeDateTag(c));
      } else if !IsDateTag(a) && !IsDateTag(b) && !IsDateTag(c) {
        NotLessTransitive(a, b, c);
      }
    }
  }

  // ---------------------------------------------------------------- classes

  /** Every version outranks every date, and every date every other tag. */
  lemma ClassesRank(a: string, b: string)
    ensures IsSemver(a) && !IsSemver(b) ==> CompareTags(a, b) > 0 > CompareTags(b, a)
    ensures IsDateTag(a) && !IsSemver(b) && !IsDateTag(b) ==> CompareTags(a, b) > 0 > CompareTags(b, a)
  {
    if IsDateTag(a) {
      DateIsNotSemver(a);
    }
  }

  /** The first string comes before the second: at the first place where they differ it
      has the smaller character, or it ends there. */
  ghost predicate StringBefore(a: string, b: string) {
    exists n: nat :: n <= |a| && n < |b| && a[..n] == b[..n] && (n == |a| || a[n] < b[n])
  }

  lemma {:induction false} LessIsBefore(a: string, b: string)
    ensures Less(a, b) <==> StringBefore(a, b)
    decreases |a|
  {
    if a != "" && b != "" && a[0] == b[0] {
      LessIsBefore(a[1..], b[1..]);
      if StringBefore(a[1..], b[1..]) {
        var n: nat :| n <= |a[1..]| && n < |b[1..]| && a[1..][..n] == b[1..][..n]
                      && (n == |a[1..]| || a[1..][n] < b[1..][n]);
        assert a[..n + 1] == [a[0]] + a[1..][..n] && b[..n + 1] == [b[0]] + b[1..][..n];
      }
      if StringBefore(a, b) {
        var n: nat :| n <= |a| && n < |b| && a[..n] == b[..n] && (n == |a| || a[n] < b[n]);
        assert a[1..][..n - 1] == a[..n][1..] && b[1..][..n - 1] == b[..n][1..];
      }
    } else if a == "" && b != "" {
      assert a[..0] == b[..0];
    } else if a != "" && b != "" {
      assert a[..0] == b[..0];
      assert forall n: nat :: 0 < n <= |a| && n < |b| && a[..n] == b[..n] ==> a[..n][0] == b[..n][0];
    }
  }

  /** Tags that are neither versions nor dates rank as strings do. */
  lemma OthersRankAsStrings(a: string, b: string)
    requires !IsSemver(a) && !IsDateTag(a) && !IsSemver(b) && !IsDateTag(b)
    ensures CompareTags(a, b) < 0 <==> StringBefore(a, b)
    ensures CompareTags(a, b) == 0 <==> a == b
  {
    LessIsBefore(a, b);
    LessTotal(a, b);
  }

  // ---------------------------------------------------------------- what a date looks like

  /** The parts of the text of a date. */
  predicate DateParts(year: string, sep: string, month: string, sep': string, day: string) {
    && |year| == 4 && |month| == 2 && |day| == 2 && AllDigits(year) && AllDigits(month) && AllDigits(day)
    && sep in {"", "-"} && sep' in {"", "-"}
  }

  /** A date is four, two and two digits, with or without hyphens between them. */
  lemma DateIsParsed(year: string, sep: string, month: string, sep': string, day: string)
    requires DateParts(year, sep, month, sep', day)
    ensures ParseDate(year + (sep + (month + (sep' + day)))) == Some(Date(year, month, day))
  {
    var tag := year + (sep + (month + (sep' + day)));
    assert tag[..4] == year && tag[4..] == sep + (month + (sep' + day));
    HyphenTaken(sep, month + (sep' + day));
    var r := month + (sep' + day);
    assert r[..2] == month && r[2..] == sep' + day;
    HyphenTaken(sep', day);
  }

  lemma HyphenTaken(sep: string, rest: string)
    requires sep in {"", "-"} && rest != "" && IsDigit(rest[0])
    ensures TrimPrefix(sep + rest, "-") == rest
  {
    if sep == "" {
      assert sep + rest == rest;
    }
  }

  /** Nothing else is taken for a date. */
  lemma ParsedIsDate(tag: string) returns (year: string, sep: string, month: string, sep': string, day: string)
    requires IsDateTag(tag)
    ensures DateParts(year, sep, month, sep', day) && tag == year + (sep + (month + (sep' + day)))
    ensures ParseDate(tag) == Some(Date(year, month, day))
  {
    var d := ParseDate(tag).value;
    year, month, day := d.year, d.month, d.day;
    var r := TrimPrefix(tag[4..], "-");
    sep := if HasPrefix(tag[4..], "-") then "-" else "";
    sep' := if HasPrefix(r[2..], "-") then "-" else "";
    assert r[2..] == sep' + day && r == month + r[2..] && tag[4..] == sep + r;
  }

  // ---------------------------------------------------------------- calendar order

  lemma {:induction false} NormalizeDigits(s: string, rest: string)
    requires AllDigits(s)
    ensures NormalizeDateTag(s + rest) == s + NormalizeDateTag(rest)
    decreases |s|
  {
    if s == "" {
      assert s + rest == rest;
    } else {
      assert (s + rest)[1..] == s[1..] + rest;
      NormalizeDigits(s[1..], rest);
      assert [s[0]] + (s[1..] + NormalizeDateTag(rest)) == s + NormalizeDateTag(rest);
    }
  }

  lemma NormalizeHyphen(s: string)
    ensures NormalizeDateTag(s) == NormalizeDateTag(TrimPrefix(s, "-"))
  {
  }

  /** Without its hyphens a date tag is year, month and day in a row. */
  lemma NormalizeDate(tag: string)
    requires IsDateTag(tag)
    ensures var d := ParseDate(tag).value; NormalizeDateTag(tag) == d.year + (d.month + d.day)
  {
    var d := ParseDate(tag).value;
    var r := TrimPrefix(tag[4..], "-");
    assert tag == d.year + tag[4..];
    NormalizeDigits(d.year, tag[4..]);
    NormalizeHyphen(tag[4..]);
    assert r == d.month + r[2..];
    NormalizeDigits(d.month, r[2..]);
    NormalizeHyphen(r[2..]);
    NormalizeDigits(d.day, "");
    assert d.day + "" == d.day;
  }

  predicate Before(a: Date, b: Date) {
    var (ya, yb) := (Value(a.year), Value(b.year));
    var (ma, mb) := (Value(a.month), Value(b.month));
    if ya != yb then ya < yb
    else if ma != mb then ma < mb
    else Value(a.day) < Value(b.day)
  }

  lemma DateHasNoDot(tag: string, i: nat)
    requires IsDateTag(tag) && i < |tag|
    ensures IsDigit(tag[i]) || tag[i] == '-'
  {
    var d := ParseDate(tag).value;
    var r := TrimPrefix(tag[4..], "-");
    if i < 4 {
      assert tag[i] == d.year[i];
    } else if i >= |tag| - |r| {
      RestHasNoDot(r, d, i - (|tag| - |r|));
    }
  }

  lemma RestHasNoDot(r: string, d: Date, i: nat)
    requires |r| >= 2 && ValidDate(d) && d.month == r[..2] && d.day == TrimPrefix(r[2..], "-") && i < |r|
    ensures IsDigit(r[i]) || r[i] == '-'
  {
    if i < 2 {
      assert r[i] == d.month[i];
    } else if i >= |r| - 2 {
      assert r[i] == d.day[i - (|r| - 2)];
    }
  }

  /** Date tags are never versions and rank by year, then month, then day. */
  lemma DatesRankByCalendar(a: string, b: string)
    requires IsDateTag(a) && IsDateTag(b)
    ensures CompareTags(a, b) < 0 <==> Before(ParseDate(a).value, ParseDate(b).value)
    ensures CompareTags(a, b) == 0 <==> ParseDate(a) == ParseDate(b)
  {
    DateIsNotSemver(a);
    DateIsNotSemver(b);
    NormalizeDate(a);
    NormalizeDate(b);
    var d, e := ParseDate(a).value, ParseDate(b).value;
    CalendarOrder(d, e);
    CalendarOrder(e, d);
  }

  lemma CalendarOrder(d: Date, e: Date)
    requires ValidDate(d) && ValidDate(e)
    ensures Less(d.year + (d.month + d.day), e.year + (e.month + e.day)) <==> Before(d, e)
    ensures !Before(d, e) && !Before(e, d) <==> d == e
  {
    LessConcat(d.year, d.month + d.day, e.year, e.month + e.day);
    LessConcat(d.month, d.day, e.month, e.day);
    LessIsNumeric(d.year, e.year);
    LessIsNumeric(d.month, e.month);
    LessIsNumeric(d.day, e.day);
  }

  lemma DateIsNotSemver(tag: string)
    requires IsDateTag(tag)
    ensures !IsSemver(tag)
  {
    assert IsDigit(tag[0]) by { DateHasNoDot(tag, 0); assert tag[0] == ParseDate(tag).value.year[0]; }
    assert TrimPrefix(tag, "v") == tag;
    var n := DigitRun(tag);
    if n < |tag| {
      DateHasNoDot(tag, n);
    }
  }

  // ---------------------------------------------------------------- search results

  /** The first ranks at least as high as the second. */
  predicate AtLeast(a: string, b: string) {
    CompareTags(a, b) >= 0
  }

  /** What sorting newest first guarantees of neighbours. */
  ghost predicate SortedBy<T(!new)>(atLeast: (T, T) -> bool, s: seq<T>) {
    forall i, j :: 0 <= i < j < |s| && j == i + 1 ==> atLeast(s[i], s[j])
  }

  lemma {:induction false} SortedRanks<T(!new)>(atLeast: (T, T) -> bool, s: seq<T>, i: nat, j: nat)
    requires forall a, b, c :: atLeast(a, b) && atLeast(b, c) ==> atLeast(a, c)
    requires SortedBy(atLeast, s) && i < j < |s|
    ensures atLeast(s[i], s[j])
    decreases j
  {
    if i + 1 < j {
      SortedRanks(atLeast, s, i, j - 1);
      assert atLeast(s[j - 1], s[j]);
    }
  }

  /** Of the tags found, each of the 50 kept ranks at least as high as each one dropped. */
  lemma KeptOutrankDropped(found: seq<string>, sorted: seq<string>, kept: string, dropped: string)
    requires multiset(sorted) == multiset(found) && SortedBy(AtLeast, sorted) && |sorted| > 50
    requires kept in sorted[..50]
    requires dropped in multiset(found) - multiset(sorted[..50])
    ensures CompareTags(kept, dropped) >= 0
  {
    assert sorted == sorted[..50] + sorted[50..];
    assert dropped in multiset(sorted[50..]);
    var i :| 0 <= i < 50 && sorted[i] == kept;
    var j :| 50 <= j < |sorted| && sorted[j] == dropped;
    forall a, b, c | AtLeast(a, b) && AtLeast(b, c)
      ensures AtLeast(a, c)
    {
      CompareTransitive(a, b, c);
    }
    SortedRanks(AtLeast, sorted, i, j);
  }
}
