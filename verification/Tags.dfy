/** Image tags: reading versions and dates out of them, and the order in which
    tags are ranked. */
module Tags {
  import opened Text

  // ---------------------------------------------------------------- digits

  predicate IsDigit(c: char) {
    '0' <= c <= '9'
  }

  predicate AllDigits(s: string) {
    forall i :: 0 <= i < |s| ==> IsDigit(s[i])
  }

  /** The length of the longest prefix of digits. */
  function DigitRun(s: string): (n: nat)
    ensures n <= |s| && AllDigits(s[..n])
    ensures n < |s| ==> !IsDigit(s[n])
  {
    if s == "" || !IsDigit(s[0]) then 0 else 1 + DigitRun(s[1..])
  }

  function DigitValue(c: char): int {
    c as int - '0' as int
  }

  /** The decimal value of a string of digits. */
  function Value(s: string): int {
    if s == "" then 0 else 10 * Value(s[..|s| - 1]) + DigitValue(s[|s| - 1])
  }

  const MAX_INT: int := 0x7FFF_FFFF_FFFF_FFFF

  /** `strconv.Atoi` on digits with its error dropped: out-of-range values give
      the largest 64-bit integer. */
  function Atoi(s: string): int {
    if Value(s) <= MAX_INT then Value(s) else MAX_INT
  }

  // ---------------------------------------------------------------- versions

  datatype Version = Version(major: int, minor: int, patch: int)

  predicate Gt(a: Version, b: Version) {
    if a.major != b.major then a.major > b.major
    else if a.minor != b.minor then a.minor > b.minor
    else a.patch > b.patch
  }

  /** A run of digits followed by a dot, and what follows the dot. */
  function Component(s: string): Option<(string, string)> {
    var n := DigitRun(s);
    if n > 0 && n < |s| && s[n] == '.' then Some((s[..n], s[n + 1..])) else None
  }

  /** Matches `^v?(\d+)\.(\d+)\.(\d+)`; whatever follows the third number is ignored. */
  function ParseSemver(tag: string): Option<Version> {
    match Component(TrimPrefix(tag, "v"))
    case None => None
    case Some((major, rest)) =>
      match Component(rest)
      case None => None
      case Some((minor, rest2)) =>
        var n := DigitRun(rest2);
        if n == 0 then None else Some(Version(Atoi(major), Atoi(minor), Atoi(rest2[..n])))
  }

  predicate IsSemver(tag: string) {
    ParseSemver(tag).Some?
  }

  // ---------------------------------------------------------------- dates

  datatype Date = Date(year: string, month: string, day: string)

  predicate ValidDate(d: Date) {
    |d.year| == 4 && |d.month| == 2 && |d.day| == 2
    && AllDigits(d.year) && AllDigits(d.month) && AllDigits(d.day)
  }

  /** Matches `^(\d{4})-?(\d{2})-?(\d{2})$`. */
  function ParseDate(tag: string): (r: Option<Date>)
    ensures r.Some? ==> ValidDate(r.value)
  {
    if |tag| < 4 then None
    else
      var r := TrimPrefix(tag[4..], "-");
      if |r| < 2 then None
      else
        var date := Date(tag[..4], r[..2], TrimPrefix(r[2..], "-"));
        if ValidDate(date) then Some(date) else None
  }

  predicate IsDateTag(tag: string) {
    ParseDate(tag).Some?
  }

  /** `strings.ReplaceAll(tag, "-", "")`. */
  function NormalizeDateTag(tag: string): string {
    if tag == "" then ""
    else (if tag[0] == '-' then "" else [tag[0]]) + NormalizeDateTag(tag[1..])
  }

  // ---------------------------------------------------------------- ranking

  /** Go's string order `a < b`. */
  predicate Less(a: string, b: string) {
    b != "" && (a == "" || a[0] < b[0] || (a[0] == b[0] && Less(a[1..], b[1..])))
  }

  /** Positive when `a` ranks above `b`, negative when below: versions above dates
      above everything else. */
  function CompareTags(a: string, b: string): int {
    var aSemver, bSemver := ParseSemver(a), ParseSemver(b);
    if aSemver.Some? && bSemver.Some? then
      if Gt(aSemver.value, bSemver.value) then 1
      else if Gt(bSemver.value, aSemver.value) then -1
      else 0
    else if aSemver.Some? then 1
    else if bSemver.Some? then -1
    else if IsDateTag(a) && IsDateTag(b) then
      if Less(NormalizeDateTag(b), NormalizeDateTag(a)) then 1
      else if Less(NormalizeDateTag(a), NormalizeDateTag(b)) then -1
      else 0
    else if IsDateTag(a) then 1
    else if IsDateTag(b) then -1
    else if Less(b, a) then 1
    else if Less(a, b) then -1
    else 0
  }
}
