/** How far the ranking of version tags meets the precedence of SemVer 2.0.0,
    section 11: numbers beyond 64 bits are read as the largest one that fits. */
module VersionOrder {
  import opened Text
  import opened Tags
  import opened TagOrder

  /** The parts of a version tag. */
  datatype VersionText = VersionText(mark: string, major: string, minor: string, patch: string, rest: string)

  predicate WellFormed(v: VersionText) {
    VersionParts(v.mark, v.major, v.minor, v.patch, v.rest)
  }

  function TagOf(v: VersionText): string {
    v.mark + (v.major + "." + (v.minor + "." + (v.patch + v.rest)))
  }

  /** Precedence, by the numbers as they are written. */
  predicate Precedes(v: VersionText, w: VersionText) {
    if Value(v.major) != Value(w.major) then Value(v.major) < Value(w.major)
    else if Value(v.minor) != Value(w.minor) then Value(v.minor) < Value(w.minor)
    else Value(v.patch) < Value(w.patch)
  }

  /** The tags rank below, above and level as the versions do by precedence. */
  predicate RankByPrecedence(v: VersionText, w: VersionText) {
    && (CompareTags(TagOf(v), TagOf(w)) < 0 <==> Precedes(v, w))
    && (CompareTags(TagOf(v), TagOf(w)) > 0 <==> Precedes(w, v))
  }

  /** Both numbers are 2^63 - 1 or more. */
  predicate BothLarge(a: string, b: string) {
    Value(a) >= 9_223_372_036_854_775_807 && Value(b) >= 9_223_372_036_854_775_807
  }

  /** At the first numbers that differ, not both are too large, or the numbers after
      them, capped, decide the same way. */
  predicate Decided(v: VersionText, w: VersionText) {
    if Value(v.major) != Value(w.major) then
      BothLarge(v.major, w.major) ==>
        if Value(v.major) < Value(w.major) then CappedLess(v, w) else CappedLess(w, v)
    else if Value(v.minor) != Value(w.minor) then
      BothLarge(v.minor, w.minor) ==>
        if Value(v.minor) < Value(w.minor) then Atoi(v.patch) < Atoi(w.patch) else Atoi(w.patch) < Atoi(v.patch)
    else
      Value(v.patch) != Value(w.patch) ==> !BothLarge(v.patch, w.patch)
  }

  /** Minor and patch, capped, in order. */
  predicate CappedLess(v: VersionText, w: VersionText) {
    Atoi(v.minor) < Atoi(w.minor) || (Atoi(v.minor) == Atoi(w.minor) && Atoi(v.patch) < Atoi(w.patch))
  }

  lemma VersionOf(v: VersionText)
    requires WellFormed(v)
    ensures ParseSemver(TagOf(v)) == Some(Version(Atoi(v.major), Atoi(v.minor), Atoi(v.patch)))
  {
    VersionIsParsed(v.mark, v.major, v.minor, v.patch, v.rest);
  }

  /** Precedence, by the numbers as they are read. */
  predicate ReadsBefore(v: VersionText, w: VersionText) {
    Atoi(v.major) < Atoi(w.major) || (Atoi(v.major) == Atoi(w.major) && CappedLess(v, w))
  }

  lemma VersionsCompare(v: VersionText, w: VersionText)
    requires WellFormed(v) && WellFormed(w)
    ensures CompareTags(TagOf(v), TagOf(w)) < 0 <==> ReadsBefore(v, w)
    ensures CompareTags(TagOf(v), TagOf(w)) > 0 <==> ReadsBefore(w, v)
  {
    VersionOf(v);
    VersionOf(w);
  }

  lemma AtoiCompares(a: string, b: string)
    ensures Value(a) == Value(b) ==> Atoi(a) == Atoi(b)
    ensures Value(a) < Value(b) ==> if BothLarge(a, b) then Atoi(a) == Atoi(b) else Atoi(a) < Atoi(b)
    ensures Value(a) > Value(b) ==> if BothLarge(a, b) then Atoi(a) == Atoi(b) else Atoi(a) > Atoi(b)
  {
  }

  /** Reading the numbers keeps precedence exactly where it is decided. */
  lemma ReadsAsWritten(v: VersionText, w: VersionText)
    ensures (ReadsBefore(v, w) <==> Precedes(v, w)) && (ReadsBefore(w, v) <==> Precedes(w, v)) <==> Decided(v, w)
  {
    AtoiCompares(v.major, w.major);
    if Value(v.major) == Value(w.major) {
      AtoiCompares(v.minor, w.minor);
      if Value(v.minor) == Value(w.minor) {
        AtoiCompares(v.patch, w.patch);
      }
    }
  }

  /** Version tags rank by precedence, whatever their `v` and whatever follows the
      numbers, exactly when the first differing numbers can be told apart or the
      later ones make up for it. */
  lemma VersionsRankByPrecedence(v: VersionText, w: VersionText)
    requires WellFormed(v) && WellFormed(w)
    ensures RankByPrecedence(v, w) <==> Decided(v, w)
  {
    VersionsCompare(v, w);
    ReadsAsWritten(v, w);
  }

  /** Two numbers that are read as the same one. */
  predicate SameNumber(a: string, b: string) {
    Value(a) == Value(b) || BothLarge(a, b)
  }

  lemma SameAtoi(a: string, b: string)
    ensures Atoi(a) == Atoi(b) <==> SameNumber(a, b)
  {
  }

  /** Version tags tie exactly when at each position their numbers are equal or both
      too large. */
  lemma VersionsTie(v: VersionText, w: VersionText)
    requires WellFormed(v) && WellFormed(w)
    ensures CompareTags(TagOf(v), TagOf(w)) == 0
       <==> SameNumber(v.major, w.major) && SameNumber(v.minor, w.minor) && SameNumber(v.patch, w.patch)
  {
    VersionsCompare(v, w);
    SameAtoi(v.major, w.major);
    SameAtoi(v.minor, w.minor);
    SameAtoi(v.patch, w.patch);
  }

  // ---------------------------------------------------------------- a failing pair

  function Pow10(n: nat): int {
    if n == 0 then 1 else 10 * Pow10(n - 1)
  }

  lemma {:induction false} LongNumber(s: string)
    requires s != "" && AllDigits(s) && s[0] != '0'
    ensures Value(s) >= Pow10(|s| - 1)
  {
    if |s| == 1 {
      assert s[..0] == "";
    } else {
      LongNumber(s[..|s| - 1]);
    }
  }

  lemma TwentyDigitsAreLarge(s: string)
    requires |s| == 20 && AllDigits(s) && s[0] != '0'
    ensures Value(s) > MAX_INT
  {
    LongNumber(s);
    assert Pow10(5) == 100_000;
    assert Pow10(10) == 10_000_000_000;
    assert Pow10(15) == 1_000_000_000_000_000;
    assert Pow10(19) == 10_000_000_000_000_000_000;
  }

  /** A one and nineteen zeros, and a two and nineteen zeros: the first precedes the
      second, and the tags tie. */
  const LOW := "10000000000000000000"
  const HIGH := "20000000000000000000"

  lemma LargeVersionsTie(low: string, high: string)
    requires low == LOW && high == HIGH
    ensures var v, w := VersionText("", low, "0", "0", ""), VersionText("", high, "0", "0", "");
      && WellFormed(v) && WellFormed(w)
      && Precedes(v, w) && CompareTags(TagOf(v), TagOf(w)) == 0 && !RankByPrecedence(v, w)
  {
    var v, w := VersionText("", low, "0", "0", ""), VersionText("", high, "0", "0", "");
    TwentyDigitsAreLarge(low);
    TwentyDigitsAreLarge(high);
    LessIsNumeric(low, high);
    VersionsTie(v, w);
  }
}
