/** Searching a tag list for the newest tag above the current one. */
module NewestTag {
  import opened Text
  import opened Tags
  import opened TagOrder

  /** Tags of one class: versions with the same `v` style, or dates in any form. */
  predicate Comparable(current: string, t: string) {
    if IsSemver(current) then IsSemver(t) && (HasPrefix(t, "v") <==> HasPrefix(current, "v"))
    else IsDateTag(current) && IsDateTag(t)
  }

  predicate Newer(current: string, t: string) {
    Comparable(current, t) && CompareTags(t, current) > 0
  }

  /** The best tag among `current` and the list: later tags win only by ranking
      strictly above. */
  function Best(current: string, tags: seq<string>): string {
    if tags == [] then current
    else
      var best, t := Best(current, tags[..|tags| - 1]), tags[|tags| - 1];
      if Comparable(current, t) && CompareTags(t, best) > 0 then t else best
  }

  function Newest(current: string, tags: seq<string>): Option<string> {
    var best := Best(current, tags);
    if best == current then None else Some(best)
  }

  /** No comparable tag of the list ranks above `best`. */
  predicate Tops(current: string, tags: seq<string>, best: string) {
    forall j :: 0 <= j < |tags| && Comparable(current, tags[j]) ==> CompareTags(tags[j], best) <= 0
  }

  /** No comparable tag of the list ranks as high as `best`. */
  predicate Clears(current: string, tags: seq<string>, best: string) {
    forall j :: 0 <= j < |tags| && Comparable(current, tags[j]) ==> CompareTags(tags[j], best) < 0
  }

  /** The tag at `i` is strictly newer, no comparable tag ranks above it, and none
      before it in the list ranks as high. */
  predicate IsNewestAt(current: string, tags: seq<string>, i: nat) {
    i < |tags| && Newer(current, tags[i]) && Tops(current, tags, tags[i]) && Clears(current, tags[..i], tags[i])
  }

  lemma Below(a: string, b: string, c: string)
    requires CompareTags(a, b) <= 0 && CompareTags(c, b) > 0
    ensures CompareTags(a, c) < 0
  {
    CompareAntisymmetric(a, b);
    CompareTransitive(c, b, a);
    CompareAntisymmetric(a, c);
  }

  lemma TopsThenClears(current: string, tags: seq<string>, best: string, t: string)
    requires Tops(current, tags, best) && CompareTags(t, best) > 0
    ensures Clears(current, tags, t)
  {
    forall j | 0 <= j < |tags| && Comparable(current, tags[j])
      ensures CompareTags(tags[j], t) < 0
    {
      Below(tags[j], best, t);
    }
  }

  lemma TopsOneMore(current: string, tags: seq<string>, best: string)
    requires tags != [] && Tops(current, tags[..|tags| - 1], best)
    requires Comparable(current, tags[|tags| - 1]) ==> CompareTags(tags[|tags| - 1], best) <= 0
    ensures Tops(current, tags, best)
  {
    forall j | 0 <= j < |tags| && Comparable(current, tags[j])
      ensures CompareTags(tags[j], best) <= 0
    {
      if j < |tags| - 1 {
        assert tags[j] == tags[..|tags| - 1][j];
      }
    }
  }

  lemma ClearsIsTops(current: string, tags: seq<string>, best: string)
    requires Clears(current, tags, best)
    ensures Tops(current, tags, best)
  {
  }

  /** The best tag tops the list and ranks at least as high as the current one. */
  lemma {:induction false} BestTops(current: string, tags: seq<string>)
    ensures Tops(current, tags, Best(current, tags))
    ensures Best(current, tags) == current || Newer(current, Best(current, tags))
  {
    if tags != [] {
      var front, t := tags[..|tags| - 1], tags[|tags| - 1];
      var best := Best(current, front);
      BestTops(current, front);
      if Comparable(current, t) && CompareTags(t, best) > 0 {
        TopsThenClears(current, front, best, t);
        ClearsIsTops(current, front, t);
        CompareAntisymmetric(t, t);
        TopsOneMore(current, tags, t);
        if best != current {
          Chain(t, best, current);
        }
      } else {
        TopsOneMore(current, tags, best);
      }
    }
  }

  /** A best tag other than the current one is the first to attain the maximum. */
  lemma {:induction false} BestPlace(current: string, tags: seq<string>) returns (i: nat)
    requires Best(current, tags) != current
    ensures i < |tags| && tags[i] == Best(current, tags) && Clears(current, tags[..i], tags[i])
  {
    var n := |tags| - 1;
    var best := Best(current, tags[..n]);
    if Best(current, tags) == best {
      i := BestPlace(current, tags[..n]);
      assert tags[..n][..i] == tags[..i];
    } else {
      i := n;
      BestTops(current, tags[..n]);
      TopsThenClears(current, tags[..n], best, tags[n]);
    }
  }

  lemma Chain(a: string, b: string, c: string)
    requires CompareTags(a, b) > 0 && CompareTags(b, c) >= 0
    ensures CompareTags(a, c) > 0
  {
    CompareTransitive(a, b, c);
  }

  /** A newer tag is found exactly when there is one, and it is the first of the
      newest. */
  lemma NewestSpec(current: string, tags: seq<string>)
    ensures Newest(current, tags).Some? <==> exists i :: 0 <= i < |tags| && Newer(current, tags[i])
    ensures Newest(current, tags).Some? ==>
      exists i :: 0 <= i < |tags| && tags[i] == Newest(current, tags).value && IsNewestAt(current, tags, i)
  {
    BestTops(current, tags);
    if Best(current, tags) != current {
      var i := BestPlace(current, tags);
      assert IsNewestAt(current, tags, i);
    }
  }

  /** Only one place in the list can hold the newest tag of a class. */
  lemma NewestPlaceIsUnique(a: string, b: string, tags: seq<string>, i: nat, k: nat)
    requires IsNewestAt(a, tags, i) && IsNewestAt(b, tags, k)
    requires Comparable(a, tags[k]) && Comparable(b, tags[i])
    ensures i == k
  {
    assert k < i ==> tags[k] in tags[..i];
    assert i < k ==> tags[i] in tags[..k];
    CompareAntisymmetric(tags[i], tags[k]);
  }

  /** The answer is the same for every current tag of the class below it. */
  lemma NewestIsShared(a: string, b: string, tags: seq<string>)
    requires Newest(a, tags).Some?
    requires Comparable(a, b) && CompareTags(b, Newest(a, tags).value) < 0
    ensures Newest(b, tags) == Newest(a, tags)
  {
    NewestSpec(a, tags);
    var i :| 0 <= i < |tags| && tags[i] == Newest(a, tags).value && IsNewestAt(a, tags, i);
    SameClass(a, b, tags[i]);
    CompareAntisymmetric(b, tags[i]);
    assert Newer(b, tags[i]);
    NewestSpec(b, tags);
    var k :| 0 <= k < |tags| && tags[k] == Newest(b, tags).value && IsNewestAt(b, tags, k);
    SameClass(a, b, tags[k]);
    NewestPlaceIsUnique(a, b, tags, i, k);
  }

  /** Two current tags of one class never get different answers. */
  lemma NewestIsSame(a: string, b: string, tags: seq<string>)
    requires Comparable(a, b) && Newest(a, tags).Some? && Newest(b, tags).Some?
    ensures Newest(a, tags) == Newest(b, tags)
  {
    NewestSpec(a, tags);
    NewestSpec(b, tags);
    var i :| 0 <= i < |tags| && tags[i] == Newest(a, tags).value && IsNewestAt(a, tags, i);
    var k :| 0 <= k < |tags| && tags[k] == Newest(b, tags).value && IsNewestAt(b, tags, k);
    SameClass(a, b, tags[i]);
    SameClass(a, b, tags[k]);
    NewestPlaceIsUnique(a, b, tags, i, k);
  }

  lemma SameClass(a: string, b: string, t: string)
    requires Comparable(a, b)
    ensures Comparable(b, t) <==> Comparable(a, t)
  {
    if !IsSemver(a) {
      DateIsNotSemver(b);
    }
  }

  /** Nothing is newer than the newest tag. */
  lemma NewestIsFinal(current: string, tags: seq<string>)
    requires Newest(current, tags).Some?
    ensures Newest(Newest(current, tags).value, tags) == None
  {
    var best := Newest(current, tags).value;
    BestTops(current, tags);
    NewestSpec(best, tags);
    forall i | 0 <= i < |tags|
      ensures !Newer(best, tags[i])
    {
      SameClass(current, best, tags[i]);
    }
  }

  lemma OneNewer(current: string, t: string)
    requires Newer(current, t)
    ensures Newest(current, [t]) == Some(t)
  {
    var tags := [t];
    assert Newer(current, tags[0]);
    NewestSpec(current, tags);
  }

  /** From `1.0.0` the search finds `1.2.0`. */
  lemma SearchSample(a: string, c: string)
    requires a == "1." + "0" + ".0" && c == "1." + "2" + ".0"
    ensures Newest(a, [c]) == Some(c)
  {
    SampleVersion(a, "1", "0", "0");
    SampleVersion(c, "1", "2", "0");
    OneNewer(a, c);
  }

  lemma SampleVersion(tag: string, major: string, minor: string, patch: string)
    requires |major| == |minor| == |patch| == 1 && IsDigit(major[0]) && IsDigit(minor[0]) && IsDigit(patch[0])
    requires tag == major + "." + minor + "." + patch
    ensures ParseSemver(tag) == Some(Version(DigitValue(major[0]), DigitValue(minor[0]), DigitValue(patch[0])))
  {
    OneDigit(major);
    OneDigit(minor);
    OneDigit(patch);
    VersionIsParsed("", major, minor, patch, "");
    assert tag == "" + (major + "." + (minor + "." + (patch + "")));
  }

  lemma OneDigit(s: string)
    requires |s| == 1 && IsDigit(s[0])
    ensures AllDigits(s) && Value(s) == DigitValue(s[0]) && Atoi(s) == Value(s)
  {
    assert s[..0] == "";
  }

  // ---------------------------------------------------------------- the search loops

  lemma BestStep(current: string, tags: seq<string>, k: nat)
    requires k < |tags|
    ensures var best, t := Best(current, tags[..k]), tags[k];
      Best(current, tags[..k + 1]) == if Comparable(current, t) && CompareTags(t, best) > 0 then t else best
    ensures tags[k] == current ==> Best(current, tags[..k + 1]) == Best(current, tags[..k])
  {
    assert tags[..k + 1][..k] == tags[..k];
    BestTops(current, tags[..k]);
    CompareAntisymmetric(current, Best(current, tags[..k]));
  }

  /** One step of the search from a date, as the date loop takes it. */
  lemma DateStep(current: string, tags: seq<string>, k: nat, best: string)
    requires k < |tags| && (IsDateTag(current) ==> best == Best(current, tags[..k]) && IsDateTag(best))
    ensures IsDateTag(current) ==>
      Best(current, tags[..k + 1])
        == if tags[k] != current && IsDateTag(tags[k]) && Less(NormalizeDateTag(best), NormalizeDateTag(tags[k]))
           then tags[k] else best
  {
    if IsDateTag(current) {
      BestStep(current, tags, k);
      DateIsNotSemver(current);
      DateIsNotSemver(best);
      if IsDateTag(tags[k]) {
        DateIsNotSemver(tags[k]);
      }
    }
  }

  method FindNewerSemver(current: string, tags: seq<string>) returns (r: Option<string>)
    ensures r == if IsSemver(current) then Newest(current, tags) else None
  {
    if !IsSemver(current) {
      return None;
    }
    var best, original := ParseSemver(current).value, current;
    for k := 0 to |tags|
      invariant original == Best(current, tags[..k]) && ParseSemver(original) == Some(best)
    {
      var t := tags[k];
      BestStep(current, tags, k);
      if t == current {
        continue;
      }
      if HasPrefix(t, "v") != HasPrefix(current, "v") {
        continue;
      }
      var candidate := ParseSemver(t);
      if candidate == None {
        continue;
      }
      if Gt(candidate.value, best) {
        best, original := candidate.value, t;
      }
    }
    assert tags[..|tags|] == tags;
    return if original == current then None else Some(original);
  }

  /** No date of the list is later, or none as late, as the given one. */
  predicate NoDateAfter(tags: seq<string>, norm: string) {
    forall j :: 0 <= j < |tags| && IsDateTag(tags[j]) ==> !Less(norm, NormalizeDateTag(tags[j]))
  }

  predicate AllDatesBefore(tags: seq<string>, norm: string) {
    forall j :: 0 <= j < |tags| && IsDateTag(tags[j]) ==> Less(NormalizeDateTag(tags[j]), norm)
  }

  /** The tag at `i` is the first of the latest dates of the list, and after `norm`. */
  predicate IsLatestAt(norm: string, tags: seq<string>, i: nat) {
    && i < |tags| && IsDateTag(tags[i]) && Less(norm, NormalizeDateTag(tags[i]))
    && NoDateAfter(tags, NormalizeDateTag(tags[i])) && AllDatesBefore(tags[..i], NormalizeDateTag(tags[i]))
  }

  lemma NoDateAfterThenBefore(tags: seq<string>, norm: string, later: string)
    requires NoDateAfter(tags, norm) && Less(norm, later)
    ensures AllDatesBefore(tags, later) && NoDateAfter(tags, later)
  {
    forall j | 0 <= j < |tags| && IsDateTag(tags[j])
      ensures Less(NormalizeDateTag(tags[j]), later) && !Less(later, NormalizeDateTag(tags[j]))
    {
      LessTotal(NormalizeDateTag(tags[j]), norm);
      if NormalizeDateTag(tags[j]) != norm {
        LessTransitive(NormalizeDateTag(tags[j]), norm, later);
      }
      LessTotal(NormalizeDateTag(tags[j]), later);
    }
  }

  lemma NoDateAfterOneMore(tags: seq<string>, norm: string)
    requires tags != [] && NoDateAfter(tags[..|tags| - 1], norm)
    requires IsDateTag(tags[|tags| - 1]) ==> !Less(norm, NormalizeDateTag(tags[|tags| - 1]))
    ensures NoDateAfter(tags, norm)
  {
    forall j | 0 <= j < |tags| - 1
      ensures tags[j] == tags[..|tags| - 1][j]
    {
    }
  }

  /** One turn of the date loop keeps the place of the latest date seen. */
  lemma LatestOneMore(norm: string, tags: seq<string>, at: nat, best: string)
    requires tags != [] && NoDateAfter(tags[..|tags| - 1], best)
    requires best == norm || (IsLatestAt(norm, tags[..|tags| - 1], at) && NormalizeDateTag(tags[at]) == best)
    ensures var n := |tags| - 1; var t := NormalizeDateTag(tags[n]);
      if IsDateTag(tags[n]) && Less(best, t) then NoDateAfter(tags, t) && IsLatestAt(norm, tags, n)
      else NoDateAfter(tags, best) && (best != norm ==> IsLatestAt(norm, tags, at))
  {
    var n := |tags| - 1;
    var t := NormalizeDateTag(tags[n]);
    if IsDateTag(tags[n]) && Less(best, t) {
      NoDateAfterThenBefore(tags[..n], best, t);
      LessIrreflexive(t);
      NoDateAfterOneMore(tags, t);
      if best != norm {
        LessTransitive(norm, best, t);
      }
    } else {
      NoDateAfterOneMore(tags, best);
      if best != norm {
        assert tags[..n][..at] == tags[..at];
      }
    }
  }

  /** What the date loop knows after some tags: the answer so far and its place. */
  predicate DateSearch(current: string, tags: seq<string>, best: string, at: nat) {
    && NoDateAfter(tags, NormalizeDateTag(best))
    && (best == current || (IsLatestAt(NormalizeDateTag(current), tags, at) && tags[at] == best))
    && (IsDateTag(current) ==> best == Best(current, tags) && IsDateTag(best))
  }

  lemma DateTurn(current: string, tags: seq<string>, k: nat, best: string, at: nat)
    requires k < |tags| && DateSearch(current, tags[..k], best, at)
    ensures
      if tags[k] != current && IsDateTag(tags[k]) && Less(NormalizeDateTag(best), NormalizeDateTag(tags[k]))
      then DateSearch(current, tags[..k + 1], tags[k], k)
      else DateSearch(current, tags[..k + 1], best, at)
  {
    LessIrreflexive(NormalizeDateTag(current));
    DateStep(current, tags, k, best);
    assert tags[..k + 1][..k] == tags[..k];
    LatestOneMore(NormalizeDateTag(current), tags[..k + 1], at, NormalizeDateTag(best));
    if best != current {
      LessTotal(NormalizeDateTag(current), NormalizeDateTag(best));
    }
  }

  /** Any current tag is accepted here; one that is no date is compared as it is. */
  method FindNewerDate(current: string, tags: seq<string>) returns (r: Option<string>)
    ensures IsDateTag(current) ==> r == Newest(current, tags)
    ensures r.None? ==> NoDateAfter(tags, NormalizeDateTag(current))
    ensures r.Some? ==>
      exists i :: 0 <= i < |tags| && tags[i] == r.value && IsLatestAt(NormalizeDateTag(current), tags, i)
  {
    var best, original := NormalizeDateTag(current), current;
    ghost var at := 0;
    for k := 0 to |tags|
      invariant best == NormalizeDateTag(original) && DateSearch(current, tags[..k], original, at)
    {
      var t := tags[k];
      DateTurn(current, tags, k, original, at);
      if t == current {
        continue;
      }
      if !IsDateTag(t) {
        continue;
      }
      var norm := NormalizeDateTag(t);
      if Less(best, norm) {
        best, original := norm, t;
        at := k;
      }
    }
    assert tags[..|tags|] == tags;
    return if original == current then None else Some(original);
  }

  /** The newest available tag strictly newer than the current one, if any. */
  method FindNewerTag(current: string, tags: seq<string>) returns (r: Option<string>)
    ensures r == Newest(current, tags)
    ensures r.Some? <==> exists i :: 0 <= i < |tags| && Newer(current, tags[i])
    ensures r.Some? ==> exists i :: 0 <= i < |tags| && tags[i] == r.value && IsNewestAt(current, tags, i)
  {
    NewestSpec(current, tags);
    if IsSemver(current) {
      r := FindNewerSemver(current, tags);
    } else if IsDateTag(current) {
      r := FindNewerDate(current, tags);
    } else {
      r := None;
    }
  }
}
