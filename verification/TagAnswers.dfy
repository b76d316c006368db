/** What the search for a newer tag answers, in terms of the texts of the tags. */
module TagAnswers {
  import opened Text
  import opened Tags
  import opened TagOrder
  import opened VersionOrder
  import opened NewestTag

  lemma VersionIsSemver(v: VersionText)
    requires WellFormed(v)
    ensures IsSemver(TagOf(v)) && (HasPrefix(TagOf(v), "v") <==> v.mark == "v")
  {
    VersionOf(v);
    assert TagOf(v)[0] == if v.mark == "v" then 'v' else v.major[0];
    assert TagOf(v)[..1] == [TagOf(v)[0]];
  }

  /** A version with the same mark and higher numbers, as they are read. */
  ghost predicate IsHigherVersion(v: VersionText, t: string) {
    exists w :: WellFormed(w) && t == TagOf(w) && w.mark == v.mark && ReadsBefore(v, w)
  }

  lemma NewerVersion(v: VersionText, t: string)
    requires WellFormed(v)
    ensures Newer(TagOf(v), t) <==> IsHigherVersion(v, t)
  {
    VersionIsSemver(v);
    if Newer(TagOf(v), t) {
      var mark, a, b, c, rest := ParsedIsVersion(t);
      var w := VersionText(mark, a, b, c, rest);
      VersionIsSemver(w);
      VersionsCompare(w, v);
    }
    if w :| WellFormed(w) && t == TagOf(w) && w.mark == v.mark && ReadsBefore(v, w) {
      VersionIsSemver(w);
      VersionsCompare(w, v);
    }
  }

  /** From a version, a tag is found exactly when the list has a version with the same
      mark and higher numbers; the answer is one, and no other such version of the list
      is higher still. */
  lemma VersionAnswer(v: VersionText, tags: seq<string>)
    requires WellFormed(v)
    ensures var answer := Newest(TagOf(v), tags);
      && (answer.Some? <==> exists t :: t in tags && IsHigherVersion(v, t))
      && (answer.Some? ==> exists w :: WellFormed(w) && answer.value == TagOf(w) && answer.value in tags
                             && w.mark == v.mark && ReadsBefore(v, w)
                             && forall t :: t in tags ==> !IsHigherVersion(w, t))
  {
    NewestSpec(TagOf(v), tags);
    var answer := Newest(TagOf(v), tags);
    forall i | 0 <= i < |tags|
      ensures Newer(TagOf(v), tags[i]) <==> IsHigherVersion(v, tags[i])
    {
      NewerVersion(v, tags[i]);
    }
    if answer.Some? {
      var i :| 0 <= i < |tags| && tags[i] == answer.value && IsNewestAt(TagOf(v), tags, i);
      var w :| WellFormed(w) && tags[i] == TagOf(w) && w.mark == v.mark && ReadsBefore(v, w);
      NewestIsFinal(TagOf(v), tags);
      NewestSpec(TagOf(w), tags);
      forall t | t in tags
        ensures !IsHigherVersion(w, t)
      {
        NewerVersion(w, t);
      }
    }
  }

  /** A later date. */
  predicate IsLaterDate(current: string, t: string)
    requires IsDateTag(current)
  {
    IsDateTag(t) && Before(ParseDate(current).value, ParseDate(t).value)
  }

  lemma NewerDate(current: string, t: string)
    requires IsDateTag(current)
    ensures Newer(current, t) <==> IsLaterDate(current, t)
  {
    DateIsNotSemver(current);
    if IsDateTag(t) {
      DatesRankByCalendar(t, current);
      DatesRankByCalendar(current, t);
      CompareAntisymmetric(current, t);
    }
  }

  /** From a date, a tag is found exactly when the list has a later date, in whatever
      form; the answer is one, and no date of the list is later still. From any other
      tag nothing is found. */
  lemma DateAnswer(current: string, tags: seq<string>)
    ensures var answer := Newest(current, tags);
      if IsDateTag(current) then
        && (answer.Some? <==> exists t :: t in tags && IsLaterDate(current, t))
        && (answer.Some? ==> answer.value in tags && IsLaterDate(current, answer.value)
                             && forall t :: t in tags ==> !IsLaterDate(answer.value, t))
      else !IsSemver(current) ==> answer == None
  {
    NewestSpec(current, tags);
    var answer := Newest(current, tags);
    if IsDateTag(current) {
      forall t
        ensures Newer(current, t) <==> IsLaterDate(current, t)
      {
        NewerDate(current, t);
      }
      if answer.Some? {
        var i :| 0 <= i < |tags| && tags[i] == answer.value && IsNewestAt(current, tags, i);
        NewestIsFinal(current, tags);
        NewestSpec(answer.value, tags);
        forall t | t in tags
          ensures !IsLaterDate(answer.value, t)
        {
          NewerDate(answer.value, t);
        }
      }
    }
  }
}
