/** What a run of the deployment leaves in the file and in the record, ending by
    ending, and runs on which its promises fail. */
module DeployOutcome {
  import opened Text
  import opened NewestTag
  import opened Compose
  import opened ComposeUpdate
  import opened UpdatePass
  import opened DeployModel

  /** The updated services of the text name their repositories plainly. */
  predicate PlainText(env: Env, content: string) {
    env.images(content).Some? ==> PlainBases(env.regs, env.images(content).value)
  }

  lemma NewRefsWellFormed(env: Env, content: string)
    requires TagsValid(env.regs) && PlainText(env, content)
    ensures AllWellFormed(NewRefs(env, content))
  {
    if env.images(content).Some? {
      UpdatesWellFormed(env.regs, env.images(content).value);
    }
  }

  // ---------------------------------------------------------------- rollbacks

  /** The run puts another text into the record before it pulls. */
  ghost predicate ChangesRecord(env: Env, start: string) {
    env.hasDb && env.updateRecordOk && HasOutdated(start, NewRefs(env, start))
  }

  lemma InstalledRecord(env: Env, s: State, start: string, mid: State)
    requires TagsValid(env.regs) && PlainText(env, start)
    requires StartContent(env, s) == Some(start) && Installed(env, start, s, mid)
    ensures mid.record != s.record <==> ChangesRecord(env, start)
  {
    if NewRefs(env, start) != {} {
      NewRefsWellFormed(env, start);
      UpdateChangesIff(start, NewRefs(env, start), mid.disk.value);
    }
  }

  /** The rollback comes as far as the record and writes it. */
  predicate RecordRestored(env: Env) {
    RollbackSucceeds(env) && env.rollbackLoadOk && env.restoreRecordOk
  }

  /** A run that rolls back leaves the file as the restoring write left it. The
      record is the old one exactly when the run had not changed it, or when the
      rollback came far enough to write it and could. */
  lemma RolledBackState(env: Env, withRollback: bool, s: State, s': State)
    requires TagsValid(env.regs)
    requires StartContent(env, s).Some? ==> PlainText(env, StartContent(env, s).value)
    requires var ending := EndingOf(env, withRollback, s);
      (ending == RolledBack || ending == RollbackFailed) && Outcome(env, s, ending, s')
    ensures var start := StartContent(env, s).value;
      && s'.disk == (if env.restoreWrite.Written? then Some(start) else env.restoreWrite.left)
      && (s'.record == s.record <==> !ChangesRecord(env, start) || RecordRestored(env))
  {
    var start, ending := StartContent(env, s).value, EndingOf(env, withRollback, s);
    var mid :| Installed(env, start, s, mid) && s' == Finished(env, start, ending, mid);
    InstalledRecord(env, s, start, mid);
  }

  /** Every other run that reads its text and writes the new one keeps both. */
  lemma KeptState(env: Env, withRollback: bool, s: State, s': State)
    requires TagsValid(env.regs)
    requires StartContent(env, s).Some? && PlainText(env, StartContent(env, s).value)
    requires var ending := EndingOf(env, withRollback, s);
      (ending == NotPulled || ending == Deployed || ending == NotStarted) && Outcome(env, s, ending, s')
    ensures var start := StartContent(env, s).value;
      && (s'.record != s.record <==> ChangesRecord(env, start))
      && (s'.record != s.record ==> s'.record.Some? && s'.disk == Some(s'.record.value.compose))
      && (NewRefs(env, start) == {} ==> s' == s)
      && (NewRefs(env, start) != {} ==>
            s'.disk.Some? && (s'.disk.value != start <==> HasOutdated(start, NewRefs(env, start))))
  {
    var start := StartContent(env, s).value;
    InstalledRecord(env, s, start, s');
    if NewRefs(env, start) != {} {
      NewRefsWellFormed(env, start);
      UpdateChangesIff(start, NewRefs(env, start), s'.disk.value);
    }
  }

  // ---------------------------------------------------------------- the next run

  /** As far as the services sit on the given lines, the parser reads them there. */
  predicate ReadsLines(env: Env, services: map<string, nat>, content: string) {
    Placed(Split(content, '\n'), services) ==>
      env.images(content) == Some(ImagesOf(Split(content, '\n'), services))
  }

  /** The parser reads the services of the text, and of each rewriting of it, on the
      given lines. */
  ghost predicate ReadsUpdates(env: Env, services: map<string, nat>, start: string) {
    && Placed(Split(start, '\n'), services) && ReadsLines(env, services, start)
    && forall content :: Updates(start, NewRefs(env, start), content) ==> ReadsLines(env, services, content)
  }

  lemma RewrittenFindsNothing(env: Env, services: map<string, nat>, start: string, content: string)
    requires TagsValid(env.regs) && PlainText(env, start) && ReadsUpdates(env, services, start)
    requires Updates(start, NewRefs(env, start), content)
    ensures NewRefs(env, content) == {}
  {
    SecondPassFindsNothing(env.regs, start, services, content);
  }

  /** The new text is where the next run reads it: in the file without a database,
      otherwise in the record, unless a rollback has put the old one back. */
  predicate NewTextStays(env: Env, ending: Ending) {
    !env.hasDb || (env.updateRecordOk && (ending == RolledBack || ending == RollbackFailed ==> !RecordRestored(env)))
  }

  /** Which of the two texts the next run reads. */
  lemma NextRunReads(env: Env, withRollback: bool, s: State, mid: State)
    requires StartContent(env, s).Some? && EndingOf(env, withRollback, s) != Unwritten
    requires var start := StartContent(env, s).value; NewRefs(env, start) != {} && Installed(env, start, s, mid)
    ensures var start, ending := StartContent(env, s).value, EndingOf(env, withRollback, s);
      StartContent(env, Finished(env, start, ending, mid))
        == Some(if NewTextStays(env, ending) then mid.disk.value else start)
  {
  }

  /** After a run that got as far as pulling, the next run in the same environment
      finds no new reference exactly when there was none or the new text stays. */
  lemma NextRunFindsNothing(env: Env, withRollback: bool, s: State, s': State, services: map<string, nat>)
    requires TagsValid(env.regs) && StartContent(env, s).Some?
    requires var start := StartContent(env, s).value; PlainText(env, start) && ReadsUpdates(env, services, start)
    requires var ending := EndingOf(env, withRollback, s); ending != Unwritten && Outcome(env, s, ending, s')
    ensures StartContent(env, s').Some?
    ensures NewRefs(env, StartContent(env, s').value) == {}
       <==> NewRefs(env, StartContent(env, s).value) == {} || NewTextStays(env, EndingOf(env, withRollback, s))
  {
    var start, ending := StartContent(env, s).value, EndingOf(env, withRollback, s);
    var mid :| Installed(env, start, s, mid) && s' == Finished(env, start, ending, mid);
    if NewRefs(env, start) != {} {
      RewrittenFindsNothing(env, services, start, mid.disk.value);
      NextRunReads(env, withRollback, s, mid);
    }
  }

  // ---------------------------------------------------------------- failing runs

  /** A project of one service, and a world in which its repository has one newer
      tag, everything can be read and written, and no container starts. */
  function OneImage(base: string, tag: string): string {
    ImageLine("", MakeRef(base, tag))
  }

  function Holding(base: string, tag: string, recorded: string): State {
    State(Some(OneImage(base, tag)), Some(Record("", OneImage(base, recorded), map[], false)))
  }

  function NothingStarts(base: string, tag: string, newer: string): Env {
    Env(true, true, false, true, true,
        text => if text == OneImage(base, tag) then Some(map["web" := MakeRef(base, tag)])
                else if text == OneImage(base, newer) then Some(map["web" := MakeRef(base, newer)])
                else None,
        text => [], image => Command([], true),
        Registries(ref => true, repository => Some([newer])),
        Some([Snapshot(MakeRef(base, tag), "")]),
        Written, true, Command([], true), Command([], false), [], "", snapshot => true,
        Written, Command([], false), true, true)
  }

  /** The one tag in the list is newer than the current one. */
  predicate Outdated(base: string, tag: string, newer: string) {
    ValidBase(base) && ValidTag(tag) && ValidTag(newer) && tag != "latest" && Newest(tag, [newer]) == Some(newer)
  }

  lemma FoundNewer(regs: Registries, base: string, tag: string, newer: string, ref: string)
    requires Outdated(base, tag, newer) && ref == MakeRef(base, tag)
    requires regs.matches(ref) && regs.tags(base) == Some([newer])
    ensures CheckService(regs, ref) == UpdateFound(MakeRef(base, newer))
  {
    SplitMakeRef(base, tag);
  }

  lemma OneService(regs: Registries, svc: string, ref: string, newRef: string)
    requires CheckService(regs, ref) == UpdateFound(newRef)
    ensures UpdatesOf(regs, map[svc := ref]).Values == {newRef}
  {
    var updates := UpdatesOf(regs, map[svc := ref]);
    assert svc in updates && updates[svc] == newRef;
  }

  lemma OneNewRef(base: string, tag: string, newer: string)
    requires Outdated(base, tag, newer)
    ensures NewRefs(NothingStarts(base, tag, newer), OneImage(base, tag)) == {MakeRef(base, newer)}
  {
    var env, ref := NothingStarts(base, tag, newer), MakeRef(base, tag);
    FoundNewer(env.regs, base, tag, newer, ref);
    OneService(env.regs, "web", ref, MakeRef(base, newer));
  }

  /** The rewriting of a text of one line. */
  lemma LineUpdate(line: string, ref: string, content: string)
    requires '\n' !in line && IsImageLine(line) && Applies(ref, ImageValue(line))
    ensures Updates(line, {ref}, content) <==> content == ImageLine(Indent(line), ref)
  {
    Possible(line, {ref}, ref);
    if Updates(line, {ref}, content) {
      UpdateDetermined(line, {ref}, content, ImageLine(Indent(line), ref));
    }
  }

  lemma HeldImage(base: string, tag: string)
    requires ValidBase(base) && ValidTag(tag)
    ensures var line := OneImage(base, tag);
      && IsImageLine(line) && ImageValue(line) == MakeRef(base, tag) && Indent(line) == "" && '\n' !in line
    ensures BaseOf(MakeRef(base, tag)) == base && TagOf(MakeRef(base, tag)) == tag
  {
    SplitMakeRef(base, tag);
    ImageLineHolds("", MakeRef(base, tag));
    ValidRefText(MakeRef(base, tag));
    IndentOfImage(OneImage(base, tag));
  }

  lemma OneUpdate(base: string, tag: string, newer: string, content: string)
    requires ValidBase(base) && ValidTag(tag) && ValidTag(newer) && tag != newer
    ensures Updates(OneImage(base, tag), {MakeRef(base, newer)}, content) <==> content == OneImage(base, newer)
  {
    HeldImage(base, tag);
    HeldImage(base, newer);
    LineUpdate(OneImage(base, tag), MakeRef(base, newer), content);
  }

  lemma IndentOfImage(line: string)
    requires line != "" && line[0] == 'i'
    ensures Indent(line) == ""
  {
  }

  lemma OtherTagOtherImage(base: string, tag: string, newer: string)
    requires tag != newer
    ensures OneImage(base, tag) != OneImage(base, newer)
  {
    assert OneImage(base, tag)[|"image: "| + |base| + 1..] == tag;
    assert OneImage(base, newer)[|"image: "| + |base| + 1..] == newer;
  }

  /** The new text goes to the file and to the record. */
  lemma OneInstalled(base: string, tag: string, newer: string, mid: State)
    requires Outdated(base, tag, newer)
    ensures Installed(NothingStarts(base, tag, newer), OneImage(base, tag), Holding(base, tag, tag), mid)
       <==> mid == State(Some(OneImage(base, newer)), Holding(base, tag, newer).record)
  {
    OneNewRef(base, tag, newer);
    if mid.disk.Some? {
      OneUpdate(base, tag, newer, mid.disk.value);
    }
  }

  lemma OnlyOutcome(env: Env, s: State, start: string, ending: Ending, mid: State, s': State)
    requires StartContent(env, s) == Some(start) && !ending.Unwritten?
    requires forall m :: Installed(env, start, s, m) <==> m == mid
    ensures Outcome(env, s, ending, s') <==> s' == Finished(env, start, ending, mid)
  {
    assert Installed(env, start, s, mid);
  }

  /** For every repository and pair of tags of this kind, the rollback of the failed
      run restores the file and leaves the new text in the record. */
  lemma RollbackForgetsRecord(base: string, tag: string, newer: string, s': State)
    requires Outdated(base, tag, newer)
    ensures var env, s := NothingStarts(base, tag, newer), Holding(base, tag, tag);
      && EndingOf(env, true, s) == RollbackFailed
      && (Outcome(env, s, RollbackFailed, s') <==> s' == Holding(base, tag, newer))
      && Holding(base, tag, newer).record != s.record
  {
    var env, s, start := NothingStarts(base, tag, newer), Holding(base, tag, tag), OneImage(base, tag);
    var mid := State(Some(OneImage(base, newer)), Holding(base, tag, newer).record);
    forall m
      ensures Installed(env, start, s, m) <==> m == mid
    {
      OneInstalled(base, tag, newer, m);
    }
    OnlyOutcome(env, s, start, RollbackFailed, mid, s');
    OtherTagOtherImage(base, tag, newer);
  }

  /** The next run after it finds nothing, although the file holds the old tag. */
  lemma RollbackHidesUpdate(base: string, tag: string, newer: string)
    requires Outdated(base, tag, newer)
    ensures var env, s' := NothingStarts(base, tag, newer), Holding(base, tag, newer);
      && s'.disk == Some(OneImage(base, tag)) && NewRefs(env, OneImage(base, tag)) == {MakeRef(base, newer)}
      && StartContent(env, s') == Some(OneImage(base, newer)) && NewRefs(env, OneImage(base, newer)) == {}
  {
    var env, ref := NothingStarts(base, tag, newer), MakeRef(base, newer);
    OneNewRef(base, tag, newer);
    OtherTagOtherImage(base, tag, newer);
    SplitMakeRef(base, tag);
    FoundNewer(env.regs, base, tag, newer, MakeRef(base, tag));
    NewRefUpToDate(env.regs, MakeRef(base, tag));
    assert UpdatesOf(env.regs, map["web" := ref]) == map[];
  }

  /** The same world with an unreadable record, and with an unwritable file: the run
      ends without a done event, in the second case with the file lost. */
  lemma RunsWithoutDone(base: string, tag: string, newer: string)
    requires Outdated(base, tag, newer)
    ensures var env, s := NothingStarts(base, tag, newer), Holding(base, tag, tag);
      var unreadable, unwritable := env.(loadOk := false), env.(updateWrite := WriteFailed(None));
      && EndingOf(unreadable, true, s) == Unread && Report(Unread) == []
      && EndingOf(unwritable, true, s) == Unwritten && Report(Unwritten) == []
      && Outcome(unwritable, s, Unwritten, s.(disk := None))
  {
    OneNewRef(base, tag, newer);
  }

  /** The same world without anything to go back to and with an unwritable record. */
  function Unrecorded(base: string, tag: string, newer: string): Env {
    NothingStarts(base, tag, newer).(updateRecordOk := false, snapshots := None)
  }

  lemma UnrecordedInstalled(base: string, tag: string, newer: string)
    requires Outdated(base, tag, newer)
    ensures var (env, s) := (Unrecorded(base, tag, newer), Holding(base, tag, tag));
      && NewRefs(env, OneImage(base, tag)) == {MakeRef(base, newer)}
      && Installed(env, OneImage(base, tag), s, s.(disk := Some(OneImage(base, newer))))
  {
    OneNewRef(base, tag, newer);
    OneUpdate(base, tag, newer, OneImage(base, newer));
  }

  /** There the file is updated, the record is not, and the next run finds the update
      again. */
  lemma UpdateFoundAgain(base: string, tag: string, newer: string)
    requires Outdated(base, tag, newer)
    ensures var (env, s) := (Unrecorded(base, tag, newer), Holding(base, tag, tag));
      var s' := s.(disk := Some(OneImage(base, newer)));
      && EndingOf(env, true, s) == NotStarted && Outcome(env, s, NotStarted, s')
      && NewRefs(env, StartContent(env, s').value) == {MakeRef(base, newer)}
  {
    UnrecordedInstalled(base, tag, newer);
  }

  /** A run has no done event exactly when its text cannot be read or its new version
      cannot be written. */
  lemma NoDoneIff(env: Env, withRollback: bool, s: State)
    ensures Report(EndingOf(env, withRollback, s)) == []
       <==> StartContent(env, s) == None
            || (NewRefs(env, StartContent(env, s).value) != {} && env.updateWrite.WriteFailed?)
  {
  }

  lemma SampleTag(tag: string, minor: string)
    requires |minor| == 1 && IsTagChar(minor[0]) && tag == "1." + minor + ".0"
    ensures ValidTag(tag) && tag != "latest"
  {
    assert tag[0] == '1' && |tag| == 5;
  }

  lemma SampleBase(base: string)
    requires base == "nginx"
    ensures ValidBase(base)
  {
  }

  /** Going from `1.0.0` to `1.2.0` of one repository is such a run. */
  lemma OutdatedSample(base: string, tag: string, newer: string)
    requires base == "nginx" && tag == "1." + "0" + ".0" && newer == "1." + "2" + ".0"
    ensures Outdated(base, tag, newer)
  {
    SampleBase(base);
    SampleTag(tag, "0");
    SampleTag(newer, "2");
    SearchSample(tag, newer);
  }
}
