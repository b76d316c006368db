/** Every event of a run, in order. */
module DeployTrace {
  import opened Text
  import opened Compose
  import opened UpdatePass
  import opened DeployModel

  /** A line for each image that cannot be tagged again. */
  function RetagEvents(env: Env, snapshots: seq<Snapshot>): seq<DeployEvent> {
    if snapshots == [] then []
    else
      var last := snapshots[|snapshots| - 1];
      RetagEvents(env, snapshots[..|snapshots| - 1])
      + (if env.retag(last) then [] else [RollbackLine("retag " + last.imageRef)])
  }

  /** What the work of a rollback passes on. */
  function RestoreEvents(env: Env, snapshots: seq<Snapshot>): seq<DeployEvent> {
    RetagEvents(env, snapshots) + (if env.restoreWrite.Written? then LineEvents(env.rollbackUp.lines, true) else [])
  }

  function RollbackEvents(env: Env, snapshots: seq<Snapshot>): seq<DeployEvent> {
    [Rollback(Started)] + RestoreEvents(env, snapshots)
    + [Rollback(if RollbackSucceeds(env) then Complete else Failed)]
  }

  function FailEvents(env: Env, snapshots: seq<Snapshot>): seq<DeployEvent> {
    (if snapshots == [] then [] else RollbackEvents(env, snapshots)) + [Done(false)]
  }

  function FinishEvents(env: Env, prune: bool): seq<DeployEvent> {
    (if prune then [ComposeLine("Pruned stale images: " + env.pruned)] else []) + [Done(true)]
  }

  /** From the start of the containers on. */
  ghost function PulledEvents(env: Env, snapshots: seq<Snapshot>, hasFile: bool, prune: bool): seq<DeployEvent> {
    (if hasFile then LineEvents(env.up.lines, false) else [])
    + (if ContainersStart(env, hasFile) then FinishEvents(env, prune) else FailEvents(env, snapshots))
  }

  /** From the pull of the images on. */
  ghost function RunEvents(env: Env, snapshots: seq<Snapshot>, hasFile: bool, prune: bool): seq<DeployEvent> {
    LineEvents(env.pull.lines, false)
    + (if env.pull.ok then PulledEvents(env, snapshots, hasFile, prune) else [Done(false)])
  }

  /** One check for each service of the text, in any order. */
  ghost predicate Checked(env: Env, text: string, checks: seq<(string, Check)>) {
    var images := if env.images(text).Some? then env.images(text).value else map[];
    && |checks| == |images|
    && forall svc :: svc in images ==> (svc, CheckService(env.regs, images[svc])) in checks
  }

  predicate Prunes(env: Env, s: State) {
    env.hasDb && s.record.Some? && s.record.value.removeStaleImages
  }

  /** What follows the checks. */
  ghost function AfterChecks(env: Env, withRollback: bool, s: State, start: string): seq<DeployEvent> {
    var updates := NewRefs(env, start) != {};
    if updates && env.updateWrite.WriteFailed? then []
    else
      RunEvents(env, SnapshotsOf(env, withRollback), updates || s.disk.Some? || env.otherComposeFile, Prunes(env, s))
  }

  /** The events of a run: the checks, the output of the commands, the rollback and the
      done event. */
  ghost predicate Trace(env: Env, withRollback: bool, s: State, sent: seq<DeployEvent>) {
    match StartContent(env, s)
    case None => sent == []
    case Some(start) =>
      exists checks :: Checked(env, start, checks)
                       && sent == CheckEvents(checks) + AfterChecks(env, withRollback, s, start)
  }

  lemma Appended(before: seq<DeployEvent>, a: seq<DeployEvent>, b: seq<DeployEvent>)
    ensures (before + a) + b == before + (a + b)
  {
  }

  lemma TraceWith(
    env: Env, withRollback: bool, s: State, start: string, checks: seq<(string, Check)>,
    before: seq<DeployEvent>, after: seq<DeployEvent>)
    requires StartContent(env, s) == Some(start) && Checked(env, start, checks)
    requires after == before + (CheckEvents(checks) + AfterChecks(env, withRollback, s, start))
    ensures before <= after && Trace(env, withRollback, s, after[|before|..])
  {
    assert after[|before|..] == CheckEvents(checks) + AfterChecks(env, withRollback, s, start);
  }

  // ---------------------------------------------------------------- the statuses among the events

  lemma {:induction false} MilestonesConcat(a: seq<DeployEvent>, b: seq<DeployEvent>)
    ensures Milestones(a + b) == Milestones(a) + Milestones(b)
    decreases |b|
  {
    if b == [] {
      assert a + b == a;
    } else {
      var n := |b| - 1;
      assert (a + b)[..|a + b| - 1] == a + b[..n];
      MilestonesConcat(a, b[..n]);
    }
  }

  lemma OneMilestone(e: DeployEvent)
    ensures Milestones([e]) == if IsMilestone(e) then [e] else []
  {
    assert [e][..0] == [];
  }

  lemma {:induction false} PlainEvents(events: seq<DeployEvent>)
    requires forall e :: e in events ==> !IsMilestone(e)
    ensures Milestones(events) == []
  {
    if events != [] {
      PlainEvents(events[..|events| - 1]);
    }
  }

  lemma {:induction false} RetagsArePlain(env: Env, snapshots: seq<Snapshot>)
    ensures Milestones(RetagEvents(env, snapshots)) == []
  {
    if snapshots != [] {
      var front, last := snapshots[..|snapshots| - 1], snapshots[|snapshots| - 1];
      RetagsArePlain(env, front);
      if !env.retag(last) {
        var e := RollbackLine("retag " + last.imageRef);
        MilestonesConcat(RetagEvents(env, front), [e]);
        OneMilestone(e);
      } else {
        assert RetagEvents(env, snapshots) == RetagEvents(env, front);
      }
    }
  }

  lemma Wrapped(first: DeployEvent, mid: seq<DeployEvent>, last: DeployEvent)
    requires IsMilestone(first) && Milestones(mid) == [] && IsMilestone(last)
    ensures Milestones([first] + mid + [last]) == [first, last]
  {
    OneMilestone(first);
    OneMilestone(last);
    MilestonesConcat([first], mid);
    MilestonesConcat([first] + mid, [last]);
  }

  lemma RestoresArePlain(env: Env, snapshots: seq<Snapshot>)
    ensures Milestones(RestoreEvents(env, snapshots)) == []
  {
    var lines := if env.restoreWrite.Written? then LineEvents(env.rollbackUp.lines, true) else [];
    RetagsArePlain(env, snapshots);
    PlainEvents(lines);
    MilestonesConcat(RetagEvents(env, snapshots), lines);
  }

  lemma RollbackMilestones(env: Env, snapshots: seq<Snapshot>)
    ensures Milestones(RollbackEvents(env, snapshots))
         == [Rollback(Started), Rollback(if RollbackSucceeds(env) then Complete else Failed)]
  {
    RestoresArePlain(env, snapshots);
    Wrapped(Rollback(Started), RestoreEvents(env, snapshots),
            Rollback(if RollbackSucceeds(env) then Complete else Failed));
  }

  lemma PlainBefore(a: seq<DeployEvent>, b: seq<DeployEvent>)
    requires Milestones(a) == []
    ensures Milestones(a + b) == Milestones(b)
  {
    MilestonesConcat(a, b);
  }

  lemma DoneAfter(a: seq<DeployEvent>, ok: bool)
    ensures Milestones(a + [Done(ok)]) == Milestones(a) + [Done(ok)]
  {
    OneMilestone(Done(ok));
    MilestonesConcat(a, [Done(ok)]);
  }

  lemma FailMilestones(env: Env, snapshots: seq<Snapshot>)
    ensures Milestones(FailEvents(env, snapshots)) == Report(FailEnding(env, snapshots))
  {
    if snapshots == [] {
      DoneAfter([], false);
      assert FailEvents(env, snapshots) == [] + [Done(false)];
    } else {
      RollbackMilestones(env, snapshots);
      DoneAfter(RollbackEvents(env, snapshots), false);
      ReportOfRollback(env, snapshots);
    }
  }

  lemma ReportOfRollback(env: Env, snapshots: seq<Snapshot>)
    requires snapshots != []
    ensures Report(FailEnding(env, snapshots))
         == [Rollback(Started), Rollback(if RollbackSucceeds(env) then Complete else Failed)] + [Done(false)]
  {
  }

  lemma FinishMilestones(env: Env, prune: bool)
    ensures Milestones(FinishEvents(env, prune)) == [Done(true)]
  {
    var pruned := if prune then [ComposeLine("Pruned stale images: " + env.pruned)] else [];
    PlainEvents(pruned);
    DoneAfter(pruned, true);
  }

  lemma PlainBeforeEither(
    lines: seq<DeployEvent>, first: bool, a: seq<DeployEvent>, b: seq<DeployEvent>,
    ofA: seq<DeployEvent>, ofB: seq<DeployEvent>)
    requires Milestones(lines) == [] && Milestones(a) == ofA && Milestones(b) == ofB
    ensures Milestones(lines + if first then a else b) == if first then ofA else ofB
  {
    PlainBefore(lines, if first then a else b);
  }

  lemma PulledMilestones(env: Env, snapshots: seq<Snapshot>, hasFile: bool, prune: bool)
    ensures Milestones(PulledEvents(env, snapshots, hasFile, prune))
         == if ContainersStart(env, hasFile) then [Done(true)] else Report(FailEnding(env, snapshots))
  {
    var lines := if hasFile then LineEvents(env.up.lines, false) else [];
    PlainEvents(lines);
    FinishMilestones(env, prune);
    FailMilestones(env, snapshots);
    PlainBeforeEither(lines, ContainersStart(env, hasFile), FinishEvents(env, prune), FailEvents(env, snapshots),
                      [Done(true)], Report(FailEnding(env, snapshots)));
  }

  /** The report of a run that gets as far as pulling. */
  ghost function PullReport(env: Env, snapshots: seq<Snapshot>, hasFile: bool): seq<DeployEvent> {
    if !env.pull.ok then [Done(false)]
    else if ContainersStart(env, hasFile) then [Done(true)]
    else Report(FailEnding(env, snapshots))
  }

  lemma PullReportIs(env: Env, snapshots: seq<Snapshot>, hasFile: bool)
    ensures PullReport(env, snapshots, hasFile) == Report(PullEnding(env, snapshots, hasFile))
  {
  }

  lemma RunMilestones(env: Env, snapshots: seq<Snapshot>, hasFile: bool, prune: bool)
    ensures Milestones(RunEvents(env, snapshots, hasFile, prune)) == PullReport(env, snapshots, hasFile)
  {
    var lines, pulled := LineEvents(env.pull.lines, false), PulledEvents(env, snapshots, hasFile, prune);
    PlainEvents(lines);
    if env.pull.ok {
      PulledMilestones(env, snapshots, hasFile, prune);
      PlainBefore(lines, pulled);
    } else {
      OneMilestone(Done(false));
      PlainBefore(lines, [Done(false)]);
    }
  }

  lemma AfterChecksMilestones(env: Env, withRollback: bool, s: State, start: string)
    requires StartContent(env, s) == Some(start)
    ensures Milestones(AfterChecks(env, withRollback, s, start)) == Report(EndingOf(env, withRollback, s))
  {
    var hasFile := NewRefs(env, start) != {} || s.disk.Some? || env.otherComposeFile;
    RunMilestones(env, SnapshotsOf(env, withRollback), hasFile, Prunes(env, s));
    PullReportIs(env, SnapshotsOf(env, withRollback), hasFile);
  }

  /** The statuses among the events of a run are those of its ending. */
  lemma TraceReports(env: Env, withRollback: bool, s: State, sent: seq<DeployEvent>)
    requires Trace(env, withRollback, s, sent)
    ensures Milestones(sent) == Report(EndingOf(env, withRollback, s))
  {
    var start := StartContent(env, s);
    if start.Some? {
      var checks :| Checked(env, start.value, checks)
                    && sent == CheckEvents(checks) + AfterChecks(env, withRollback, s, start.value);
      PlainEvents(CheckEvents(checks));
      PlainBefore(CheckEvents(checks), AfterChecks(env, withRollback, s, start.value));
      AfterChecksMilestones(env, withRollback, s, start.value);
    }
  }

  ghost predicate Ends(events: seq<DeployEvent>, ok: bool) {
    events != [] && events[|events| - 1] == Done(ok)
  }

  lemma PulledEnds(env: Env, snapshots: seq<Snapshot>, hasFile: bool, prune: bool)
    ensures Ends(PulledEvents(env, snapshots, hasFile, prune), ContainersStart(env, hasFile))
  {
    assert Ends(FinishEvents(env, prune), true) && Ends(FailEvents(env, snapshots), false);
  }

  lemma RunEventsEnd(env: Env, snapshots: seq<Snapshot>, hasFile: bool, prune: bool)
    ensures Ends(RunEvents(env, snapshots, hasFile, prune), PullEnding(env, snapshots, hasFile) == Deployed)
  {
    PulledEnds(env, snapshots, hasFile, prune);
  }

  /** A run that sends a done event ends with it. */
  lemma EndsWithDone(env: Env, withRollback: bool, s: State, sent: seq<DeployEvent>)
    requires Trace(env, withRollback, s, sent) && Report(EndingOf(env, withRollback, s)) != []
    ensures Ends(sent, EndingOf(env, withRollback, s) == Deployed)
  {
    var start := StartContent(env, s).value;
    RunEventsEnd(env, SnapshotsOf(env, withRollback),
                 NewRefs(env, start) != {} || s.disk.Some? || env.otherComposeFile, Prunes(env, s));
  }

  // ---------------------------------------------------------------- nothing is left out

  /** Each image that cannot be tagged again is reported, and nothing else is. */
  lemma {:induction false} RetagsReported(env: Env, snapshots: seq<Snapshot>, e: DeployEvent)
    ensures e in RetagEvents(env, snapshots)
       <==> exists i :: 0 <= i < |snapshots| && !env.retag(snapshots[i])
                        && e == RollbackLine("retag " + snapshots[i].imageRef)
  {
    if snapshots != [] {
      var n := |snapshots| - 1;
      var front := snapshots[..n];
      RetagsReported(env, front, e);
      if i :| 0 <= i < |front| && !env.retag(front[i]) && e == RollbackLine("retag " + front[i].imageRef) {
        assert !env.retag(snapshots[i]) && snapshots[i] == front[i];
      }
      if i :| 0 <= i < |snapshots| && !env.retag(snapshots[i]) && e == RollbackLine("retag " + snapshots[i].imageRef) {
        assert i < n ==> front[i] == snapshots[i];
      }
    }
  }

  /** A run that reads its text reports the outcome of every service. */
  lemma ChecksSent(env: Env, withRollback: bool, s: State, sent: seq<DeployEvent>, text: string, svc: string)
    requires Trace(env, withRollback, s, sent) && StartContent(env, s) == Some(text)
    requires env.images(text).Some? && svc in env.images(text).value
    ensures VersionCheck(svc, CheckService(env.regs, env.images(text).value[svc])) in sent
  {
    var checks: seq<(string, Check)> :| Checked(env, text, checks)
                  && sent == CheckEvents(checks) + AfterChecks(env, withRollback, s, text);
    var i :| 0 <= i < |checks| && checks[i] == (svc, CheckService(env.regs, env.images(text).value[svc]));
    assert CheckEvents(checks)[i] == VersionCheck(checks[i].0, checks[i].1);
  }

  /** A run that gets as far as pulling passes on each line of the pull, and one that
      pulls also each line of the start of the containers. */
  lemma LinesSent(env: Env, withRollback: bool, s: State, sent: seq<DeployEvent>, line: string)
    requires Trace(env, withRollback, s, sent)
    requires !EndingOf(env, withRollback, s).Unread? && !EndingOf(env, withRollback, s).Unwritten?
    ensures line in env.pull.lines ==> ComposeLine(line) in sent
    ensures env.pull.ok && s.disk.Some? && line in env.up.lines ==> ComposeLine(line) in sent
  {
    if line in env.pull.lines {
      LineIn(env.pull.lines, line);
    }
    if line in env.up.lines {
      LineIn(env.up.lines, line);
    }
  }

  lemma LineIn(lines: seq<string>, line: string)
    requires line in lines
    ensures ComposeLine(line) in LineEvents(lines, false)
  {
    var i :| 0 <= i < |lines| && lines[i] == line;
    assert LineEvents(lines, false)[i] == ComposeLine(line);
  }
}
