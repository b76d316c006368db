/** The deployment streams as the program runs them, step by step. */
module Deploy {
  import opened Text
  import opened Compose
  import opened UpdatePass
  import opened DeployModel
  import opened DeployTrace

  method Inspect(cs: seq<Container>) returns (v: Verdict)
    ensures v == VerdictOf(Seen(cs))
  {
    var allOK := true;
    for i := 0 to |cs|
      invariant forall j :: 0 <= j < i ==> !IsBad(cs[j])
      invariant allOK <==> forall j :: 0 <= j < i ==> cs[j].state == Running
    {
      if cs[i].state == Exited || cs[i].state == Dead {
        return Unhealthy;
      }
      if cs[i].unhealthy {
        return Unhealthy;
      }
      if cs[i].state != Running {
        allOK := false;
      }
    }
    return if allOK && |cs| > 0 then Healthy else Undecided;
  }

  /** Polls until decided; reaching the deadline undecided is not an error. */
  method WaitHealthy(hasDocker: bool, os: seq<Observation>) returns (ok: bool)
    ensures ok <==> !hasDocker || !FoundUnhealthy(os)
  {
    if !hasDocker {
      return true;
    }
    for k := 0 to |os|
      invariant forall j :: 0 <= j < k ==> VerdictOf(os[j]) == Undecided
    {
      if os[k].Cancelled? {
        return false;
      }
      if os[k].LoadFailed? {
        continue;
      }
      var v := Inspect(os[k].containers);
      if v == Unhealthy {
        return false;
      }
      if v == Healthy {
        return true;
      }
    }
    return true;
  }

  /** The image references of a compose text, each once. */
  method ExtractImages(matches: seq<string>) returns (images: seq<string>)
    ensures images == FirstOccurrences(matches)
  {
    var seen: set<string> := {};
    images := [];
    for i := 0 to |matches|
      invariant images == FirstOccurrences(matches[..i])
      invariant forall x :: x in seen <==> x in matches[..i]
    {
      assert matches[..i + 1][..i] == matches[..i];
      if matches[i] !in seen {
        seen := seen + {matches[i]};
        images := images + [matches[i]];
      }
    }
    assert matches[..|matches|] == matches;
  }

  class Project {
    var disk: Option<string>
    var record: Option<Record>
    var events: seq<DeployEvent>

    ghost function Current(): State
      reads this
    {
      State(disk, record)
    }

    constructor (disk: Option<string>, record: Option<Record>)
      ensures Current() == State(disk, record) && events == []
    {
      this.disk, this.record, events := disk, record, [];
    }

    /** The statuses reported since the old state are the given ones. */
    twostate predicate Reports(statuses: seq<DeployEvent>)
      reads this`events
    {
      old(events) <= events && Milestones(events) == Milestones(old(events)) + statuses
    }

    ghost predicate Last(e: DeployEvent)
      reads this`events
    {
      events != [] && events[|events| - 1] == e
    }

    method Send(e: DeployEvent)
      modifies this`events
      ensures events == old(events) + [e] && Last(e)
      ensures Reports(if IsMilestone(e) then [e] else [])
    {
      events := events + [e];
    }

    /** Passes the output of a command on, as rollback or as compose lines. */
    method SendLines(lines: seq<string>, inRollback: bool)
      modifies this`events
      ensures events == old(events) + LineEvents(lines, inRollback) && Reports([])
    {
      for i := 0 to |lines|
        invariant events == old(events) + LineEvents(lines, inRollback)[..i] && Reports([])
      {
        Send(if inRollback then RollbackLine(lines[i]) else ComposeLine(lines[i]));
      }
    }

    ghost predicate HasComposeFile(env: Env)
      reads this`disk
    {
      disk.Some? || env.otherComposeFile
    }

    /** `docker compose` in the project's directory; refuses without a compose file. */
    method RunCompose(env: Env, cmd: Command, inRollback: bool) returns (ok: bool)
      modifies this`events
      ensures ok <==> cmd.ok && HasComposeFile(env)
      ensures events == old(events) + if HasComposeFile(env) then LineEvents(cmd.lines, inRollback) else []
      ensures Reports([])
    {
      if disk == None && !env.otherComposeFile {
        return false;
      }
      SendLines(cmd.lines, inRollback);
      return cmd.ok;
    }

    method WriteFile(content: string, w: FileWrite) returns (ok: bool)
      modifies this`disk
      ensures ok <==> w.Written?
      ensures disk == if w.Written? then Some(content) else w.left
    {
      match w
      case Written => disk := Some(content); return true;
      case WriteFailed(left) => disk := left; return false;
    }

    // -------------------------------------------------------------- rollback

    /** Tags the old images again; a failure is reported and passed over. */
    method Retag(env: Env, snapshots: seq<Snapshot>)
      modifies this`events
      ensures events == old(events) + RetagEvents(env, snapshots)
    {
      for i := 0 to |snapshots|
        invariant events == old(events) + RetagEvents(env, snapshots[..i])
      {
        assert snapshots[..i + 1][..i] == snapshots[..i];
        if !env.retag(snapshots[i]) {
          Send(RollbackLine("retag " + snapshots[i].imageRef));
        }
      }
      assert snapshots[..|snapshots|] == snapshots;
    }

    /** Puts the original text back into the record, as far as that goes. */
    method RestoreRecord(env: Env, original: string)
      modifies this`record
      ensures record == if env.hasDb && env.rollbackLoadOk && env.restoreRecordOk && old(record).Some?
                        then Some(old(record).value.(compose := original)) else old(record)
    {
      if env.hasDb {
        if env.rollbackLoadOk && record.Some? {
          if env.restoreRecordOk {
            record := Some(record.value.(compose := original));
          }
        }
      }
    }

    /** Re-tags the old images and redeploys the original compose text. */
    method PerformRollback(env: Env, snapshots: seq<Snapshot>, original: string) returns (ok: bool)
      modifies this`disk, this`record, this`events
      ensures ok <==> RollbackSucceeds(env)
      ensures Current() == Restored(env, original, old(Current()))
      ensures events == old(events) + RestoreEvents(env, snapshots)
    {
      Retag(env, snapshots);
      var written := WriteFile(original, env.restoreWrite);
      if !written {
        return false;
      }
      Appended(old(events), RetagEvents(env, snapshots), LineEvents(env.rollbackUp.lines, true));
      ok := RunCompose(env, env.rollbackUp, true);
      if ok {
        RestoreRecord(env, original);
      }
    }

    /** The rollback with its two statuses. */
    method RollBack(env: Env, snapshots: seq<Snapshot>, original: string)
      modifies this`disk, this`record, this`events
      ensures Current() == Restored(env, original, old(Current()))
      ensures events == old(events) + RollbackEvents(env, snapshots)
    {
      Send(Rollback(Started));
      ghost var work := RestoreEvents(env, snapshots);
      Appended(old(events), [Rollback(Started)], work);
      var restored := PerformRollback(env, snapshots, original);
      Appended(old(events), [Rollback(Started)] + work, [Rollback(if restored then Complete else Failed)]);
      Send(Rollback(if restored then Complete else Failed));
    }

    /** The failure path of a deployment: roll back if there is something to go back
        to, then report the failure. */
    method FailDeploy(env: Env, snapshots: seq<Snapshot>, original: string)
      modifies this`disk, this`record, this`events
      ensures events == old(events) + FailEvents(env, snapshots)
      ensures Current() == Finished(env, original, FailEnding(env, snapshots), old(Current()))
    {
      if |snapshots| > 0 {
        RollBack(env, snapshots, original);
      }
      Send(Done(false));
    }

    // -------------------------------------------------------------- pulling newer images

    /** Reads the compose text from the record, or from the file without a database. */
    method LoadCompose(env: Env) returns (start: Option<string>)
      ensures start == StartContent(env, Current())
    {
      if env.hasDb {
        if !env.loadOk || record == None {
          return None;
        }
        return Some(record.value.compose);
      }
      if !env.readOk {
        return None;
      }
      return disk;
    }

    method ReportChecks(checks: seq<(string, Check)>)
      modifies this`events
      ensures events == old(events) + CheckEvents(checks) && Reports([])
    {
      for i := 0 to |checks|
        invariant events == old(events) + CheckEvents(checks)[..i] && Reports([])
      {
        Send(VersionCheck(checks[i].0, checks[i].1));
      }
    }

    /** Writes the rewritten text to the file and, if that works, to the record. */
    method InstallUpdate(env: Env, content: string, updates: map<string, string>) returns (ok: bool)
      modifies this`disk, this`record
      ensures ok <==> env.updateWrite.Written?
      ensures !ok ==> env.updateWrite.WriteFailed? && Current() == State(env.updateWrite.left, old(record))
      ensures ok ==>
        && disk.Some? && Updates(content, updates.Values, disk.value)
        && record == if env.hasDb && env.updateRecordOk && old(record).Some?
                     then Some(old(record).value.(compose := disk.value)) else old(record)
    {
      var newContent := UpdateServiceImages(content, updates);
      ok := WriteFile(newContent, env.updateWrite);
      if ok && env.hasDb && record.Some? && env.updateRecordOk {
        record := Some(record.value.(compose := newContent));
      }
    }

    /** Checks every service and reports the outcomes. */
    method CheckImages(env: Env, content: string) returns (updates: map<string, string>)
      modifies this`events
      ensures updates.Values == NewRefs(env, content)
      ensures exists checks :: Checked(env, content, checks) && events == old(events) + CheckEvents(checks)
    {
      var parsed := env.images(content);
      var images := if parsed.Some? then parsed.value else map[];
      var checks;
      updates, checks := CheckServices(env.regs, images);
      ReportChecks(checks);
      assert Checked(env, content, checks);
    }

    /** Reports the checks; rewrites the compose file and its record when there is
        something new. False when the file cannot be written. */
    method WriteNewImages(env: Env, content: string) returns (ok: bool)
      modifies this`disk, this`record, this`events
      ensures ok <==> NewRefs(env, content) == {} || env.updateWrite.Written?
      ensures ok ==> Installed(env, content, old(Current()), Current())
      ensures !ok ==> env.updateWrite.WriteFailed? && Current() == State(env.updateWrite.left, old(record))
      ensures exists checks :: Checked(env, content, checks) && events == old(events) + CheckEvents(checks)
    {
      var updates := CheckImages(env, content);
      if |updates| > 0 {
        assert exists svc :: svc in updates;
        ok := InstallUpdate(env, content, updates);
        return;
      }
      return true;
    }

    /** `docker compose pull`; unlike the others it does not look for a compose file. */
    method PullImages(env: Env) returns (ok: bool)
      modifies this`events
      ensures ok == env.pull.ok && Reports([])
      ensures events == old(events) + LineEvents(env.pull.lines, false)
    {
      SendLines(env.pull.lines, false);
      return env.pull.ok;
    }

    /** Starts the containers and waits for their health. */
    method StartContainers(env: Env) returns (ok: bool)
      modifies this`events
      ensures ok <==> ContainersStart(env, HasComposeFile(env))
      ensures events == old(events) + if HasComposeFile(env) then LineEvents(env.up.lines, false) else []
    {
      ok := RunCompose(env, env.up, false);
      if ok {
        ok := WaitHealthy(env.hasDocker, env.observations);
      }
    }

    /** The success path of a deployment; stale images are pruned on request. */
    method FinishDeploy(env: Env, prune: bool)
      modifies this`events
      ensures events == old(events) + FinishEvents(env, prune)
    {
      if prune {
        Send(ComposeLine("Pruned stale images: " + env.pruned));
      }
      Send(Done(true));
    }

    /** Once the images are pulled. */
    method DeployPulled(env: Env, snapshots: seq<Snapshot>, original: string, prune: bool) returns (ok: bool)
      modifies this`disk, this`record, this`events
      ensures ok <==> ContainersStart(env, old(HasComposeFile(env)))
      ensures events == old(events) + PulledEvents(env, snapshots, old(HasComposeFile(env)), prune)
      ensures Current() == Finished(env, original, if ok then Deployed else FailEnding(env, snapshots), old(Current()))
    {
      ok := StartContainers(env);
      ghost var lines := if HasComposeFile(env) then LineEvents(env.up.lines, false) else [];
      if ok {
        Appended(old(events), lines, FinishEvents(env, prune));
        FinishDeploy(env, prune);
      } else {
        Appended(old(events), lines, FailEvents(env, snapshots));
        FailDeploy(env, snapshots, original);
      }
    }

    /** From the pull step on. */
    method PullAndDeploy(env: Env, snapshots: seq<Snapshot>, original: string, prune: bool) returns (ok: bool)
      modifies this`disk, this`record, this`events
      ensures var ending := PullEnding(env, snapshots, old(HasComposeFile(env)));
        Current() == Finished(env, original, ending, old(Current())) && (ok <==> ending == Deployed)
      ensures events == old(events) + RunEvents(env, snapshots, old(HasComposeFile(env)), prune)
    {
      var pulled := PullImages(env);
      if !pulled {
        Appended(old(events), LineEvents(env.pull.lines, false), [Done(false)]);
        Send(Done(false));
        return false;
      }
      ghost var rest := PulledEvents(env, snapshots, HasComposeFile(env), prune);
      Appended(old(events), LineEvents(env.pull.lines, false), rest);
      ok := DeployPulled(env, snapshots, original, prune);
    }

    /** The events since the old state are those of a run. */
    twostate predicate Traced(env: Env, withRollback: bool, s: State)
      reads this`events
    {
      old(events) <= events && Trace(env, withRollback, s, events[|old(events)|..])
    }

    /** Pulls newer images and redeploys. The run ends as its environment decides, with
        the file and the record of that ending. Its events are those of such a run; the
        statuses among them are the report of the ending, and a done event comes last. */
    method PullNewImages(env: Env, withRollback: bool) returns (ok: bool)
      modifies this`disk, this`record, this`events
      ensures Traced(env, withRollback, old(Current()))
      ensures var ending := EndingOf(env, withRollback, old(Current()));
        && Outcome(env, old(Current()), ending, Current())
        && Reports(Report(ending))
        && (ok <==> ending == Deployed)
        && (Report(ending) != [] ==> Last(Done(ok)))
    {
      ok := PullTraced(env, withRollback);
      ghost var sent := events[|old(events)|..];
      assert events == old(events) + sent;
      MilestonesConcat(old(events), sent);
      TraceReports(env, withRollback, old(Current()), sent);
      if Report(EndingOf(env, withRollback, old(Current()))) != [] {
        EndsWithDone(env, withRollback, old(Current()), sent);
      }
    }

    method PullTraced(env: Env, withRollback: bool) returns (ok: bool)
      modifies this`disk, this`record, this`events
      ensures Traced(env, withRollback, old(Current()))
      ensures var ending := EndingOf(env, withRollback, old(Current()));
        Outcome(env, old(Current()), ending, Current()) && (ok <==> ending == Deployed)
    {
      var start := LoadCompose(env);
      if start == None {
        return false;
      }
      ok := PullFrom(env, withRollback, start.value);
    }

    /** The run once its new text, if any, is written. */
    method PullWritten(env: Env, withRollback: bool, start: string, prune: bool, ghost before: State)
      returns (ok: bool)
      requires StartContent(env, before) == Some(start) && Installed(env, start, before, Current())
      requires (NewRefs(env, start) == {} || env.updateWrite.Written?) && prune == Prunes(env, before)
      modifies this`disk, this`record, this`events
      ensures events == old(events) + AfterChecks(env, withRollback, before, start)
      ensures var ending := EndingOf(env, withRollback, before);
        Outcome(env, before, ending, Current()) && (ok <==> ending == Deployed)
    {
      OutcomeOfPull(env, withRollback, before, Current());
      ok := PullAndDeploy(env, SnapshotsOf(env, withRollback), start, prune);
    }

    /** The run once its compose text is read. */
    method PullFrom(env: Env, withRollback: bool, start: string) returns (ok: bool)
      requires StartContent(env, Current()) == Some(start)
      modifies this`disk, this`record, this`events
      ensures Traced(env, withRollback, old(Current()))
      ensures var ending := EndingOf(env, withRollback, old(Current()));
        Outcome(env, old(Current()), ending, Current()) && (ok <==> ending == Deployed)
    {
      var prune := env.hasDb && record.Some? && record.value.removeStaleImages;
      var written := WriteNewImages(env, start);
      ghost var checks :| Checked(env, start, checks) && events == old(events) + CheckEvents(checks);
      ghost var rest := AfterChecks(env, withRollback, old(Current()), start);
      Appended(old(events), CheckEvents(checks), rest);
      if written {
        ok := PullWritten(env, withRollback, start, prune, old(Current()));
      } else {
        assert rest == [];
        ok := false;
      }
      TraceWith(env, withRollback, old(Current()), start, checks, old(events), events);
    }

    // -------------------------------------------------------------- the other streams

    /** The events since the old state are the given ones and the compose output,
        closed by the only done event. */
    twostate predicate EndsDone(env: Env, before: seq<DeployEvent>, ranCompose: bool, ok: bool)
      reads this`events, this`disk
    {
      && events == old(events) + before
                   + (if ranCompose && HasComposeFile(env) then LineEvents(env.up.lines, false) else []) + [Done(ok)]
      && Reports([Done(ok)])
    }

    method RepullCurrent(env: Env) returns (ok: bool)
      modifies this`events
      ensures EndsDone(env, [], true, ok) && (ok <==> env.up.ok && HasComposeFile(env))
    {
      ok := RunCompose(env, env.up, false);
      Send(Done(ok));
    }

    method PullService(env: Env) returns (ok: bool)
      modifies this`events
      ensures EndsDone(env, LineEvents(env.pull.lines, false), env.pull.ok, ok)
      ensures ok <==> env.pull.ok && env.up.ok && HasComposeFile(env)
    {
      var pulled := PullImages(env);
      if !pulled {
        Send(Done(false));
        return false;
      }
      ok := RunCompose(env, env.up, false);
      Send(Done(ok));
    }

    /** Pulls one image through the engine. */
    method PullImage(env: Env, image: string)
      modifies this`events
      ensures events == old(events) + PullEvents(env, image)
    {
      if !env.hasDocker {
        Send(PullDone(image, false));
        return;
      }
      Send(PullStart(image));
      var layers := env.pullImage(image).lines;
      ghost var progress := seq(|layers|, i requires 0 <= i < |layers| => PullLayer(image, layers[i]));
      for i := 0 to |layers|
        invariant events == old(events) + [PullStart(image)] + progress[..i]
      {
        Send(PullLayer(image, layers[i]));
      }
      Send(PullDone(image, env.pullImage(image).ok));
    }

    /** The text whose images are pulled. */
    method LoadForDeploy(env: Env) returns (content: string)
      ensures content == DeployContent(env, Current())
    {
      content := "";
      if env.hasDb && env.loadOk && record.Some? {
        content := record.value.compose;
      }
      if content == "" && env.readOk && disk.Some? {
        content := disk.value;
      }
    }

    method PullAll(env: Env, images: seq<string>)
      modifies this`events
      ensures events == old(events) + AllPullEvents(env, images)
    {
      for i := 0 to |images|
        invariant events == old(events) + AllPullEvents(env, images[..i])
      {
        PullOneMore(env, old(events), images, i);
        PullImage(env, images[i]);
      }
      assert images[..|images|] == images;
    }

    /** Pulls every image of the project's text once, then starts the containers; a
        failed pull is reported and passed over. */
    method DeployAll(env: Env) returns (ok: bool)
      modifies this`events
      ensures var images := FirstOccurrences(env.imageMatches(DeployContent(env, Current())));
        EndsDone(env, AllPullEvents(env, images), true, ok)
      ensures ok <==> env.up.ok && HasComposeFile(env)
    {
      var content := LoadForDeploy(env);
      var images := ExtractImages(env.imageMatches(content));
      PullAll(env, images);
      PullsAreNoMilestones(env, images);
      NoMilestones(old(events), AllPullEvents(env, images));
      ok := RunCompose(env, env.up, false);
      Send(Done(ok));
    }
  }
}
