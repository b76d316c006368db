/** How a deployment ends and what it reports, in terms of the single answers of its
    environment. */
module DeployEndings {
  import opened Text
  import opened Compose
  import opened NewestTag
  import opened UpdatePass
  import opened DeployModel

  // ---------------------------------------------------------------- what a run starts from

  predicate TextRead(env: Env, s: State) {
    if env.hasDb then env.loadOk && s.record.Some? else env.readOk && s.disk.Some?
  }

  /** The text of the record, or without a database that of the file. */
  function ProjectText(env: Env, s: State): string
    requires TextRead(env, s)
  {
    if env.hasDb then s.record.value.compose else s.disk.value
  }

  /** Some service of the text has a newer tag listed. */
  ghost predicate HasNewer(env: Env, text: string) {
    env.images(text).Some? &&
    exists svc, t :: svc in env.images(text).value && ListsNewer(env.regs, env.images(text).value[svc], t)
  }

  ghost predicate ListsNewer(regs: Registries, ref: string, t: string) {
    && TagOf(ref) != "" && TagOf(ref) != "latest" && regs.matches(ref)
    && regs.tags(BaseOf(ref)).Some? && t in regs.tags(BaseOf(ref)).value && Newer(TagOf(ref), t)
  }

  lemma UpdatedIfListed(regs: Registries, images: map<string, string>, svc: string)
    requires svc in images
    ensures svc in UpdatesOf(regs, images) <==> exists t :: ListsNewer(regs, images[svc], t)
  {
    UpdatedIff(regs, images, svc);
    if t :| ListsNewer(regs, images[svc], t) {
      var tags := regs.tags(BaseOf(images[svc])).value;
      var i :| 0 <= i < |tags| && tags[i] == t;
    }
    if svc in UpdatesOf(regs, images) {
      var tags := regs.tags(BaseOf(images[svc])).value;
      var i :| 0 <= i < |tags| && Newer(TagOf(images[svc]), tags[i]);
      assert ListsNewer(regs, images[svc], tags[i]);
    }
  }

  lemma NewRefsIff(env: Env, text: string)
    ensures NewRefs(env, text) != {} <==> HasNewer(env, text)
  {
    if env.images(text).Some? {
      var images := env.images(text).value;
      var updates := UpdatesOf(env.regs, images);
      forall svc | svc in images
        ensures svc in updates <==> exists t :: ListsNewer(env.regs, images[svc], t)
      {
        UpdatedIfListed(env.regs, images, svc);
      }
      if svc :| svc in updates {
        assert updates[svc] in updates.Values;
      } else {
        assert updates.Values == {};
      }
    }
  }

  // ---------------------------------------------------------------- health

  /** Cancelled, or a container is exited, dead or unhealthy. */
  predicate PollFails(o: Observation) {
    o.Cancelled? || (o.Seen? && exists i :: 0 <= i < |o.containers| && Broken(o.containers[i]))
  }

  predicate Broken(c: Container) {
    c.state == Exited || c.state == Dead || c.unhealthy
  }

  /** There are containers, and all are running and none is unhealthy. */
  predicate PollSucceeds(o: Observation) {
    o.Seen? && o.containers != []
    && forall i :: 0 <= i < |o.containers| ==> o.containers[i].state == Running && !o.containers[i].unhealthy
  }

  /** A poll fails before any has succeeded. */
  ghost predicate FailsFirst(os: seq<Observation>) {
    exists i :: 0 <= i < |os| && PollFails(os[i]) && forall j :: 0 <= j < i ==> !PollSucceeds(os[j])
  }

  lemma VerdictIs(o: Observation)
    ensures VerdictOf(o) == Unhealthy <==> PollFails(o)
    ensures VerdictOf(o) == Healthy <==> PollSucceeds(o)
  {
    if o.Seen? {
      assert forall i :: 0 <= i < |o.containers| ==> (IsBad(o.containers[i]) <==> Broken(o.containers[i]));
    }
  }

  lemma UnhealthyIff(os: seq<Observation>)
    ensures FoundUnhealthy(os) <==> FailsFirst(os)
  {
    forall i | 0 <= i < |os|
      ensures VerdictOf(os[i]) == Unhealthy <==> PollFails(os[i])
      ensures VerdictOf(os[i]) == Healthy <==> PollSucceeds(os[i])
    {
      VerdictIs(os[i]);
    }
    if i :| 0 <= i < |os| && PollFails(os[i]) && forall j :: 0 <= j < i ==> !PollSucceeds(os[j]) {
      var k := FirstFailing(os, i);
      assert VerdictOf(os[k]) == Unhealthy;
    }
  }

  lemma {:induction false} FirstFailing(os: seq<Observation>, i: nat) returns (k: nat)
    requires i < |os| && PollFails(os[i])
    ensures k <= i && PollFails(os[k]) && forall j :: 0 <= j < k ==> !PollFails(os[j])
    decreases i
  {
    if j: nat :| j < i && PollFails(os[j]) {
      k := FirstFailing(os, j);
    } else {
      k := i;
    }
  }

  // ---------------------------------------------------------------- endings

  /** The text is read and, if there is something newer, written. */
  ghost predicate ReachesPull(env: Env, s: State) {
    TextRead(env, s) && (HasNewer(env, ProjectText(env, s)) ==> env.updateWrite.Written?)
  }

  /** The containers are started and no health poll fails first. */
  ghost predicate Starts(env: Env, s: State)
    requires TextRead(env, s)
  {
    && env.up.ok && (HasNewer(env, ProjectText(env, s)) || s.disk.Some? || env.otherComposeFile)
    && !(env.hasDocker && FailsFirst(env.observations))
  }

  /** A rollback was asked for and there are images to go back to. */
  predicate CanRollBack(env: Env, withRollback: bool) {
    withRollback && env.hasDb && env.hasDocker && env.snapshots.Some? && env.snapshots.value != []
  }

  lemma StartIs(env: Env, s: State)
    ensures StartContent(env, s) == if TextRead(env, s) then Some(ProjectText(env, s)) else None
  {
  }

  lemma StartsIff(env: Env, s: State)
    requires TextRead(env, s)
    ensures var updates := NewRefs(env, ProjectText(env, s)) != {};
      && (updates <==> HasNewer(env, ProjectText(env, s)))
      && (ContainersStart(env, updates || s.disk.Some? || env.otherComposeFile) <==> Starts(env, s))
  {
    NewRefsIff(env, ProjectText(env, s));
    UnhealthyIff(env.observations);
  }

  lemma CanRollBackIff(env: Env, withRollback: bool)
    ensures SnapshotsOf(env, withRollback) != [] <==> CanRollBack(env, withRollback)
  {
  }

  /** Each ending, by the answers that lead to it. A run rolls back exactly when that was
      asked for, there is something to go back to, the pull succeeded and the containers
      did not start. */
  lemma RunEnds(env: Env, withRollback: bool, s: State)
    ensures var ending := EndingOf(env, withRollback, s);
      && (ending == Unread <==> !TextRead(env, s))
      && (ending == Unwritten <==> TextRead(env, s) && !ReachesPull(env, s))
      && (ending == NotPulled <==> ReachesPull(env, s) && !env.pull.ok)
      && (ending == Deployed <==> ReachesPull(env, s) && env.pull.ok && Starts(env, s))
      && (ending == RolledBack || ending == RollbackFailed <==>
            ReachesPull(env, s) && env.pull.ok && !Starts(env, s) && CanRollBack(env, withRollback))
      && (ending == RolledBack ==> env.restoreWrite.Written? && env.rollbackUp.ok)
      && (ending == RollbackFailed ==> !(env.restoreWrite.Written? && env.rollbackUp.ok))
      && (ending == NotStarted <==>
            ReachesPull(env, s) && env.pull.ok && !Starts(env, s) && !CanRollBack(env, withRollback))
  {
    StartIs(env, s);
    CanRollBackIff(env, withRollback);
    if TextRead(env, s) {
      StartsIff(env, s);
    }
  }

  /** What each run reports. */
  lemma RunReports(env: Env, withRollback: bool, s: State)
    ensures var report := Report(EndingOf(env, withRollback, s));
      report == if !ReachesPull(env, s) then []
                else if env.pull.ok && Starts(env, s) then [Done(true)]
                else if env.pull.ok && CanRollBack(env, withRollback) then
                  [Rollback(Started),
                   Rollback(if env.restoreWrite.Written? && env.rollbackUp.ok then Complete else Failed),
                   Done(false)]
                else [Done(false)]
  {
    RunEnds(env, withRollback, s);
  }

  // ---------------------------------------------------------------- the other streams

  /** One event a line, of the given kind. */
  lemma LineEventsAre(lines: seq<string>, inRollback: bool, i: nat)
    requires i < |lines|
    ensures |LineEvents(lines, inRollback)| == |lines|
    ensures LineEvents(lines, true)[i] == RollbackLine(lines[i]) && LineEvents(lines, false)[i] == ComposeLine(lines[i])
  {
  }

  /** One event a check, with the service and its outcome. */
  lemma CheckEventsAre(checks: seq<(string, Check)>, i: nat)
    requires i < |checks|
    ensures |CheckEvents(checks)| == |checks| && CheckEvents(checks)[i] == VersionCheck(checks[i].0, checks[i].1)
  {
  }

  /** A pull with Docker starts, passes on each layer and ends with its outcome; without
      Docker only a failure is reported. */
  lemma PullEventsAre(env: Env, image: string)
    ensures var (events, layers) := (PullEvents(env, image), env.pullImage(image).lines);
      && events != [] && events[|events| - 1] == PullDone(image, env.hasDocker && env.pullImage(image).ok)
      && (!env.hasDocker ==> |events| == 1)
      && (env.hasDocker ==>
            && |events| == |layers| + 2 && events[0] == PullStart(image)
            && forall i :: 0 <= i < |layers| ==> events[i + 1] == PullLayer(image, layers[i]))
  {
  }

  /** The images come from the record, or from the file where the record is missing,
      unreadable or empty. */
  lemma DeployContentIs(env: Env, s: State)
    ensures var recorded := env.hasDb && env.loadOk && s.record.Some? && s.record.value.compose != "";
      && (recorded ==> DeployContent(env, s) == s.record.value.compose)
      && (!recorded && env.readOk && s.disk.Some? ==> DeployContent(env, s) == s.disk.value)
      && (!recorded && !(env.readOk && s.disk.Some?) ==> DeployContent(env, s) == "")
  {
  }
}
