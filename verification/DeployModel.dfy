/** Deploying a project, seen from outside: the events a run reports, the
    environment it runs in, and how it ends. What external commands, the file
    system, the database and the registries answer is fixed by an environment that
    the proofs quantify over. */
module DeployModel {
  import opened Text
  import opened Compose
  import opened UpdatePass

  // ---------------------------------------------------------------- events

  datatype RollbackStatus = Started | Complete | Failed

  datatype DeployEvent =
    | VersionCheck(service: string, outcome: Check)
    | PullStart(image: string)
    | PullLayer(image: string, progress: string)
    | PullDone(image: string, pulled: bool)
    | ComposeLine(line: string)
    | RollbackLine(line: string)
    | Rollback(status: RollbackStatus)
    | Done(success: bool)

  predicate IsMilestone(e: DeployEvent) {
    e.Rollback? || e.Done?
  }

  /** The rollback statuses and done events among some events, in order. */
  function Milestones(events: seq<DeployEvent>): seq<DeployEvent> {
    if events == [] then []
    else Milestones(events[..|events| - 1])
         + (if IsMilestone(events[|events| - 1]) then [events[|events| - 1]] else [])
  }

  /** The events of the lines a command prints. */
  function LineEvents(lines: seq<string>, inRollback: bool): seq<DeployEvent> {
    seq(|lines|, i requires 0 <= i < |lines| => if inRollback then RollbackLine(lines[i]) else ComposeLine(lines[i]))
  }

  /** One event for each version check. */
  function CheckEvents(checks: seq<(string, Check)>): seq<DeployEvent> {
    seq(|checks|, i requires 0 <= i < |checks| => VersionCheck(checks[i].0, checks[i].1))
  }

  // ---------------------------------------------------------------- the environment

  /** An external command: the lines it prints and whether it succeeds. */
  datatype Command = Command(lines: seq<string>, ok: bool)

  /** A file write; one that fails leaves the file in any state. */
  datatype FileWrite = Written | WriteFailed(left: Option<string>)

  datatype ContainerState = Running | Exited | Dead | Other

  datatype Container = Container(state: ContainerState, unhealthy: bool)

  /** One turn of the health poll. */
  datatype Observation = Cancelled | LoadFailed | Seen(containers: seq<Container>)

  datatype Snapshot = Snapshot(imageRef: string, imageId: string)

  /** A project's row in the database. */
  datatype Record = Record(description: string, compose: string, envVars: map<string, string>, removeStaleImages: bool)

  datatype Env = Env(
    hasDb: bool,
    hasDocker: bool,
    otherComposeFile: bool,                            // a compose file under another accepted name
    loadOk: bool,                                      // reading the record
    readOk: bool,                                      // reading the compose file
    images: string -> Option<map<string, string>>,     // services of a compose text, None when it does not parse
    imageMatches: string -> seq<string>,               // what the image pattern finds in a compose text
    pullImage: string -> Command,                      // an image pull and its progress
    regs: Registries,
    snapshots: Option<seq<Snapshot>>,                  // running containers, None on error
    updateWrite: FileWrite,
    updateRecordOk: bool,
    pull: Command,
    up: Command,
    observations: seq<Observation>,                    // polls before the deadline
    pruned: string,
    retag: Snapshot -> bool,
    restoreWrite: FileWrite,
    rollbackUp: Command,
    rollbackLoadOk: bool,
    restoreRecordOk: bool)

  // ---------------------------------------------------------------- health

  datatype Verdict = Healthy | Unhealthy | Undecided

  predicate IsBad(c: Container) {
    c.state == Exited || c.state == Dead || c.unhealthy
  }

  function VerdictOf(o: Observation): Verdict {
    match o
    case Cancelled => Unhealthy
    case LoadFailed => Undecided
    case Seen(cs) =>
      if exists i :: 0 <= i < |cs| && IsBad(cs[i]) then Unhealthy
      else if cs != [] && forall i :: 0 <= i < |cs| ==> cs[i].state == Running then Healthy
      else Undecided
  }

  /** Some poll is decided, and the first one that is, is unhealthy. */
  ghost predicate FoundUnhealthy(os: seq<Observation>) {
    exists i :: 0 <= i < |os| && VerdictOf(os[i]) == Unhealthy
             && forall j :: 0 <= j < i ==> VerdictOf(os[j]) == Undecided
  }

  // ---------------------------------------------------------------- pulling newer images

  /** What a run changes: the file `docker-compose.yml` and the project's record. */
  datatype State = State(disk: Option<string>, record: Option<Record>)

  /** The compose text a run starts from. */
  function StartContent(env: Env, s: State): Option<string> {
    if env.hasDb then
      if env.loadOk && s.record.Some? then Some(s.record.value.compose) else None
    else if env.readOk then s.disk
    else None
  }

  /** The new references for the services of a compose text. */
  function NewRefs(env: Env, content: string): set<string> {
    match env.images(content)
    case None => {}
    case Some(images) => UpdatesOf(env.regs, images).Values
  }

  /** The images to go back to. */
  function SnapshotsOf(env: Env, withRollback: bool): seq<Snapshot> {
    if withRollback && env.hasDb && env.hasDocker && env.snapshots.Some? then env.snapshots.value else []
  }

  datatype Ending =
    | Unread          // the compose text cannot be read
    | Unwritten       // its new version cannot be written
    | NotPulled       // the images cannot be pulled
    | Deployed
    | NotStarted      // the containers fail and there is nothing to go back to
    | RolledBack
    | RollbackFailed

  /** The containers start and are not found unhealthy. */
  ghost predicate ContainersStart(env: Env, hasFile: bool) {
    env.up.ok && hasFile && (!env.hasDocker || !FoundUnhealthy(env.observations))
  }

  /** The file is restored and the containers start again. */
  predicate RollbackSucceeds(env: Env) {
    env.restoreWrite.Written? && env.rollbackUp.ok
  }

  /** How a run ends whose containers do not start. */
  function FailEnding(env: Env, snapshots: seq<Snapshot>): Ending {
    if snapshots == [] then NotStarted else if RollbackSucceeds(env) then RolledBack else RollbackFailed
  }

  /** How a run ends that gets as far as pulling. */
  ghost function PullEnding(env: Env, snapshots: seq<Snapshot>, hasFile: bool): Ending {
    if !env.pull.ok then NotPulled
    else if ContainersStart(env, hasFile) then Deployed
    else FailEnding(env, snapshots)
  }

  /** How a run ends, decided by what its environment answers. */
  ghost function EndingOf(env: Env, withRollback: bool, s: State): Ending {
    var start := StartContent(env, s);
    if start == None then Unread
    else
      var updates := NewRefs(env, start.value) != {};
      if updates && !env.updateWrite.Written? then Unwritten
      else PullEnding(env, SnapshotsOf(env, withRollback), updates || s.disk.Some? || env.otherComposeFile)
  }

  /** The status events of a run, in order. */
  function Report(ending: Ending): seq<DeployEvent> {
    match ending
    case Unread | Unwritten => []
    case Deployed => [Done(true)]
    case NotPulled | NotStarted => [Done(false)]
    case RolledBack => [Rollback(Started), Rollback(Complete), Done(false)]
    case RollbackFailed => [Rollback(Started), Rollback(Failed), Done(false)]
  }

  /** `s'` follows from `s` by writing the new references into the text, first to the
      file and then, if that works, to the record. */
  ghost predicate Installed(env: Env, content: string, s: State, s': State) {
    if NewRefs(env, content) == {} then s' == s
    else
      && s'.disk.Some? && Updates(content, NewRefs(env, content), s'.disk.value)
      && s'.record == if env.hasDb && env.updateRecordOk && s.record.Some?
                      then Some(s.record.value.(compose := s'.disk.value)) else s.record
  }

  /** The state after a rollback to `original`; the record is written last. */
  function Restored(env: Env, original: string, s: State): State {
    State(
      if env.restoreWrite.Written? then Some(original) else env.restoreWrite.left,
      if RollbackSucceeds(env) && env.hasDb && env.rollbackLoadOk && env.restoreRecordOk && s.record.Some?
      then Some(s.record.value.(compose := original)) else s.record)
  }

  /** The state after the last steps of a run; only a rollback changes it. */
  function Finished(env: Env, original: string, ending: Ending, s: State): State {
    if ending.RolledBack? || ending.RollbackFailed? then Restored(env, original, s) else s
  }

  /** `s'` is a possible state after a run from `s` with the given ending. */
  ghost predicate Outcome(env: Env, s: State, ending: Ending, s': State) {
    match StartContent(env, s)
    case None => s' == s
    case Some(start) =>
      if ending.Unwritten? then env.updateWrite.WriteFailed? && s' == State(env.updateWrite.left, s.record)
      else exists mid :: Installed(env, start, s, mid) && s' == Finished(env, start, ending, mid)
  }

  /** A run that has written its text ends as its last steps do. */
  lemma OutcomeOfPull(env: Env, withRollback: bool, s: State, mid: State)
    requires StartContent(env, s).Some? && Installed(env, StartContent(env, s).value, s, mid)
    requires NewRefs(env, StartContent(env, s).value) == {} || env.updateWrite.Written?
    ensures var start := StartContent(env, s).value;
      var ending := PullEnding(env, SnapshotsOf(env, withRollback), mid.disk.Some? || env.otherComposeFile);
      && ending == EndingOf(env, withRollback, s)
      && Outcome(env, s, ending, Finished(env, start, ending, mid))
  {
  }

  // ---------------------------------------------------------------- plain deployment

  /** The text whose images are pulled: the record's, or the file's when that is
      missing or empty. */
  function DeployContent(env: Env, s: State): string {
    var recorded := if env.hasDb && env.loadOk && s.record.Some? then s.record.value.compose else "";
    if recorded == "" && env.readOk && s.disk.Some? then s.disk.value else recorded
  }

  /** Each element once, where it first occurs. */
  function FirstOccurrences(items: seq<string>): (r: seq<string>)
    ensures forall x :: x in r <==> x in items
    ensures forall i, j :: 0 <= i < j < |r| ==> r[i] != r[j]
  {
    if items == [] then []
    else
      var front, last := items[..|items| - 1], items[|items| - 1];
      assert items == front + [last];
      FirstOccurrences(front) + if last in front then [] else [last]
  }

  /** The occurrences come in the order of the items: those of a front are a front. */
  lemma {:induction false} OccurrencesInOrder(items: seq<string>, k: nat)
    requires k <= |items|
    ensures FirstOccurrences(items[..k]) <= FirstOccurrences(items)
  {
    if k < |items| {
      OccurrencesInOrder(items[..|items| - 1], k);
      assert items[..|items| - 1][..k] == items[..k];
    } else {
      assert items[..k] == items;
    }
  }

  /** The events of pulling one image; without Docker only the failure is reported. */
  function PullEvents(env: Env, image: string): seq<DeployEvent> {
    if !env.hasDocker then [PullDone(image, false)]
    else
      var layers := env.pullImage(image).lines;
      [PullStart(image)] + seq(|layers|, i requires 0 <= i < |layers| => PullLayer(image, layers[i]))
      + [PullDone(image, env.pullImage(image).ok)]
  }

  function AllPullEvents(env: Env, images: seq<string>): seq<DeployEvent> {
    if images == [] then []
    else AllPullEvents(env, images[..|images| - 1]) + PullEvents(env, images[|images| - 1])
  }

  lemma PullOneMore(env: Env, before: seq<DeployEvent>, images: seq<string>, i: nat)
    requires i < |images|
    ensures before + AllPullEvents(env, images[..i + 1])
         == (before + AllPullEvents(env, images[..i])) + PullEvents(env, images[i])
  {
    assert images[..i + 1][..i] == images[..i];
  }

  lemma {:induction false} NoMilestones(a: seq<DeployEvent>, b: seq<DeployEvent>)
    requires forall e :: e in b ==> !IsMilestone(e)
    ensures Milestones(a + b) == Milestones(a)
    decreases |b|
  {
    if b == [] {
      assert a + b == a;
    } else {
      var n := |b| - 1;
      assert (a + b)[..|a + b| - 1] == a + b[..n];
      NoMilestones(a, b[..n]);
    }
  }

  lemma {:induction false} PullsAreNoMilestones(env: Env, images: seq<string>)
    ensures forall e :: e in AllPullEvents(env, images) ==> !IsMilestone(e)
  {
    if images != [] {
      PullsAreNoMilestones(env, images[..|images| - 1]);
    }
  }
}
