# Verified model of vps-pilot

vps-pilot is a server dashboard. This project models its four most intricate
pieces of logic in Dafny and proves what they keep over all inputs and all runs.

* **Crontab editor** (`Text`, `CronScan`, `CronFormat`, `CronRoundTrip`,
  `CronParser`, `CronReading`, `CronEditing`). The visual editor reads a crontab into entries and
  prints the entries back. Two automata, the quote-aware comment scanner and the
  environment-line test, are shown to ignore how much white space separates words.
  From that it follows that parsing undoes printing on exactly the lists of
  well-formed entries, that saving reaches a fixpoint after one round, and exactly
  when flipping a job's switch survives a save. What a line reads as is also stated in
  terms of its characters and words alone.
* **Log ring buffer** (`LogLines`, `RingSlots`, `Delivery`, `RingBuffer`, `FanOut`).
  The circular array is a function of all lines ever stored, and that history is a
  function of the byte stream alone, however it is cut into writes. What a
  subscriber receives is characterised over every interleaving of stores and
  receives, and no interleaving of unsubscriptions with the single sends of a store
  sends on a closed channel.
* **Image updates** (`Tags`, `TagOrder`, `VersionOrder`, `NewestTag`, `TagAnswers`,
  `Compose`, `ComposeUpdate`, `ComposeLines`, `UpdatePass`, `DeployModel`,
  `DeployTrace`, `Deploy`, `DeployEndings`, `DeployOutcome`). The tag ranking is a total
  preorder and agrees with version precedence under an exact condition, the search finds
  the first tag of the highest rank, the rewriting of compose text is determined exactly
  when no repository gets two new references, and a second pass finds nothing to do. The
  deployment is driven by an arbitrary environment; how a run ends, every event it sends,
  and what it leaves in the file and in the record are proved for every environment.
* **Roles and users** (`RoleStore`, `RoleDatabase`, `UserAdmin`, `AdminRuns`,
  `EnabledAdmins`, `RoleEffects`, `RoleAccess`). The system roles never change; which
  runs of requests keep an administrator, and one who is not disabled, is settled
  exactly; an update succeeds under an exact condition and gives a user exactly the
  roles and permissions asked for; and what a user may do is exactly what the
  permissions of his roles cover.

Imperative code is modelled by methods and classes, each proved against a function
or relation; the laws are lemmas about those functions and relations.

## Findings

Where a promise does not hold as stated, the exact condition is proved, and a lemma
names an input on which it fails.

* Switching a disabled job on and saving loses the job exactly when its line looks
  like an environment assignment (`CronEditing.ToggleSurvives`,
  `CronEditing.ToggleLostSaved`); `#A = 1 2 3 c` is such a line
  (`CronEditing.ToggleLostSample`).
* `SerializeCrontab` of no entries reads back as one blank entry
  (`CronRoundTrip.EmptyCrontab`).
* Unsubscribing a channel twice closes it twice, and nothing else does
  (`FanOut.ClosesTwiceIff`, `FanOut.UnsubscribedTwice`).
* Two new references for one repository make the rewritten compose text depend on
  map iteration order (`ComposeUpdate.DeterminedIffOnePerBase`, with a failing text
  built by `ComposeUpdate.OrderMatters`), and make a second update turn the first one
  back on some text (`ComposeUpdate.IdempotentIffOnePerBase`, `ComposeUpdate.TurnsBack`).
* Version numbers beyond 64 bits all count as the largest one, because the error of
  `strconv.Atoi` is dropped. Tags rank by precedence exactly when the first differing
  numbers are not both that large or the later ones make up for it
  (`VersionOrder.VersionsRankByPrecedence`, `VersionOrder.LargeVersionsTie`).
* A run of `PullNewImagesStream` that cannot read or write the compose text returns
  without a done event, and only such a run does (`DeployOutcome.NoDoneIff`,
  `DeployOutcome.RunsWithoutDone`).
* A rollback restores the file and can leave the new text in the database record:
  when its containers do not start, and when the record cannot be read or written
  (`DeployOutcome.RolledBackState`, `DeployOutcome.RollbackForgetsRecord`).
* When the record cannot be updated, the next run finds the same new references again
  (`DeployOutcome.NextRunFindsNothing`, `DeployOutcome.UpdateFoundAgain`). After a
  rollback that restores the file but not the record, the next run finds nothing new
  although the file holds the old tags (`DeployOutcome.RollbackHidesUpdate`).
* The guard against dropping one's own admin role is skipped when the admin query
  itself fails, and only then; the last administrator can be lost in that way and in
  no other (`AdminRuns.AlwaysAnAdmin`, `AdminRuns.LastAdminLost`).
* Requests are admitted without a look at the disabled flag, so two administrators can
  disable each other (`EnabledAdmins.AlwaysEnabledIff`, `EnabledAdmins.DisableEachOther`).
* Deleting a role revokes its permissions exactly where the database enforces its
  foreign keys, since permissions are looked up without the role itself
  (`RoleEffects.RoleRemovalRevokes`, `RoleEffects.DeletedRoleStillGrants`).

## Model

| member | source | states |
|---|---|---|
| CronParser.IndexInlineComment | internal/cron/parser.go:169-189 | the position returned is the first `#` outside quotes, or there is none |
| CronParser.IsEnv | internal/cron/parser.go:191-206 | the index-and-trim test decides env-shape, and so does a four-state automaton |
| CronParser.ParseJobLine | internal/cron/parser.go:113-152 | a line is a job exactly when its body has a descriptor and a command, or five schedule words and a command |
| CronParser.ParseLine | internal/cron/parser.go:67-108 | the branch order of blank, disabled job, comment, environment, job, fallback |
| CronParser.ParseCrontab | internal/cron/parser.go:62-111 | one entry a line, in order |
| CronParser.WriteEntry | internal/cron/parser.go:221-249 | a raw line verbatim, or mark, schedule, command and comment of a job |
| CronParser.SerializeCrontab | internal/cron/parser.go:215-252 | the entries' lines, joined by newlines |
| CronScan.SqueezeQuotes | internal/cron/parser.go:169-189 | the quote scanner cannot tell a text from the text with its white space squeezed |
| CronScan.SqueezeEnv | internal/cron/parser.go:191-206 | neither can the environment test |
| CronScan.EnvScanIsEnvLine | internal/cron/parser.go:191-206 | the automaton and the source's test agree on every line |
| CronScan.HashFrom | internal/cron/parser.go:169-189 | a `#` is found exactly when one lies outside quotes, and nothing before it does |
| CronReading.QuotedIsSkipped | internal/cron/parser.go:169-189 | a quoted piece is passed over up to the quote that opened it, whatever other quote or `#` is in it |
| CronReading.CommentAfterPlain | internal/cron/parser.go:169-189 | after a piece without quotes a `#` starts the comment; an unclosed quote and the end of the line rule one out |
| CronReading.ApostropheInQuotes | internal/cron/parser.go:169-189 | `echo "it's #1"` has no comment |
| CronReading.CommentCutOff | internal/cron/parser.go:113-121 | the comment of a plain job is its trimmed text, and nothing else of the job changes |
| CronReading.DescriptorJob | internal/cron/parser.go:123-138 | a line that starts with one of the eight descriptors is a job when a command follows |
| CronReading.FiveFieldJob | internal/cron/parser.go:140-152 | any other line is a job when it has six words; minute, hour, day, month and weekday are the first five, in order |
| CronReading.LineOfWords | internal/cron/parser.go:67-108 | a line is an environment line, an enabled job or a comment kept as it is; behind a `#` a disabled job or a comment |
| CronReading.BlankLine | internal/cron/parser.go:67-76 | white space is a blank entry |
| CronReading.EnvLineOfKey | internal/cron/parser.go:191-206 | ASCII text before `=` makes an environment line exactly when it is a key of letters, digits and underscores |
| CronReading.NormalLineKept | internal/cron/parser.go:221-249 | a job line with single blanks and a comment set off by ` # ` is printed as it stands |
| CronRoundTrip.ParseWellFormed | internal/cron/parser.go:113-152 | every line parses to a well-formed entry |
| CronRoundTrip.PrintParse | internal/cron/parser.go:215-252 | a well-formed entry, printed, parses to itself |
| CronRoundTrip.RoundTrip | internal/cron/parser.go:62-252 | parsing undoes printing exactly on non-empty lists of well-formed entries |
| CronRoundTrip.Reparse | internal/cron/parser.go:62-252 | what is read from any text is read again from its printed form |
| CronRoundTrip.EmptyCrontab | internal/cron/parser.go:215-252 | no entries print to a text with one blank entry |
| CronEditing.StoredEntries | internal/cron/manager.go:35-39 | the newline rule adds at most one blank entry at the end |
| CronEditing.StoredEnds | internal/cron/manager.go:35-39 | what is stored is empty or ends with a newline, which is added only where it is missing |
| CronEditing.SaveFixpoint | internal/cron/manager.go:35-39 | a second unedited save changes no text |
| CronEditing.SaveKeepsLines | internal/cron/parser.go:215-252 | saving keeps all entries and every line that is not a job, byte for byte |
| CronEditing.ToggleSurvives | web/src/pages/CronJobs.tsx:203-208 | what is read after a save is the crontab with the job switched, with at most a blank entry added, exactly when enabling the job does not make it an environment line |
| CronEditing.ToggleTwice | web/src/pages/CronJobs.tsx:203-208 | disabling and enabling an enabled job of any text, with a save after each, leaves the text of a save without any edit |
| CronEditing.ToggleLost | internal/cron/parser.go:94-97 | otherwise the line of the enabled job reads back as an environment line |
| CronEditing.ToggleLostSaved | internal/cron/manager.go:35-39 | and in a save of the whole crontab nothing else changes |
| CronEditing.ToggleLostSample | internal/cron/parser.go:80-97 | `#A = 1 2 3 c` reads as a disabled job, and the line it prints to when switched on reads as an environment line |
| LogLines.FeedConcat | internal/logbuffer/buffer.go:31-55 | writing p then q leaves the same lines and partial line as writing both at once |
| LogLines.FeedAllIsFeed | internal/logbuffer/buffer.go:31-55 | the same for any number of writes |
| LogLines.FeedIsSplit | internal/logbuffer/buffer.go:31-55 | the history is the non-empty pieces of the stream before its last newline, the partial line the piece after it |
| RingSlots.SlotsStore | internal/logbuffer/buffer.go:57-62 | storing a line overwrites one slot |
| RingSlots.SlotsHold | internal/logbuffer/buffer.go:57-62 | the last `size` lines are all still held |
| RingSlots.ReadBack | internal/logbuffer/buffer.go:82-86 | walking from the computed start slot meets the last n lines in order |
| RingBuffer.RingBuffer.StoreLocked | internal/logbuffer/buffer.go:57-69 | array, head and count stay functions of the longer history, and every subscriber is offered the line |
| RingBuffer.RingBuffer.Broadcast | internal/logbuffer/buffer.go:63-68 | each subscriber is offered the line once, in any map order |
| RingBuffer.RingBuffer.TakeLine | internal/logbuffer/buffer.go:38-52 | one turn of the extraction loop shortens the pending bytes and keeps their meaning |
| RingBuffer.RingBuffer.TakeLines | internal/logbuffer/buffer.go:37-53 | the loop leaves no newline pending and stores exactly the complete non-empty lines |
| RingBuffer.RingBuffer.Write | internal/logbuffer/buffer.go:31-55 | history and partial line are those of the byte-at-a-time reference, and subscribers are offered exactly the new lines |
| RingBuffer.RingBuffer.Lines | internal/logbuffer/buffer.go:72-88 | exactly the last min(n, count) lines, in order |
| RingBuffer.RingBuffer.Subscribe | internal/logbuffer/buffer.go:91-97 | a fresh channel that has been offered nothing |
| RingBuffer.RingBuffer.Unsubscribe | internal/logbuffer/buffer.go:100-105 | the channel is removed, then closed |
| RingBuffer.RingBuffer.constructor | internal/logbuffer/buffer.go:22-28 | an empty ring of any size, also none, with no subscribers |
| RingBuffer.Subscriber.Receive | internal/api/ws.go:390-399 | the oldest queued line is taken out, and nothing else changes |
| RingBuffer.Subscriber.TrySend | internal/logbuffer/buffer.go:64-67 | the line is queued when there is room and dropped otherwise |
| Delivery.DeliveredInOrder | internal/logbuffer/buffer.go:63-68 | received and queued lines are stored lines at strictly increasing positions |
| Delivery.StoredIsDeliveredOrDropped | internal/logbuffer/buffer.go:63-68 | stored = delivered + dropped |
| Delivery.LosslessIffNeverFull | internal/logbuffer/buffer.go:92 | nothing is lost exactly when no line was stored while the queue held 64 |
| Delivery.FirstSixtyFour | internal/logbuffer/buffer.go:92 | a subscriber that receives nothing holds the first 64 lines, the others are dropped |
| RingBuffer.SubscriberView | internal/logbuffer/buffer.go:57-97 | a live subscriber of any ring has got lines stored since it subscribed, in order and without repeats, and all of them exactly when none met a full queue |
| FanOut.NeverSendsOnClosed | internal/logbuffer/buffer.go:57-105 | in no interleaving of single sends, subscriptions, removals and closings is a line sent to a closed channel |
| FanOut.ClosesTwiceIff | internal/logbuffer/buffer.go:100-105 | a channel is closed twice exactly when it is unsubscribed at least twice, not counting calls still under way |
| FanOut.UnsubscribedTwice | internal/logbuffer/buffer.go:100-105 | from any state with the lock free, unsubscribing a channel twice closes it twice |
| FanOut.ClosedMeanwhile | internal/logbuffer/buffer.go:100-105 | from any state, a channel can be closed in the middle of a store |
| FanOut.UnsubscribeOnceIsSafe | internal/logbuffer/buffer.go:100-105 | neither happens when each channel is unsubscribed at most once |
| TagOrder.VersionIsParsed | internal/docker/registries.go:270-309 | every text of three dotted numbers, with or without `v` and a suffix, is a version with those numbers |
| TagOrder.ParsedIsVersion | internal/docker/registries.go:270-309 | nothing else is |
| VersionOrder.VersionsRankByPrecedence | internal/docker/registries.go:287-319 | version tags rank by SemVer precedence exactly when the first differing numbers are not both too large or the later ones decide the same way |
| VersionOrder.VersionsTie | internal/docker/registries.go:287-319 | version tags tie exactly when at each position the numbers are equal or both too large, whatever marks and suffixes |
| VersionOrder.LargeVersionsTie | internal/docker/registries.go:305-307 | two concrete tags of twenty digits that tie although one precedes the other |
| TagOrder.ClassesRank | internal/docker/registries.go:379-427 | versions above dates above all other tags |
| TagOrder.CompareAntisymmetric | internal/docker/registries.go:381-427 | reflexive, and swapping flips the sign |
| TagOrder.CompareTransitive | internal/docker/registries.go:381-427 | transitive, strictly when either step is strict |
| TagOrder.NormalizeDate | internal/docker/registries.go:273-377 | without hyphens a date tag is year, month, day |
| TagOrder.DatesRankByCalendar | internal/docker/registries.go:402-411 | date tags rank by year, month, day, and tie exactly on the same date |
| TagOrder.DateIsParsed | internal/docker/registries.go:273-273 | every text of four, two and two digits, with or without hyphens between, is that date |
| TagOrder.ParsedIsDate | internal/docker/registries.go:273-273 | nothing else is |
| TagOrder.OthersRankAsStrings | internal/docker/registries.go:412-427 | tags that are neither rank by the first character in which they differ |
| TagOrder.KeptOutrankDropped | internal/api/registries.go:271-279 | after sorting and keeping 50, each tag kept ranks at least as high as each dropped |
| NewestTag.FindNewerSemver | internal/docker/registries.go:321-349 | the version loop finds the best tag |
| NewestTag.FindNewerDate | internal/docker/registries.go:351-372 | from a date tag the best tag; from any current tag the first of the latest dates after it, or none |
| NewestTag.FindNewerTag | internal/docker/registries.go:277-285 | found exactly when some comparable tag is strictly newer; the first list element of the highest rank |
| NewestTag.NewestIsShared | internal/docker/registries.go:277-372 | the same answer for every current tag of the class below it |
| NewestTag.NewestIsFinal | internal/docker/registries.go:277-372 | nothing is newer than the answer |
| TagAnswers.VersionAnswer | internal/docker/registries.go:321-349 | from a version, found exactly when the list has one with the same `v` and higher numbers; the answer is such a version and none of the list is higher |
| TagAnswers.DateAnswer | internal/docker/registries.go:351-372 | from a date, found exactly when the list has a later one; the answer is a date and none of the list is later; from other tags nothing is found |
| Compose.SplitMakeRef | internal/docker/compose.go:775-789 | splitting `base:tag` gives base and tag |
| Compose.SplitDigest | internal/docker/compose.go:777-779 | a digest is split off at the last `@` |
| Compose.SplitHostPort | internal/docker/compose.go:780-788 | a port is not a tag |
| ComposeLines.SplitPlain | internal/docker/compose.go:775-789 | without colon and at-sign there is no tag |
| Compose.ImageLineHolds | internal/docker/compose.go:757-766 | a rewritten line is an image line that holds the new reference |
| ComposeLines.LineReads | internal/docker/compose.go:753-760 | an image line holds its reference, quoted or not, whatever its indentation |
| ComposeLines.OtherLine | internal/docker/compose.go:753-756 | a line whose text starts otherwise holds none |
| Compose.FindNewRef | internal/docker/compose.go:761-769 | an applicable reference, or none when there is none, in any map order |
| Compose.RewriteLine | internal/docker/compose.go:753-770 | one line is rewritten as the relation says |
| Compose.UpdateServiceImages | internal/docker/compose.go:749-772 | each line is rewritten to some applicable reference if there is one, and kept otherwise |
| ComposeLines.RewrittenKeepsFront | internal/docker/compose.go:761-769 | a rewritten line keeps exactly its leading blanks and tabs, followed by `image: ` and a new reference to its repository |
| ComposeLines.RewrittenIff | internal/docker/compose.go:749-772 | a line is rewritten exactly when it is an image line whose repository has another new reference |
| ComposeUpdate.UpdateKeeps | internal/docker/compose.go:749-772 | line count, non-image lines and repositories are kept |
| ComposeUpdate.UpdateIdempotent | internal/docker/compose.go:749-772 | a second update with one reference for each repository changes nothing |
| ComposeUpdate.IdempotentIffOnePerBase | internal/docker/compose.go:761-769 | updating is idempotent on all texts exactly when no repository has two new references |
| ComposeUpdate.UpdateChangesIff | internal/docker/compose.go:749-772 | the text changes exactly when an image line has an applicable reference |
| ComposeUpdate.DeterminedIffOnePerBase | internal/docker/compose.go:761-769 | independent of map order on all texts exactly when no repository has two new references |
| UpdatePass.CheckOne | internal/docker/compose.go:886-910 | the outcome of one version check |
| UpdatePass.CheckServices | internal/docker/compose.go:883-911 | one outcome a service; updates for exactly the services with a newer tag |
| UpdatePass.CheckServiceIff | internal/docker/compose.go:886-910 | which outcome a check has; an update is the first of the newest listed tags of the same repository |
| UpdatePass.UpdatedIff | internal/docker/compose.go:883-911 | a service is updated exactly when its repository lists a newer tag |
| UpdatePass.SecondPassFindsNothing | internal/docker/compose.go:883-919 | after one pass and the rewriting, a second pass over the same tag lists finds nothing newer, also where a repository got several new references |
| UpdatePass.OneClassGivesOneRef | internal/docker/compose.go:883-919 | each repository gets at most one new reference exactly when the updated services that share it carry tags of one class |
| Deploy.Inspect | internal/docker/compose.go:1042-1057 | one poll is unhealthy, healthy or undecided |
| Deploy.WaitHealthy | internal/docker/compose.go:1026-1061 | an error exactly when the first decided poll is unhealthy |
| DeployEndings.VerdictIs | internal/docker/compose.go:1042-1057 | a poll fails on an exited, dead or unhealthy container, and succeeds when there are containers, all running and none unhealthy |
| DeployEndings.UnhealthyIff | internal/docker/compose.go:1026-1061 | containers are found unhealthy exactly when a poll fails before any succeeds |
| Deploy.Project.RunCompose | internal/docker/compose.go:577-590 | refuses without a compose file; otherwise passes on every line and the command's success |
| Deploy.Project.PerformRollback | internal/docker/compose.go:1064-1094 | file, then containers, then record are restored; a failure stops there |
| Deploy.Project.Retag | internal/docker/compose.go:1067-1073 | every image is tagged again and each failure reported |
| DeployTrace.RetagsReported | internal/docker/compose.go:1067-1073 | those reports are exactly the failures |
| Deploy.Project.FailDeploy | internal/docker/compose.go:946-973 | every event of the failure path: rollback started, its work, and finished, if there is something to go back to, then done; and the state it leaves |
| Deploy.Project.LoadCompose | internal/docker/compose.go:843-863 | the text comes from the record, or without a database from the file, or the run ends |
| Deploy.Project.CheckImages | internal/docker/compose.go:883-911 | every service is checked and its outcome reported; the updates are the new references |
| Deploy.Project.WriteNewImages | internal/docker/compose.go:883-928 | the checks are reported; file and record hold the rewritten text exactly when there is something new and it can be written |
| Deploy.Project.ReportChecks | internal/docker/compose.go:885-910 | one event a check, with its outcome |
| Deploy.Project.InstallUpdate | internal/docker/compose.go:914-928 | the record follows the file only when the file was written |
| Deploy.Project.StartContainers | internal/docker/compose.go:944-961 | the containers start and no poll finds them unhealthy |
| Deploy.Project.PullAndDeploy | internal/docker/compose.go:930-984 | the ending from the pull step on, every event, and the state it leaves |
| Deploy.Project.PullNewImages | internal/docker/compose.go:840-985 | the run ends as its environment decides, sends exactly the events of such a run and reports its statuses, succeeds exactly when deployed, and leaves a state of that ending |
| DeployEndings.RunEnds | internal/docker/compose.go:840-985 | each ending by the answers that lead to it; a run rolls back exactly when asked, with images to go back to, a pull that worked and containers that did not start |
| DeployEndings.RunReports | internal/docker/compose.go:840-985 | the statuses a run reports, by the same answers |
| DeployEndings.NewRefsIff | internal/docker/compose.go:883-919 | there is something new exactly when the repository of a service lists a newer tag |
| DeployTrace.TraceReports | internal/docker/compose.go:840-985 | among all events of a run the statuses are those of its ending |
| DeployTrace.EndsWithDone | internal/docker/compose.go:930-984 | a run that sends a done event ends with it |
| DeployTrace.ChecksSent | internal/docker/compose.go:885-910 | the outcome of every service is among the events |
| DeployEndings.CheckEventsAre | internal/docker/compose.go:885-910 | one event a check, with the service and its outcome |
| DeployEndings.LineEventsAre | internal/docker/compose.go:930-947 | one event a line, marked as compose or as rollback output |
| DeployTrace.LinesSent | internal/docker/compose.go:930-961 | so is every line of the pull and of the start of the containers |
| DeployOutcome.RolledBackState | internal/docker/compose.go:1064-1094 | after a rollback, complete or failed: what the file holds, and exactly when the record is the old one |
| DeployOutcome.KeptState | internal/docker/compose.go:913-985 | without a rollback: exactly when file and record changed, and a changed record agrees with the file |
| DeployOutcome.NoDoneIff | internal/docker/compose.go:846-923 | no done event exactly when the text cannot be read or its new version not written |
| DeployOutcome.RollbackForgetsRecord | internal/docker/compose.go:1080-1094 | for every repository and newer tag, a run whose rollback restores the file and leaves the new text in the record |
| DeployOutcome.RunsWithoutDone | internal/docker/compose.go:846-923 | two such runs without a done event |
| DeployOutcome.UpdateFoundAgain | internal/docker/compose.go:913-928 | a run after which the next one finds the same update again |
| DeployOutcome.OutdatedSample | internal/docker/registries.go:321-349 | going from `1.0.0` to `1.2.0` is such a case |
| DeployOutcome.NextRunFindsNothing | internal/docker/compose.go:843-985 | after every run that got as far as pulling, rolled back or not, the next run finds nothing new exactly when there was nothing or the new text stayed where it is read |
| DeployOutcome.RollbackHidesUpdate | internal/docker/compose.go:1080-1094 | a rollback after which the file holds the old tag and the next run finds nothing |
| Deploy.Project.RepullCurrent | internal/docker/compose.go:825-835 | one done event, last, successful exactly when the stream is |
| Deploy.Project.PullService | internal/docker/compose.go:989-1023 | the same, also when the pull fails |
| Deploy.ExtractImages | internal/docker/compose.go:508-520 | every image found, once, in order of first occurrence |
| DeployModel.OccurrencesInOrder | internal/docker/compose.go:508-520 | the images keep the order of their first occurrences |
| Deploy.Project.PullImage | internal/docker/compose.go:446-470 | start, progress and outcome of one pull, or only the failure without Docker |
| DeployEndings.PullEventsAre | internal/docker/compose.go:446-470 | a pull starts, passes on every layer in order and ends with its outcome |
| Deploy.Project.PullAll | internal/docker/compose.go:425-431 | one series of pull events for each image; a failure does not stop the others |
| Deploy.Project.DeployAll | internal/docker/compose.go:406-443 | all pulls, then the containers, then one done event |
| DeployEndings.DeployContentIs | internal/docker/compose.go:409-422 | the images come from the record, or from the file where the record is missing, unreadable or empty |
| RoleStore.PermissionsReplaced | internal/db/roles.go:159-164 | replacing a role's rows gives it the new ones and touches no other role |
| RoleDatabase.Database.AssignRolesToUser | internal/db/roles.go:266-282 | all assignments replaced, or none when one is refused |
| RoleDatabase.Database.InsertPermissions | internal/db/roles.go:250-264 | one row a permission, in order |
| RoleDatabase.Database.UpsertPersonalRole | internal/db/roles.go:118-166 | the personal role is created, replaced, linked again or deleted |
| RoleDatabase.Database.CreateRole | internal/db/roles.go:182-205 | a new role with its permissions, refused on a taken name |
| RoleDatabase.Database.UpdateRole | internal/db/roles.go:207-236 | refused for missing and system roles and taken names |
| RoleDatabase.Database.DeleteRole | internal/db/roles.go:238-248 | refused for missing and system roles |
| UserAdmin.KeepsAdmin | internal/api/users.go:175-183 | whether the admin role is among the readable ones given |
| UserAdmin.UpdateUser | internal/api/users.go:137-208 | the guarded stages of an update, and what a failure leaves done |
| RoleAccess.UpdateSucceedsIff | internal/api/users.go:137-208 | an update succeeds exactly when the actor does not disable himself, nothing fails, and given roles are neither refused nor guarded |
| RoleAccess.FailedUpdate | internal/api/users.go:155-205 | an unsuccessful update changes no role or permission; new roles are assigned only when just the permissions failed |
| RoleAccess.RolesKept | internal/api/users.go:168-170 | without roles, or with an empty list and no wish to clear, a user keeps all roles but the personal one and gets no other |
| RoleAccess.PermissionsGiven | internal/api/users.go:195-205 | permissions alone add the personal role, with exactly these permissions, to the roles the user has |
| RoleAccess.PersonalRoleGone | internal/db/roles.go:118-135 | cleared permissions leave no personal role |
| RoleAccess.NothingGiven | internal/api/users.go:155-205 | an update without roles and permissions changes none |
| RoleAccess.OthersKeepRoles | internal/api/users.go:155-205 | nobody else's roles change, but for the personal role of the user |
| UserAdmin.DeleteUser | internal/api/users.go:210-247 | never oneself; system users are disabled, local ones deleted |
| RoleAccess.RemovedIff | internal/api/users.go:210-247 | who is removed: anybody but the actor, when he exists and nothing fails |
| AdminRuns.UserUpdatedKeeps | internal/api/users.go:155-205 | an update keeps the system roles and what others hold of them |
| AdminRuns.UpdateDropsAdmin | internal/api/users.go:155-205 | an updated administrator stays one, except exactly when an effective update of his roles lacks the admin role; his own is guarded unless the admin query fails |
| AdminRuns.OthersKeepStatus | internal/api/users.go:155-205 | updating a user makes no other user an administrator and unmakes none |
| AdminRuns.RequestKeepsActor | internal/api/roles.go:30-105 | any request keeps the system roles, and its actor an administrator exactly when he does not drop his own role unguarded |
| AdminRuns.StepKeepsAnAdmin | internal/api/middleware.go:38-56 | one call leaves an administrator exactly when there is one and he is not the last to drop the role |
| AdminRuns.AlwaysAnAdmin | internal/api/router.go:147-155 | a run ends with an administrator exactly when none of its calls is the last one dropping the role; it always keeps the system roles |
| AdminRuns.LastAdminLost | internal/api/users.go:173-188 | a concrete call after which nobody is an administrator |
| EnabledAdmins.EnabledIff | internal/api/users.go:137-247 | an enabled administrator remains one exactly when the request does not disable, demote or remove him |
| EnabledAdmins.StepKeepsEnabled | internal/api/middleware.go:15-56 | one call leaves an enabled administrator exactly when it does not strip the only one |
| EnabledAdmins.AlwaysEnabledIff | internal/api/router.go:147-155 | all states of a run have an enabled administrator exactly when no call strips the only one |
| EnabledAdmins.DisableEachOther | internal/api/middleware.go:24-33 | two administrators disable each other, the second after being disabled himself |
| RoleEffects.UpdateEffect | internal/api/users.go:168-205 | the user's roles are exactly those given and the personal one, which holds exactly the given permissions |
| RoleEffects.UpdateGrants | internal/db/roles.go:375-394 | every custom permission given is effective |
| RoleAccess.AllowedIff | internal/db/roles.go:375-394 | who is no administrator may do exactly what a permission of one of his roles covers, on its project or on all |
| RoleAccess.AdministratorIff | internal/db/roles.go:318-340 | an administrator is who has the system role `admin`; he may do everything |
| RoleEffects.RefusedReassignment | internal/db/roles.go:266-282 | repeated ids, missing rows under foreign keys or a fault: no assignment, role or permission changes |
| RoleEffects.UserRemovedEffect | internal/api/users.go:210-247 | a removal leaves all other users with record, roles and permissions; a system user is disabled, a local one gone, his assignments only where keys cascade |
| RoleEffects.CreatedRole | internal/db/roles.go:182-205 | refused exactly on a taken name; otherwise the one role of that name, with the given permissions, and nothing else changes |
| RoleEffects.ChangedRole | internal/db/roles.go:207-236 | allowed exactly on an existing role that is no system role and a name no other role has; nothing but that role changes |
| RoleEffects.GlobalPermissions | internal/db/roles.go:341-394 | permission on everything follows from the global permissions, `admin` among them, or being an administrator, and nothing else |
| RoleAccess.GlobalIs | internal/db/roles.go:341-374 | the global permissions are all six for an administrator, for others those of a permission on all projects |
| RoleEffects.RoleRemovalRevokes | internal/db/roles.go:238-248 | deleting a role revokes exactly its permissions where foreign keys cascade, and none where they do not |
| RoleAccess.RemovedRole | internal/db/roles.go:238-248 | a role is removed exactly when it exists and is no system role; users, other roles and their assignments stay |
| RoleAccess.CreatedUser | internal/api/users.go:120-126 | a new user is enabled, with a new identifier and a free name; nothing else changes |
| RoleEffects.DeletedRoleStillGrants | internal/db/roles.go:375-394 | concrete tables in which a deleted role goes on granting a permission |

## Left out

- Text is a sequence of Unicode characters: bytes that are not valid UTF-8 behave in the source like characters that are neither space nor letter and are not modelled separately.
- The Unicode tables of letters and digits are a parameter of which only the ASCII part and the exclusion of white space are used.
- `ID`, `NextRun` and `ValidateExpression` of the crontab: derived values and calls into a scheduling library.
- The `crontab` command is taken to store the text it is given and to print it back.
- Log bytes are characters of which only newline is inspected; asking for a negative number of lines and storing a line in a ring of size 0, on which the source panics, are excluded.
- RingBuffer.RingBuffer.Write: one critical section is one atomic method; interleavings of the sends inside it with closings outside the lock are the subject of `FanOut`.
- TagOrder.KeptOutrankDropped: sorting is a library call and enters by what it guarantees, a permutation without a pair of neighbours out of order.
- UpdatePass.SecondPassFindsNothing: parsing YAML is a library call, so each service comes with the number of its image line; quoted and commented lines are read as the rewriting reads them.
- Deploy.Project.PullNewImages: snapshots saved to the database, descriptions of errors and the clock are not modelled; concurrent changes of the record between two steps are not either.
- Deploy.Project.DeployAll: the regular expression that finds image references in the text and the layout of progress messages are oracles.
- Commands, files, registries, containers and database faults are oracles in `DeployModel.Env`, `UpdatePass.Registries` and `UserAdmin.Faults`.
- Whether SQLite enforces foreign keys depends on the driver's reading of the connection string, so it is a parameter; all results hold for both.
- SQL text, identifiers of permission rows, timestamps, password hashes, sessions and the users list are not modelled; creating users and roles enters `AdminRuns` as steps on the tables only.
- HTTP routing, WebSockets, secrets, backups, metrics, notifications, webhooks and the web pages: plumbing around these pieces without state of its own, or state of other features.
