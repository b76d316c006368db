/** What a crontab line means and how an entry is printed, as functions. The
    methods of `CronParser` are proved against these. */
module CronFormat {
  import opened Text
  import opened CronScan

  datatype EntryType = Job | Comment | EnvVar | Blank

  /** One logical line of a crontab. The derived fields `ID` and `NextRun` are
      not modelled. */
  datatype CronEntry = CronEntry(
    kind: EntryType,
    disabled: bool,
    special: string,
    minute: string,
    hour: string,
    day: string,
    month: string,
    weekday: string,
    command: string,
    comment: string,
    raw: string)

  predicate IsSpecial(w: string) {
    w in {"@reboot", "@yearly", "@annually", "@monthly", "@weekly", "@daily", "@midnight", "@hourly"}
  }

  // ---------------------------------------------------------------- parsing

  function NonJob(kind: EntryType, raw: string): CronEntry {
    CronEntry(kind, false, "", "", "", "", "", "", "", "", raw)
  }

  function HashIndex(line: string): int {
    HashFrom(None, line)
  }

  /** The line without its inline comment. */
  function Body(line: string): string {
    var i := HashIndex(line);
    if i >= 0 then TrimSpace(line[..i]) else line
  }

  function InlineComment(line: string): string {
    var i := HashIndex(line);
    if i >= 0 then TrimSpace(line[i + 1..]) else ""
  }

  /** A descriptor and a command, or five schedule words and a command. */
  predicate HasJobWords(words: seq<string>) {
    |words| >= 2 && (IsSpecial(words[0]) || |words| >= 6)
  }

  function JobOf(words: seq<string>, disabled: bool, comment: string): CronEntry
    requires HasJobWords(words)
  {
    if IsSpecial(words[0]) then
      CronEntry(Job, disabled, words[0], "", "", "", "", "", Join(words[1..], " "), comment, "")
    else
      CronEntry(Job, disabled, "", words[0], words[1], words[2], words[3], words[4],
                Join(words[5..], " "), comment, "")
  }

  function JobLine(line: string, disabled: bool): Option<CronEntry> {
    var words := Fields(Body(line));
    if HasJobWords(words) then Some(JobOf(words, disabled, InlineComment(line))) else None
  }

  function EntryOf(table: LetterTable, line: string): CronEntry {
    var trimmed := TrimSpace(line);
    if trimmed == "" then NonJob(Blank, line)
    else if HasPrefix(trimmed, "#") then
      match JobLine(TrimSpace(TrimPrefix(trimmed, "#")), true)
      case Some(job) => job
      case None => NonJob(Comment, line)
    else if IsEnvLine(table, trimmed) then NonJob(EnvVar, line)
    else
      match JobLine(trimmed, false)
      case Some(job) => job
      case None => NonJob(Comment, line)
  }

  function EntriesOfLines(table: LetterTable, lines: seq<string>): seq<CronEntry> {
    seq(|lines|, i requires 0 <= i < |lines| => EntryOf(table, lines[i]))
  }

  /** The entries of a crontab text, one per line. */
  function EntriesOf(table: LetterTable, text: string): seq<CronEntry> {
    EntriesOfLines(table, Split(text, '\n'))
  }

  // ---------------------------------------------------------------- printing

  function Schedule(e: CronEntry): string {
    if e.special != "" then e.special
    else e.minute + " " + e.hour + " " + e.day + " " + e.month + " " + e.weekday
  }

  /** Schedule and command of a job. */
  function JobText(e: CronEntry): string {
    Schedule(e) + " " + e.command
  }

  function Mark(e: CronEntry): string {
    if e.disabled then "#" else ""
  }

  function CommentText(e: CronEntry): string {
    if e.comment != "" then " # " + e.comment else ""
  }

  function LineOf(e: CronEntry): string {
    if e.kind != Job then e.raw else Mark(e) + JobText(e) + CommentText(e)
  }

  function LinesOf(es: seq<CronEntry>): seq<string> {
    seq(|es|, i requires 0 <= i < |es| => LineOf(es[i]))
  }

  /** The crontab text of a list of entries. */
  function TextOf(es: seq<CronEntry>): string {
    Join(LinesOf(es), "\n")
  }

  // ---------------------------------------------------------------- well-formed entries

  /** The five schedule fields of a job that has no descriptor. */
  predicate WellFormedSchedule(e: CronEntry) {
    if e.special != "" then
      IsSpecial(e.special)
      && e.minute == "" && e.hour == "" && e.day == "" && e.month == "" && e.weekday == ""
    else
      IsWord(e.minute) && IsWord(e.hour) && IsWord(e.day) && IsWord(e.month) && IsWord(e.weekday)
      && !IsSpecial(e.minute)
  }

  /** White-space-free schedule fields, a squeezed command, no bare `#`, quotes
      closed before a comment, and an enabled line that is not env-shaped. */
  predicate WellFormedJob(table: LetterTable, e: CronEntry) {
    && e.raw == ""
    && WellFormedSchedule(e)
    && e.command != "" && e.command == Squeeze(e.command)
    && NoHash(None, JobText(e))
    && Trimmed(e.comment) && '\n' !in e.comment
    && (e.comment != "" ==> QuoteAfter(None, JobText(e)) == None)
    && (!e.disabled ==> !IsEnvLine(table, JobText(e)))
  }

  predicate LooksLikeJob(line: string) {
    HasJobWords(Fields(Body(line)))
  }

  /** A line kept verbatim, of the kind its first characters give it. */
  predicate WellFormedRaw(table: LetterTable, kind: EntryType, raw: string) {
    var trimmed := TrimSpace(raw);
    && '\n' !in raw
    && match kind
       case Blank => trimmed == ""
       case EnvVar => !HasPrefix(trimmed, "#") && IsEnvLine(table, trimmed)
       case Comment =>
         trimmed != "" &&
         (if HasPrefix(trimmed, "#") then !LooksLikeJob(TrimSpace(trimmed[1..]))
          else !IsEnvLine(table, trimmed) && !LooksLikeJob(trimmed))
       case Job => false
  }

  predicate WellFormed(table: LetterTable, e: CronEntry) {
    if e.kind == Job then WellFormedJob(table, e)
    else e == NonJob(e.kind, e.raw) && WellFormedRaw(table, e.kind, e.raw)
  }

  predicate AllWellFormed(table: LetterTable, es: seq<CronEntry>) {
    forall i :: 0 <= i < |es| ==> WellFormed(table, es[i])
  }
}
