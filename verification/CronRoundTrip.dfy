/** Parser and printer undo each other. The well-formed entries are exactly the
    ones the parser returns, and printing is inverse to parsing on them. */
module CronRoundTrip {
  import opened Text
  import opened CronScan
  import opened CronFormat

  // ---------------------------------------------------------------- one job line

  /** The words a job prints. */
  function WordsOf(e: CronEntry): seq<string> {
    if e.special != "" then [e.special] + Fields(e.command)
    else [e.minute, e.hour, e.day, e.month, e.weekday] + Fields(e.command)
  }

  lemma SpecialIsWord(w: string)
    requires IsSpecial(w)
    ensures IsWord(w)
  {
  }

  lemma JoinFive(a: string, b: string, c: string, d: string, e: string)
    ensures Join([a, b, c, d, e], " ") == a + " " + b + " " + c + " " + d + " " + e
  {
    assert [a, b, c, d, e][1..] == [b, c, d, e];
    assert [b, c, d, e][1..] == [c, d, e];
    assert [c, d, e][1..] == [d, e];
    assert [d, e][1..] == [e];
    assert Join([d, e], " ") == d + " " + e;
    assert Join([c, d, e], " ") == c + " " + (d + " " + e);
    assert Join([b, c, d, e], " ") == b + " " + (c + " " + (d + " " + e));
  }

  /** The words printed by a well-formed job are the words read back. */
  lemma JobTextWords(table: LetterTable, e: CronEntry)
    requires WellFormedJob(table, e)
    ensures var words := WordsOf(e);
      && AllWords(words) && HasJobWords(words)
      && JobText(e) == Join(words, " ") && Fields(JobText(e)) == words
      && JobOf(words, e.disabled, e.comment) == e.(kind := Job)
  {
    var words, tail := WordsOf(e), Fields(e.command);
    FieldsAreWords(e.command);
    assert tail != [];
    if e.special != "" {
      SpecialIsWord(e.special);
      JoinAppend([e.special], tail, " ");
      assert words[1..] == tail;
    } else {
      var head := [e.minute, e.hour, e.day, e.month, e.weekday];
      JoinFive(e.minute, e.hour, e.day, e.month, e.weekday);
      JoinAppend(head, tail, " ");
      assert words[5..] == tail && words[..5] == head;
    }
    FieldsJoin(words);
  }

  /** The printed job text starts with a character the classifier takes for
      neither a blank nor a comment. */
  lemma JobTextShape(table: LetterTable, e: CronEntry)
    requires WellFormedJob(table, e)
    ensures var t := JobText(e); t != "" && Trimmed(t) && t[0] != '#' && '\n' !in t
  {
    JobTextWords(table, e);
    JoinOfWords(WordsOf(e));
  }

  lemma CommentMark(t: string, comment: string)
    ensures t + " # " + comment == (t + " ") + "#" + (" " + comment)
  {
    assert " # " == " " + "#" + " ";
  }

  /** A comment printed after closed quotes is found again where it was put. */
  lemma CommentFound(t: string, comment: string)
    requires NoHash(None, t) && QuoteAfter(None, t) == None
    ensures HashIndex(t + " # " + comment) == |t| + 1
  {
    CommentMark(t, comment);
    QuoteConcat(None, t, " ");
    HashAfter(None, t + " ", " " + comment);
  }

  lemma CommentedParts(t: string, comment: string)
    requires NoHash(None, t) && QuoteAfter(None, t) == None
    requires Trimmed(t) && Trimmed(comment)
    ensures Body(t + " # " + comment) == t && InlineComment(t + " # " + comment) == comment
  {
    CommentFound(t, comment);
    var line := t + " # " + comment;
    assert line[..|t| + 1] == "" + t + " ";
    assert line[|t| + 2..] == " " + comment + "";
    TrimPadded("", t, " ");
    TrimPadded(" ", comment, "");
  }

  /** The line of a job without the mark of a disabled one. */
  function BareLine(e: CronEntry): string {
    if e.comment != "" then JobText(e) + " # " + e.comment else JobText(e)
  }

  lemma BareLineIsLine(e: CronEntry)
    requires e.kind == Job
    ensures LineOf(e) == if e.disabled then "#" + BareLine(e) else BareLine(e)
  {
    var t := JobText(e);
    assert "" + t == t && t + "" == t;
    assert "#" + t + (" # " + e.comment) == "#" + (t + " # " + e.comment);
    assert "#" + t + "" == "#" + t;
    assert t + (" # " + e.comment) == t + " # " + e.comment;
  }

  /** Body and comment of a printed job are what was printed. */
  lemma PrintedParts(table: LetterTable, e: CronEntry)
    requires WellFormedJob(table, e)
    ensures Body(BareLine(e)) == JobText(e) && InlineComment(BareLine(e)) == e.comment
  {
    JobTextShape(table, e);
    if e.comment != "" {
      CommentedParts(JobText(e), e.comment);
    }
  }

  lemma BareLineShape(table: LetterTable, e: CronEntry)
    requires WellFormedJob(table, e)
    ensures var line := BareLine(e); line != "" && Trimmed(line) && line[0] != '#' && '\n' !in line
  {
    JobTextShape(table, e);
  }

  /** Printing does not change whether a job looks like an environment line. */
  lemma PrintedEnv(table: LetterTable, e: CronEntry)
    ensures IsEnvLine(table, BareLine(e)) <==> IsEnvLine(table, JobText(e))
  {
    if e.comment != "" {
      var t := JobText(e);
      CommentMark(t, e.comment);
      EnvScanIsEnvLine(table, BareLine(e));
      EnvScanHash(table, Lead, t + " ", " " + e.comment);
      EnvScanPad(table, Lead, t);
      EnvScanIsEnvLine(table, t);
    }
  }

  lemma {:induction false} EnvScanPad(table: LetterTable, st: EnvState, s: string)
    ensures EnvScan(table, st, s + " ") <==> EnvScan(table, st, s)
    decreases s
  {
    if s == "" {
      assert s + " " == " ";
    } else {
      assert (s + " ")[1..] == s[1..] + " ";
      EnvScanPad(table, EnvStep(table, st, s[0]), s[1..]);
    }
  }

  lemma BareLineParses(table: LetterTable, e: CronEntry)
    requires e.kind == Job && WellFormedJob(table, e)
    ensures JobLine(BareLine(e), e.disabled) == Some(e)
  {
    PrintedParts(table, e);
    JobTextWords(table, e);
  }

  lemma DisabledLine(table: LetterTable, line: string, job: CronEntry)
    requires |line| > 1 && line[0] == '#' && !IsSpace(line[|line| - 1]) && !IsSpace(line[1])
    requires JobLine(line[1..], true) == Some(job)
    ensures EntryOf(table, line) == job
  {
    TrimOfTrimmed(line);
    TrimOfTrimmed(line[1..]);
    assert TrimPrefix(line, "#") == line[1..];
  }

  lemma EnabledLine(table: LetterTable, bare: string, job: CronEntry)
    requires bare != "" && Trimmed(bare) && bare[0] != '#' && !IsEnvLine(table, bare)
    requires JobLine(bare, false) == Some(job)
    ensures EntryOf(table, bare) == job
  {
    TrimOfTrimmed(bare);
  }

  lemma PrintParseJob(table: LetterTable, e: CronEntry)
    requires e.kind == Job && WellFormedJob(table, e)
    ensures EntryOf(table, LineOf(e)) == e && '\n' !in LineOf(e)
  {
    BareLineIsLine(e);
    BareLineParses(table, e);
    BareLineShape(table, e);
    PrintedEnv(table, e);
    if e.disabled {
      assert LineOf(e)[1..] == BareLine(e);
      DisabledLine(table, LineOf(e), e);
    } else {
      EnabledLine(table, BareLine(e), e);
    }
  }

  lemma NotAJob(line: string, disabled: bool)
    ensures JobLine(line, disabled) == None <==> !LooksLikeJob(line)
  {
  }

  lemma RawParses(table: LetterTable, kind: EntryType, raw: string)
    requires kind != Job && WellFormedRaw(table, kind, raw)
    ensures EntryOf(table, raw) == NonJob(kind, raw)
  {
    var trimmed := TrimSpace(raw);
    if HasPrefix(trimmed, "#") {
      NotAJob(TrimSpace(trimmed[1..]), true);
    } else {
      NotAJob(trimmed, false);
    }
  }

  /** A well-formed entry, printed, parses to itself. */
  lemma PrintParse(table: LetterTable, e: CronEntry)
    requires WellFormed(table, e)
    ensures EntryOf(table, LineOf(e)) == e && '\n' !in LineOf(e)
  {
    if e.kind == Job {
      PrintParseJob(table, e);
    } else {
      RawParses(table, e.kind, e.raw);
    }
  }

  // ---------------------------------------------------------------- what the parser returns

  lemma SqueezeJoin(words: seq<string>)
    requires AllWords(words)
    ensures Squeeze(Join(words, " ")) == Join(words, " ")
  {
    FieldsJoin(words);
  }

  lemma ParsedCommand(words: seq<string>, k: nat)
    requires AllWords(words) && 1 <= k < |words|
    ensures var command := Join(words[k..], " ");
      && command != "" && command == Squeeze(command)
      && Join(words, " ") == Join(words[..k], " ") + " " + command
  {
    assert AllWords(words[k..]);
    JoinOfWords(words[k..]);
    SqueezeJoin(words[k..]);
    JoinAppend(words[..k], words[k..], " ");
    assert words[..k] + words[k..] == words;
  }

  lemma ParsedSchedule(words: seq<string>, disabled: bool, comment: string)
    requires AllWords(words) && HasJobWords(words)
    ensures var e := JobOf(words, disabled, comment);
      && WellFormedSchedule(e) && e.command != "" && e.command == Squeeze(e.command)
      && JobText(e) == Join(words, " ")
  {
    if IsSpecial(words[0]) {
      ParsedCommand(words, 1);
      assert words[..1] == [words[0]];
    } else {
      ParsedCommand(words, 5);
      assert words[..5] == [words[0], words[1], words[2], words[3], words[4]];
      JoinFive(words[0], words[1], words[2], words[3], words[4]);
    }
  }

  /** The part of the line before the comment, squeezed, is what will be printed. */
  lemma ParsedText(line: string)
    ensures var t := Squeeze(Body(line));
      NoHash(None, t) && (InlineComment(line) != "" ==> QuoteAfter(None, t) == None)
  {
    var i := HashIndex(line);
    var pre := if i >= 0 then line[..i] else line;
    FieldsOfTrim(pre);
    SqueezeQuotes(None, pre);
  }

  lemma ParsedComment(line: string)
    requires '\n' !in line
    ensures Trimmed(InlineComment(line)) && '\n' !in InlineComment(line)
  {
    var i := HashIndex(line);
    if i >= 0 {
      TrimKeepsOut('\n', line[i + 1..]);
      var left, right := TrimParts(line[i + 1..]);
    }
  }

  /** A trimmed line is env-shaped when its printed body is. */
  lemma ParsedEnv(table: LetterTable, line: string)
    ensures IsEnvLine(table, line) <==> IsEnvLine(table, Squeeze(Body(line)))
  {
    var i := HashIndex(line);
    var t := Squeeze(Body(line));
    EnvScanIsEnvLine(table, line);
    EnvScanIsEnvLine(table, t);
    if i >= 0 {
      var pre := line[..i];
      assert line == pre + "#" + line[i + 1..];
      EnvScanHash(table, Lead, pre, line[i + 1..]);
      FieldsOfTrim(pre);
      SqueezeEnv(table, Lead, pre);
    } else {
      SqueezeEnv(table, Lead, line);
    }
  }

  lemma ParsedJob(table: LetterTable, line: string, disabled: bool)
    requires '\n' !in line
    requires !disabled ==> !IsEnvLine(table, line)
    ensures var job := JobLine(line, disabled);
      job.Some? ==> job.value.kind == Job && job.value.disabled == disabled && WellFormedJob(table, job.value)
  {
    var words := Fields(Body(line));
    if HasJobWords(words) {
      FieldsAreWords(Body(line));
      ParsedSchedule(words, disabled, InlineComment(line));
      ParsedText(line);
      ParsedComment(line);
      ParsedEnv(table, line);
    }
  }

  lemma TrimKeepsOut(c: char, s: string)
    requires c !in s
    ensures c !in TrimSpace(s)
  {
    var left, right := TrimParts(s);
  }

  /** Every line parses to a well-formed entry. */
  lemma ParseWellFormed(table: LetterTable, line: string)
    requires '\n' !in line
    ensures WellFormed(table, EntryOf(table, line))
  {
    var trimmed := TrimSpace(line);
    TrimKeepsOut('\n', line);
    if HasPrefix(trimmed, "#") {
      TrimKeepsOut('\n', trimmed[1..]);
      ParsedJob(table, TrimSpace(trimmed[1..]), true);
    } else if trimmed != "" && !IsEnvLine(table, trimmed) {
      ParsedJob(table, trimmed, false);
    }
  }

  // ---------------------------------------------------------------- whole crontabs

  /** Every text parses to well-formed entries, at least one. */
  lemma EntriesWellFormed(table: LetterTable, text: string)
    ensures EntriesOf(table, text) != [] && AllWellFormed(table, EntriesOf(table, text))
  {
    var lines := Split(text, '\n');
    forall i | 0 <= i < |lines|
      ensures WellFormed(table, EntriesOf(table, text)[i])
    {
      ParseWellFormed(table, lines[i]);
    }
  }

  /** Printing well-formed entries puts each on its own line. */
  lemma PrintedLines(table: LetterTable, es: seq<CronEntry>)
    requires es != [] && AllWellFormed(table, es)
    ensures Split(TextOf(es), '\n') == LinesOf(es)
  {
    forall i | 0 <= i < |es|
      ensures '\n' !in LinesOf(es)[i]
    {
      PrintParse(table, es[i]);
    }
    SplitJoin(LinesOf(es), '\n');
  }

  /** Parsing undoes printing on exactly the non-empty lists of well-formed
      entries. */
  lemma RoundTrip(table: LetterTable, es: seq<CronEntry>)
    ensures EntriesOf(table, TextOf(es)) == es <==> es != [] && AllWellFormed(table, es)
  {
    EntriesWellFormed(table, TextOf(es));
    if es != [] && AllWellFormed(table, es) {
      PrintedLines(table, es);
      forall i | 0 <= i < |es|
        ensures EntriesOf(table, TextOf(es))[i] == es[i]
      {
        PrintParse(table, es[i]);
      }
    }
  }

  /** No entries print to a text that holds one blank line. */
  lemma EmptyCrontab(table: LetterTable)
    ensures EntriesOf(table, TextOf([])) == [NonJob(Blank, "")]
  {
  }

  /** What is read from any text is read again from its printed form. */
  lemma Reparse(table: LetterTable, text: string)
    ensures EntriesOf(table, TextOf(EntriesOf(table, text))) == EntriesOf(table, text)
  {
    EntriesWellFormed(table, text);
    RoundTrip(table, EntriesOf(table, text));
  }
}
