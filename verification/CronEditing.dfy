/** Reading, editing and saving a crontab. Saving goes through the printer and
    the trailing-newline rule of `WriteCrontab`; the `crontab` command is taken
    to store the text it is given. */
module CronEditing {
  import opened Text
  import opened CronScan
  import opened CronFormat
  import opened CronRoundTrip

  /** The newline rule of `WriteCrontab`. */
  function Stored(content: string): string {
    if content != "" && content[|content| - 1] != '\n' then content + "\n" else content
  }

  /** What is stored is empty or ends with a newline; one is added only where it is
      missing. */
  lemma StoredEnds(content: string)
    ensures var stored := Stored(content);
      && content <= stored && |stored| <= |content| + 1
      && (stored == "" || stored[|stored| - 1] == '\n')
      && (content == "" || content[|content| - 1] == '\n' ==> stored == content)
  {
  }

  /** The text that is stored after reading a text and saving it unedited. */
  function Saved(table: LetterTable, text: string): string {
    Stored(TextOf(EntriesOf(table, text)))
  }

  lemma TextWithBlank(es: seq<CronEntry>)
    requires es != []
    ensures TextOf(es + [NonJob(Blank, "")]) == TextOf(es) + "\n"
  {
    assert LinesOf(es + [NonJob(Blank, "")]) == LinesOf(es) + [""];
    JoinSnoc(LinesOf(es), "", "\n");
    assert TextOf(es) + "\n" + "" == TextOf(es) + "\n";
  }

  /** The newline that storing may add prints one more, blank entry. */
  lemma StoredText(es: seq<CronEntry>)
    requires es != []
    ensures Stored(TextOf(es)) == TextOf(es) || Stored(TextOf(es)) == TextOf(es + [NonJob(Blank, "")])
  {
    TextWithBlank(es);
  }

  /** Storing adds at most one entry, a blank one at the end. */
  lemma StoredEntries(table: LetterTable, es: seq<CronEntry>)
    requires es != [] && AllWellFormed(table, es)
    ensures var text := TextOf(es);
      EntriesOf(table, Stored(text)) == if Stored(text) == text then es else es + [NonJob(Blank, "")]
  {
    var blank := NonJob(Blank, "");
    StoredText(es);
    RoundTrip(table, es);
    assert WellFormed(table, blank);
    RoundTrip(table, es + [blank]);
  }

  /** A second unedited save changes no text. */
  lemma SaveFixpoint(table: LetterTable, text: string)
    ensures Saved(table, Saved(table, text)) == Saved(table, text)
  {
    var es := EntriesOf(table, text);
    EntriesWellFormed(table, text);
    StoredEntries(table, es);
    StoredText(es);
    StoredOnce(TextOf(es));
  }

  lemma StoredOnce(text: string)
    ensures Stored(Stored(text)) == Stored(text)
  {
  }

  /** Saving keeps every line that is not a job, byte for byte, and every entry;
      it adds nothing but a possible blank entry at the end. */
  lemma SaveKeepsLines(table: LetterTable, text: string)
    ensures var es := EntriesOf(table, text);
      && (EntriesOf(table, Saved(table, text)) == es
          || EntriesOf(table, Saved(table, text)) == es + [NonJob(Blank, "")])
      && var lines, lines' := Split(text, '\n'), Split(Saved(table, text), '\n');
         && |lines| == |es| <= |lines'|
         && (forall i :: 0 <= i < |lines| && es[i].kind != Job ==> lines'[i] == lines[i])
  {
    var es := EntriesOf(table, text);
    var t := TextOf(es);
    EntriesWellFormed(table, text);
    StoredEntries(table, es);
    PrintedLines(table, es);
    if Stored(t) != t {
      SplitNewline(t);
    }
    forall i | 0 <= i < |es| && es[i].kind != Job
      ensures LineOf(es[i]) == Split(text, '\n')[i]
    {
      KeptRaw(table, Split(text, '\n')[i]);
    }
  }

  lemma KeptRaw(table: LetterTable, line: string)
    ensures EntryOf(table, line).kind != Job ==> LineOf(EntryOf(table, line)) == line
  {
  }

  lemma SplitNewline(t: string)
    ensures Split(t + "\n", '\n') == Split(t, '\n') + [""]
  {
    var parts := Split(t, '\n');
    JoinSplit(t, '\n');
    JoinSnoc(parts, "", "\n");
    assert t + "\n" + "" == t + "\n";
    SplitJoin(parts + [""], '\n');
  }

  // ---------------------------------------------------------------- the enable switch

  function Toggled(e: CronEntry): CronEntry {
    e.(disabled := !e.disabled)
  }

  /** What is read back is what was saved, but for a blank entry at the end. */
  predicate SameButBlank(back: seq<CronEntry>, es: seq<CronEntry>) {
    back == es || back == es + [NonJob(Blank, "")]
  }

  /** Switching one job of a crontab survives saving and reading exactly when the job
      does not become an environment line by being enabled. */
  lemma ToggleSurvives(table: LetterTable, es: seq<CronEntry>, k: nat)
    requires k < |es| && AllWellFormed(table, es) && es[k].kind == Job
    ensures var es' := es[k := Toggled(es[k])];
      SameButBlank(EntriesOf(table, Stored(TextOf(es'))), es') <==> !es[k].disabled || !IsEnvLine(table, JobText(es[k]))
  {
    var e, e' := es[k], Toggled(es[k]);
    var es' := es[k := e'];
    assert JobText(e') == JobText(e);
    assert WellFormed(table, e') <==> !e.disabled || !IsEnvLine(table, JobText(e));
    if WellFormed(table, e') {
      StoredEntries(table, es');
    }
    var back := EntriesOf(table, Stored(TextOf(es')));
    EntriesWellFormed(table, Stored(TextOf(es')));
    if SameButBlank(back, es') {
      assert back[k] == e';
    }
  }

  predicate EndsLine(text: string) {
    text != "" && text[|text| - 1] == '\n'
  }

  lemma LastOfAppended(front: string, last: string)
    requires '\n' !in last
    ensures EndsLine(front + "\n" + last) <==> last == ""
  {
  }

  lemma EndsLineSnoc(front: seq<string>, last: string)
    requires front != [] && '\n' !in last
    ensures EndsLine(Join(front + [last], "\n")) <==> last == ""
  {
    JoinSnoc(front, last, "\n");
    LastOfAppended(Join(front, "\n"), last);
  }

  lemma EndsLineOne(line: string)
    requires '\n' !in line
    ensures !EndsLine(Join([line], "\n"))
  {
  }

  /** Putting one line that is not empty for another does not change whether the
      joined lines end with a newline. */
  lemma EndAlike(lines: seq<string>, k: nat, line: string)
    requires k < |lines| && lines[k] != "" && line != "" && '\n' !in line && '\n' !in lines[|lines| - 1]
    ensures EndsLine(Join(lines[k := line], "\n")) <==> EndsLine(Join(lines, "\n"))
  {
    var n := |lines| - 1;
    if n == 0 {
      EndAlikeOne(lines, line);
    } else {
      EndAlikeMore(lines, k, line);
    }
  }

  lemma EndAlikeOne(lines: seq<string>, line: string)
    requires |lines| == 1 && '\n' !in line && '\n' !in lines[0]
    ensures !EndsLine(Join(lines[0 := line], "\n")) && !EndsLine(Join(lines, "\n"))
  {
    assert lines == [lines[0]] && lines[0 := line] == [line];
    EndsLineOne(lines[0]);
    EndsLineOne(line);
  }

  lemma EndAlikeMore(lines: seq<string>, k: nat, line: string)
    requires |lines| > 1 && k < |lines| && lines[k] != "" && line != ""
    requires '\n' !in line && '\n' !in lines[|lines| - 1]
    ensures EndsLine(Join(lines[k := line], "\n")) <==> EndsLine(Join(lines, "\n"))
  {
    var n := |lines| - 1;
    var front, last := lines[..n], lines[n];
    assert lines == front + [last];
    EndsLineSnoc(front, last);
    if k == n {
      assert lines[k := line] == front + [line];
      EndsLineSnoc(front, line);
    } else {
      assert lines[k := line] == front[k := line] + [last];
      EndsLineSnoc(front[k := line], last);
    }
  }

  lemma PrintedLine(table: LetterTable, e: CronEntry)
    requires WellFormed(table, e)
    ensures '\n' !in LineOf(e) && (e.kind == Job ==> LineOf(e) != "")
  {
    PrintParse(table, e);
  }

  lemma LinesReplaced(es: seq<CronEntry>, k: nat, e: CronEntry)
    requires k < |es|
    ensures LinesOf(es[k := e]) == LinesOf(es)[k := LineOf(e)]
  {
  }

  lemma TextEndAlike(es: seq<CronEntry>, k: nat, e: CronEntry)
    requires k < |es| && LineOf(es[k]) != "" && LineOf(e) != ""
    requires '\n' !in LineOf(e) && '\n' !in LineOf(es[|es| - 1])
    ensures EndsLine(TextOf(es[k := e])) <==> EndsLine(TextOf(es))
  {
    EndAlike(LinesOf(es), k, LineOf(e));
    LinesReplaced(es, k, e);
  }

  /** Putting an entry into what is read of saved entries, and saving, is putting it
      into the entries, and saving, when both texts end alike. */
  lemma StoredBack(table: LetterTable, off: seq<CronEntry>, k: nat, e: CronEntry)
    requires k < |off| && AllWellFormed(table, off)
    requires EndsLine(TextOf(off)) <==> EndsLine(TextOf(off[k := e]))
    requires LineOf(e) != "" && LineOf(off[k]) != ""
    ensures var back := EntriesOf(table, Stored(TextOf(off)));
      && SameButBlank(back, off)
      && Stored(TextOf(back[k := e])) == Stored(TextOf(off[k := e]))
  {
    StoredEntries(table, off);
    if Stored(TextOf(off)) != TextOf(off) {
      assert (off + [NonJob(Blank, "")])[k := e] == off[k := e] + [NonJob(Blank, "")];
      TextWithBlank(off[k := e]);
      TextNotEmpty(off[k := e], k);
    }
  }

  lemma TextNotEmpty(es: seq<CronEntry>, k: nat)
    requires k < |es| && LineOf(es[k]) != ""
    ensures TextOf(es) != ""
  {
    if |es| == 1 {
      assert LinesOf(es) == [LineOf(es[0])];
    } else {
      assert LinesOf(es)[0] == LineOf(es[0]);
    }
  }

  /** An enabled job of any text, disabled and saved, is read as the same job disabled,
      with nothing else changed but for the blank entry. Enabled and saved again, the
      text is that of a save without any edit. */
  lemma ToggleTwice(table: LetterTable, text: string, k: nat)
    requires k < |EntriesOf(table, text)|
    requires EntriesOf(table, text)[k].kind == Job && !EntriesOf(table, text)[k].disabled
    ensures var es := EntriesOf(table, text);
      var off := es[k := Toggled(es[k])];
      var back := EntriesOf(table, Stored(TextOf(off)));
      && SameButBlank(back, off)
      && Stored(TextOf(back[k := Toggled(back[k])])) == Saved(table, text)
  {
    var es := EntriesOf(table, text);
    var off := es[k := Toggled(es[k])];
    EntriesWellFormed(table, text);
    assert JobText(off[k]) == JobText(es[k]);
    PrintedLine(table, es[k]);
    PrintedLine(table, off[k]);
    PrintedLine(table, es[|es| - 1]);
    TextEndAlike(es, k, off[k]);
    assert off[k := es[k]] == es && Toggled(off[k]) == es[k];
    StoredBack(table, off, k, es[k]);
  }

  lemma EnvLineKept(table: LetterTable, line: string)
    requires line != "" && Trimmed(line) && line[0] != '#' && IsEnvLine(table, line)
    ensures EntryOf(table, line) == NonJob(EnvVar, line)
  {
    TrimOfTrimmed(line);
  }

  /** In the failing family the enabled job reads back as an environment line. */
  lemma ToggleLost(table: LetterTable, e: CronEntry)
    requires WellFormed(table, e) && e.kind == Job && e.disabled && IsEnvLine(table, JobText(e))
    ensures EntryOf(table, LineOf(Toggled(e))) == NonJob(EnvVar, LineOf(Toggled(e)))
  {
    BareLineIsLine(Toggled(e));
    BareLineShape(table, e);
    PrintedEnv(table, e);
    EnvLineKept(table, BareLine(e));
  }

  lemma LostEntry(table: LetterTable, e: CronEntry)
    requires WellFormed(table, e) && e.kind == Job && e.disabled && IsEnvLine(table, JobText(e))
    ensures WellFormed(table, NonJob(EnvVar, LineOf(Toggled(e))))
  {
    ToggleLost(table, e);
    BareLineIsLine(Toggled(e));
    BareLineShape(table, e);
    ParseWellFormed(table, LineOf(Toggled(e)));
  }

  lemma SameLineSameText(es: seq<CronEntry>, k: nat, e: CronEntry, e': CronEntry)
    requires k < |es| && LineOf(e) == LineOf(e')
    ensures TextOf(es[k := e]) == TextOf(es[k := e'])
  {
    LinesReplaced(es, k, e);
    LinesReplaced(es, k, e');
  }

  /** In a save of the whole crontab nothing else changes. */
  lemma ToggleLostSaved(table: LetterTable, es: seq<CronEntry>, k: nat)
    requires k < |es| && AllWellFormed(table, es)
    requires es[k].kind == Job && es[k].disabled && IsEnvLine(table, JobText(es[k]))
    ensures var e := Toggled(es[k]);
      SameButBlank(EntriesOf(table, Stored(TextOf(es[k := e]))), es[k := NonJob(EnvVar, LineOf(e))])
  {
    var e := Toggled(es[k]);
    var lost := NonJob(EnvVar, LineOf(e));
    LostEntry(table, es[k]);
    SameLineSameText(es, k, e, lost);
    StoredEntries(table, es[k := lost]);
  }

  // ---------------------------------------------------------------- a failing line

  const SAMPLE := CronEntry(Job, true, "", "A", "=", "1", "2", "3", "c", "", "")

  /** The line `#A = 1 2 3 c` reads as a disabled job; switched on and saved, it
      reads as an environment line. */
  lemma ToggleLostSample(table: LetterTable, e: CronEntry, off: string, on: string)
    requires e == SAMPLE && off == "#A = 1 2 3 c" && on == "A = 1 2 3 c"
    ensures EntryOf(table, off) == e && e.kind == Job && e.disabled
    ensures LineOf(Toggled(e)) == on && EntryOf(table, on) == NonJob(EnvVar, on)
  {
    SampleWellFormed(table, e);
    SampleLines(e);
    PrintParse(table, e);
    ToggleLost(table, e);
  }

  lemma SampleWellFormed(table: LetterTable, e: CronEntry)
    requires e == SAMPLE
    ensures WellFormed(table, e) && IsEnvLine(table, JobText(e))
  {
    SampleSchedule();
    SampleJobText();
    SampleScan(table, e);
    OneWordJob(table, e);
  }

  lemma SampleLines(e: CronEntry)
    requires e == SAMPLE
    ensures LineOf(e) == "#A = 1 2 3 c" && LineOf(Toggled(e)) == "A = 1 2 3 c"
  {
    SampleJobText();
    BareLineIsLine(e);
    assert JobText(Toggled(e)) == JobText(e);
    BareLineIsLine(Toggled(e));
  }

  lemma SampleScan(table: LetterTable, e: CronEntry)
    requires JobText(e) == "A = 1 2 3 c"
    ensures NoHash(None, JobText(e)) && IsEnvLine(table, JobText(e))
  {
    NoHashWithout(None, JobText(e));
    KeyAndGap(table, JobText(e));
  }

  lemma OneWordJob(table: LetterTable, e: CronEntry)
    requires e.kind == Job && e.disabled && e.comment == "" && e.raw == ""
    requires WellFormedSchedule(e) && IsWord(e.command) && NoHash(None, JobText(e))
    ensures WellFormed(table, e)
  {
    FieldsOfWord(e.command);
  }

  lemma SampleJobText()
    ensures JobText(SAMPLE) == "A = 1 2 3 c"
  {
    assert Schedule(SAMPLE) == "A = 1 2 3";
  }

  lemma SampleSchedule()
    ensures WellFormedSchedule(SAMPLE)
  {
    assert forall w :: IsSpecial(w) ==> |w| > 1;
  }

  lemma KeyAndGap(table: LetterTable, text: string)
    requires |text| >= 3 && text[0] == 'A' && text[1] == ' ' && text[2] == '='
    ensures IsEnvLine(table, text)
  {
    KeyGapEquals(table, text);
    EnvScanIsEnvLine(table, text);
  }

  lemma KeyGapEquals(table: LetterTable, text: string)
    requires |text| >= 3 && text[0] == 'A' && text[1] == ' ' && text[2] == '='
    ensures EnvScan(table, Lead, text)
  {
    var t1 := text[1..];
    var t2 := t1[1..];
    assert t1[0] == ' ' && t2[0] == '=';
    assert EnvScan(table, Gap, t2);
  }

  lemma {:induction false} NoHashWithout(q: Quote, s: string)
    requires '#' !in s
    ensures NoHash(q, s)
    decreases s
  {
    if s != "" {
      NoHashWithout(Step(q, s[0]), s[1..]);
    }
  }
}
