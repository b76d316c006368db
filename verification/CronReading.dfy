/** What lines of a crontab read as, in terms of their own characters and words:
    where an inline comment starts, which lines are jobs, and which word of a job is
    which field. */
module CronReading {
  import opened Text
  import opened CronScan
  import opened CronFormat
  import opened CronRoundTrip

  // ---------------------------------------------------------------- inline comments

  /** Neither a quote nor a `#`. */
  predicate Plain(s: string) {
    forall i :: 0 <= i < |s| ==> s[i] != '\'' && s[i] != '"' && s[i] != '#'
  }

  lemma {:induction false} PlainPrefix(a: string, s: string)
    requires Plain(a)
    ensures HashFrom(None, a + s) == var i := HashFrom(None, s); if i < 0 then -1 else |a| + i
    decreases a
  {
    if a == "" {
      assert a + s == s;
    } else {
      assert (a + s)[1..] == a[1..] + s;
      PlainPrefix(a[1..], s);
    }
  }

  /** Inside quotes nothing counts but the quote that opened them. */
  lemma {:induction false} InsideQuotes(q: char, b: string, s: string)
    requires IsQuote(q) && q !in b
    ensures HashFrom(Some(q), b + [q] + s) == var i := HashFrom(None, s); if i < 0 then -1 else |b| + 1 + i
    decreases b
  {
    var whole := b + [q] + s;
    if b == "" {
      assert whole == [q] + s && whole[1..] == s;
    } else {
      assert whole[1..] == b[1..] + [q] + s;
      InsideQuotes(q, b[1..], s);
    }
  }

  lemma {:induction false} NeverClosed(q: char, b: string)
    requires IsQuote(q) && q !in b
    ensures HashFrom(Some(q), b) == -1
    decreases b
  {
    if b != "" {
      NeverClosed(q, b[1..]);
    }
  }

  /** A quoted piece after a plain one is passed over, whatever is in it. */
  lemma QuotedIsSkipped(a: string, q: char, b: string, c: string)
    requires Plain(a) && (q == '\'' || q == '"') && q !in b
    ensures HashIndex(a + [q] + b + [q] + c)
         == if HashIndex(c) < 0 then -1 else |a| + |b| + 2 + HashIndex(c)
  {
    var rest := [q] + (b + [q] + c);
    assert a + [q] + b + [q] + c == a + rest;
    PlainPrefix(a, rest);
    assert rest[1..] == b + [q] + c;
    InsideQuotes(q, b, c);
  }

  lemma HashAtPlain(a: string, c: string)
    requires Plain(a)
    ensures HashIndex(a + "#" + c) == |a|
  {
    assert a + "#" + c == a + ("#" + c);
    PlainPrefix(a, "#" + c);
  }

  /** After a plain piece a `#` starts the comment, an unclosed quote rules one out,
      and so does the end of the line. */
  lemma CommentAfterPlain(a: string, q: char, b: string)
    requires Plain(a) && (q == '\'' || q == '"') && q !in b
    ensures HashIndex(a + "#" + b) == |a| && HashIndex(a + [q] + b) == -1 && HashIndex(a) == -1
  {
    HashAtPlain(a, b);
    assert a + [q] + b == a + ([q] + b) && ([q] + b)[1..] == b;
    PlainPrefix(a, [q] + b);
    NeverClosed(q, b);
    assert a + "" == a;
    PlainPrefix(a, "");
  }

  /** `echo "it's #1"` has no comment. */
  lemma ApostropheInQuotes(line: string)
    requires line == "echo \"it's #1\""
    ensures HashIndex(line) == -1
  {
    var a, b := "echo ", "it's #1";
    assert line == a + ['"'] + b + ['"'] + "";
    QuotedIsSkipped(a, '"', b, "");
  }

  /** The comment is cut off a plain job and changes nothing else of it. */
  lemma CommentCutOff(a: string, c: string, disabled: bool)
    requires Plain(a)
    ensures JobLine(a + "#" + c, disabled)
         == match JobLine(a, disabled)
            case None => None
            case Some(job) => Some(job.(comment := TrimSpace(c)))
  {
    HashAtPlain(a, c);
    var line := a + "#" + c;
    assert line[..|a|] == a && line[|a| + 1..] == c;
    FieldsOfTrim(a);
  }

  // ---------------------------------------------------------------- jobs

  /** Words without quotes and `#`. */
  predicate PlainWords(ws: seq<string>) {
    AllWords(ws) && forall i :: 0 <= i < |ws| ==> Plain(ws[i])
  }

  lemma {:induction false} PlainJoin(ws: seq<string>)
    requires PlainWords(ws)
    ensures Plain(Join(ws, " "))
  {
    if |ws| > 1 {
      PlainJoin(ws[1..]);
    }
  }

  lemma WordsOfLine(ws: seq<string>)
    requires PlainWords(ws)
    ensures Fields(Body(Join(ws, " "))) == ws && InlineComment(Join(ws, " ")) == ""
  {
    PlainJoin(ws);
    CommentAfterPlain(Join(ws, " "), '"', "");
    FieldsJoin(ws);
  }

  const DESCRIPTORS :=
    {"@reboot", "@yearly", "@annually", "@monthly", "@weekly", "@daily", "@midnight", "@hourly"}

  lemma DescriptorIs(w: string)
    ensures IsSpecial(w) <==> w in DESCRIPTORS
  {
  }

  lemma JobLineOf(line: string, ws: seq<string>, disabled: bool)
    requires Fields(Body(line)) == ws && InlineComment(line) == ""
    ensures JobLine(line, disabled) == if HasJobWords(ws) then Some(JobOf(ws, disabled, "")) else None
  {
  }

  /** Plain words that start with a descriptor make a job when there is a command. */
  lemma DescriptorJob(ws: seq<string>, disabled: bool)
    requires PlainWords(ws) && ws != [] && ws[0] in DESCRIPTORS
    ensures JobLine(Join(ws, " "), disabled)
         == if |ws| >= 2 then
              Some(CronEntry(Job, disabled, ws[0], "", "", "", "", "", Join(ws[1..], " "), "", ""))
            else None
  {
    WordsOfLine(ws);
    DescriptorIs(ws[0]);
    JobLineOf(Join(ws, " "), ws, disabled);
  }

  /** Other plain words make a job when there are six of them; the first five are the
      schedule, in order, and the rest is the command. */
  lemma FiveFieldJob(ws: seq<string>, disabled: bool)
    requires PlainWords(ws) && ws != [] && ws[0] !in DESCRIPTORS
    ensures JobLine(Join(ws, " "), disabled)
         == if |ws| >= 6 then
              Some(CronEntry(Job, disabled, "", ws[0], ws[1], ws[2], ws[3], ws[4], Join(ws[5..], " "), "", ""))
            else None
  {
    WordsOfLine(ws);
    DescriptorIs(ws[0]);
    JobLineOf(Join(ws, " "), ws, disabled);
  }

  /** Such a line is an environment line when it looks like one, else an enabled job or
      a comment kept as it is; behind a `#` it is a disabled job or a comment. */
  lemma LineOfWords(table: LetterTable, ws: seq<string>)
    requires PlainWords(ws) && ws != []
    ensures var line := Join(ws, " ");
      && EntryOf(table, line)
           == (if IsEnvLine(table, line) then NonJob(EnvVar, line)
               else match JobLine(line, false) case Some(job) => job case None => NonJob(Comment, line))
      && EntryOf(table, "#" + line)
           == match JobLine(line, true) case Some(job) => job case None => NonJob(Comment, "#" + line)
  {
    var line := Join(ws, " ");
    JoinOfWords(ws);
    PlainJoin(ws);
    TrimOfTrimmed(line);
    MarkedLine(line);
  }

  lemma NormalWords(ws: seq<string>, comment: string, disabled: bool)
    requires PlainWords(ws) && JobLine(Join(ws, " "), disabled).Some? && Trimmed(comment)
    ensures HasJobWords(ws)
    ensures JobLine(Join(ws, " ") + " # " + comment, disabled) == Some(JobOf(ws, disabled, comment))
    ensures JobLine(Join(ws, " "), disabled) == Some(JobOf(ws, disabled, ""))
  {
    var text := Join(ws, " ");
    var a, c := text + " ", " " + comment;
    WordsOfLine(ws);
    PlainJoin(ws);
    CommentMark(text, comment);
    HashAtPlain(a, c);
    var line := a + "#" + c;
    assert line[..|a|] == a && line[|a| + 1..] == c;
    FieldsOfTrim(a);
    FieldsPadRight(text, " ");
    TrimPadded(" ", comment, "");
    assert " " + comment + "" == c;
  }

  /** A job line in normal form, its words one blank apart and its comment set off by
      ` # `, is printed as it stands. */
  lemma NormalLineKept(ws: seq<string>, comment: string, disabled: bool)
    requires PlainWords(ws) && JobLine(Join(ws, " "), disabled).Some? && Trimmed(comment)
    ensures var text := if comment == "" then Join(ws, " ") else Join(ws, " ") + " # " + comment;
      && JobLine(text, disabled).Some?
      && LineOf(JobLine(text, disabled).value) == if disabled then "#" + text else text
  {
    NormalWords(ws, comment, disabled);
    ParsedSchedule(ws, disabled, comment);
    BareLineIsLine(JobOf(ws, disabled, comment));
  }

  lemma MarkedLine(line: string)
    requires line != "" && Trimmed(line)
    ensures var marked := "#" + line;
      TrimSpace(marked) == marked && HasPrefix(marked, "#") && TrimSpace(TrimPrefix(marked, "#")) == line
  {
    var marked := "#" + line;
    assert Trimmed(marked);
    TrimOfTrimmed(marked);
    TrimOfTrimmed(line);
    assert marked[1..] == line && marked[..1] == "#";
  }

  lemma BlankLine(table: LetterTable, line: string)
    requires AllSpace(line)
    ensures EntryOf(table, line) == NonJob(Blank, line)
  {
    TrimPadded(line, "", "");
    assert line + "" + "" == line;
  }

  // ---------------------------------------------------------------- environment lines

  /** Where ASCII letters come before `=`, the line is an environment line exactly when
      they make a key of letters, digits and underscores. */
  lemma EnvLineOfKey(table: LetterTable, key: string, gap: string, value: string)
    requires Trimmed(key) && AllSpace(gap) && '=' !in key && '=' !in gap
    requires forall i :: 0 <= i < |key| ==> key[i] < '\U{0080}'
    ensures IsEnvLine(table, key + gap + "=" + value)
       <==> key != "" && forall i :: 0 <= i < |key| ==>
              'a' <= key[i] <= 'z' || 'A' <= key[i] <= 'Z' || '0' <= key[i] <= '9' || key[i] == '_'
  {
    var line := key + gap + "=" + value;
    IndexIs(key + gap, '=', value);
    assert line[..|key + gap|] == key + gap;
    TrimPadded("", key, gap);
    assert "" + key + gap == key + gap;
  }

  lemma IndexIs(a: string, c: char, b: string)
    requires c !in a
    ensures Index(a + [c] + b, c) == |a|
  {
    assert (a + [c] + b)[|a|] == c;
  }
}
