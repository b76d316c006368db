/** The crontab parser and printer as the program runs them. */
module CronParser {
  import opened Text
  import opened CronScan
  import opened CronFormat

  /** The position of the first `#` outside quotes, or -1. */
  method IndexInlineComment(s: string) returns (idx: int)
    ensures idx == HashIndex(s)
    ensures -1 <= idx < |s|
    ensures idx >= 0 ==> s[idx] == '#' && NoHash(None, s[..idx]) && QuoteAfter(None, s[..idx]) == None
    ensures idx < 0 ==> NoHash(None, s)
  {
    var inQ, qChar := false, '\0';
    for i := 0 to |s|
      invariant inQ ==> IsQuote(qChar)
      invariant HashIndex(s) == var rest := HashFrom(if inQ then Some(qChar) else None, s[i..]);
                                if rest < 0 then -1 else i + rest
    {
      var ch := s[i];
      assert s[i..][1..] == s[i + 1..];
      if inQ {
        if ch == qChar {
          inQ := false;
        }
        continue;
      }
      if ch == '\'' || ch == '"' {
        inQ := true;
        qChar := ch;
        continue;
      }
      if ch == '#' {
        return i;
      }
    }
    return -1;
  }

  /** Environment assignment: a key of letters, digits and underscores before `=`. */
  method IsEnv(table: LetterTable, s: string) returns (env: bool)
    ensures env <==> IsEnvLine(table, s)
    ensures env <==> EnvScan(table, Lead, s)
  {
    EnvScanIsEnvLine(table, s);
    var eq := Index(s, '=');
    if eq < 0 {
      return false;
    }
    var key := TrimSpace(s[..eq]);
    if key == "" {
      return false;
    }
    for i := 0 to |key|
      invariant IsKey(table, key[..i])
    {
      if !table(key[i]) && key[i] != '_' {
        return false;
      }
    }
    assert key[..|key|] == key;
    return true;
  }

  method ParseJobLine(text: string, disabled: bool) returns (entry: Option<CronEntry>)
    ensures entry == JobLine(text, disabled)
  {
    var line := text;
    var inlineComment := "";
    var idx := IndexInlineComment(line);
    if idx >= 0 {
      inlineComment := TrimSpace(line[idx + 1..]);
      line := TrimSpace(line[..idx]);
    }
    var fields := Fields(line);
    if |fields| < 2 {
      return None;
    }
    var e := CronEntry(Job, disabled, "", "", "", "", "", "", "", inlineComment, "");
    if IsSpecial(fields[0]) {
      e := e.(special := fields[0], command := Join(fields[1..], " "));
      return Some(e);
    }
    if |fields| < 6 {
      return None;
    }
    e := e.(minute := fields[0], hour := fields[1], day := fields[2], month := fields[3], weekday := fields[4]);
    e := e.(command := Join(fields[5..], " "));
    return Some(e);
  }

  /** One turn of the parser's loop. */
  method ParseLine(table: LetterTable, raw: string) returns (entry: CronEntry)
    ensures entry == EntryOf(table, raw)
  {
    var trimmed := TrimSpace(raw);
    if trimmed == "" {
      return NonJob(Blank, raw);
    }
    if HasPrefix(trimmed, "#") {
      var rest := TrimSpace(TrimPrefix(trimmed, "#"));
      var disabledJob := ParseJobLine(rest, true);
      return if disabledJob.Some? then disabledJob.value else NonJob(Comment, raw);
    }
    var env := IsEnv(table, trimmed);
    if env {
      return NonJob(EnvVar, raw);
    }
    var job := ParseJobLine(trimmed, false);
    return if job.Some? then job.value else NonJob(Comment, raw);
  }

  method ParseCrontab(table: LetterTable, text: string) returns (entries: seq<CronEntry>)
    ensures entries == EntriesOf(table, text)
  {
    var lines := Split(text, '\n');
    ghost var target := EntriesOf(table, text);
    entries := [];
    for i := 0 to |lines|
      invariant entries == target[..i]
    {
      var entry := ParseLine(table, lines[i]);
      entries := entries + [entry];
    }
  }

  lemma Append(a: string, b: string, c: string)
    ensures a + b + c == a + (b + c)
  {
  }

  /** One turn of the printer's loop. */
  method WriteEntry(written: string, e: CronEntry) returns (sb: string)
    ensures sb == written + LineOf(e)
  {
    sb := written;
    if e.kind == Job {
      if e.disabled {
        sb := sb + "#";
      }
      assert sb == written + Mark(e);
      if e.special != "" {
        sb := sb + (e.special + " " + e.command);
      } else {
        sb := sb + (e.minute + " " + e.hour + " " + e.day + " " + e.month + " " + e.weekday + " " + e.command);
      }
      Append(written, Mark(e), JobText(e));
      if e.comment != "" {
        sb := sb + (" # " + e.comment);
      }
      Append(written, Mark(e) + JobText(e), CommentText(e));
    } else {
      sb := sb + e.raw;
    }
  }

  method SerializeCrontab(entries: seq<CronEntry>) returns (text: string)
    ensures text == TextOf(entries)
  {
    text := "";
    for i := 0 to |entries|
      invariant text == Join(LinesOf(entries)[..i], "\n")
    {
      ghost var lines := LinesOf(entries);
      if i > 0 {
        text := text + "\n";
      }
      text := WriteEntry(text, entries[i]);
      assert lines[..i + 1] == lines[..i] + [lines[i]];
      if i > 0 {
        JoinSnoc(lines[..i], lines[i], "\n");
      }
    }
    assert LinesOf(entries)[..|entries|] == LinesOf(entries);
  }
}
