/** What a stream of log bytes means: the complete non-empty lines it holds and
    the unterminated tail. A byte is a character here; only newline is inspected. */
module LogLines {
  import opened Text

  type Bytes = string

  /** All complete non-empty lines so far, and the bytes after the last newline. */
  datatype Log = Log(history: seq<Bytes>, partial: Bytes)

  const EMPTY_LOG := Log([], "")

  function FeedByte(log: Log, b: char): Log {
    if b != '\n' then log.(partial := log.partial + [b])
    else if log.partial == "" then log
    else Log(log.history + [log.partial], "")
  }

  /** The log after the bytes `p`, one at a time. */
  function Feed(log: Log, p: Bytes): Log
    decreases p
  {
    if p == "" then log else Feed(FeedByte(log, p[0]), p[1..])
  }

  /** Feeding is independent of how the stream is cut into writes. */
  lemma {:induction false} FeedConcat(log: Log, p: Bytes, q: Bytes)
    ensures Feed(log, p + q) == Feed(Feed(log, p), q)
    decreases p
  {
    if p == "" {
      assert p + q == q;
    } else {
      assert (p + q)[1..] == p[1..] + q;
      FeedConcat(FeedByte(log, p[0]), p[1..], q);
    }
  }

  /** The log after a series of writes. */
  function FeedAll(log: Log, writes: seq<Bytes>): Log
    decreases writes
  {
    if writes == [] then log else FeedAll(Feed(log, writes[0]), writes[1..])
  }

  /** Only the joined bytes of a series of writes matter. */
  lemma {:induction false} FeedAllIsFeed(log: Log, writes: seq<Bytes>)
    ensures FeedAll(log, writes) == Feed(log, Join(writes, ""))
    decreases writes
  {
    if writes != [] {
      var p, rest := writes[0], writes[1..];
      FeedAllIsFeed(Feed(log, p), rest);
      FeedConcat(log, p, Join(rest, ""));
      assert p + "" + Join(rest, "") == p + Join(rest, "");
      assert p + "" == p;
    }
  }

  lemma {:induction false} FeedPlain(log: Log, p: Bytes)
    requires '\n' !in p
    ensures Feed(log, p) == log.(partial := log.partial + p)
    decreases p
  {
    if p == "" {
      assert log.partial + p == log.partial;
    } else {
      FeedPlain(FeedByte(log, p[0]), p[1..]);
      assert log.partial + [p[0]] + p[1..] == log.partial + p;
    }
  }

  /** No line is ever taken back. */
  lemma {:induction false} FeedGrows(log: Log, p: Bytes)
    ensures log.history <= Feed(log, p).history
    decreases p
  {
    if p != "" {
      FeedGrows(FeedByte(log, p[0]), p[1..]);
    }
  }

  /** Bytes may be fed again from the start of an unterminated line. */
  lemma Pending(history: seq<Bytes>, partial: Bytes, p: Bytes)
    requires '\n' !in partial
    ensures Feed(Log(history, ""), partial + p) == Feed(Log(history, partial), p)
  {
    FeedConcat(Log(history, ""), partial, p);
    FeedPlain(Log(history, ""), partial);
    assert "" + partial == partial;
  }

  /** Taking one line off the front of the pending bytes. */
  lemma FeedLine(history: seq<Bytes>, line: Bytes, rest: Bytes)
    requires '\n' !in line
    ensures Feed(Log(history, ""), line + "\n" + rest)
         == Feed(Log(if line == "" then history else history + [line], ""), rest)
  {
    var log := Log(history, "");
    assert line + "\n" + rest == line + ("\n" + rest);
    FeedConcat(log, line, "\n" + rest);
    FeedPlain(log, line);
    assert "" + line == line;
    assert ("\n" + rest)[0] == '\n' && ("\n" + rest)[1..] == rest;
  }

  function NonEmpty(parts: seq<Bytes>): seq<Bytes> {
    if parts == [] then []
    else NonEmpty(parts[..|parts| - 1]) + (if parts[|parts| - 1] == "" then [] else [parts[|parts| - 1]])
  }

  /** A character put before or after a text that was split into pieces. */
  function Before(c: char, parts: seq<Bytes>): seq<Bytes>
    requires parts != []
  {
    if c == '\n' then [""] + parts else [[c] + parts[0]] + parts[1..]
  }

  function After(parts: seq<Bytes>, c: char): seq<Bytes>
    requires parts != []
  {
    var last := |parts| - 1;
    if c == '\n' then parts + [""] else parts[last := parts[last] + [c]]
  }

  lemma BeforeAfter(b: char, parts: seq<Bytes>, c: char)
    requires parts != []
    ensures Before(b, After(parts, c)) == After(Before(b, parts), c)
  {
    assert [b] + (parts[0] + [c]) == [b] + parts[0] + [c];
  }

  lemma {:induction false} SplitSnoc(s: Bytes, c: char)
    ensures Split(s + [c], '\n') == After(Split(s, '\n'), c)
  {
    if s == "" {
      assert s + [c] == [c] && [c][1..] == "" && [c] + "" == [c] && "" + [c] == [c];
    } else {
      SplitSnoc(s[1..], c);
      assert (s + [c])[1..] == s[1..] + [c];
      BeforeAfter(s[0], Split(s[1..], '\n'), c);
    }
  }

  /** From the empty log, the history is the non-empty pieces of the stream before
      its last newline and the partial line is the piece after it. */
  lemma {:induction false} FeedIsSplit(p: Bytes)
    ensures var parts := Split(p, '\n');
      Feed(EMPTY_LOG, p) == Log(NonEmpty(parts[..|parts| - 1]), parts[|parts| - 1])
  {
    if p != "" {
      var front, b := p[..|p| - 1], p[|p| - 1];
      assert p == front + [b];
      FeedIsSplit(front);
      FeedConcat(EMPTY_LOG, front, [b]);
      assert [b][1..] == "";
      assert Feed(Feed(EMPTY_LOG, front), [b]) == FeedByte(Feed(EMPTY_LOG, front), b);
      SplitSnoc(front, b);
      var parts := Split(front, '\n');
      assert After(parts, b)[..|parts| - 1] == parts[..|parts| - 1];
      assert (parts + [""])[..|parts|] == parts;
    }
  }
}
