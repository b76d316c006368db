/** The two character scanners of the crontab parser, the quote-aware search for
    an inline comment and the environment-line test, as automata. What makes a
    parsed line survive printing is that neither of them can tell a line from the
    same line with its white space squeezed. */
module CronScan {
  import opened Text

  // ---------------------------------------------------------------- quotes

  /** The quote character the scanner is inside of, if any. */
  type Quote = q: Option<char> | q == None || IsQuote(q.value) witness None

  function Step(q: Quote, c: char): Quote {
    match q
    case Some(open) => if c == open then None else q
    case None => if IsQuote(c) then Some(c) else None
  }

  function QuoteAfter(q: Quote, s: string): Quote
    decreases s
  {
    if s == "" then q else QuoteAfter(Step(q, s[0]), s[1..])
  }

  /** No `#` occurs outside quotes when the scan of `s` starts in state `q`. */
  predicate NoHash(q: Quote, s: string)
    decreases s
  {
    s == "" || (!(q.None? && s[0] == '#') && NoHash(Step(q, s[0]), s[1..]))
  }

  /** The position of the first `#` outside quotes, -1 when there is none. */
  function HashFrom(q: Quote, s: string): (i: int)
    ensures -1 <= i < |s|
    ensures i >= 0 ==> s[i] == '#' && NoHash(q, s[..i]) && QuoteAfter(q, s[..i]) == None
    ensures i < 0 <==> NoHash(q, s)
    decreases s
  {
    if s == "" then -1
    else if q.None? && s[0] == '#' then 0
    else
      var i := HashFrom(Step(q, s[0]), s[1..]);
      assert i >= 0 ==> s[..i + 1][1..] == s[1..][..i];
      if i < 0 then -1 else i + 1
  }

  lemma {:induction false} QuoteConcat(q: Quote, a: string, b: string)
    ensures QuoteAfter(q, a + b) == QuoteAfter(QuoteAfter(q, a), b)
    ensures NoHash(q, a + b) <==> NoHash(q, a) && NoHash(QuoteAfter(q, a), b)
    decreases a
  {
    if a == "" {
      assert a + b == b;
    } else {
      assert (a + b)[1..] == a[1..] + b;
      QuoteConcat(Step(q, a[0]), a[1..], b);
    }
  }

  /** A `#` after closed quotes and no earlier bare `#` is the one that is found. */
  lemma {:induction false} HashAfter(q: Quote, a: string, b: string)
    requires NoHash(q, a) && QuoteAfter(q, a) == None
    ensures HashFrom(q, a + "#" + b) == |a|
    decreases a
  {
    if a == "" {
      assert a + "#" + b == "#" + b;
    } else {
      assert (a + "#" + b)[1..] == a[1..] + "#" + b;
      HashAfter(Step(q, a[0]), a[1..], b);
    }
  }

  /** What follows the first character of a squeezed line. */
  function SqueezedTail(rest: string): string {
    if rest != "" && !IsSpace(rest[0]) then Squeeze(rest)
    else if Fields(rest) == [] then ""
    else " " + Squeeze(rest)
  }

  lemma SqueezeInWord(s: string)
    requires |s| > 1 && !IsSpace(s[0]) && !IsSpace(s[1])
    ensures Squeeze(s) == [s[0]] + Squeeze(s[1..])
  {
    var ws := Fields(s[1..]);
    assert ([[s[0]] + ws[0]] + ws[1..])[1..] == ws[1..];
  }

  lemma SqueezeFirst(s: string)
    requires s != "" && !IsSpace(s[0])
    ensures var q := Squeeze(s); q != "" && q[0] == s[0] && q[1..] == SqueezedTail(s[1..])
  {
    if |s| > 1 && !IsSpace(s[1]) {
      SqueezeInWord(s);
    } else {
      assert Fields(s)[1..] == Fields(s[1..]);
      assert Squeeze(s) == [s[0]] + SqueezedTail(s[1..]);
    }
  }

  lemma {:induction false} NoWordsScan(q: Quote, s: string)
    requires Fields(s) == []
    ensures QuoteAfter(q, s) == q && NoHash(q, s) && AllSpace(s)
  {
    if s != "" {
      NoWordsScan(q, s[1..]);
    }
  }

  /** White space is invisible to the quote scanner. */
  lemma {:induction false} SqueezeQuotes(q: Quote, s: string)
    ensures QuoteAfter(q, Squeeze(s)) == QuoteAfter(q, s)
    ensures NoHash(q, Squeeze(s)) <==> NoHash(q, s)
    decreases s, 0
  {
    if s != "" {
      if IsSpace(s[0]) {
        SqueezeQuotes(q, s[1..]);
      } else {
        SqueezeFirst(s);
        TailQuotes(Step(q, s[0]), s[1..]);
      }
    }
  }

  lemma {:induction false} TailQuotes(q: Quote, rest: string)
    ensures QuoteAfter(q, SqueezedTail(rest)) == QuoteAfter(q, rest)
    ensures NoHash(q, SqueezedTail(rest)) <==> NoHash(q, rest)
    decreases rest, 1
  {
    SqueezeQuotes(q, rest);
    if Fields(rest) == [] {
      NoWordsScan(q, rest);
    } else {
      assert (" " + Squeeze(rest))[1..] == Squeeze(rest);
    }
  }

  // ---------------------------------------------------------------- environment lines

  predicate AsciiAlnum(c: char) {
    'a' <= c <= 'z' || 'A' <= c <= 'Z' || '0' <= c <= '9'
  }

  /** What the proofs use of the Unicode tables of letters and digits. */
  ghost predicate AgreesWithUnicode(table: char -> bool) {
    forall c: char :: (IsSpace(c) ==> !table(c)) && (c < '\U{0080}' ==> table(c) == AsciiAlnum(c))
  }

  /** `unicode.IsLetter(c) || unicode.IsDigit(c)`, as a table. */
  type LetterTable = table: char -> bool | AgreesWithUnicode(table) witness (c: char) => AsciiAlnum(c)

  predicate IsKeyChar(table: LetterTable, c: char) {
    table(c) || c == '_'
  }

  predicate IsKey(table: LetterTable, key: string) {
    forall i :: 0 <= i < |key| ==> IsKeyChar(table, key[i])
  }

  /** `KEY=value` or `KEY = value`. */
  predicate IsEnvLine(table: LetterTable, s: string) {
    var eq := Index(s, '=');
    eq >= 0 && var key := TrimSpace(s[..eq]); key != "" && IsKey(table, key)
  }

  /** Before the key, inside it, in the white space after it, or past all hope. */
  datatype EnvState = Lead | Key | Gap | Bad

  function EnvStep(table: LetterTable, st: EnvState, c: char): EnvState {
    match st
    case Lead => if IsSpace(c) then Lead else if IsKeyChar(table, c) then Key else Bad
    case Key => if IsSpace(c) then Gap else if IsKeyChar(table, c) then Key else Bad
    case Gap => if IsSpace(c) then Gap else Bad
    case Bad => Bad
  }

  function EnvRun(table: LetterTable, st: EnvState, s: string): EnvState
    decreases s
  {
    if s == "" then st else EnvRun(table, EnvStep(table, st, s[0]), s[1..])
  }

  /** The automaton accepts at the first `=` when a key precedes it. */
  predicate EnvScan(table: LetterTable, st: EnvState, s: string)
    decreases s
  {
    s != "" &&
    if s[0] == '=' then st.Key? || st.Gap? else EnvScan(table, EnvStep(table, st, s[0]), s[1..])
  }

  lemma {:induction false} EnvRunConcat(table: LetterTable, st: EnvState, a: string, b: string)
    ensures EnvRun(table, st, a + b) == EnvRun(table, EnvRun(table, st, a), b)
    decreases a
  {
    if a == "" {
      assert a + b == b;
    } else {
      assert (a + b)[1..] == a[1..] + b;
      EnvRunConcat(table, EnvStep(table, st, a[0]), a[1..], b);
    }
  }

  lemma {:induction false} EnvScanIsRun(table: LetterTable, st: EnvState, s: string)
    ensures var eq := Index(s, '=');
      EnvScan(table, st, s) <==> eq >= 0 && EnvRun(table, st, s[..eq]) in {Key, Gap}
    decreases s
  {
    if s != "" && s[0] != '=' {
      EnvScanIsRun(table, EnvStep(table, st, s[0]), s[1..]);
      var eq := Index(s, '=');
      assert eq >= 0 ==> s[..eq][1..] == s[1..][..eq - 1];
    }
  }

  lemma {:induction false} EnvRunSpace(table: LetterTable, st: EnvState, s: string)
    requires AllSpace(s)
    ensures EnvRun(table, st, s) == if st == Key && s != "" then Gap else st
    decreases s
  {
    if s != "" {
      EnvRunSpace(table, EnvStep(table, st, s[0]), s[1..]);
    }
  }

  /** Once outside the key no further word can rescue the line. */
  lemma {:induction false} EnvRunStuck(table: LetterTable, st: EnvState, s: string)
    requires st == Bad || (st == Gap && s != "" && !IsSpace(s[|s| - 1]))
    ensures EnvRun(table, st, s) == Bad
    decreases s
  {
    if s != "" && !(st == Gap && |s| == 1) {
      EnvRunStuck(table, EnvStep(table, st, s[0]), s[1..]);
    }
  }

  lemma {:induction false} EnvRunWord(table: LetterTable, s: string)
    requires s == "" || !IsSpace(s[|s| - 1])
    ensures EnvRun(table, Key, s) == if IsKey(table, s) then Key else Bad
  {
    if s != "" {
      assert s == [s[0]] + s[1..];
      if IsKeyChar(table, s[0]) {
        EnvRunWord(table, s[1..]);
      } else {
        EnvRunStuck(table, EnvStep(table, Key, s[0]), s[1..]);
      }
    }
  }

  lemma EnvRunTrimmed(table: LetterTable, mid: string)
    requires mid != "" && Trimmed(mid)
    ensures EnvRun(table, Lead, mid) == if IsKey(table, mid) then Key else Bad
  {
    var rest := mid[1..];
    assert mid == [mid[0]] + rest;
    if IsKeyChar(table, mid[0]) {
      EnvRunWord(table, rest);
    } else {
      EnvRunStuck(table, Bad, rest);
    }
  }

  lemma EnvRunParts(table: LetterTable, left: string, mid: string, right: string)
    requires AllSpace(left) && AllSpace(right) && Trimmed(mid)
    ensures EnvRun(table, Lead, left + mid + right) in {Key, Gap} <==> mid != "" && IsKey(table, mid)
  {
    EnvRunConcat(table, Lead, left + mid, right);
    EnvRunConcat(table, Lead, left, mid);
    EnvRunSpace(table, Lead, left);
    EnvRunSpace(table, EnvRun(table, Lead, mid), right);
    if mid != "" {
      EnvRunTrimmed(table, mid);
    }
  }

  /** The run over the text before `=` ends in or after a key exactly when that
      text, trimmed, is one. */
  lemma EnvRunIsKey(table: LetterTable, s: string)
    ensures EnvRun(table, Lead, s) in {Key, Gap} <==> TrimSpace(s) != "" && IsKey(table, TrimSpace(s))
  {
    var left, right := TrimParts(s);
    EnvRunParts(table, left, TrimSpace(s), right);
  }

  /** The automaton decides the source's index-and-trim test. */
  lemma EnvScanIsEnvLine(table: LetterTable, s: string)
    ensures EnvScan(table, Lead, s) <==> IsEnvLine(table, s)
  {
    EnvScanIsRun(table, Lead, s);
    var eq := Index(s, '=');
    if eq >= 0 {
      EnvRunIsKey(table, s[..eq]);
    }
  }

  /** A `#` ends every chance of the line being an environment line. */
  lemma {:induction false} EnvScanHash(table: LetterTable, st: EnvState, a: string, b: string)
    ensures EnvScan(table, st, a + "#" + b) <==> EnvScan(table, st, a)
    decreases a
  {
    var s := a + "#" + b;
    assert s[1..] == if a == "" then b else a[1..] + "#" + b;
    if a != "" {
      EnvScanHash(table, EnvStep(table, st, a[0]), a[1..], b);
    } else {
      EnvScanBad(table, b);
    }
  }

  lemma {:induction false} EnvScanBad(table: LetterTable, s: string)
    ensures !EnvScan(table, Bad, s)
  {
    if s != "" {
      EnvScanBad(table, s[1..]);
    }
  }

  /** White space after the first word counts only by being there. */
  lemma {:induction false} SqueezeEnv(table: LetterTable, st: EnvState, s: string)
    requires st != Key || s == "" || !IsSpace(s[0])
    ensures EnvScan(table, st, Squeeze(s)) <==> EnvScan(table, st, s)
    decreases s, 0
  {
    if s != "" {
      if IsSpace(s[0]) {
        SqueezeEnv(table, st, s[1..]);
      } else {
        SqueezeFirst(s);
        if s[0] != '=' {
          TailEnv(table, EnvStep(table, st, s[0]), s[1..]);
        }
      }
    }
  }

  lemma {:induction false} TailEnv(table: LetterTable, st: EnvState, rest: string)
    ensures EnvScan(table, st, SqueezedTail(rest)) <==> EnvScan(table, st, rest)
    decreases rest, 1
  {
    if rest == "" || !IsSpace(rest[0]) {
      SqueezeEnv(table, st, rest);
    } else {
      var st' := EnvStep(table, st, rest[0]);
      SqueezeEnv(table, st', rest[1..]);
      assert Squeeze(rest) == Squeeze(rest[1..]);
      if Fields(rest) != [] {
        assert (" " + Squeeze(rest))[1..] == Squeeze(rest);
      }
    }
  }
}
