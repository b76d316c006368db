/** The string operations of Go's `strings` and `unicode` packages that the
    modelled code calls, on sequences of characters, with the laws that relate
    them: splitting and joining undo each other, and so do collecting and
    joining the words of a line. */
module Text {

  datatype Option<+T> = None | Some(value: T)

  // ---------------------------------------------------------------- white space

  /** `unicode.IsSpace`. */
  predicate IsSpace(c: char) {
    || '\t' <= c <= '\r' || c == ' ' || c == '\U{0085}' || c == '\U{00A0}'
    || c == '\U{1680}' || '\U{2000}' <= c <= '\U{200A}'
    || c == '\U{2028}' || c == '\U{2029}' || c == '\U{202F}' || c == '\U{205F}' || c == '\U{3000}'
  }

  predicate IsQuote(c: char) {
    c == '\'' || c == '"'
  }

  predicate AllSpace(s: string) {
    forall i :: 0 <= i < |s| ==> IsSpace(s[i])
  }

  predicate NoSpace(s: string) {
    forall i :: 0 <= i < |s| ==> !IsSpace(s[i])
  }

  /** Neither end of the string is white space. */
  predicate Trimmed(s: string) {
    s == "" || (!IsSpace(s[0]) && !IsSpace(s[|s| - 1]))
  }

  function TrimLeft(s: string): (r: string)
    ensures r == "" || !IsSpace(r[0])
  {
    if s == "" || !IsSpace(s[0]) then s else TrimLeft(s[1..])
  }

  function TrimRight(s: string): (r: string)
    ensures r == "" || !IsSpace(r[|r| - 1])
  {
    if s == "" || !IsSpace(s[|s| - 1]) then s else TrimRight(s[..|s| - 1])
  }

  lemma {:induction false} TrimLeftParts(s: string) returns (pad: string)
    ensures s == pad + TrimLeft(s) && AllSpace(pad)
  {
    if s == "" || !IsSpace(s[0]) {
      pad := "";
    } else {
      var tail := TrimLeftParts(s[1..]);
      pad := [s[0]] + tail;
      assert s == [s[0]] + (tail + TrimLeft(s[1..]));
    }
  }

  lemma {:induction false} TrimRightParts(s: string) returns (pad: string)
    ensures s == TrimRight(s) + pad && AllSpace(pad)
    ensures s != "" && !IsSpace(s[0]) ==> TrimRight(s) != "" && TrimRight(s)[0] == s[0]
  {
    if s == "" || !IsSpace(s[|s| - 1]) {
      pad := "";
    } else {
      var front := TrimRightParts(s[..|s| - 1]);
      pad := front + [s[|s| - 1]];
      assert s == s[..|s| - 1] + [s[|s| - 1]];
    }
  }

  /** `strings.TrimSpace`. */
  function TrimSpace(s: string): string {
    TrimRight(TrimLeft(s))
  }

  lemma TrimOfTrimmed(s: string)
    requires Trimmed(s)
    ensures TrimSpace(s) == s
  {
  }

  /** What trimming removes is white space, all of it at the two ends. */
  lemma TrimParts(s: string) returns (left: string, right: string)
    ensures s == left + TrimSpace(s) + right && AllSpace(left) && AllSpace(right)
    ensures Trimmed(TrimSpace(s))
  {
    left := TrimLeftParts(s);
    right := TrimRightParts(TrimLeft(s));
    assert s == left + (TrimSpace(s) + right);
  }

  lemma {:induction false} TrimLeftPad(pad: string, s: string)
    requires AllSpace(pad)
    ensures TrimLeft(pad + s) == TrimLeft(s)
  {
    if pad == "" {
      assert pad + s == s;
    } else {
      assert (pad + s)[1..] == pad[1..] + s;
      TrimLeftPad(pad[1..], s);
    }
  }

  lemma {:induction false} TrimRightPad(s: string, pad: string)
    requires AllSpace(pad)
    ensures TrimRight(s + pad) == TrimRight(s)
  {
    if pad == "" {
      assert s + pad == s;
    } else {
      assert (s + pad)[..|s + pad| - 1] == s + pad[..|pad| - 1];
      TrimRightPad(s, pad[..|pad| - 1]);
    }
  }

  /** Trimming recovers a trimmed string from between two runs of white space. */
  lemma TrimPadded(left: string, s: string, right: string)
    requires AllSpace(left) && AllSpace(right) && Trimmed(s)
    ensures TrimSpace(left + s + right) == s
  {
    assert left + s + right == left + (s + right);
    TrimLeftPad(left, s + right);
    if s == "" {
      assert s + right == right + "";
      TrimLeftPad(right, "");
    } else {
      assert TrimLeft(s + right) == s + right;
      TrimRightPad(s, right);
    }
  }

  // ---------------------------------------------------------------- split and join

  /** `strings.Split` with a one-character separator. */
  function Split(s: string, sep: char): (parts: seq<string>)
    ensures |parts| >= 1
    ensures forall i :: 0 <= i < |parts| ==> sep !in parts[i]
  {
    if s == "" then [""]
    else
      var rest := Split(s[1..], sep);
      if s[0] == sep then [""] + rest else [[s[0]] + rest[0]] + rest[1..]
  }

  /** `strings.Join`. */
  function Join(parts: seq<string>, sep: string): string {
    if |parts| == 0 then ""
    else if |parts| == 1 then parts[0]
    else parts[0] + sep + Join(parts[1..], sep)
  }

  lemma {:induction false} JoinSplit(s: string, sep: char)
    ensures Join(Split(s, sep), [sep]) == s
  {
    if s != "" {
      JoinSplit(s[1..], sep);
      var rest := Split(s[1..], sep);
      if s[0] == sep {
        assert ([""] + rest)[1..] == rest;
      } else {
        assert ([[s[0]] + rest[0]] + rest[1..])[1..] == rest[1..];
      }
    }
  }

  lemma {:induction false} SplitPrefix(p: string, s: string, sep: char)
    requires sep !in p
    ensures var rest := Split(s, sep); Split(p + s, sep) == [p + rest[0]] + rest[1..]
  {
    var rest := Split(s, sep);
    if p == "" {
      assert p + s == s && p + rest[0] == rest[0];
    } else {
      assert (p + s)[1..] == p[1..] + s;
      SplitPrefix(p[1..], s, sep);
      assert [p[0]] + (p[1..] + rest[0]) == p + rest[0];
    }
  }

  lemma {:induction false} SplitJoin(parts: seq<string>, sep: char)
    requires |parts| >= 1
    requires forall i :: 0 <= i < |parts| ==> sep !in parts[i]
    ensures Split(Join(parts, [sep]), sep) == parts
  {
    var p := parts[0];
    if |parts| == 1 {
      SplitPrefix(p, "", sep);
      assert p + "" == p;
    } else {
      var tail := Join(parts[1..], [sep]);
      SplitJoin(parts[1..], sep);
      assert ([sep] + tail)[1..] == tail;
      assert p + [sep] + tail == p + ([sep] + tail);
      SplitPrefix(p, [sep] + tail, sep);
      assert Split([sep] + tail, sep) == [""] + parts[1..];
      assert p + "" == p && ([""] + parts[1..])[1..] == parts[1..];
    }
  }

  lemma {:induction false} JoinSnoc(parts: seq<string>, last: string, sep: string)
    requires |parts| >= 1
    ensures Join(parts + [last], sep) == Join(parts, sep) + sep + last
  {
    if |parts| == 1 {
      assert (parts + [last])[1..] == [last];
    } else {
      assert (parts + [last])[1..] == parts[1..] + [last];
      JoinSnoc(parts[1..], last, sep);
    }
  }

  // ---------------------------------------------------------------- words

  /** A non-empty run of characters without white space. */
  predicate IsWord(w: string) {
    w != "" && NoSpace(w)
  }

  predicate AllWords(ws: seq<string>) {
    forall i :: 0 <= i < |ws| ==> IsWord(ws[i])
  }

  /** The first character starts a word or extends the one that follows it. */
  function Prepend(c: char, extend: bool, ws: seq<string>): seq<string>
    requires extend ==> ws != []
  {
    if extend then [[c] + ws[0]] + ws[1..] else [[c]] + ws
  }

  /** `strings.Fields`: the maximal runs of non-space characters, in order. */
  function Fields(s: string): (ws: seq<string>)
    ensures s != "" && !IsSpace(s[0]) ==> ws != []
  {
    if s == "" then []
    else if IsSpace(s[0]) then Fields(s[1..])
    else Prepend(s[0], |s| > 1 && !IsSpace(s[1]), Fields(s[1..]))
  }

  lemma {:induction false} FieldsAreWords(s: string)
    ensures AllWords(Fields(s))
  {
    if s != "" {
      var ws := Fields(s[1..]);
      FieldsAreWords(s[1..]);
      if !IsSpace(s[0]) && |s| > 1 && !IsSpace(s[1]) {
        assert IsWord([s[0]] + ws[0]);
      }
    }
  }

  /** The words of a line, one blank apart. */
  function Squeeze(s: string): string {
    Join(Fields(s), " ")
  }

  lemma {:induction false} FieldsPad(pad: string, s: string)
    requires AllSpace(pad)
    ensures Fields(pad + s) == Fields(s)
  {
    if pad == "" {
      assert pad + s == s;
    } else {
      assert (pad + s)[1..] == pad[1..] + s;
      FieldsPad(pad[1..], s);
    }
  }

  lemma PrependConcat(c: char, extend: bool, a: seq<string>, b: seq<string>)
    requires extend ==> a != []
    ensures Prepend(c, extend, a + b) == Prepend(c, extend, a) + b
  {
    if extend {
      assert (a + b)[1..] == a[1..] + b;
    }
  }

  /** A white-space character ends the words before it. */
  lemma {:induction false} FieldsAtSpace(s: string, c: char, t: string)
    requires IsSpace(c)
    ensures Fields(s + [c] + t) == Fields(s) + Fields(t)
  {
    var whole := s + [c] + t;
    if s == "" {
      assert whole == [c] + t;
      assert whole[1..] == t;
      assert Fields(s) + Fields(t) == Fields(t);
    } else {
      assert whole[0] == s[0] && whole[1] == (if |s| > 1 then s[1] else c);
      assert whole[1..] == s[1..] + [c] + t;
      FieldsAtSpace(s[1..], c, t);
      if !IsSpace(s[0]) {
        PrependConcat(s[0], |s| > 1 && !IsSpace(s[1]), Fields(s[1..]), Fields(t));
      }
    }
  }

  lemma {:induction false} FieldsPadRight(s: string, pad: string)
    requires AllSpace(pad)
    ensures Fields(s + pad) == Fields(s)
  {
    if pad == "" {
      assert s + pad == s;
    } else {
      assert s + pad == s + [pad[0]] + pad[1..];
      FieldsAtSpace(s, pad[0], pad[1..]);
      assert pad[1..] + "" == pad[1..];
      FieldsPad(pad[1..], "");
    }
  }

  lemma FieldsBetween(left: string, mid: string, right: string)
    requires AllSpace(left) && AllSpace(right)
    ensures Fields(left + mid + right) == Fields(mid)
  {
    assert left + mid + right == left + (mid + right);
    FieldsPad(left, mid + right);
    FieldsPadRight(mid, right);
  }

  lemma FieldsOfTrim(s: string)
    ensures Fields(TrimSpace(s)) == Fields(s)
  {
    var left, right := TrimParts(s);
    FieldsBetween(left, TrimSpace(s), right);
  }

  lemma {:induction false} FieldsOfWord(w: string)
    requires IsWord(w)
    ensures Fields(w) == [w]
  {
    if |w| == 1 {
      assert w == [w[0]] && w[1..] == "";
    } else {
      FieldsOfWord(w[1..]);
      var rest := Fields(w[1..]);
      assert [w[0]] + rest[0] == w && [w] + rest[1..] == [w];
    }
  }

  /** Collecting the words of words joined by blanks gives the words back. */
  lemma {:induction false} FieldsJoin(ws: seq<string>)
    requires AllWords(ws)
    ensures Fields(Join(ws, " ")) == ws
  {
    if |ws| == 1 {
      FieldsOfWord(ws[0]);
    } else if |ws| > 1 {
      FieldsAtSpace(ws[0], ' ', Join(ws[1..], " "));
      FieldsOfWord(ws[0]);
      FieldsJoin(ws[1..]);
    }
  }

  lemma {:induction false} JoinOfWords(ws: seq<string>)
    requires AllWords(ws) && ws != []
    ensures var s := Join(ws, " "); s != "" && Trimmed(s) && s[0] == ws[0][0] && '\n' !in s
  {
    if |ws| > 1 {
      JoinOfWords(ws[1..]);
    }
  }

  lemma {:induction false} JoinAppend(a: seq<string>, b: seq<string>, sep: string)
    requires |a| >= 1 && |b| >= 1
    ensures Join(a + b, sep) == Join(a, sep) + sep + Join(b, sep)
  {
    if |a| == 1 {
      assert (a + b)[1..] == b;
    } else {
      assert (a + b)[1..] == a[1..] + b;
      JoinAppend(a[1..], b, sep);
    }
  }

  // ---------------------------------------------------------------- searching

  /** `strings.HasPrefix`. */
  predicate HasPrefix(s: string, p: string) {
    p <= s
  }

  /** `strings.TrimPrefix`. */
  function TrimPrefix(s: string, p: string): string {
    if p <= s then s[|p|..] else s
  }

  /** `strings.Index` of one character, -1 when absent. */
  function Index(s: string, c: char): (i: int)
    ensures -1 <= i < |s|
    ensures i >= 0 ==> s[i] == c && c !in s[..i]
    ensures i < 0 <==> c !in s
  {
    if s == "" then -1
    else if s[0] == c then 0
    else
      var i := Index(s[1..], c);
      assert i >= 0 ==> s[..i + 1] == [s[0]] + s[1..][..i];
      if i < 0 then -1 else i + 1
  }

  /** `strings.LastIndex` of one character, -1 when absent. */
  function LastIndex(s: string, c: char): (i: int)
    ensures -1 <= i < |s|
    ensures i >= 0 ==> s[i] == c && c !in s[i + 1..]
    ensures i < 0 <==> c !in s
  {
    if s == "" then -1
    else if s[|s| - 1] == c then |s| - 1
    else
      var i := LastIndex(s[..|s| - 1], c);
      assert i >= 0 ==> s[i + 1..] == s[..|s| - 1][i + 1..] + [s[|s| - 1]];
      i
  }
}
