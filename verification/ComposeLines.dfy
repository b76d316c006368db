/** Image lines in terms of their own characters: which references they hold, and
    what a rewriting leaves of them. */
module ComposeLines {
  import opened Text
  import opened Compose
  import opened ComposeUpdate

  // ---------------------------------------------------------------- what a line holds

  predicate AllQuotes(s: string) {
    forall i :: 0 <= i < |s| ==> s[i] == '\'' || s[i] == '"'
  }

  /** Not empty, and with neither white space nor a quote at its ends. */
  predicate Bare(ref: string) {
    && ref != "" && Trimmed(ref)
    && ref[0] !in {'\'', '"'} && ref[|ref| - 1] !in {'\'', '"'}
  }

  lemma {:induction false} QuotesTrimmed(left: string, ref: string, right: string)
    requires AllQuotes(left) && AllQuotes(right) && Bare(ref)
    ensures TrimQuotes(left + ref + right) == ref
    decreases |left| + |right|
  {
    var s := left + ref + right;
    if left != "" {
      assert s[1..] == left[1..] + ref + right;
      QuotesTrimmed(left[1..], ref, right);
    } else if right != "" {
      assert s[..|s| - 1] == left + ref + right[..|right| - 1];
      QuotesTrimmed(left, ref, right[..|right| - 1]);
    } else {
      assert s == ref;
    }
  }

  lemma QuotedTrimmed(left: string, ref: string, right: string)
    requires AllQuotes(left) && AllQuotes(right) && Bare(ref)
    ensures left + ref + right != "" && Trimmed(left + ref + right)
  {
    var s := left + ref + right;
    assert s[0] == if left == "" then ref[0] else left[0];
    assert s[|s| - 1] == if right == "" then ref[|ref| - 1] else right[|right| - 1];
  }

  lemma KeyedText(key: string, gap: string, value: string)
    requires key == "image:" && AllSpace(gap) && value != "" && Trimmed(value)
    ensures var text := key + gap + value;
      && text != "" && Trimmed(text) && HasPrefix(text, key)
      && TrimSpace(TrimPrefix(text, key)) == value
  {
    var text := key + gap + value;
    assert text[0] == 'i' && text[|text| - 1] == value[|value| - 1];
    assert text[..|key|] == key && text[|key|..] == gap + value + "";
    TrimPadded(gap, value, "");
  }

  /** An image line holds its reference, with or without quotes around it, however it is
      indented and whatever white space surrounds it. */
  lemma LineReads(indent: string, key: string, gap: string, left: string, ref: string, right: string, tail: string)
    requires key == "image:" && AllSpace(indent) && AllSpace(gap) && AllSpace(tail)
    requires AllQuotes(left) && AllQuotes(right) && Bare(ref)
    ensures var line := indent + (key + gap + (left + ref + right)) + tail;
      IsImageLine(line) && ImageValue(line) == ref
  {
    var value := left + ref + right;
    QuotedTrimmed(left, ref, right);
    KeyedText(key, gap, value);
    TrimPadded(indent, key + gap + value, tail);
    QuotesTrimmed(left, ref, right);
  }

  /** A line whose text starts otherwise holds none. */
  lemma OtherLine(indent: string, text: string)
    requires AllSpace(indent) && text != "" && !IsSpace(text[0]) && !HasPrefix(text, "image:")
    ensures !IsImageLine(indent + text)
  {
    TrimLeftPad(indent, text);
    var pad := TrimRightParts(text);
  }

  /** A reference without colon and at-sign has no tag. */
  lemma SplitPlain(ref: string)
    requires ':' !in ref && '@' !in ref
    ensures SplitImageTag(ref) == (ref, "")
  {
  }

  // ---------------------------------------------------------------- what a rewriting leaves

  /** The first `n` characters are all the blanks and tabs the line starts with. */
  predicate BlankFront(line: string, n: nat) {
    && n <= |line|
    && (forall j :: 0 <= j < n ==> line[j] == ' ' || line[j] == '\t')
    && (n < |line| ==> line[n] != ' ' && line[n] != '\t')
  }

  lemma {:induction false} IndentIsFront(line: string) returns (n: nat)
    ensures BlankFront(line, n) && Indent(line) == line[..n]
  {
    if line != "" && (line[0] == ' ' || line[0] == '\t') {
      var m := IndentIsFront(line[1..]);
      n := m + 1;
      assert line[..n] == [line[0]] + line[1..][..m];
    } else {
      n := 0;
    }
  }

  /** A rewritten line keeps its blanks and tabs; after them comes `image: ` and a new
      reference to the repository of the old one. */
  lemma RewrittenKeepsFront(content: string, refs: set<string>, content': string, i: nat)
    returns (n: nat, ref: string)
    requires AllWellFormed(refs) && Updates(content, refs, content')
    requires i < |Split(content, '\n')| && i < |Split(content', '\n')|
    requires Split(content', '\n')[i] != Split(content, '\n')[i]
    ensures var line, line' := Split(content, '\n')[i], Split(content', '\n')[i];
      && ref in refs && BlankFront(line, n)
      && line' == line[..n] + "image: " + ref
      && IsImageLine(line) && BaseOf(ref) == BaseOf(ImageValue(line)) && ref != ImageValue(line)
  {
    var lines, lines' := Split(content, '\n'), Split(content', '\n');
    UpdatedLines(content, refs, content');
    ref :| ref in refs && Applies(ref, ImageValue(lines[i])) && lines'[i] == ImageLine(Indent(lines[i]), ref);
    n := IndentIsFront(lines[i]);
  }

  /** A line is rewritten exactly when it is an image line whose repository has a new
      reference other than its own. */
  lemma RewrittenIff(content: string, refs: set<string>, content': string, i: nat)
    requires AllWellFormed(refs) && Updates(content, refs, content')
    requires i < |Split(content, '\n')| && i < |Split(content', '\n')|
    ensures var line := Split(content, '\n')[i];
      (Split(content', '\n')[i] != line)
        <==> (IsImageLine(line)
              && exists ref :: ref in refs && BaseOf(ref) == BaseOf(ImageValue(line)) && ref != ImageValue(line))
  {
    var line, line' := Split(content, '\n')[i], Split(content', '\n')[i];
    UpdatedLines(content, refs, content');
    if IsImageLine(line) {
      if ref :| ref in refs && Applies(ref, ImageValue(line)) {
        LineChanges(line, refs, line', ref);
      }
    }
  }
}
