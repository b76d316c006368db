/** What an update of compose text keeps, when it is determined, and that doing
    it twice is doing it once. */
module ComposeUpdate {
  import opened Text
  import opened Compose

  /** No two references name the same repository. */
  predicate OnePerBase(refs: set<string>) {
    forall r, r' :: r in refs && r' in refs && BaseOf(r) == BaseOf(r') ==> r == r'
  }

  predicate AllWellFormed(refs: set<string>) {
    forall r :: r in refs ==> WellFormedRef(r)
  }

  // ---------------------------------------------------------------- one line

  lemma IndentNoNewline(line: string)
    requires '\n' !in line
    ensures '\n' !in Indent(line)
  {
  }

  lemma HeldLine(indent: string, ref: string)
    requires WellFormedRef(ref) && AllSpace(indent) && '\n' !in indent
    ensures var line := ImageLine(indent, ref);
      '\n' !in line && IsImageLine(line) && ImageValue(line) == ref
  {
    ImageLineHolds(indent, ref);
    ValidRefText(ref);
  }

  lemma RewrittenLine(line: string, ref: string)
    requires WellFormedRef(ref) && '\n' !in line
    ensures var line' := ImageLine(Indent(line), ref);
      '\n' !in line' && IsImageLine(line') && ImageValue(line') == ref
  {
    IndentNoNewline(line);
    HeldLine(Indent(line), ref);
  }

  /** A line keeps its kind, and an image line its repository; other lines are
      not touched, and no newline appears. */
  lemma LineKept(line: string, refs: set<string>, line': string)
    requires AllWellFormed(refs) && Rewrites(line, refs, line') && '\n' !in line
    ensures '\n' !in line'
    ensures IsImageLine(line') <==> IsImageLine(line)
    ensures !IsImageLine(line) ==> line' == line
    ensures BaseOf(ImageValue(line')) == BaseOf(ImageValue(line))
  {
    if line' != line {
      var ref :| ref in refs && Applies(ref, ImageValue(line)) && line' == ImageLine(Indent(line), ref);
      RewrittenLine(line, ref);
    }
  }

  lemma LineDetermined(line: string, refs: set<string>, a: string, b: string)
    requires OnePerBase(refs) && Rewrites(line, refs, a) && Rewrites(line, refs, b)
    ensures a == b
  {
    if IsImageLine(line) && exists ref :: ref in refs && Applies(ref, ImageValue(line)) {
      var r :| r in refs && Applies(r, ImageValue(line)) && a == ImageLine(Indent(line), r);
      var r' :| r' in refs && Applies(r', ImageValue(line)) && b == ImageLine(Indent(line), r');
      assert r == r';
    }
  }

  lemma LineSettled(line: string, refs: set<string>, a: string, b: string)
    requires AllWellFormed(refs) && OnePerBase(refs)
    requires Rewrites(line, refs, a) && Rewrites(a, refs, b)
    ensures b == a
  {
    if a != line {
      var r :| r in refs && Applies(r, ImageValue(line)) && a == ImageLine(Indent(line), r);
      ImageLineHolds(Indent(line), r);
      assert forall r' :: r' in refs && BaseOf(r') == BaseOf(r) ==> r' == r;
    }
  }

  // ---------------------------------------------------------------- whole texts

  /** The lines of an updated text are the rewritten lines. */
  lemma UpdatedLines(content: string, refs: set<string>, content': string)
    requires AllWellFormed(refs) && Updates(content, refs, content')
    ensures RewritesAll(Split(content, '\n'), refs, Split(content', '\n'))
  {
    var lines := Split(content, '\n');
    var lines' :| RewritesAll(lines, refs, lines') && content' == Join(lines', "\n");
    forall i | 0 <= i < |lines|
      ensures '\n' !in lines'[i]
    {
      LineKept(lines[i], refs, lines'[i]);
    }
    SplitJoin(lines', '\n');
  }

  /** An update keeps the line count, every line without an image, byte for byte,
      and the repository of every image. */
  lemma UpdateKeeps(content: string, refs: set<string>, content': string)
    requires AllWellFormed(refs) && Updates(content, refs, content')
    ensures var lines, lines' := Split(content, '\n'), Split(content', '\n');
      && |lines'| == |lines|
      && forall i :: 0 <= i < |lines| ==>
        && (IsImageLine(lines'[i]) <==> IsImageLine(lines[i]))
        && (!IsImageLine(lines[i]) ==> lines'[i] == lines[i])
        && BaseOf(ImageValue(lines'[i])) == BaseOf(ImageValue(lines[i]))
  {
    UpdatedLines(content, refs, content');
    var lines, lines' := Split(content, '\n'), Split(content', '\n');
    forall i | 0 <= i < |lines|
      ensures (IsImageLine(lines'[i]) <==> IsImageLine(lines[i]))
           && (!IsImageLine(lines[i]) ==> lines'[i] == lines[i])
           && BaseOf(ImageValue(lines'[i])) == BaseOf(ImageValue(lines[i]))
    {
      LineKept(lines[i], refs, lines'[i]);
    }
  }

  /** Some image line holds another reference to a repository that has a new one. */
  ghost predicate HasOutdated(content: string, refs: set<string>) {
    var lines := Split(content, '\n');
    exists i, ref :: 0 <= i < |lines| && ref in refs && IsImageLine(lines[i]) && Applies(ref, ImageValue(lines[i]))
  }

  lemma LineChanges(line: string, refs: set<string>, line': string, ref: string)
    requires AllWellFormed(refs) && Rewrites(line, refs, line')
    requires IsImageLine(line) && ref in refs && Applies(ref, ImageValue(line))
    ensures line' != line
  {
    var r :| r in refs && Applies(r, ImageValue(line)) && line' == ImageLine(Indent(line), r);
    ImageLineHolds(Indent(line), r);
  }

  /** An update changes the text exactly when an image line is outdated. */
  lemma UpdateChangesIff(content: string, refs: set<string>, content': string)
    requires AllWellFormed(refs) && Updates(content, refs, content')
    ensures content' != content <==> HasOutdated(content, refs)
  {
    UpdatedLines(content, refs, content');
    var lines, lines' := Split(content, '\n'), Split(content', '\n');
    if i, ref :| 0 <= i < |lines| && ref in refs && IsImageLine(lines[i]) && Applies(ref, ImageValue(lines[i])) {
      LineChanges(lines[i], refs, lines'[i], ref);
    } else {
      assert forall i :: 0 <= i < |lines| ==> lines'[i] == lines[i];
      assert lines' == lines;
      JoinSplit(content, '\n');
      JoinSplit(content', '\n');
    }
  }

  /** With one reference per repository the result does not depend on the order in
      which the map of updates is walked. */
  lemma UpdateDetermined(content: string, refs: set<string>, a: string, b: string)
    requires OnePerBase(refs) && Updates(content, refs, a) && Updates(content, refs, b)
    ensures a == b
  {
    var lines := Split(content, '\n');
    var la :| RewritesAll(lines, refs, la) && a == Join(la, "\n");
    var lb :| RewritesAll(lines, refs, lb) && b == Join(lb, "\n");
    forall i | 0 <= i < |lines|
      ensures la[i] == lb[i]
    {
      LineDetermined(lines[i], refs, la[i], lb[i]);
    }
    assert la == lb;
  }

  /** Updating a second time with the same references changes nothing. */
  lemma UpdateIdempotent(content: string, refs: set<string>, once: string, twice: string)
    requires AllWellFormed(refs) && OnePerBase(refs)
    requires Updates(content, refs, once) && Updates(once, refs, twice)
    ensures twice == once
  {
    UpdatedLines(content, refs, once);
    UpdatedLines(once, refs, twice);
    var lines, l1, l2 := Split(content, '\n'), Split(once, '\n'), Split(twice, '\n');
    forall i | 0 <= i < |lines|
      ensures l2[i] == l1[i]
    {
      LineSettled(lines[i], refs, l1[i], l2[i]);
    }
    assert l2 == l1;
    JoinSplit(once, '\n');
    JoinSplit(twice, '\n');
  }

  lemma Possible(line: string, refs: set<string>, ref: string)
    requires '\n' !in line && IsImageLine(line) && ref in refs && Applies(ref, ImageValue(line))
    ensures Updates(line, refs, ImageLine(Indent(line), ref))
  {
    SplitJoin([line], '\n');
    assert Join([line], "\n") == line;
    var out := ImageLine(Indent(line), ref);
    assert RewritesAll([line], refs, [out]);
    assert Join([out], "\n") == out;
  }

  lemma OneRewriting(line: string, refs: set<string>, ref: string) returns (line': string)
    requires '\n' !in line && IsImageLine(line) && ref in refs && WellFormedRef(ref) && Applies(ref, ImageValue(line))
    ensures Updates(line, refs, line')
    ensures '\n' !in line' && IsImageLine(line') && ImageValue(line') == ref
  {
    line' := ImageLine(Indent(line), ref);
    Possible(line, refs, ref);
    RewrittenLine(line, ref);
  }

  /** Two references to one repository replace each other in turn. */
  lemma TurnsBack(refs: set<string>, r: string, r': string) returns (content: string, once: string, twice: string)
    requires AllWellFormed(refs) && r in refs && r' in refs && BaseOf(r) == BaseOf(r') && r != r'
    ensures Updates(content, refs, once) && Updates(once, refs, twice) && twice != once
  {
    content := ImageLine("", r);
    HeldLine("", r);
    once := OneRewriting(content, refs, r');
    twice := OneRewriting(once, refs, r);
  }

  /** Updating is idempotent on all texts exactly when no repository has two new
      references. */
  lemma IdempotentIffOnePerBase(refs: set<string>)
    requires AllWellFormed(refs)
    ensures OnePerBase(refs) <==>
      forall content, once, twice :: Updates(content, refs, once) && Updates(once, refs, twice) ==> twice == once
  {
    if OnePerBase(refs) {
      forall content, once, twice | Updates(content, refs, once) && Updates(once, refs, twice)
        ensures twice == once
      {
        UpdateIdempotent(content, refs, once, twice);
      }
    } else {
      var r, r' :| r in refs && r' in refs && BaseOf(r) == BaseOf(r') && r != r';
      var content, once, twice := TurnsBack(refs, r, r');
    }
  }

  /** Some tag is neither of two given ones. */
  function OtherTag(a: string, b: string): (t: string)
    ensures ValidTag(t) && t != a && t != b
  {
    if "x" != a && "x" != b then "x" else if "y" != a && "y" != b then "y" else "z"
  }

  /** Two references to one repository always leave a text whose update depends on
      the order of the map. */
  lemma OrderMatters(refs: set<string>, r: string, r': string) returns (content: string, a: string, b: string)
    requires AllWellFormed(refs) && r in refs && r' in refs && BaseOf(r) == BaseOf(r') && r != r'
    ensures a != b && Updates(content, refs, a) && Updates(content, refs, b)
  {
    var tag := OtherTag(TagOf(r), TagOf(r'));
    var held := MakeRef(BaseOf(r), tag);
    SplitMakeRef(BaseOf(r), tag);
    content := ImageLine("", held);
    HeldLine("", held);
    a := OneRewriting(content, refs, r);
    b := OneRewriting(content, refs, r');
  }

  /** The update of every text is independent of the order of the map exactly when
      no repository has two new references. */
  lemma DeterminedIffOnePerBase(refs: set<string>)
    requires AllWellFormed(refs)
    ensures OnePerBase(refs) <==>
      forall content, a, b :: Updates(content, refs, a) && Updates(content, refs, b) ==> a == b
  {
    if OnePerBase(refs) {
      forall content, a, b | Updates(content, refs, a) && Updates(content, refs, b)
        ensures a == b
      {
        UpdateDetermined(content, refs, a, b);
      }
    } else {
      var r, r' :| r in refs && r' in refs && BaseOf(r) == BaseOf(r') && r != r';
      var content, a, b := OrderMatters(refs, r, r');
    }
  }
}
