/** Replacing image references in compose text, line by line. */
module Compose {
  import opened Text

  // ---------------------------------------------------------------- image references

  /** Splits `repo:tag` or `repo@digest`; the tag is empty when there is none. A
      colon before a `/` belongs to a host and port. */
  function SplitImageTag(ref: string): (string, string) {
    var at, colon := LastIndex(ref, '@'), LastIndex(ref, ':');
    if at >= 0 then (ref[..at], ref[at + 1..])
    else if colon >= 0 && '/' !in ref[colon + 1..] then (ref[..colon], ref[colon + 1..])
    else (ref, "")
  }

  function BaseOf(ref: string): string {
    SplitImageTag(ref).0
  }

  function TagOf(ref: string): string {
    SplitImageTag(ref).1
  }

  function MakeRef(base: string, tag: string): string {
    base + ":" + tag
  }

  predicate IsTagChar(c: char) {
    'a' <= c <= 'z' || 'A' <= c <= 'Z' || '0' <= c <= '9' || c == '_' || c == '.' || c == '-'
  }

  /** The tag grammar of the OCI Distribution Specification. */
  predicate ValidTag(tag: string) {
    1 <= |tag| <= 128 && tag[0] != '.' && tag[0] != '-' && forall i :: 0 <= i < |tag| ==> IsTagChar(tag[i])
  }

  /** A repository name that YAML can hold unquoted on an `image:` line. */
  predicate ValidBase(base: string) {
    base != "" && '@' !in base && forall i :: 0 <= i < |base| ==> !IsSpace(base[i]) && !IsQuote(base[i])
  }

  predicate WellFormedRef(ref: string) {
    ref == MakeRef(BaseOf(ref), TagOf(ref)) && ValidBase(BaseOf(ref)) && ValidTag(TagOf(ref))
  }

  lemma {:induction false} LastIndexIs(a: string, c: char, b: string)
    requires c !in b
    ensures LastIndex(a + [c] + b, c) == |a|
  {
    var s := a + [c] + b;
    if b == "" {
      assert s == a + [c];
    } else {
      var n := |b| - 1;
      assert s[..|s| - 1] == a + [c] + b[..n] && s[|s| - 1] == b[n];
      LastIndexIs(a, c, b[..n]);
    }
  }

  /** Splitting a reference made of a name and a tag gives them back. */
  lemma SplitMakeRef(base: string, tag: string)
    requires '@' !in base && ValidTag(tag)
    ensures SplitImageTag(MakeRef(base, tag)) == (base, tag)
  {
    var ref := MakeRef(base, tag);
    LastIndexIs(base, ':', tag);
    assert ':' !in tag && '/' !in tag && '@' !in tag;
    assert '@' !in ref;
    assert ref[..|base|] == base && ref[|base| + 1..] == tag;
  }

  /** A digest is split off at the last `@`, before any colon is looked at. */
  lemma SplitDigest(base: string, digest: string)
    requires '@' !in digest
    ensures SplitImageTag(base + "@" + digest) == (base, digest)
  {
    var ref := base + "@" + digest;
    LastIndexIs(base, '@', digest);
    assert ref[..|base|] == base && ref[|base| + 1..] == digest;
  }

  /** A port is not a tag. */
  lemma SplitHostPort(host: string, path: string)
    requires '@' !in host + path && ':' !in path && '/' in path
    ensures SplitImageTag(host + ":" + path) == (host + ":" + path, "")
  {
    var ref := host + ":" + path;
    LastIndexIs(host, ':', path);
    assert '@' !in host && '@' !in path;
    assert '@' !in ref;
    assert ref[|host| + 1..] == path;
  }

  // ---------------------------------------------------------------- image lines

  predicate IsImageLine(line: string) {
    HasPrefix(TrimSpace(line), "image:")
  }

  function TrimQuotes(s: string): string {
    if s != "" && IsQuote(s[0]) then TrimQuotes(s[1..])
    else if s != "" && IsQuote(s[|s| - 1]) then TrimQuotes(s[..|s| - 1])
    else s
  }

  /** The reference an image line holds, without quotes. */
  function ImageValue(line: string): string {
    TrimQuotes(TrimSpace(TrimPrefix(TrimSpace(line), "image:")))
  }

  /** The blanks and tabs a line starts with. */
  function Indent(line: string): (r: string)
    ensures AllSpace(r)
  {
    if line != "" && (line[0] == ' ' || line[0] == '\t') then [line[0]] + Indent(line[1..]) else ""
  }

  function ImageLine(indent: string, ref: string): string {
    indent + "image: " + ref
  }

  lemma ValidRefChars(ref: string, i: nat)
    requires WellFormedRef(ref) && i < |ref|
    ensures !IsSpace(ref[i]) && !IsQuote(ref[i])
  {
  }

  lemma ValidRefText(ref: string)
    requires WellFormedRef(ref)
    ensures ref != "" && NoSpace(ref) && Trimmed(ref) && TrimQuotes(ref) == ref && '\n' !in ref
  {
    forall i | 0 <= i < |ref|
      ensures !IsSpace(ref[i]) && !IsQuote(ref[i])
    {
      ValidRefChars(ref, i);
    }
  }

  /** The text of an image line, read the way a line is read. */
  lemma ImageTextHolds(text: string, ref: string)
    requires text == "image: " + ref && Trimmed(ref) && TrimQuotes(ref) == ref
    ensures HasPrefix(text, "image:") && TrimQuotes(TrimSpace(TrimPrefix(text, "image:"))) == ref
  {
    assert text[..6] == "image:";
    assert text[6..] == " " + ref + "";
    TrimPadded(" ", ref, "");
  }

  lemma IndentedImage(indent: string, ref: string)
    requires AllSpace(indent) && ref != "" && Trimmed(ref)
    ensures TrimSpace(ImageLine(indent, ref)) == "image: " + ref
  {
    var text := "image: " + ref;
    assert text[0] == 'i' && text[|text| - 1] == ref[|ref| - 1];
    TrimPadded(indent, text, "");
    assert ImageLine(indent, ref) == indent + text + "";
  }

  /** A rewritten line is an image line that holds the new reference. */
  lemma ImageLineHolds(indent: string, ref: string)
    requires AllSpace(indent) && WellFormedRef(ref)
    ensures IsImageLine(ImageLine(indent, ref)) && ImageValue(ImageLine(indent, ref)) == ref
  {
    ValidRefText(ref);
    IndentedImage(indent, ref);
    ImageTextHolds("image: " + ref, ref);
  }

  // ---------------------------------------------------------------- rewriting

  /** The new reference applies to a line that holds `value`. */
  predicate Applies(ref: string, value: string) {
    BaseOf(ref) == BaseOf(value) && ref != value
  }

  /** `line'` is a possible rewriting of `line`: which of several applicable
      references is taken depends on the iteration order of a map. */
  ghost predicate Rewrites(line: string, refs: set<string>, line': string) {
    if IsImageLine(line) && exists ref :: ref in refs && Applies(ref, ImageValue(line)) then
      exists ref :: ref in refs && Applies(ref, ImageValue(line)) && line' == ImageLine(Indent(line), ref)
    else line' == line
  }

  ghost predicate RewritesAll(lines: seq<string>, refs: set<string>, lines': seq<string>) {
    |lines'| == |lines| && forall i :: 0 <= i < |lines| ==> Rewrites(lines[i], refs, lines'[i])
  }

  /** `content'` is a possible result of the update of `content`. */
  ghost predicate Updates(content: string, refs: set<string>, content': string) {
    exists lines' :: RewritesAll(Split(content, '\n'), refs, lines') && content' == Join(lines', "\n")
  }

  /** Walks the updates for a reference that applies, in any order. */
  method FindNewRef(updates: map<string, string>, val: string) returns (newRef: Option<string>)
    ensures newRef.Some? ==> newRef.value in updates.Values && Applies(newRef.value, val)
    ensures newRef.None? ==> forall ref :: ref in updates.Values ==> !Applies(ref, val)
  {
    var base := SplitImageTag(val).0;
    var todo := updates.Keys;
    while todo != {}
      invariant todo <= updates.Keys
      invariant forall svc :: svc in updates.Keys - todo ==> !Applies(updates[svc], val)
    {
      var svc :| svc in todo;
      var newBase := SplitImageTag(updates[svc]).0;
      if newBase == base && updates[svc] != val {
        return Some(updates[svc]);
      }
      todo := todo - {svc};
    }
    return None;
  }

  /** One turn of the rewriting loop. */
  method RewriteLine(line: string, updates: map<string, string>) returns (rewritten: string)
    ensures Rewrites(line, updates.Values, rewritten)
  {
    var trimmed := TrimSpace(line);
    if !HasPrefix(trimmed, "image:") {
      return line;
    }
    var val := TrimQuotes(TrimSpace(TrimPrefix(trimmed, "image:")));
    var newRef := FindNewRef(updates, val);
    return if newRef.Some? then Indent(line) + "image: " + newRef.value else line;
  }

  method UpdateServiceImages(content: string, updates: map<string, string>) returns (updated: string)
    ensures Updates(content, updates.Values, updated)
  {
    var lines := Split(content, '\n');
    ghost var before := lines;
    for i := 0 to |lines|
      invariant |lines| == |before|
      invariant forall j :: 0 <= j < i ==> Rewrites(before[j], updates.Values, lines[j])
      invariant forall j :: i <= j < |lines| ==> lines[j] == before[j]
    {
      var rewritten := RewriteLine(lines[i], updates);
      lines := lines[i := rewritten];
    }
    assert RewritesAll(before, updates.Values, lines);
    return Join(lines, "\n");
  }
}
