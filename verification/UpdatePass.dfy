/** One pass over the services of a project: which of them have a newer image,
    and why a second pass over the same tag lists finds nothing more to do. */
module UpdatePass {
  import opened Text
  import opened Tags
  import opened TagOrder
  import opened NewestTag
  import opened Compose
  import opened ComposeUpdate

  /** What the outside world answers: whether some registry is configured for a
      reference, and the tag list of a repository, if it can be had. */
  datatype Registries = Registries(matches: string -> bool, tags: string -> Option<seq<string>>)

  datatype Check = Skipped | NoRegistry | ListFailed | UpToDate | UpdateFound(newRef: string)

  /** The version check of one service. */
  function CheckService(regs: Registries, ref: string): Check {
    var (base, tag) := SplitImageTag(ref);
    if tag == "" || tag == "latest" then Skipped
    else if !regs.matches(ref) then NoRegistry
    else
      match regs.tags(base)
      case None => ListFailed
      case Some(tags) =>
        match Newest(tag, tags)
        case Some(newer) => UpdateFound(MakeRef(base, newer))
        case None => UpToDate
  }

  /** The services with a newer image, and their new references. */
  function UpdatesOf(regs: Registries, images: map<string, string>): map<string, string> {
    map svc | svc in images && CheckService(regs, images[svc]).UpdateFound? :: CheckService(regs, images[svc]).newRef
  }

  /** The tag says nothing to compare. */
  predicate NoVersion(ref: string) {
    TagOf(ref) == "" || TagOf(ref) == "latest"
  }

  /** The tags that can be compared with that of the reference; None when there is
      nothing to compare, no registry, or no list. */
  function Candidates(regs: Registries, ref: string): Option<seq<string>> {
    if NoVersion(ref) || !regs.matches(ref) then None else regs.tags(BaseOf(ref))
  }

  /** Which outcome a check has. A reference is found exactly when its repository lists a
      newer tag; it is that repository with the first of the newest tags. */
  lemma CheckServiceIff(regs: Registries, ref: string)
    ensures var (c, candidates) := (CheckService(regs, ref), Candidates(regs, ref));
      && (c == Skipped <==> NoVersion(ref))
      && (c == NoRegistry <==> !NoVersion(ref) && !regs.matches(ref))
      && (c == ListFailed <==> !NoVersion(ref) && regs.matches(ref) && candidates == None)
      && (c == UpToDate <==>
            candidates.Some? && forall i :: 0 <= i < |candidates.value| ==> !Newer(TagOf(ref), candidates.value[i]))
      && (c.UpdateFound? <==>
            candidates.Some? && exists i :: 0 <= i < |candidates.value| && Newer(TagOf(ref), candidates.value[i]))
      && (c.UpdateFound? ==>
            exists i :: 0 <= i < |candidates.value| && IsNewestAt(TagOf(ref), candidates.value, i)
                        && c.newRef == BaseOf(ref) + ":" + candidates.value[i])
  {
    var candidates := Candidates(regs, ref);
    if candidates.Some? {
      NewestSpec(TagOf(ref), candidates.value);
    }
  }

  /** A service gets an update exactly when its repository lists a newer tag. */
  lemma UpdatedIff(regs: Registries, images: map<string, string>, svc: string)
    requires svc in images
    ensures var (ref, updates) := (images[svc], UpdatesOf(regs, images)); var candidates := Candidates(regs, ref);
      && (svc in updates <==>
            candidates.Some? && exists i :: 0 <= i < |candidates.value| && Newer(TagOf(ref), candidates.value[i]))
      && (svc in updates ==>
            exists i :: 0 <= i < |candidates.value| && IsNewestAt(TagOf(ref), candidates.value, i)
                        && updates[svc] == BaseOf(ref) + ":" + candidates.value[i])
  {
    CheckServiceIff(regs, images[svc]);
  }

  method CheckOne(regs: Registries, ref: string) returns (outcome: Check)
    ensures outcome == CheckService(regs, ref)
  {
    var currentTag := SplitImageTag(ref).1;
    if currentTag == "" || currentTag == "latest" {
      return Skipped;
    }
    if !regs.matches(ref) {
      return NoRegistry;
    }
    var base := SplitImageTag(ref).0;
    var tags := regs.tags(base);
    if tags == None {
      return ListFailed;
    }
    var newer := FindNewerTag(currentTag, tags.value);
    return if newer.Some? then UpdateFound(MakeRef(base, newer.value)) else UpToDate;
  }

  lemma UpdatesOneMore(regs: Registries, images: map<string, string>, todo: set<string>, svc: string)
    requires svc in todo && todo <= images.Keys
    ensures var (before, outcome) := (UpdatesOf(regs, images - todo), CheckService(regs, images[svc]));
      UpdatesOf(regs, images - (todo - {svc}))
        == if outcome.UpdateFound? then before[svc := outcome.newRef] else before
  {
    var less, more := images - todo, images - (todo - {svc});
    assert more == less[svc := images[svc]];
  }

  /** The version-check loop. It reports one outcome a service, in the order in
      which it happens to visit them. */
  method CheckServices(regs: Registries, images: map<string, string>)
    returns (updates: map<string, string>, events: seq<(string, Check)>)
    ensures updates == UpdatesOf(regs, images)
    ensures |events| == |images|
    ensures forall svc :: svc in images ==> (svc, CheckService(regs, images[svc])) in events
  {
    updates, events := map[], [];
    var todo := images.Keys;
    while todo != {}
      invariant todo <= images.Keys
      invariant updates == UpdatesOf(regs, images - todo)
      invariant |events| + |todo| == |images|
      invariant forall svc :: svc in images && svc !in todo ==> (svc, CheckService(regs, images[svc])) in events
    {
      var svc :| svc in todo;
      var outcome := CheckOne(regs, images[svc]);
      UpdatesOneMore(regs, images, todo, svc);
      if outcome.UpdateFound? {
        updates := updates[svc := outcome.newRef];
      }
      events := events + [(svc, outcome)];
      todo := todo - {svc};
    }
    assert images - todo == images;
  }

  /** Every listed tag obeys the tag grammar. */
  ghost predicate TagsValid(regs: Registries) {
    forall base :: regs.tags(base).Some? ==>
      forall i :: 0 <= i < |regs.tags(base).value| ==> ValidTag(regs.tags(base).value[i])
  }

  /** Each service has one image line. */
  predicate Placed(lines: seq<string>, services: map<string, nat>) {
    forall svc :: svc in services ==> services[svc] < |lines| && IsImageLine(lines[services[svc]])
  }

  /** The images of the services, as their lines hold them. */
  function ImagesOf(lines: seq<string>, services: map<string, nat>): map<string, string>
    requires Placed(lines, services)
  {
    map svc | svc in services :: ImageValue(lines[services[svc]])
  }

  /** The updated services name their repositories plainly. */
  predicate PlainBases(regs: Registries, images: map<string, string>) {
    forall svc :: svc in UpdatesOf(regs, images) ==> ValidBase(BaseOf(images[svc]))
  }

  lemma NewestIsListed(current: string, tags: seq<string>)
    requires Newest(current, tags).Some?
    ensures exists i :: 0 <= i < |tags| && tags[i] == Newest(current, tags).value
  {
    NewestSpec(current, tags);
  }

  /** A new reference is well formed and names the same repository. */
  lemma NewRefWellFormed(regs: Registries, ref: string)
    requires TagsValid(regs) && ValidBase(BaseOf(ref)) && CheckService(regs, ref).UpdateFound?
    ensures var newRef := CheckService(regs, ref).newRef;
      && WellFormedRef(newRef) && BaseOf(newRef) == BaseOf(ref)
      && TagOf(newRef) == Newest(TagOf(ref), regs.tags(BaseOf(ref)).value).value
  {
    var tags := regs.tags(BaseOf(ref)).value;
    NewestIsListed(TagOf(ref), tags);
    SplitMakeRef(BaseOf(ref), Newest(TagOf(ref), tags).value);
  }

  /** Checking a new reference finds nothing newer. */
  lemma NewRefUpToDate(regs: Registries, ref: string)
    requires TagsValid(regs) && ValidBase(BaseOf(ref)) && CheckService(regs, ref).UpdateFound?
    ensures !CheckService(regs, CheckService(regs, ref).newRef).UpdateFound?
  {
    NewRefWellFormed(regs, ref);
    NewestIsFinal(TagOf(ref), regs.tags(BaseOf(ref)).value);
  }

  lemma UpdatesWellFormed(regs: Registries, images: map<string, string>)
    requires TagsValid(regs) && PlainBases(regs, images)
    ensures AllWellFormed(UpdatesOf(regs, images).Values)
  {
    var updates := UpdatesOf(regs, images);
    forall ref | ref in updates.Values
      ensures WellFormedRef(ref)
    {
      var svc :| svc in updates && updates[svc] == ref;
      NewRefWellFormed(regs, images[svc]);
    }
  }

  /** After one pass and the update of the text, a second pass over the same tag
      lists finds no newer image for any service, whichever of several new
      references to one repository was written. */
  lemma SecondPassFindsNothing(regs: Registries, content: string, services: map<string, nat>, content': string)
    requires TagsValid(regs)
    requires Placed(Split(content, '\n'), services)
    requires var images := ImagesOf(Split(content, '\n'), services);
      && PlainBases(regs, images)
      && Updates(content, UpdatesOf(regs, images).Values, content')
    ensures Placed(Split(content', '\n'), services)
    ensures UpdatesOf(regs, ImagesOf(Split(content', '\n'), services)) == map[]
  {
    var lines, lines' := Split(content, '\n'), Split(content', '\n');
    var images := ImagesOf(lines, services);
    var refs := UpdatesOf(regs, images).Values;
    UpdatesWellFormed(regs, images);
    UpdatedLines(content, refs, content');
    assert Placed(lines', services) by {
      UpdateKeeps(content, refs, content');
    }
    forall svc | svc in services
      ensures !CheckService(regs, ImageValue(lines'[services[svc]])).UpdateFound?
    {
      ServiceSettled(regs, images, lines[services[svc]], lines'[services[svc]], svc);
    }
  }

  lemma ServiceSettled(regs: Registries, images: map<string, string>, line: string, line': string, svc: string)
    requires TagsValid(regs) && PlainBases(regs, images)
    requires svc in images && IsImageLine(line) && images[svc] == ImageValue(line)
    requires Rewrites(line, UpdatesOf(regs, images).Values, line')
    ensures !CheckService(regs, ImageValue(line')).UpdateFound?
  {
    var updates := UpdatesOf(regs, images);
    if exists ref :: ref in updates.Values && Applies(ref, ImageValue(line)) {
      var ref :| ref in updates.Values && Applies(ref, ImageValue(line)) && line' == ImageLine(Indent(line), ref);
      var other :| other in updates && updates[other] == ref;
      NewRefWellFormed(regs, images[other]);
      ImageLineHolds(Indent(line), ref);
      NewRefUpToDate(regs, images[other]);
    } else if svc in updates {
      NewRefWellFormed(regs, images[svc]);
      assert updates[svc] in updates.Values;
      NewRefUpToDate(regs, images[svc]);
    }
  }

  /** Updated services that share a repository carry tags of one class. */
  predicate OneClassPerBase(regs: Registries, images: map<string, string>) {
    var updates := UpdatesOf(regs, images);
    forall s, s' :: s in updates && s' in updates && BaseOf(images[s]) == BaseOf(images[s']) ==>
      Comparable(TagOf(images[s]), TagOf(images[s']))
  }

  /** A project gets at most one new reference per repository exactly when its updated
      services agree on the class of each repository's tags. */
  lemma OneClassGivesOneRef(regs: Registries, images: map<string, string>)
    requires TagsValid(regs) && PlainBases(regs, images)
    ensures OnePerBase(UpdatesOf(regs, images).Values) <==> OneClassPerBase(regs, images)
  {
    var updates := UpdatesOf(regs, images);
    forall s, s' | s in updates && s' in updates
      ensures BaseOf(updates[s]) == BaseOf(updates[s']) <==> BaseOf(images[s]) == BaseOf(images[s'])
      ensures BaseOf(images[s]) == BaseOf(images[s']) ==>
        (updates[s] == updates[s'] <==> Comparable(TagOf(images[s]), TagOf(images[s'])))
    {
      NewRefWellFormed(regs, images[s]);
      NewRefWellFormed(regs, images[s']);
      if BaseOf(images[s]) == BaseOf(images[s']) {
        SameNewRef(regs, images[s], images[s']);
      }
    }
    if OnePerBase(updates.Values) {
      forall s, s' | s in updates && s' in updates && BaseOf(images[s]) == BaseOf(images[s'])
        ensures Comparable(TagOf(images[s]), TagOf(images[s']))
      {
        assert updates[s] in updates.Values && updates[s'] in updates.Values;
      }
    } else {
      var r, r' :| r in updates.Values && r' in updates.Values && BaseOf(r) == BaseOf(r') && r != r';
      var s :| s in updates && updates[s] == r;
      var s' :| s' in updates && updates[s'] == r';
    }
  }

  /** Two references to one repository get the same new one exactly when their tags
      are of one class. */
  lemma SameNewRef(regs: Registries, ref: string, ref': string)
    requires TagsValid(regs) && ValidBase(BaseOf(ref)) && BaseOf(ref) == BaseOf(ref')
    requires CheckService(regs, ref).UpdateFound? && CheckService(regs, ref').UpdateFound?
    ensures CheckService(regs, ref).newRef == CheckService(regs, ref').newRef
       <==> Comparable(TagOf(ref), TagOf(ref'))
  {
    var tags := regs.tags(BaseOf(ref)).value;
    if Comparable(TagOf(ref), TagOf(ref')) {
      NewestIsSame(TagOf(ref), TagOf(ref'), tags);
    } else {
      NewRefWellFormed(regs, ref);
      NewRefWellFormed(regs, ref');
      NewestIsComparable(TagOf(ref), tags);
      NewestIsComparable(TagOf(ref'), tags);
      SharedClass(TagOf(ref), TagOf(ref'), Newest(TagOf(ref), tags).value);
    }
  }

  lemma NewestIsComparable(current: string, tags: seq<string>)
    requires Newest(current, tags).Some?
    ensures Comparable(current, Newest(current, tags).value)
  {
    NewestSpec(current, tags);
  }

  /** Two tags comparable with a third are comparable. */
  lemma SharedClass(a: string, b: string, t: string)
    ensures Comparable(a, t) && Comparable(b, t) ==> Comparable(a, b)
  {
    if IsDateTag(t) {
      DateIsNotSemver(t);
    }
  }
}
