/** Stores and unsubscriptions interleaved. A store takes the lock, sends to the
    subscribed channels one after another, and releases the lock; subscribing and the
    first half of `Unsubscribe`, which removes the channel, need the lock as well. The
    second half closes the channel without the lock, so it may fall between two sends
    of one store. */
module FanOut {
  import opened Text

  /** Channels issued so far, those subscribed, unsubscriptions between their two
      halves, the channels closed, and those a store in progress has yet to send to. */
  datatype State = State(
    issued: nat,
    subs: set<nat>,
    pending: multiset<nat>,
    closed: set<nat>,
    storing: Option<set<nat>>)

  datatype Step = Subscribe | Begin | Send(ch: nat) | End | Remove(ch: nat) | Close(ch: nat)

  const START := State(0, {}, multiset{}, {}, None)

  predicate Enabled(s: State, step: Step) {
    match step
    case Subscribe | Begin => s.storing.None?
    case Send(ch) => s.storing.Some? && ch in s.storing.value
    case End => s.storing == Some({})
    case Remove(ch) => s.storing.None? && ch < s.issued
    case Close(ch) => ch in s.pending
  }

  function Next(s: State, step: Step): State {
    match step
    case Subscribe => s.(issued := s.issued + 1, subs := s.subs + {s.issued})
    case Begin => s.(storing := Some(s.subs))
    case Send(ch) => if s.storing.Some? then s.(storing := Some(s.storing.value - {ch})) else s
    case End => s.(storing := None)
    case Remove(ch) => s.(subs := s.subs - {ch}, pending := s.pending + multiset{ch})
    case Close(ch) => s.(pending := s.pending - multiset{ch}, closed := s.closed + {ch})
  }

  function After(run: seq<Step>): State {
    if run == [] then START else Next(After(run[..|run| - 1]), run[|run| - 1])
  }

  /** Every step of the run was possible when it was taken. */
  predicate Feasible(run: seq<Step>) {
    forall i :: 0 <= i < |run| ==> Enabled(After(run[..i]), run[i])
  }

  predicate SendsOnClosed(s: State, step: Step) {
    step.Send? && step.ch in s.closed
  }

  predicate ClosesTwice(s: State, step: Step) {
    step.Close? && step.ch in s.closed
  }

  lemma LastStep(run: seq<Step>)
    requires Feasible(run) && run != []
    ensures var front := run[..|run| - 1]; Feasible(front) && Enabled(After(front), run[|run| - 1])
  {
    FeasiblePrefix(run, |run| - 1);
  }

  ghost predicate Inv(s: State) {
    && (forall ch :: ch in s.subs ==> ch < s.issued && ch !in s.pending && ch !in s.closed)
    && (forall ch :: ch in s.pending || ch in s.closed ==> ch < s.issued)
    && (s.storing.Some? ==> s.storing.value <= s.subs)
  }

  lemma {:induction false} Invariant(run: seq<Step>)
    requires Feasible(run)
    ensures Inv(After(run))
  {
    if run != [] {
      LastStep(run);
      Invariant(run[..|run| - 1]);
    }
  }

  /** In no interleaving is a line sent to a closed channel. */
  lemma NeverSendsOnClosed(run: seq<Step>, i: nat)
    requires Feasible(run) && i < |run|
    ensures !SendsOnClosed(After(run[..i]), run[i])
  {
    FeasiblePrefix(run, i);
    Invariant(run[..i]);
  }

  /** How often a step occurs in a run. */
  function Times(run: seq<Step>, step: Step): nat {
    if run == [] then 0
    else Times(run[..|run| - 1], step) + if run[|run| - 1] == step then 1 else 0
  }

  lemma {:induction false} TimesPrefix(run: seq<Step>, k: nat, step: Step)
    requires k <= |run|
    ensures Times(run[..k], step) <= Times(run, step)
  {
    if k < |run| {
      TimesPrefix(run[..|run| - 1], k, step);
      assert run[..|run| - 1][..k] == run[..k];
    } else {
      assert run[..k] == run;
    }
  }

  lemma FeasiblePrefix(run: seq<Step>, k: nat)
    requires Feasible(run) && k <= |run|
    ensures Feasible(run[..k])
  {
    assert forall i :: 0 <= i < k ==> run[..k][..i] == run[..i];
  }

  /** What is pending and closed is what the run removed and closed. */
  lemma {:induction false} Accounts(run: seq<Step>, ch: nat)
    requires Feasible(run)
    ensures var s := After(run);
      && s.pending[ch] + Times(run, Close(ch)) == Times(run, Remove(ch))
      && (ch in s.closed <==> Times(run, Close(ch)) > 0)
  {
    if run != [] {
      var front, last := run[..|run| - 1], run[|run| - 1];
      LastStep(run);
      Accounts(front, ch);
    }
  }

  /** A channel is closed twice in a run exactly when, apart from those still to be
      carried through, it is unsubscribed twice or more. */
  lemma ClosesTwiceIff(run: seq<Step>, ch: nat)
    requires Feasible(run)
    ensures (exists i :: 0 <= i < |run| && run[i] == Close(ch) && ClosesTwice(After(run[..i]), run[i]))
       <==> Times(run, Remove(ch)) - After(run).pending[ch] >= 2
  {
    Accounts(run, ch);
    if Times(run, Close(ch)) >= 2 {
      var i := SecondClose(run, ch);
    }
    forall i | 0 <= i < |run| && run[i] == Close(ch) && ClosesTwice(After(run[..i]), run[i])
      ensures Times(run, Close(ch)) >= 2
    {
      FeasiblePrefix(run, i);
      Accounts(run[..i], ch);
      assert run[..i + 1][..i] == run[..i];
      TimesPrefix(run, i + 1, Close(ch));
    }
  }

  lemma {:induction false} SecondClose(run: seq<Step>, ch: nat) returns (i: nat)
    requires Feasible(run) && Times(run, Close(ch)) >= 2
    ensures i < |run| && run[i] == Close(ch) && ClosesTwice(After(run[..i]), run[i])
  {
    var front, last := run[..|run| - 1], run[|run| - 1];
    LastStep(run);
    if Times(front, Close(ch)) >= 2 {
      i := SecondClose(front, ch);
      assert front[..i] == run[..i];
    } else {
      i := |front|;
      assert last == Close(ch);
      Accounts(front, ch);
    }
  }

  /** When each channel is unsubscribed at most once, nothing goes wrong. */
  lemma UnsubscribeOnceIsSafe(run: seq<Step>, i: nat)
    requires Feasible(run) && i < |run|
    requires forall ch: nat :: Times(run, Remove(ch)) <= 1
    ensures !SendsOnClosed(After(run[..i]), run[i]) && !ClosesTwice(After(run[..i]), run[i])
  {
    NeverSendsOnClosed(run, i);
    if run[i].Close? {
      var ch := run[i].ch;
      Accounts(run, ch);
      ClosesTwiceIff(run, ch);
    }
  }

  // ---------------------------------------------------------------- what can happen

  lemma Extend(run: seq<Step>, step: Step)
    requires Feasible(run) && Enabled(After(run), step)
    ensures Feasible(run + [step]) && After(run + [step]) == Next(After(run), step)
    ensures (run + [step])[..|run|] == run
  {
    var longer := run + [step];
    assert longer[..|run|] == run;
    forall i | 0 <= i < |longer|
      ensures Enabled(After(longer[..i]), longer[i])
    {
      if i < |run| {
        assert longer[..i] == run[..i];
      }
    }
  }

  /** Whenever the lock is free, a channel that was issued can be unsubscribed. */
  lemma Unsubscribed(run: seq<Step>, ch: nat)
    requires Feasible(run) && After(run).storing == None && ch < After(run).issued
    ensures var longer := run + [Remove(ch)] + [Close(ch)];
      && Feasible(longer) && ch in After(longer).closed
      && After(longer).storing == None && After(longer).issued == After(run).issued
      && (ch in After(run).closed ==> ClosesTwice(After(longer[..|longer| - 1]), longer[|longer| - 1]))
  {
    Extend(run, Remove(ch));
    Extend(run + [Remove(ch)], Close(ch));
  }

  /** Twice, too, and then it is closed twice. */
  lemma UnsubscribedTwice(run: seq<Step>, ch: nat) returns (longer: seq<Step>)
    requires Feasible(run) && After(run).storing == None && ch < After(run).issued
    ensures longer == run + [Remove(ch)] + [Close(ch)] + [Remove(ch)] + [Close(ch)] && Feasible(longer)
    ensures ClosesTwice(After(longer[..|longer| - 1]), longer[|longer| - 1])
  {
    Unsubscribed(run, ch);
    longer := run + [Remove(ch)] + [Close(ch)];
    Unsubscribed(longer, ch);
    longer := longer + [Remove(ch)] + [Close(ch)];
  }

  /** A channel unsubscribed before a store can be closed in the middle of it. */
  lemma ClosedMeanwhile(run: seq<Step>, ch: nat, other: nat) returns (longer: seq<Step>)
    requires Feasible(run) && After(run).storing == None
    requires ch in After(run).subs && other in After(run).subs && ch != other
    ensures longer == run + [Remove(ch)] + [Begin] + [Close(ch)] + [Send(other)] && Feasible(longer)
  {
    Invariant(run);
    Extend(run, Remove(ch));
    longer := run + [Remove(ch)];
    Extend(longer, Begin);
    longer := longer + [Begin];
    Extend(longer, Close(ch));
    longer := longer + [Close(ch)];
    Extend(longer, Send(other));
    longer := longer + [Send(other)];
  }
}
