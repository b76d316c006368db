/** Administrators who are not disabled. Nothing but the login looks at the flag, so
    runs of admin requests can lose the last of them; exactly when is proved here. */
module EnabledAdmins {
  import opened Text
  import opened RoleStore
  import opened UserAdmin
  import opened AdminRuns

  /** An administrator who can log in. */
  predicate Enabled(t: Tables, u: int) {
    Admitted(t, u) && !t.users[u].disabled
  }

  ghost predicate HasEnabled(t: Tables) {
    exists u :: Enabled(t, u)
  }

  /** The update disables another user. */
  predicate Disables(actor: int, user: int, b: UserUpdate, f: Faults) {
    actor != user && b.disabled == Some(true) && !f.setDisabled
  }

  /** The request disables, demotes or removes the given administrator. */
  predicate Strips(t: Tables, fk: bool, actor: int, request: Request, f: Faults, u: int) {
    match request
    case Update(user, b) => user == u && (Disables(actor, user, b, f) || DropsAdmin(t, fk, actor, user, b, f))
    case Remove(user) => user == u && actor != user && !f.userQuery && !f.delete
    case _ => false
  }

  lemma UpdatedUsers(t: Tables, fk: bool, actor: int, user: int, b: UserUpdate, f: Faults)
    requires Valid(t)
    ensures UserUpdated(t, fk, actor, user, b, f).tables.users
         == if b.disabled.Some? && !f.setDisabled && !(actor == user && b.disabled.value)
            then DisabledSet(t, user, b.disabled.value).users else t.users
  {
  }

  /** Whom the requests that are no updates or removals leave alone. */
  lemma RecordKept(t: Tables, fk: bool, actor: int, request: Request, f: Faults, u: int)
    requires Valid(t) && u in t.users && !request.Update? && !request.Remove?
    ensures var t' := Apply(t, fk, actor, request, f); u in t'.users && t'.users[u] == t.users[u]
  {
  }

  /** An enabled administrator remains one exactly when the request does not strip him. */
  lemma EnabledIff(t: Tables, fk: bool, actor: int, request: Request, f: Faults, u: int)
    requires Valid(t) && Enabled(t, u)
    ensures Enabled(Apply(t, fk, actor, request, f), u) <==> !Strips(t, fk, actor, request, f, u)
  {
    var t' := Apply(t, fk, actor, request, f);
    match request
    case Update(user, b) =>
      UpdatedUsers(t, fk, actor, user, b, f);
      if user == u {
        UpdateDropsAdmin(t, fk, actor, user, b, f);
      } else {
        OthersKeepStatus(t, fk, actor, user, b, f, u);
      }
    case Remove(user) =>
      if user != u || actor == user {
        UserRemovedKeeps(t, fk, actor, user, f, u);
        AdminKept(t, t', u);
      }
    case _ =>
      RecordKept(t, fk, actor, request, f, u);
      OtherRequestsKeep(t, fk, actor, request, f, u);
      AdminKept(t, t', u);
  }

  /** A request that strips one administrator makes no other one. */
  lemma NoOtherMade(t: Tables, fk: bool, actor: int, request: Request, f: Faults, u: int, v: int)
    requires Valid(t) && Strips(t, fk, actor, request, f, u) && v != u
    ensures Enabled(Apply(t, fk, actor, request, f), v) ==> Enabled(t, v)
  {
    if request.Update? {
      UpdatedUsers(t, fk, actor, request.user, request.body, f);
      OthersKeepStatus(t, fk, actor, request.user, request.body, f, v);
    }
  }

  /** The call strips the only enabled administrator. */
  ghost predicate StripsLast(t: Tables, fk: bool, call: Call) {
    Admitted(t, call.actor)
    && exists u :: Enabled(t, u) && (forall v :: Enabled(t, v) ==> v == u)
                   && Strips(t, fk, call.actor, call.request, call.faults, u)
  }

  /** From a state with an enabled administrator, a call leads to one exactly when it
      does not strip the only one. */
  lemma StepKeepsEnabled(t: Tables, fk: bool, call: Call)
    requires Valid(t) && HasEnabled(t)
    ensures HasEnabled(Step(t, fk, call)) <==> !StripsLast(t, fk, call)
  {
    var (actor, request, f) := (call.actor, call.request, call.faults);
    if Admitted(t, actor) {
      forall u | Enabled(t, u)
        ensures Enabled(Step(t, fk, call), u) <==> !Strips(t, fk, actor, request, f, u)
      {
        EnabledIff(t, fk, actor, request, f, u);
      }
      if StripsLast(t, fk, call) {
        var u :| Enabled(t, u) && (forall v :: Enabled(t, v) ==> v == u) && Strips(t, fk, actor, request, f, u);
        forall v
          ensures !Enabled(Step(t, fk, call), v)
        {
          if v != u {
            NoOtherMade(t, fk, actor, request, f, u, v);
          }
        }
      } else {
        var u :| Enabled(t, u);
        if Strips(t, fk, actor, request, f, u) {
          var v :| Enabled(t, v) && v != u;
          assert !Strips(t, fk, actor, request, f, v);
        }
      }
    }
  }

  /** Every state of the run has an enabled administrator. */
  ghost predicate AlwaysEnabled(t: Tables, fk: bool, run: seq<Call>)
    requires Valid(t)
  {
    HasEnabled(After(t, fk, run)) && (run == [] || AlwaysEnabled(t, fk, run[..|run| - 1]))
  }

  /** No call of the run strips, where it is made, the only enabled administrator. */
  ghost predicate NeverStripsLast(t: Tables, fk: bool, run: seq<Call>)
    requires Valid(t)
  {
    run == []
    || (NeverStripsLast(t, fk, run[..|run| - 1])
        && !StripsLast(After(t, fk, run[..|run| - 1]), fk, run[|run| - 1]))
  }

  /** A run keeps an enabled administrator all along exactly when no call strips the
      only one. Unlike being admitted at all, a lost one can come back: whoever has
      a session goes on acting. */
  lemma {:induction false} AlwaysEnabledIff(t: Tables, fk: bool, run: seq<Call>)
    requires Valid(t) && HasEnabled(t)
    ensures AlwaysEnabled(t, fk, run) <==> NeverStripsLast(t, fk, run)
  {
    if run != [] {
      var front := run[..|run| - 1];
      AlwaysEnabledIff(t, fk, front);
      if AlwaysEnabled(t, fk, front) {
        EnabledAtEnd(t, fk, front);
        StepKeepsEnabled(After(t, fk, front), fk, run[|run| - 1]);
      }
    }
  }

  lemma EnabledAtEnd(t: Tables, fk: bool, run: seq<Call>)
    requires Valid(t) && AlwaysEnabled(t, fk, run)
    ensures HasEnabled(After(t, fk, run))
  {
  }

  // ---------------------------------------------------------------- a failing run

  /** Two administrators. */
  const TWO_ADMINS := Tables(
    map[1 := User("a", Local, false), 2 := User("b", Local, false)],
    map[1 := Role("admin", "", true)], {(1, 1), (2, 1)}, [], 3, 2)

  /** One user disables another. */
  function DisableCall(actor: int, user: int): Call {
    Call(actor, Update(user, UserUpdate(Some(true), None, None, false)), NO_FAULTS)
  }

  lemma TwoAdminsValid(t: Tables)
    requires t == TWO_ADMINS
    ensures Valid(t) && forall u :: Enabled(t, u) <==> u == 1 || u == 2
  {
    assert (1, 1) in t.links && (2, 1) in t.links && IsAdminRole(t, 1);
  }

  lemma DisableOther(t: Tables, fk: bool, actor: int, user: int)
    requires Valid(t) && Admitted(t, actor) && user in t.users && user != actor
    ensures var t' := Step(t, fk, DisableCall(actor, user));
      && (forall v :: Admitted(t', v) <==> Admitted(t, v))
      && (forall v :: Enabled(t', v) <==> Enabled(t, v) && v != user)
  {
    var t' := Step(t, fk, DisableCall(actor, user));
    assert t' == DisabledSet(t, user, true);
    assert t'.links == t.links && t'.roles == t.roles;
    forall v
      ensures Admitted(t', v) <==> Admitted(t, v)
    {
      assert IsUserAdmin(t', v) <==> IsUserAdmin(t, v);
    }
  }

  /** They disable each other: the second call is made by one already disabled, and
      after it no administrator can log in. */
  lemma DisableEachOther(t: Tables, fk: bool)
    requires t == TWO_ADMINS
    ensures Valid(t) && HasEnabled(t)
    ensures var t' := Step(t, fk, DisableCall(1, 2));
      && HasEnabled(t') && !Enabled(t', 2)
      && StripsLast(t', fk, DisableCall(2, 1)) && !HasEnabled(Step(t', fk, DisableCall(2, 1)))
  {
    TwoAdminsValid(t);
    assert Enabled(t, 1) && Enabled(t, 2);
    DisableOther(t, fk, 1, 2);
    var t' := Step(t, fk, DisableCall(1, 2));
    assert Enabled(t', 1) && Admitted(t', 2);
    DisableOther(t', fk, 2, 1);
    LastStripped(t', fk, 2, 1);
  }

  lemma LastStripped(t: Tables, fk: bool, actor: int, user: int)
    requires Admitted(t, actor) && actor != user && forall v :: Enabled(t, v) <==> v == user
    ensures StripsLast(t, fk, DisableCall(actor, user))
  {
    assert Enabled(t, user);
    assert Strips(t, fk, actor, DisableCall(actor, user).request, NO_FAULTS, user);
  }
}
