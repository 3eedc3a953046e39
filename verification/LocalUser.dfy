/**
 * The one local user of a device: calls of `ensureLocalUser` chained behind each other, and the
 * owner's user document. Steps are the awaits of the original.
 */
module LocalUser {
  import opened Wrappers

  // --- the chain of calls ----------------------------------------------------------------------

  datatype Stage =
    | Waiting             // for the call it was chained behind
    | Finding             // about to look for the local user
    | Creating            // found none, about to create one
    | Preparing           // about to ensure the default project
    | Settled(ok: bool)

  /** A call and the one that `ensuring` held when it was made. */
  datatype Call = Call(stage: Stage, behind: Option<nat>)

  /** `ensuring` is the module variable, as the index of a call; `users` counts the local users. */
  datatype State = State(calls: seq<Call>, ensuring: Option<nat>, users: nat)

  datatype Event =
    | Invoke                       // ensureLocalUser is called
    | Start(n: nat)                // the call it was chained behind has settled
    | Find(n: nat)
    | Create(n: nat)
    | Prepare(n: nat)
    | Fail(n: nat, kept: bool)     // the store call threw; `kept`: a create had taken effect
    | Clear(n: nat)                // the finally of a settled call
    | Wipe                         // a test clears the store

  predicate At(s: State, n: nat, stage: Stage) {
    n < |s.calls| && s.calls[n].stage == stage
  }

  predicate IsSettled(s: State, n: nat) {
    n < |s.calls| && s.calls[n].stage.Settled?
  }

  /** Inside the body: neither waiting for its turn nor settled. */
  predicate Running(s: State, n: nat) {
    n < |s.calls| && !s.calls[n].stage.Waiting? && !s.calls[n].stage.Settled?
  }

  predicate Enabled(s: State, e: Event) {
    match e
    case Invoke => true
    case Start(n) =>
      At(s, n, Waiting) && (s.calls[n].behind.Some? ==> IsSettled(s, s.calls[n].behind.value))
    case Find(n) => At(s, n, Finding)
    case Create(n) => At(s, n, Creating)
    case Prepare(n) => At(s, n, Preparing)
    case Fail(n, kept) => Running(s, n) && (kept ==> At(s, n, Creating))
    case Clear(n) => IsSettled(s, n)
    case Wipe => true
  }

  function Moved(s: State, n: nat, stage: Stage): State
    requires n < |s.calls|
  {
    s.(calls := s.calls[n := s.calls[n].(stage := stage)])
  }

  function Apply(s: State, e: Event): State
    requires Enabled(s, e)
  {
    match e
    case Invoke => State(s.calls + [Call(Waiting, s.ensuring)], Some(|s.calls|), s.users)
    case Start(n) => Moved(s, n, Finding)
    case Find(n) => Moved(s, n, if s.users == 0 then Creating else Preparing)
    case Create(n) => Moved(s, n, Preparing).(users := s.users + 1)
    case Prepare(n) => Moved(s, n, Settled(true))
    case Fail(n, kept) => Moved(s, n, Settled(false)).(users := s.users + if kept then 1 else 0)
    case Clear(n) => if s.ensuring == Some(n) then s.(ensuring := None) else s
    case Wipe => s.(users := 0)
  }

  ghost predicate Next(s: State, e: Event, t: State) {
    Enabled(s, e) && t == Apply(s, e)
  }

  ghost predicate Run(s: State, events: seq<Event>, t: State) {
    if events == [] then s == t
    else
      var before := events[..|events| - 1];
      exists u :: Run(s, before, u) && Next(u, events[|events| - 1], t)
  }

  predicate Init(s: State) {
    s.calls == [] && s.ensuring.None? && s.users <= 1
  }

  /** Every call before n has settled. */
  ghost predicate SettledBefore(s: State, n: nat) {
    forall m | 0 <= m < n :: IsSettled(s, m)
  }

  ghost predicate Chained(s: State) {
    // The variable holds the last call, or all calls have settled.
    && (s.ensuring.Some? ==> s.ensuring.value + 1 == |s.calls|)
    && (s.ensuring.None? ==> SettledBefore(s, |s.calls|))
    // A call is chained behind the one before it, or was made when all had settled.
    && (forall n | 0 <= n < |s.calls| ::
          if s.calls[n].behind.Some? then s.calls[n].behind.value + 1 == n else SettledBefore(s, n))
    // A body has started only after all earlier ones settled.
    && (forall n | 0 <= n < |s.calls| :: s.calls[n].stage.Waiting? || SettledBefore(s, n))
  }

  /** At most one user, and none while one is about to be created. */
  ghost predicate Counted(s: State) {
    s.users <= 1 && forall n | 0 <= n < |s.calls| && s.calls[n].stage.Creating? :: s.users == 0
  }

  ghost predicate Inv(s: State) {
    Chained(s) && Counted(s)
  }

  lemma StepKeepsSettled(s: State, e: Event, n: nat)
    requires Enabled(s, e) && SettledBefore(s, n)
    ensures SettledBefore(Apply(s, e), n)
  {
    forall m | 0 <= m < n ensures IsSettled(Apply(s, e), m) {
      assert IsSettled(s, m);
    }
  }

  /** Two running bodies are one. */
  lemma OneRunning(s: State, m: nat, n: nat)
    requires Inv(s) && Running(s, m) && Running(s, n)
    ensures m == n
  {
    assert m < n ==> IsSettled(s, m);
    assert n < m ==> IsSettled(s, n);
  }

  lemma StepInv(s: State, e: Event)
    requires Inv(s) && Enabled(s, e)
    ensures Inv(Apply(s, e))
  {
    StepChained(s, e);
    StepCounted(s, e);
  }

  lemma SettledNext(s: State, n: nat)
    requires SettledBefore(s, n) && IsSettled(s, n)
    ensures SettledBefore(s, n + 1)
  {
  }

  /** One call stays chained. */
  lemma StepCall(s: State, e: Event, n: nat)
    requires Chained(s) && Enabled(s, e) && n < |Apply(s, e).calls|
    ensures var t := Apply(s, e);
            && (if t.calls[n].behind.Some? then t.calls[n].behind.value + 1 == n else SettledBefore(t, n))
            && (t.calls[n].stage.Waiting? || SettledBefore(t, n))
  {
    hide SettledBefore;
    if e == Start(n) && s.calls[n].behind.Some? {
      SettledNext(s, n - 1);
    }
    if SettledBefore(s, n) {
      StepKeepsSettled(s, e, n);
    }
  }

  lemma StepChained(s: State, e: Event)
    requires Chained(s) && Enabled(s, e)
    ensures Chained(Apply(s, e))
  {
    hide SettledBefore, IsSettled, Enabled;
    var t := Apply(s, e);
    forall n | 0 <= n < |t.calls|
      ensures if t.calls[n].behind.Some? then t.calls[n].behind.value + 1 == n else SettledBefore(t, n)
      ensures t.calls[n].stage.Waiting? || SettledBefore(t, n)
    {
      StepCall(s, e, n);
    }
    StepEnsuring(s, e);
  }

  lemma StepEnsuring(s: State, e: Event)
    requires Chained(s) && Enabled(s, e)
    ensures var t := Apply(s, e);
            && (t.ensuring.Some? ==> t.ensuring.value + 1 == |t.calls|)
            && (t.ensuring.None? ==> SettledBefore(t, |t.calls|))
  {
    hide SettledBefore;
    var t := Apply(s, e);
    if s.ensuring.None? && !e.Invoke? {
      StepKeepsSettled(s, e, |s.calls|);
    } else if e.Clear? && s.ensuring == Some(e.n) {
      SettledNext(s, e.n);
      StepKeepsSettled(s, e, |s.calls|);
    }
  }

  lemma StepCounted(s: State, e: Event)
    requires Inv(s) && Enabled(s, e)
    ensures Counted(Apply(s, e))
  {
    match e
    case Find(n) => CreatingIsAlone(s, n);
    case Create(n) => CreatingIsAlone(s, n);
    case Fail(n, kept) => CreatingIsAlone(s, n);
    case _ =>
  }

  lemma CreatingIsAlone(s: State, n: nat)
    requires Inv(s) && Running(s, n)
    ensures forall m | 0 <= m < |s.calls| && m != n :: !s.calls[m].stage.Creating?
  {
    forall m | 0 <= m < |s.calls| && m != n ensures !s.calls[m].stage.Creating? {
      if s.calls[m].stage.Creating? {
        OneRunning(s, m, n);
      }
    }
  }

  lemma {:induction false} RunInv(s: State, events: seq<Event>, t: State)
    requires Init(s) && Run(s, events, t)
    ensures Inv(t)
    decreases |events|
  {
    if events != [] {
      var before := events[..|events| - 1];
      var u :| Run(s, before, u) && Next(u, events[|events| - 1], t);
      RunInv(s, before, u);
      StepInv(u, events[|events| - 1]);
    }
  }

  /** However the calls interleave and whichever fail, no two bodies overlap and there is at most one local user. */
  lemma Serialised(s: State, events: seq<Event>, t: State)
    requires Init(s) && Run(s, events, t)
    ensures forall m, n | Running(t, m) && Running(t, n) :: m == n
    ensures t.users <= 1
  {
    RunInv(s, events, t);
    forall m: nat, n: nat | Running(t, m) && Running(t, n) ensures m == n {
      OneRunning(t, m, n);
    }
  }

  /** A call settles well by its last await, and badly exactly when a store call throws in it. */
  lemma OutcomeIs(s: State, e: Event, n: nat)
    requires Enabled(s, e) && n < |s.calls| && !s.calls[n].stage.Settled?
    ensures Apply(s, e).calls[n].stage == Settled(true) <==> e == Prepare(n)
    ensures Apply(s, e).calls[n].stage == Settled(false) <==> e.Fail? && e.n == n
    ensures Apply(s, e).users == s.users + 1 <==> e.Create? || (e.Fail? && e.kept)
  {
  }

  /** Event k of a list as one step more. */
  lemma RunOn(s: State, events: seq<Event>, k: nat, u: State, t: State)
    requires k < |events| && Run(s, events[..k], u) && Enabled(u, events[k]) && t == Apply(u, events[k])
    ensures Run(s, events[..k + 1], t)
  {
    var more := events[..k + 1];
    assert more[..|more| - 1] == events[..k];
    assert Next(u, more[|more| - 1], t);
  }

  const START := State([], None, 0)
  const TWO_CALLS: seq<Event> :=
    [Invoke, Invoke, Start(0), Find(0), Create(0), Prepare(0), Start(1), Find(1), Prepare(1), Wipe]

  lemma RunNone(s: State, events: seq<Event>)
    ensures Run(s, events[..0], s)
  {
    assert events[..0] == [];
  }

  lemma FirstCallStarts()
    ensures Run(START, TWO_CALLS[..3], State([Call(Finding, None), Call(Waiting, Some(0))], Some(1), 0))
  {
    hide Run;
    var s1 := State([Call(Waiting, None)], Some(0), 0);
    var s2 := State([Call(Waiting, None), Call(Waiting, Some(0))], Some(1), 0);
    RunNone(START, TWO_CALLS);
    RunOn(START, TWO_CALLS, 0, START, s1);
    RunOn(START, TWO_CALLS, 1, s1, s2);
    RunOn(START, TWO_CALLS, 2, s2, State([Call(Finding, None), Call(Waiting, Some(0))], Some(1), 0));
  }

  lemma FirstCallEnds()
    ensures Run(START, TWO_CALLS[..6], State([Call(Settled(true), None), Call(Waiting, Some(0))], Some(1), 1))
  {
    hide Run;
    var s3 := State([Call(Finding, None), Call(Waiting, Some(0))], Some(1), 0);
    var s4 := State([Call(Creating, None), Call(Waiting, Some(0))], Some(1), 0);
    var s5 := State([Call(Preparing, None), Call(Waiting, Some(0))], Some(1), 1);
    FirstCallStarts();
    RunOn(START, TWO_CALLS, 3, s3, s4);
    RunOn(START, TWO_CALLS, 4, s4, s5);
    RunOn(START, TWO_CALLS, 5, s5, State([Call(Settled(true), None), Call(Waiting, Some(0))], Some(1), 1));
  }

  /** Two calls made at once: the second waits, finds the user of the first, and both settle well. */
  lemma TwoCallsRun()
    ensures var calls := [Call(Settled(true), None), Call(Settled(true), Some(0))];
            Run(START, TWO_CALLS[..9], State(calls, Some(1), 1)) && Run(START, TWO_CALLS, State(calls, Some(1), 0))
  {
    hide Run;
    var done := Call(Settled(true), None);
    var s6 := State([done, Call(Waiting, Some(0))], Some(1), 1);
    var s7 := State([done, Call(Finding, Some(0))], Some(1), 1);
    var s8 := State([done, Call(Preparing, Some(0))], Some(1), 1);
    var s9 := State([done, Call(Settled(true), Some(0))], Some(1), 1);
    FirstCallEnds();
    RunOn(START, TWO_CALLS, 6, s6, s7);
    RunOn(START, TWO_CALLS, 7, s7, s8);
    RunOn(START, TWO_CALLS, 8, s8, s9);
    RunOn(START, TWO_CALLS, 9, s9, State([done, Call(Settled(true), Some(0))], Some(1), 0));
    assert TWO_CALLS[..10] == TWO_CALLS;
  }

  /** A call settles successfully only with a local user in the store, unless the store was cleared under it. */
  lemma PrepareFindsUser(s: State, e: Event, n: nat)
    requires Inv(s) && Enabled(s, e) && At(Apply(s, e), n, Preparing) && !At(s, n, Preparing)
    ensures Apply(s, e).users == 1
  {
  }

  /** The chain never gets stuck: while a call has not settled, one of them can move. */
  lemma NeverStuck(s: State, n: nat)
    requires Inv(s) && n < |s.calls| && !s.calls[n].stage.Settled?
    ensures exists m: nat | m <= n :: CanMove(s, m)
    decreases n
  {
    if !CanMove(s, n) {
      assert s.calls[n].stage.Waiting?;
      NeverStuck(s, s.calls[n].behind.value);
    }
  }

  /** A next step of call m exists. */
  predicate CanMove(s: State, m: nat) {
    Enabled(s, Start(m)) || Enabled(s, Find(m)) || Enabled(s, Create(m)) || Enabled(s, Prepare(m))
  }

  // --- the owner's user document ---------------------------------------------------------------

  datatype Email = LocalEmail | Retired(id: nat) | Other(address: string)

  /** None stands for a field that is not stored. */
  datatype User = User(email: Email, displayName: Option<string>, verified: bool,
                       preferences: Option<string>, hourlyRate: Option<real>)

  type Collection = map<nat, User>

  /** A new owner with the profile of the template, if there is one. */
  function NewOwner(template: Option<User>): User {
    match template
    case None => User(LocalEmail, Some("Me"), true, None, None)
    case Some(t) => User(LocalEmail, Some(if t.displayName.Some? then t.displayName.value else "Me"), true,
                         t.preferences, t.hourlyRate)
  }

  predicate IsLocalOther(users: Collection, ownerId: nat, u: nat) {
    u in users && u != ownerId && users[u].email.LocalEmail?
  }

  /** The template is a local user that is retired, else the previous owner. */
  ghost predicate IsTemplate(users: Collection, ownerId: nat, previousIds: seq<nat>, template: Option<User>) {
    if exists u :: IsLocalOther(users, ownerId, u) then
      exists u :: IsLocalOther(users, ownerId, u) && template == Some(users[u])
    else
      template == if previousIds != [] && previousIds[0] in users then Some(users[previousIds[0]]) else None
  }

  class Users {
    var users: Collection

    constructor (initial: Collection)
      ensures users == initial
    {
      users := initial;
    }

    /** The users with the local address, but for one. */
    method FindLocal(but: nat) returns (found: seq<nat>)
      ensures forall k | 0 <= k < |found| :: found[k] in users && users[found[k]].email.LocalEmail? && found[k] != but
      ensures forall u | u in users && users[u].email.LocalEmail? && u != but :: u in found
    {
      found := [];
      var rest := users.Keys;
      while rest != {}
        invariant rest <= users.Keys
        invariant forall k | 0 <= k < |found| ::
                    found[k] in users && users[found[k]].email.LocalEmail? && found[k] != but
        invariant forall u | u in users.Keys - rest && users[u].email.LocalEmail? && u != but :: u in found
        decreases rest
      {
        var u :| u in rest;
        if users[u].email.LocalEmail? && u != but {
          found := found + [u];
        }
        rest := rest - {u};
      }
    }

    /** The profile to copy: a retired local user's, else the previous owner's. */
    method FindTemplate(others: seq<nat>, previousIds: seq<nat>) returns (template: Option<User>)
      requires forall k | 0 <= k < |others| :: others[k] in users
      ensures others != [] ==> template == Some(users[others[0]])
      ensures others == [] ==>
                template == if previousIds != [] && previousIds[0] in users then Some(users[previousIds[0]]) else None
    {
      template := None;
      if others != [] {
        template := Some(users[others[0]]);
      } else if previousIds != [] && previousIds[0] in users {
        template := Some(users[previousIds[0]]);
      }
    }

    /** Gives each of the users an address of its own. */
    method RetireAll(others: seq<nat>)
      requires forall k | 0 <= k < |others| :: others[k] in users
      modifies this
      ensures users.Keys == old(users).Keys
      ensures forall u | u in users ::
                users[u] == if u in others then old(users)[u].(email := Retired(u)) else old(users)[u]
    {
      ghost var before := users;
      for k := 0 to |others|
        invariant users.Keys == before.Keys
        invariant forall u | u in users ::
                    users[u] == if u in others[..k] then before[u].(email := Retired(u)) else before[u]
      {
        users := users[others[k] := users[others[k]].(email := Retired(others[k]))];
      }
      assert others[..|others|] == others;
    }

    /**
     * Makes `ownerId` the device's user: it alone has the local address afterwards. Every other local
     * user is retired under an address of its own, and nobody else changes.
     */
    method InstallOwnerUser(ownerId: nat, previousIds: seq<nat>)
      modifies this
      ensures users.Keys == old(users).Keys + {ownerId}
      ensures forall u | u in users :: users[u].email.LocalEmail? <==> u == ownerId
      ensures forall u | u in old(users) && u != ownerId ::
                users[u] == if old(users)[u].email.LocalEmail? then old(users)[u].(email := Retired(u))
                                else old(users)[u]
      ensures ownerId in old(users) ==> users[ownerId] == old(users)[ownerId].(email := LocalEmail)
      ensures ownerId !in old(users) ==> exists template ::
                && IsTemplate(old(users), ownerId, previousIds, template)
                && users[ownerId].email == LocalEmail && users[ownerId].verified
                && users[ownerId].displayName ==
                   (if template.Some? && template.value.displayName.Some? then template.value.displayName
                    else Some("Me"))
                && users[ownerId].preferences == (if template.Some? then template.value.preferences else None)
                && users[ownerId].hourlyRate == (if template.Some? then template.value.hourlyRate else None)
    {
      var existing := if ownerId in users then Some(users[ownerId]) else None;
      var others := FindLocal(ownerId);
      var template := FindTemplate(others, previousIds);
      assert IsTemplate(users, ownerId, previousIds, template) by {
        if others != [] {
          assert IsLocalOther(users, ownerId, others[0]);
        } else {
          assert forall u :: !IsLocalOther(users, ownerId, u);
        }
      }
      RetireAll(others);
      if existing.Some? {
        if !existing.value.email.LocalEmail? {
          users := users[ownerId := users[ownerId].(email := LocalEmail)];
        }
        return;
      }
      users := users[ownerId := NewOwner(template)];
    }
  }
}
