/**
 * Who owns a device's data. Devices exchange owners when they connect; a device that was never
 * signed in adopts the account of its peer, two different accounts refuse each other.
 */
module Ownership {
  import opened Wrappers

  /** A user id: the empty string, the fixed id of the local user, or an account's. */
  datatype Owner = Empty | LocalUser | Account(id: nat)

  datatype Decision = Same | Adopt | Keep | Refuse

  function OwnerDecision(mine: Owner, theirs: Option<Owner>): Decision {
    if theirs.None? || theirs.value.Empty? || theirs.value == mine then Same
    else if mine.LocalUser? then Adopt
    else if theirs.value.LocalUser? then Keep
    else Refuse
  }

  /** The owner after hearing of a peer's, decision and adoption taken as one step; None when refused. */
  function Reconciled(mine: Owner, theirs: Option<Owner>): Option<Owner> {
    match OwnerDecision(mine, theirs)
    case Adopt => theirs
    case Refuse => None
    case _ => Some(mine)
  }

  /** Documents by id, each with the user it belongs to. */
  type Documents = map<nat, Owner>

  /** Every document of `previous` goes to `next`. */
  function Reowned(docs: Documents, previous: Owner, next: Owner): Documents {
    map d | d in docs :: if docs[d] == previous then next else docs[d]
  }

  class Device {
    var owner: Owner
    var hub: Option<string>      // the account's hub, once signed in
    var ownerRevision: nat
    var docs: Documents

    constructor (initial: Documents)
      ensures owner == LocalUser && hub.None? && ownerRevision == 0 && docs == initial
    {
      owner, hub, ownerRevision, docs := LocalUser, None, 0, initial;
    }

    /** Re-owns this device's data; nothing to do if it is the owner already, but for a missing account. */
    method AdoptOwner(ownerId: Owner, account: Option<string>)
      modifies this
      ensures owner == ownerId
      ensures docs == Reowned(old(docs), old(owner), ownerId)
      ensures ownerRevision == old(ownerRevision) + if old(owner) == ownerId then 0 else 1
      ensures hub == if old(owner) == ownerId && (account.None? || old(hub).Some?) then old(hub) else account
    {
      var previous := owner;
      if previous == ownerId {
        if account.Some? && hub.None? {
          hub := account;
        }
        assert docs == Reowned(docs, previous, ownerId);
        return;
      }
      docs := Reowned(docs, previous, ownerId);
      owner := ownerId;
      hub := account;
      ownerRevision := ownerRevision + 1;
    }

    /** Follows a peer's owner; `ok` is false when the peers belong to different accounts. */
    method ReconcileOwner(theirs: Option<Owner>) returns (ok: bool)
      modifies this
      ensures ok <==> Reconciled(old(owner), theirs).Some?
      ensures owner == if ok then Reconciled(old(owner), theirs).value else old(owner)
      ensures ok <==> old(owner) == LocalUser || theirs in {None, Some(Empty), Some(LocalUser), Some(old(owner))}
      ensures owner != old(owner) <==> old(owner) == LocalUser && theirs.Some? && theirs.value.Account?
      ensures owner != old(owner) ==> theirs == Some(owner)
      ensures docs == Reowned(old(docs), old(owner), owner)
      ensures ownerRevision == old(ownerRevision) + if owner == old(owner) then 0 else 1
    {
      assert docs == Reowned(docs, owner, owner);
      var decision := OwnerDecision(owner, theirs);
      ok := decision != Refuse;
      if decision == Adopt {
        AdoptOwner(theirs.value, None);
      }
    }

    /** The owner part of signing in: the hub says whose account it is. */
    method SignIn(hubUrl: string, userId: Owner) returns (ok: bool)
      modifies this
      ensures ok <==> !userId.Empty? && (old(owner).LocalUser? || old(owner) == userId)
      ensures owner == if ok then userId else old(owner)
      ensures ok ==> hub.Some?
      ensures docs == Reowned(old(docs), old(owner), owner)
    {
      assert docs == Reowned(docs, owner, owner);
      ok := false;
      if !userId.Empty? {
        var decision := OwnerDecision(owner, Some(userId));
        if decision != Refuse && decision != Keep {
          AdoptOwner(userId, Some(hubUrl));
          ok := true;
        }
      }
    }
  }

  /** A hello between two devices: the server follows the client's owner, then the client the server's answer. */
  method Hello(client: Device, server: Device) returns (ok: bool)
    requires client != server
    modifies client, server
    ensures (ok, client.owner, server.owner) == HelloResult(old(client.owner), old(server.owner))
  {
    ok := server.ReconcileOwner(Some(client.owner));
    if ok {
      ok := client.ReconcileOwner(Some(server.owner));
    }
  }

  /** Whether the hello goes through, and the owners after it. */
  function HelloResult(client: Owner, server: Owner): (bool, Owner, Owner) {
    match Reconciled(server, Some(client))
    case None => (false, client, server)
    case Some(s) =>
      match Reconciled(client, Some(s))
      case None => (false, client, s)
      case Some(c) => (true, c, s)
  }

  /**
   * A hello is refused exactly when the devices belong to two different accounts, and then changes
   * nothing. Otherwise both end with the same owner, the account if there is one.
   */
  lemma HelloAgrees(client: Owner, server: Owner)
    requires !client.Empty? && !server.Empty?
    ensures var r := HelloResult(client, server);
            && (r.0 <==> !(client.Account? && server.Account? && client != server))
            && (!r.0 ==> r.1 == client && r.2 == server)
            && (r.0 ==> r.1 == r.2 == if client.Account? then client else server)
  {
  }

  // --- a fleet of devices ----------------------------------------------------------------------

  /** Documents on their way to a device, with the owner that their sender had when it sent them. */
  datatype Message = Message(from: nat, to: nat, sender: Owner, docs: Documents)

  /** Owner and documents of every device, the sessions that a hello has opened, and what is on its way. */
  datatype Fleet = Fleet(
    owners: map<nat, Owner>,
    docs: map<nat, Documents>,
    open: set<(nat, nat)>,
    wire: set<Message>
  )

  datatype Event =
    | SignIn(d: nat, account: Owner)
    | Heard(d: nat, theirs: Option<Owner>)            // the server's end of a hello, with a possibly outdated owner
    | Answered(c: nat, s: nat, theirs: Option<Owner>) // the client's end: the session is open unless it refuses
    | Greet(c: nat, s: nat)                           // both ends undisturbed
    | Close(c: nat, s: nat)
    | Send(from: nat, to: nat, ids: set<nat>)         // a batch of a push or a pull, which check no owner
    | Arrive(m: Message)
    | Write(d: nat, doc: nat)                         // a new document of the device's owner

  ghost predicate Known(f: Fleet, d: nat) {
    d in f.owners && d in f.docs
  }

  ghost predicate Enabled(f: Fleet, e: Event) {
    match e
    case SignIn(d, account) => Known(f, d) && account.Account?
    case Heard(d, theirs) => Known(f, d)
    case Answered(c, s, theirs) => c != s && Known(f, c) && Known(f, s)
    case Greet(c, s) => c != s && Known(f, c) && Known(f, s)
    case Close(c, s) => (c, s) in f.open
    case Send(from, to, ids) => Known(f, from) && Known(f, to) && ((from, to) in f.open || (to, from) in f.open)
    case Arrive(m) => m in f.wire && Known(f, m.to)
    case Write(d, doc) => Known(f, d)
  }

  /** Device d with a new owner and its documents re-owned. */
  ghost function WithOwner(f: Fleet, d: nat, o: Owner): Fleet
    requires Known(f, d)
  {
    f.(owners := f.owners[d := o], docs := f.docs[d := Reowned(f.docs[d], f.owners[d], o)])
  }

  /** The documents with these ids. */
  ghost function Picked(docs: Documents, ids: set<nat>): Documents {
    map d | d in docs && d in ids :: docs[d]
  }

  ghost function Sent(f: Fleet, from: nat, to: nat, ids: set<nat>): Message
    requires Known(f, from)
  {
    Message(from, to, f.owners[from], Picked(f.docs[from], ids))
  }

  ghost function Apply(f: Fleet, e: Event): Fleet
    requires Enabled(f, e)
  {
    match e
    case SignIn(d, account) =>
      if f.owners[d].LocalUser? || f.owners[d] == account then WithOwner(f, d, account) else f
    case Heard(d, theirs) =>
      (match Reconciled(f.owners[d], theirs) case None => f case Some(o) => WithOwner(f, d, o))
    case Answered(c, s, theirs) =>
      (match Reconciled(f.owners[c], theirs)
       case None => f
       case Some(o) => WithOwner(f, c, o).(open := f.open + {(c, s)}))
    case Greet(c, s) =>
      var r := HelloResult(f.owners[c], f.owners[s]);
      var g := WithOwner(WithOwner(f, s, r.2), c, r.1);
      if r.0 then g.(open := f.open + {(c, s)}) else g
    case Close(c, s) => f.(open := f.open - {(c, s)})
    case Send(from, to, ids) => f.(wire := f.wire + {Sent(f, from, to, ids)})
    case Arrive(m) => f.(docs := f.docs[m.to := f.docs[m.to] + m.docs], wire := f.wire - {m})
    case Write(d, doc) =>
      var docs: Documents := f.docs[d] + map[doc := f.owners[d]];
      f.(docs := f.docs[d := docs])
  }

  /** A closed session takes no more batches. */
  lemma CloseEnds(f: Fleet, c: nat, s: nat, ids: set<nat>)
    requires (c, s) in f.open && (s, c) !in f.open
    ensures Enabled(f, Close(c, s))
    ensures !Enabled(Apply(f, Close(c, s)), Send(c, s, ids)) && !Enabled(Apply(f, Close(c, s)), Send(s, c, ids))
  {
  }

  /** The two ends of a hello, one right after the other, are the whole hello; a refused one opens no session. */
  lemma EndsMakeHello(f: Fleet, c: nat, s: nat)
    requires Known(f, c) && Known(f, s) && c != s && !f.owners[c].Empty? && !f.owners[s].Empty?
    ensures var heard := Apply(f, Heard(s, Some(f.owners[c])));
            var answered := Apply(heard, Answered(c, s, Some(heard.owners[s])));
            var refused := f.owners[c].Account? && f.owners[s].Account? && f.owners[c] != f.owners[s];
            && Enabled(heard, Answered(c, s, Some(heard.owners[s])))
            && answered == (if refused then heard else Apply(f, Greet(c, s)))
            && (refused ==> Apply(f, Greet(c, s)) == f)
            && (!refused ==> (c, s) in answered.open)
  {
    hide Reowned;
    SameOwner(f, c);
    SameOwner(f, s);
  }

  lemma SameOwner(f: Fleet, d: nat)
    requires Known(f, d)
    ensures WithOwner(f, d, f.owners[d]) == f
  {
    assert Reowned(f.docs[d], f.owners[d], f.owners[d]) == f.docs[d];
    assert f.owners[d := f.owners[d]] == f.owners && f.docs[d := f.docs[d]] == f.docs;
  }

  ghost predicate Next(f: Fleet, e: Event, g: Fleet) {
    Enabled(f, e) && g == Apply(f, e)
  }

  ghost predicate Run(f: Fleet, events: seq<Event>, g: Fleet) {
    if events == [] then f == g
    else
      var before := events[..|events| - 1];
      exists u :: Run(f, before, u) && Next(u, events[|events| - 1], g)
  }

  // --- owners ----------------------------------------------------------------------------------

  /** Every device has documents and an owner that is not the empty id. */
  ghost predicate Sound(f: Fleet) {
    f.owners.Keys == f.docs.Keys && forall d | d in f.owners :: !f.owners[d].Empty?
  }

  /** One step changes an owner only from the local id to an account. */
  lemma StepOwner(f: Fleet, e: Event)
    requires Sound(f) && Enabled(f, e)
    ensures var g := Apply(f, e);
            && Sound(g) && g.owners.Keys == f.owners.Keys
            && forall d | d in f.owners && g.owners[d] != f.owners[d] :: f.owners[d].LocalUser? && g.owners[d].Account?
  {
    hide Sent;
    if e.Greet? {
      HelloAgrees(f.owners[e.c], f.owners[e.s]);
    }
  }

  /** Over any run a device's owner changes at most once, from the local id to an account. */
  lemma {:induction false} OwnerChangesOnce(f: Fleet, events: seq<Event>, g: Fleet, d: nat)
    requires Sound(f) && Run(f, events, g) && d in f.owners
    ensures Sound(g) && d in g.owners
    ensures !f.owners[d].LocalUser? ==> g.owners[d] == f.owners[d]
    ensures g.owners[d] != f.owners[d] ==> f.owners[d].LocalUser? && g.owners[d].Account?
    decreases |events|
  {
    hide Enabled, Apply;
    if events != [] {
      var before := events[..|events| - 1];
      var u :| Run(f, before, u) && Next(u, events[|events| - 1], g);
      OwnerChangesOnce(f, before, u, d);
      StepOwner(u, events[|events| - 1]);
    }
  }

  // --- documents -------------------------------------------------------------------------------

  ghost predicate AllOf(docs: Documents, owner: Owner) {
    forall x | x in docs :: docs[x] == owner
  }

  /** No device holds a document of anybody but its owner. */
  ghost predicate Unmixed(f: Fleet) {
    Sound(f) && forall d | d in f.docs :: AllOf(f.docs[d], f.owners[d])
  }

  /** What is on its way belongs to the owner its sender had. */
  ghost predicate Stamped(f: Fleet) {
    forall m | m in f.wire :: AllOf(m.docs, m.sender)
  }

  /** There is nothing in the message, or it comes from the owner the receiver now has. */
  ghost predicate Welcome(f: Fleet, m: Message)
    requires m.to in f.owners
  {
    m.docs == map[] || m.sender == f.owners[m.to]
  }

  lemma WithOwnerUnmixed(f: Fleet, d: nat, o: Owner)
    requires Unmixed(f) && d in f.owners && !o.Empty?
    ensures Unmixed(WithOwner(f, d, o)) && WithOwner(f, d, o).wire == f.wire
  {
  }

  lemma HelloUnmixed(f: Fleet, c: nat, s: nat)
    requires Unmixed(f) && Enabled(f, Greet(c, s))
    ensures Unmixed(Apply(f, Greet(c, s))) && Apply(f, Greet(c, s)).wire == f.wire
  {
    hide Reowned, Picked, Reconciled, AllOf, HelloResult;
    HelloAgrees(f.owners[c], f.owners[s]);
    var r := HelloResult(f.owners[c], f.owners[s]);
    WithOwnerUnmixed(f, s, r.2);
    WithOwnerUnmixed(WithOwner(f, s, r.2), c, r.1);
  }

  lemma HeardUnmixed(f: Fleet, d: nat, theirs: Option<Owner>)
    requires Unmixed(f) && d in f.owners && Reconciled(f.owners[d], theirs).Some?
    ensures var g := WithOwner(f, d, Reconciled(f.owners[d], theirs).value); Unmixed(g) && g.wire == f.wire
  {
    WithOwnerUnmixed(f, d, Reconciled(f.owners[d], theirs).value);
  }

  lemma SendStamped(f: Fleet, from: nat, to: nat, ids: set<nat>)
    requires Unmixed(f) && Stamped(f) && Enabled(f, Send(from, to, ids))
    ensures Unmixed(Apply(f, Send(from, to, ids))) && Stamped(Apply(f, Send(from, to, ids)))
  {
    assert AllOf(f.docs[from], f.owners[from]);
  }

  /** An arrival keeps the fleet unmixed if and only if the message is welcome. */
  lemma ArrivalIff(f: Fleet, m: Message)
    requires Unmixed(f) && Stamped(f) && Enabled(f, Arrive(m))
    ensures Unmixed(Apply(f, Arrive(m))) <==> Welcome(f, m)
    ensures Stamped(Apply(f, Arrive(m)))
  {
    var g := Apply(f, Arrive(m));
    assert AllOf(m.docs, m.sender) && AllOf(f.docs[m.to], f.owners[m.to]);
    if m.docs != map[] {
      var x :| x in m.docs;
      assert g.docs[m.to][x] == m.sender;
    }
  }

  /** Every other step keeps the fleet unmixed. */
  lemma StepUnmixed(f: Fleet, e: Event)
    requires Unmixed(f) && Stamped(f) && Enabled(f, e) && !e.Arrive?
    ensures Unmixed(Apply(f, e)) && Stamped(Apply(f, e))
  {
    hide Reowned, Picked, HelloResult, Reconciled;
    match e
    case SignIn(d, account) => WithOwnerUnmixed(f, d, account);
    case Heard(d, theirs) =>
      if Reconciled(f.owners[d], theirs).Some? {
        HeardUnmixed(f, d, theirs);
      }
    case Answered(c, s, theirs) =>
      if Reconciled(f.owners[c], theirs).Some? {
        HeardUnmixed(f, c, theirs);
      }
    case Greet(c, s) => HelloUnmixed(f, c, s);
    case Send(from, to, ids) => SendStamped(f, from, to, ids);
    case Close(_, _) =>
    case Write(_, _) =>
  }

  /**
   * A batch that arrives at once keeps the fleet unmixed if and only if the two owners agree at that
   * moment or there is nothing to transfer.
   */
  lemma TransferIff(f: Fleet, from: nat, to: nat, ids: set<nat>)
    requires Unmixed(f) && Stamped(f) && Enabled(f, Send(from, to, ids))
    ensures var sent := Apply(f, Send(from, to, ids));
            && Enabled(sent, Arrive(Sent(f, from, to, ids)))
            && (Unmixed(Apply(sent, Arrive(Sent(f, from, to, ids)))) <==>
                f.owners[from] == f.owners[to] || Picked(f.docs[from], ids) == map[])
  {
    SendStamped(f, from, to, ids);
    ArrivalIff(Apply(f, Send(from, to, ids)), Sent(f, from, to, ids));
  }

  /** Every fleet on the way is unmixed. */
  ghost predicate AlwaysUnmixed(f: Fleet, events: seq<Event>, g: Fleet) {
    Unmixed(g) &&
    if events == [] then f == g
    else
      var before := events[..|events| - 1];
      exists u :: AlwaysUnmixed(f, before, u) && Next(u, events[|events| - 1], g)
  }

  /** Every message that arrives is welcome. */
  ghost predicate AllWelcome(f: Fleet, events: seq<Event>, g: Fleet) {
    if events == [] then f == g
    else
      var before, e := events[..|events| - 1], events[|events| - 1];
      exists u :: AllWelcome(f, before, u) && Next(u, e, g) && (e.Arrive? ==> Welcome(u, e.m))
  }

  lemma {:induction false} UnmixedMeansWelcome(f: Fleet, events: seq<Event>, g: Fleet)
    requires Stamped(f) && AlwaysUnmixed(f, events, g)
    ensures Stamped(g) && AllWelcome(f, events, g)
    decreases |events|
  {
    hide Apply, Sound, Welcome;
    if events != [] {
      var before, e := events[..|events| - 1], events[|events| - 1];
      var u :| AlwaysUnmixed(f, before, u) && Next(u, e, g);
      UnmixedMeansWelcome(f, before, u);
      if e.Arrive? {
        ArrivalIff(u, e.m);
      } else {
        StepUnmixed(u, e);
      }
    }
  }

  lemma {:induction false} WelcomeMeansUnmixed(f: Fleet, events: seq<Event>, g: Fleet)
    requires Unmixed(f) && Stamped(f) && AllWelcome(f, events, g)
    ensures Stamped(g) && AlwaysUnmixed(f, events, g)
    decreases |events|
  {
    hide Apply, Sound, Welcome;
    if events != [] {
      var before, e := events[..|events| - 1], events[|events| - 1];
      var u :| AllWelcome(f, before, u) && Next(u, e, g) && (e.Arrive? ==> Welcome(u, e.m));
      WelcomeMeansUnmixed(f, before, u);
      if e.Arrive? {
        ArrivalIff(u, e.m);
      } else {
        StepUnmixed(u, e);
      }
    }
  }

  /** In a run, documents of two people never meet on one device if and only if every arrival was welcome. */
  lemma NeverMixedIff(f: Fleet, events: seq<Event>, g: Fleet)
    requires Unmixed(f) && f.wire == {} && Run(f, events, g)
    ensures AlwaysUnmixed(f, events, g) <==> AllWelcome(f, events, g)
  {
    if AlwaysUnmixed(f, events, g) {
      UnmixedMeansWelcome(f, events, g);
    }
    if AllWelcome(f, events, g) {
      WelcomeMeansUnmixed(f, events, g);
    }
  }

  // --- what the hello protects -----------------------------------------------------------------

  /** The device has no open session, and nothing is on its way to it or from it. */
  ghost predicate AtRest(f: Fleet, d: nat) {
    && (forall l | l in f.open :: l.0 != d && l.1 != d)
    && (forall m | m in f.wire :: m.from != d && m.to != d)
  }

  /** Owners change at rest only, and an answer gives the owner the server has after it heard the client's. */
  ghost predicate Guarded(f: Fleet, e: Event)
    requires Enabled(f, e)
  {
    && (forall d | d in f.owners && d in Apply(f, e).owners && Apply(f, e).owners[d] != f.owners[d] :: AtRest(f, d))
    && (e.Answered? ==>
          e.theirs == Some(f.owners[e.s]) && !OwnerDecision(f.owners[e.c], e.theirs).Keep?)
  }

  ghost predicate GuardedRun(f: Fleet, events: seq<Event>, g: Fleet) {
    if events == [] then f == g
    else
      var before, e := events[..|events| - 1], events[|events| - 1];
      exists u :: GuardedRun(f, before, u) && Next(u, e, g) && Guarded(u, e)
  }

  /** The two ends of a session have one owner, and so have both ends of what is on its way. */
  ghost predicate InStep(f: Fleet) {
    && (forall l | l in f.open :: l.0 in f.owners && l.1 in f.owners && f.owners[l.0] == f.owners[l.1])
    && (forall m | m in f.wire ::
          m.from in f.owners && m.to in f.owners && m.sender == f.owners[m.from] == f.owners[m.to])
  }

  /** A change of owners at rest leaves the ends of all sessions and messages as they were. */
  lemma RestKeepsStep(f: Fleet, g: Fleet)
    requires InStep(f) && g.open <= f.open && g.wire <= f.wire && g.owners.Keys == f.owners.Keys
    requires forall d | d in f.owners && g.owners[d] != f.owners[d] :: AtRest(f, d)
    ensures InStep(g)
  {
    forall l | l in g.open ensures g.owners[l.0] == f.owners[l.0] && g.owners[l.1] == f.owners[l.1] {
      assert !AtRest(f, l.0) && !AtRest(f, l.1);
    }
    forall m | m in g.wire ensures g.owners[m.from] == f.owners[m.from] && g.owners[m.to] == f.owners[m.to] {
      assert !AtRest(f, m.from) && !AtRest(f, m.to);
    }
  }

  lemma AnswerAgrees(c: Owner, s: Owner)
    requires !c.Empty? && !s.Empty? && !OwnerDecision(c, Some(s)).Keep? && Reconciled(c, Some(s)).Some?
    ensures Reconciled(c, Some(s)) == Some(s)
  {
  }

  /** A session that a guarded step opens is between devices of one owner. */
  lemma OpensInStep(f: Fleet, e: Event, l: (nat, nat))
    requires Sound(f) && Enabled(f, e) && Guarded(f, e) && l in Apply(f, e).open && l !in f.open
    ensures var o := Apply(f, e).owners; l.0 in o && l.1 in o && o[l.0] == o[l.1]
  {
    hide Reowned, AtRest, Reconciled, OwnerDecision, HelloResult;
    if e.Greet? {
      HelloAgrees(f.owners[e.c], f.owners[e.s]);
    } else if Reconciled(f.owners[e.c], e.theirs).Some? {
      AnswerAgrees(f.owners[e.c], f.owners[e.s]);
    }
  }

  /** A batch is sent between devices of one owner. */
  lemma SendsInStep(f: Fleet, e: Event, m: Message)
    requires InStep(f) && Enabled(f, e) && m in Apply(f, e).wire && m !in f.wire
    ensures var o := Apply(f, e).owners; m.from in o && m.to in o && m.sender == o[m.from] == o[m.to]
  {
    hide Reowned, Picked, Reconciled, HelloResult;
  }

  lemma GuardedStep(f: Fleet, e: Event)
    requires Sound(f) && InStep(f) && Enabled(f, e) && Guarded(f, e)
    ensures Sound(Apply(f, e)) && InStep(Apply(f, e))
    ensures e.Arrive? ==> Welcome(f, e.m)
  {
    hide Apply, AtRest, Sound;
    StepOwner(f, e);
    var g := Apply(f, e);
    RestKeepsStep(f, g.(open := f.open * g.open, wire := f.wire * g.wire));
    forall l | l in g.open ensures l.0 in g.owners && l.1 in g.owners && g.owners[l.0] == g.owners[l.1] {
      if l !in f.open {
        OpensInStep(f, e, l);
      }
    }
    forall m | m in g.wire
      ensures m.from in g.owners && m.to in g.owners && m.sender == g.owners[m.from] == g.owners[m.to]
    {
      if m !in f.wire {
        SendsInStep(f, e, m);
      }
    }
  }

  /**
   * What the hello protects: from a fleet without sessions, as long as owners change at rest only, every
   * arrival is welcome, so documents of two people never meet.
   */
  lemma {:induction false} HelloProtects(f: Fleet, events: seq<Event>, g: Fleet)
    requires Sound(f) && f.open == {} && f.wire == {} && GuardedRun(f, events, g)
    ensures Sound(g) && InStep(g) && AllWelcome(f, events, g)
    ensures Unmixed(f) ==> AlwaysUnmixed(f, events, g)
    decreases |events|
  {
    hide Apply, Enabled, Guarded, Welcome, InStep, Sound, Unmixed;
    if events == [] {
      NothingOpen(f);
    } else {
      var before, e := events[..|events| - 1], events[|events| - 1];
      var u :| GuardedRun(f, before, u) && Next(u, e, g) && Guarded(u, e);
      HelloProtects(f, before, u);
      GuardedStep(u, e);
    }
    if Unmixed(f) {
      WelcomeMeansUnmixed(f, events, g);
    }
  }

  lemma NothingOpen(f: Fleet)
    requires f.open == {} && f.wire == {}
    ensures InStep(f) && Stamped(f)
  {
  }

  lemma RunSnoc(f: Fleet, events: seq<Event>, u: Fleet, e: Event, g: Fleet)
    requires Run(f, events, u) && Next(u, e, g)
    ensures Run(f, events + [e], g)
  {
    assert (events + [e])[..|events|] == events;
  }

  /** Devices 0 and 1, the first with document 7. */
  function Pair(first: Owner, second: Owner, docs: Documents, open: set<(nat, nat)>, wire: set<Message>): Fleet {
    Fleet(map[0 := first, 1 := second], map[0 := map[7 := first], 1 := docs], open, wire)
  }

  lemma PairOpens(open: set<(nat, nat)>)
    requires open == {(0, 1)}
    ensures Next(Pair(LocalUser, LocalUser, map[], {}, {}), Greet(0, 1), Pair(LocalUser, LocalUser, map[], open, {}))
  {
    var f := Pair(LocalUser, LocalUser, map[], {}, {});
    HelloAgrees(LocalUser, LocalUser);
    assert Reowned(f.docs[0], LocalUser, LocalUser) == f.docs[0];
    assert Reowned(f.docs[1], LocalUser, LocalUser) == f.docs[1];
  }

  lemma FirstSignsIn(open: set<(nat, nat)>)
    ensures Next(Pair(LocalUser, LocalUser, map[], open, {}), SignIn(0, Account(1)),
                 Pair(Account(1), LocalUser, map[], open, {}))
  {
    hide Reowned;
    ReownedOne();
    var f := Pair(LocalUser, LocalUser, map[], open, {});
    assert f.owners[0 := Account(1)] == map[0 := Account(1), 1 := LocalUser];
    assert f.docs[0 := map[7 := Account(1)]] == map[0 := map[7 := Account(1)], 1 := map[]];
  }

  lemma ReownedOne()
    ensures Reowned(map[7 := LocalUser], LocalUser, Account(1)) == map[7 := Account(1)]
  {
  }

  lemma SecondSignsIn(open: set<(nat, nat)>)
    ensures Next(Pair(Account(1), LocalUser, map[], open, {}), SignIn(1, Account(2)),
                 Pair(Account(1), Account(2), map[], open, {}))
  {
    assert Reowned(map[], LocalUser, Account(2)) == map[];
    var g := Pair(Account(1), LocalUser, map[], open, {});
    assert Apply(g, SignIn(1, Account(2))).docs == Pair(Account(1), Account(2), map[], open, {}).docs;
  }

  lemma PairTransfers(open: set<(nat, nat)>, m: Message)
    requires open == {(0, 1)} && m == Message(0, 1, Account(1), map[7 := Account(1)])
    ensures Next(Pair(Account(1), Account(2), map[], open, {}), Send(0, 1, {7}),
                 Pair(Account(1), Account(2), map[], open, {m}))
    ensures Next(Pair(Account(1), Account(2), map[], open, {m}), Arrive(m),
                 Pair(Account(1), Account(2), map[7 := Account(1)], open, {}))
  {
    assert Picked(map[7 := Account(1)], {7}) == map[7 := Account(1)];
    var f := Pair(Account(1), Account(2), map[], open, {m});
    assert f.docs[1] + m.docs == map[7 := Account(1)];
    assert Apply(f, Arrive(m)).docs == Pair(Account(1), Account(2), map[7 := Account(1)], open, {}).docs;
  }

  lemma PairIsUnmixed(f: Fleet)
    requires f == Pair(LocalUser, LocalUser, map[], {}, {})
    ensures Unmixed(f) && f.wire == {} && f.open == {}
  {
  }

  lemma PairIsMixed(open: set<(nat, nat)>)
    ensures !Unmixed(Pair(Account(1), Account(2), map[7 := Account(1)], open, {}))
  {
    var g := Pair(Account(1), Account(2), map[7 := Account(1)], open, {});
    assert 1 in g.docs && 7 in g.docs[1] && g.docs[1][7] != g.owners[1];
  }

  /**
   * One hello does not guard the batches after it: two local devices open a session, sign in to two
   * accounts, and a document of the one arrives at the other.
   */
  lemma OpenSessionMixes()
    ensures exists f, events, g :: Unmixed(f) && f.wire == {} && f.open == {} && Run(f, events, g) && !Unmixed(g)
  {
    hide Apply, Enabled, Pair, Unmixed;
    var open, m := {(0, 1)}, Message(0, 1, Account(1), map[7 := Account(1)]);
    var f, g := Pair(LocalUser, LocalUser, map[], {}, {}), Pair(Account(1), Account(2), map[7 := Account(1)], open, {});
    PairIsUnmixed(f);
    PairOpens(open);
    FirstSignsIn(open);
    SecondSignsIn(open);
    PairTransfers(open, m);
    var events: seq<Event> := [];
    RunSnoc(f, events, f, Greet(0, 1), Pair(LocalUser, LocalUser, map[], open, {}));
    events := events + [Greet(0, 1)];
    RunSnoc(f, events, Pair(LocalUser, LocalUser, map[], open, {}), SignIn(0, Account(1)),
            Pair(Account(1), LocalUser, map[], open, {}));
    events := events + [SignIn(0, Account(1))];
    RunSnoc(f, events, Pair(Account(1), LocalUser, map[], open, {}), SignIn(1, Account(2)),
            Pair(Account(1), Account(2), map[], open, {}));
    events := events + [SignIn(1, Account(2))];
    RunSnoc(f, events, Pair(Account(1), Account(2), map[], open, {}), Send(0, 1, {7}),
            Pair(Account(1), Account(2), map[], open, {m}));
    events := events + [Send(0, 1, {7})];
    RunSnoc(f, events, Pair(Account(1), Account(2), map[], open, {m}), Arrive(m), g);
    events := events + [Arrive(m)];
    PairIsMixed(open);
  }

  // --- one account reaches everybody -----------------------------------------------------------

  /** The devices that still belong to the local user. */
  ghost function Locals(f: Fleet): set<nat> {
    set d | d in f.owners && f.owners[d].LocalUser?
  }

  ghost predicate OneAccount(f: Fleet, account: Owner) {
    account.Account? && forall d | d in f.owners :: f.owners[d].LocalUser? || f.owners[d] == account
  }

  /** A hello changes an owner exactly when the two differ, and then one local device fewer is left. */
  lemma HelloProgress(f: Fleet, c: nat, s: nat, account: Owner)
    requires Sound(f) && OneAccount(f, account) && Enabled(f, Greet(c, s))
    ensures var g := Apply(f, Greet(c, s));
            && Sound(g) && OneAccount(g, account) && g.owners.Keys == f.owners.Keys
            && (c, s) in g.open
            && (g.owners != f.owners <==> f.owners[c] != f.owners[s])
            && |Locals(g)| == |Locals(f)| - (if f.owners[c] != f.owners[s] then 1 else 0)
            && (forall d | d in f.owners && f.owners[d] == account :: g.owners[d] == account)
  {
    hide Reconciled, HelloResult, OneAccount;
    var g := Apply(f, Greet(c, s));
    StepOwner(f, Greet(c, s));
    HelloAgrees(f.owners[c], f.owners[s]);
    assert AccountOrLocal(f.owners[c], account) && AccountOrLocal(f.owners[s], account) by {
      OwnersOf(f, c, account);
      OwnersOf(f, s, account);
    }
    var joined := if f.owners[c].LocalUser? then c else s;
    assert g.owners == if f.owners[c] != f.owners[s] then f.owners[joined := account] else f.owners;
    OneJoins(f, g, joined, account);
  }

  predicate AccountOrLocal(owner: Owner, account: Owner) {
    account.Account? && (owner.LocalUser? || owner == account)
  }

  lemma OwnersOf(f: Fleet, d: nat, account: Owner)
    requires OneAccount(f, account) && d in f.owners
    ensures AccountOrLocal(f.owners[d], account)
  {
  }

  /** No more than one local device becomes the account's. */
  lemma OneJoins(f: Fleet, g: Fleet, d: nat, account: Owner)
    requires OneAccount(f, account) && d in f.owners
    requires g.owners == f.owners || g.owners == f.owners[d := account]
    ensures OneAccount(g, account) && g.owners.Keys == f.owners.Keys
    ensures |Locals(g)| == |Locals(f)| - (if g.owners != f.owners then 1 else 0)
    ensures forall x | x in f.owners && f.owners[x] == account :: g.owners[x] == account
  {
    if g.owners == f.owners {
      assert Locals(g) == Locals(f);
    } else {
      assert f.owners[d].LocalUser?;
      assert Locals(g) == Locals(f) - {d};
    }
  }

  /** An owner one may have heard of in such a fleet, now or earlier. */
  predicate Hearsay(theirs: Option<Owner>, account: Owner) {
    theirs.Some? && theirs.value.Account? ==> theirs.value == account
  }

  /**
   * A hello on a link, half a hello with whatever owner was heard of, signing in to the account, or a step
   * between hellos: a session closes, documents are sent, arrive or are written.
   */
  predicate IsExchange(e: Event, links: set<(nat, nat)>, account: Owner) {
    match e
    case Greet(c, s) => (c, s) in links
    case Heard(_, theirs) => Hearsay(theirs, account)
    case Answered(_, _, theirs) => Hearsay(theirs, account)
    case SignIn(_, other) => other == account
    case _ => true
  }

  /** A run of exchanges, `n` of which change an owner. */
  ghost predicate Exchanges(f: Fleet, events: seq<Event>, g: Fleet, links: set<(nat, nat)>, account: Owner, n: int) {
    if events == [] then f == g && n == 0
    else
      var before, e := events[..|events| - 1], events[|events| - 1];
      && IsExchange(e, links, account)
      && exists u :: Next(u, e, g) && Exchanges(f, before, u, links, account, if g.owners != u.owners then n - 1 else n)
  }

  lemma HearsayJoins(mine: Owner, theirs: Option<Owner>, account: Owner)
    requires AccountOrLocal(mine, account) && Hearsay(theirs, account)
    ensures Reconciled(mine, theirs) in {None, Some(mine), Some(account)}
  {
  }

  lemma ExchangeProgress(f: Fleet, e: Event, links: set<(nat, nat)>, account: Owner)
    requires Sound(f) && OneAccount(f, account) && Enabled(f, e) && IsExchange(e, links, account)
    ensures var g := Apply(f, e);
            && Sound(g) && OneAccount(g, account) && g.owners.Keys == f.owners.Keys
            && |Locals(g)| == |Locals(f)| - (if g.owners != f.owners then 1 else 0)
            && (forall d | d in f.owners && f.owners[d] == account :: g.owners[d] == account)
  {
    hide Sound, OneAccount, Locals, Reconciled, HelloResult, Hearsay;
    var g := Apply(f, e);
    StepOwner(f, e);
    match e
    case Greet(c, s) => HelloProgress(f, c, s, account);
    case Heard(d, theirs) =>
      OwnersOf(f, d, account);
      HearsayJoins(f.owners[d], theirs, account);
      assert g.owners == f.owners || g.owners == f.owners[d := account];
      OneJoins(f, g, d, account);
    case Answered(c, s, theirs) =>
      OwnersOf(f, c, account);
      HearsayJoins(f.owners[c], theirs, account);
      assert g.owners == f.owners || g.owners == f.owners[c := account];
      OneJoins(f, g, c, account);
    case SignIn(d, _) => OneJoins(f, g, d, account);
    case _ => SameLocals(f, g, account);
  }

  lemma SameLocals(f: Fleet, g: Fleet, account: Owner)
    requires g.owners == f.owners && OneAccount(f, account)
    ensures Locals(g) == Locals(f) && OneAccount(g, account)
  {
  }

  lemma {:induction false} ExchangesCount(f: Fleet, events: seq<Event>, g: Fleet, links: set<(nat, nat)>,
                                          account: Owner, n: int)
    requires Sound(f) && OneAccount(f, account) && Exchanges(f, events, g, links, account, n)
    ensures Sound(g) && OneAccount(g, account) && g.owners.Keys == f.owners.Keys
    ensures n >= 0 && n == |Locals(f)| - |Locals(g)|
    ensures forall d | d in f.owners && f.owners[d] == account :: g.owners[d] == account
    decreases |events|
  {
    hide Apply, Enabled, Sound, OneAccount, Locals, IsExchange;
    if events != [] {
      var before, e := events[..|events| - 1], events[|events| - 1];
      var u :| Next(u, e, g) && Exchanges(f, before, u, links, account, if g.owners != u.owners then n - 1 else n);
      ExchangesCount(f, before, u, links, account, if g.owners != u.owners then n - 1 else n);
      ExchangeProgress(u, e, links, account);
    }
  }

  /** No proper part of the fleet is cut off: a set of devices that no link leaves is all or nothing. */
  ghost predicate Connected(devices: set<nat>, links: set<(nat, nat)>) {
    forall part: set<nat> | part <= devices && part != {} ::
      (forall l | l in links :: l.0 in part <==> l.1 in part) ==> part == devices
  }

  ghost predicate Settled(owners: map<nat, Owner>, links: set<(nat, nat)>) {
    forall l | l in links :: l.0 in owners && l.1 in owners && owners[l.0] == owners[l.1]
  }

  /** When no link can change anything any more, the account of one device is the owner of all. */
  lemma SettledMeansSame(owners: map<nat, Owner>, links: set<(nat, nat)>, d: nat)
    requires d in owners && Settled(owners, links) && Connected(owners.Keys, links)
    ensures forall x | x in owners :: owners[x] == owners[d]
  {
    var part := set x | x in owners && owners[x] == owners[d];
    assert d in part;
    assert part <= owners.Keys;
  }

  /**
   * In a connected fleet with one account there are never more steps that change an owner than local
   * devices, in whatever order and however interrupted the hellos are, and when no link can change
   * anything any more, every device belongs to the account.
   */
  lemma AccountReachesAll(f: Fleet, events: seq<Event>, g: Fleet, links: set<(nat, nat)>, account: Owner, n: int,
                          d: nat)
    requires Sound(f) && OneAccount(f, account) && Exchanges(f, events, g, links, account, n)
    requires d in f.owners && f.owners[d] == account && Connected(f.owners.Keys, links)
    ensures 0 <= n <= |Locals(f)|
    ensures Settled(g.owners, links) ==>
              n == |Locals(f)| && forall x | x in f.owners :: x in g.owners && g.owners[x] == account
  {
    hide Exchanges;
    ExchangesCount(f, events, g, links, account, n);
    if Settled(g.owners, links) {
      SettledMeansSame(g.owners, links, d);
      assert Locals(g) == {};
    }
  }

  // --- decision and adoption apart -------------------------------------------------------------

  /**
   * `reconcileOwner` decides before `adoptOwner` has its turn: adoptions decided while the device was
   * still local wait in line, and each of them then replaces the owner it finds.
   */
  function AfterQueue(owner: Owner, queue: seq<Owner>): Owner {
    if queue == [] then owner else queue[|queue| - 1]
  }

  /** How often the owner changes while the queue is worked off. */
  function Changes(owner: Owner, queue: seq<Owner>): nat {
    if queue == [] then 0
    else
      var before := queue[..|queue| - 1];
      Changes(owner, before) + if AfterQueue(owner, before) == queue[|queue| - 1] then 0 else 1
  }

  method WorkOff(device: Device, queue: seq<Owner>)
    modifies device
    ensures device.owner == AfterQueue(old(device.owner), queue)
    ensures device.ownerRevision == old(device.ownerRevision) + Changes(old(device.owner), queue)
  {
    ghost var owner, revision := device.owner, device.ownerRevision;
    for k := 0 to |queue|
      invariant device.owner == AfterQueue(owner, queue[..k])
      invariant device.ownerRevision == revision + Changes(owner, queue[..k])
    {
      assert queue[..k + 1][..k] == queue[..k];
      device.AdoptOwner(queue[k], None);
    }
    assert queue[..|queue|] == queue;
  }

  predicate AllSame(queue: seq<Owner>) {
    forall k | 0 <= k < |queue| :: queue[k] == queue[0]
  }

  lemma SameWithLast(queue: seq<Owner>)
    requires |queue| >= 2
    ensures AllSame(queue) <==> AllSame(queue[..|queue| - 1]) && queue[|queue| - 1] == queue[|queue| - 2]
  {
    var before := queue[..|queue| - 1];
    assert forall k | 0 <= k < |before| :: before[k] == queue[k];
    assert AllSame(queue) ==> queue[|queue| - 1] == queue[0] == queue[|queue| - 2];
    assert AllSame(before) ==> before[|before| - 1] == queue[|queue| - 2] == queue[0];
  }

  lemma {:induction false} SameQueue(owner: Owner, queue: seq<Owner>)
    requires owner.LocalUser? && forall k | 0 <= k < |queue| :: queue[k].Account?
    ensures queue != [] ==> Changes(owner, queue) >= 1
    ensures Changes(owner, queue) <= 1 <==> AllSame(queue)
    decreases |queue|
  {
    hide AllSame;
    if |queue| >= 2 {
      SameQueue(owner, queue[..|queue| - 1]);
      SameWithLast(queue);
    } else {
      ShortQueue(owner, queue);
    }
  }

  lemma ShortQueue(owner: Owner, queue: seq<Owner>)
    requires owner.LocalUser? && |queue| <= 1 && forall k | 0 <= k < |queue| :: queue[k].Account?
    ensures Changes(owner, queue) == |queue| && AllSame(queue)
  {
    assert queue != [] ==> queue[..|queue| - 1] == [];
  }

  /**
   * So the owner of a local device changes at most once exactly when all the adoptions waiting are of
   * one account. Two accounts heard of at the same moment end with the second owning the first one's data.
   */
  lemma QueuedAdoptions(queue: seq<Owner>)
    requires forall k | 0 <= k < |queue| :: queue[k].Account?
    ensures Changes(LocalUser, queue) <= 1 <==> AllSame(queue)
    ensures OwnerDecision(LocalUser, Some(Account(1))).Adopt? && OwnerDecision(LocalUser, Some(Account(2))).Adopt?
    ensures Changes(LocalUser, [Account(1), Account(2)]) == 2
    ensures Reowned(Reowned(map[0 := Account(1)], LocalUser, Account(1)), Account(1), Account(2)) ==
              map[0 := Account(2)]
  {
    SameQueue(LocalUser, queue);
    assert [Account(1), Account(2)][..1] == [Account(1)];
    assert [Account(1)][..0] == [];
  }
}
