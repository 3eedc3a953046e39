/**
 * Edits and workers around the embedding queue, every enqueue and every finish taken as one step: no
 * edit is forgotten, and which ones are embedded. Workers may crash; a job can be claimed only three times.
 */
module EmbeddingProtocol {
  import opened Wrappers
  import opened EmbeddingQueue

  /** What a worker has done with the job of entity e. */
  datatype Phase =
    | Idle
    | Fresh(e: nat)                       // claimed, the entity not read yet
    | Read(e: nat, version: Option<nat>)  // read: the version of its text, or no such entity
    | Wrote(e: nat, status: Status)       // embedding written, or entity missing

  datatype State = State(
    jobs: Jobs,
    text: map<nat, nat>,        // the version of every live entity
    deleted: set<nat>,
    enqueued: map<nat, nat>,    // the version at the last enqueue
    embedded: map<nat, nat>,    // the version the stored embedding was made from
    workers: map<nat, Phase>,
    abandoned: set<nat>         // entities whose worker crashed while it held their job
  )

  datatype Event =
    | Edit(e: nat)
    | Delete(e: nat)
    | Enqueue(e: nat)
    | Claim(w: nat, e: nat)
    | ReadEntity(w: nat)
    | Write(w: nat)
    | Finish(w: nat)
    | Crash(w: nat)

  ghost predicate Enabled(s: State, v: Event) {
    match v
    case Edit(e) => e !in s.deleted
    case Delete(e) => e in s.text
    case Enqueue(e) => true
    case Claim(w, e) => w in s.workers && s.workers[w].Idle? && e in s.jobs && Claimable(s.jobs[e])
    case ReadEntity(w) => w in s.workers && s.workers[w].Fresh?
    case Write(w) => w in s.workers && s.workers[w].Read?
    case Finish(w) => w in s.workers && s.workers[w].Wrote? && s.workers[w].e in s.jobs
    case Crash(w) => w in s.workers && !s.workers[w].Idle?
  }

  ghost function Apply(s: State, v: Event): State
    requires Enabled(s, v)
  {
    match v
    case Edit(e) => s.(text := s.text[e := if e in s.text then s.text[e] + 1 else 1])
    case Delete(e) => s.(text := s.text - {e}, deleted := s.deleted + {e})
    case Enqueue(e) =>
      s.(jobs := s.jobs[e := Enqueued(Lookup(s.jobs, e))],
         enqueued := if e in s.text then s.enqueued[e := s.text[e]] else s.enqueued)
    case Claim(w, e) => s.(jobs := s.jobs[e := Claimed(s.jobs[e])], workers := s.workers[w := Fresh(e)])
    case ReadEntity(w) =>
      var e := s.workers[w].e;
      s.(workers := s.workers[w := Read(e, if e in s.text then Some(s.text[e]) else None)])
    case Write(w) =>
      var p := s.workers[w];
      match p.version {
        case None => s.(workers := s.workers[w := Wrote(p.e, Failed)])
        case Some(n) =>
          s.(embedded := if p.e in s.text then s.embedded[p.e := n] else s.embedded,
             workers := s.workers[w := Wrote(p.e, Completed)])
      }
    case Finish(w) =>
      var p := s.workers[w];
      s.(jobs := s.jobs[p.e := Finished(s.jobs[p.e], p.status)], workers := s.workers[w := Idle])
    case Crash(w) => s.(workers := s.workers[w := Idle], abandoned := s.abandoned + {s.workers[w].e})
  }

  ghost predicate Next(s: State, v: Event, t: State) {
    Enabled(s, v) && t == Apply(s, v)
  }

  ghost predicate Init(s: State) {
    && s.jobs == map[] && s.enqueued == map[] && s.embedded == map[] && s.abandoned == {}
    && forall w | w in s.workers :: s.workers[w].Idle?
  }

  ghost predicate Run(s: State, events: seq<Event>, t: State) {
    if events == [] then s == t
    else
      var before := events[..|events| - 1];
      exists u :: Run(s, before, u) && Next(u, events[|events| - 1], t)
  }

  // --- the invariant ---------------------------------------------------------------------------

  ghost predicate HasHolder(s: State, e: nat) {
    exists w :: w in s.workers && !s.workers[w].Idle? && s.workers[w].e == e
  }

  /** A job held is processing; what was read is not newer than the text. */
  ghost predicate HolderAgrees(s: State, w: nat)
    requires w in s.workers
  {
    var p := s.workers[w];
    !p.Idle? ==>
      && p.e in s.jobs && s.jobs[p.e].status.Processing? && p.e !in s.abandoned
      && (p.Read? && p.version.Some? ==>
            && (if p.e in s.text then p.version.value <= s.text[p.e] else p.e in s.deleted)
            && (p.e in s.text && p.e in s.embedded ==> s.embedded[p.e] <= p.version.value))
      && (p.Wrote? ==> !p.status.Processing? && !p.status.Pending?)
  }

  ghost predicate OneHolder(s: State, v: nat, w: nat)
    requires v in s.workers && w in s.workers
  {
    v != w && !s.workers[v].Idle? && !s.workers[w].Idle? ==> s.workers[v].e != s.workers[w].e
  }

  ghost predicate JobAccounted(s: State, e: nat)
    requires e in s.jobs
  {
    && (s.jobs[e].status.Processing? <==> HasHolder(s, e) || e in s.abandoned)
    && (s.jobs[e].dirty ==> s.jobs[e].status.Processing?)
    && s.jobs[e].attempts <= MAX_ATTEMPTS
  }

  /** The entity's last enqueued edit is not embedded yet. */
  predicate Stale(s: State, e: nat) {
    e in s.text && e in s.enqueued && (e !in s.embedded || s.embedded[e] < s.enqueued[e])
  }

  /** A worker that will embed the last enqueued edit: it has not read yet, or has read that edit. */
  predicate WillEmbed(s: State, w: nat, e: nat)
    requires w in s.workers
  {
    var p := s.workers[w];
    || (p.Fresh? && p.e == e)
    || (p.Read? && p.e == e && p.version.Some? && e in s.enqueued && p.version.value >= s.enqueued[e])
  }

  /**
   * The edit has left its mark: its job is pending, lost in a crash or dirty, or a worker will embed it.
   * Whether it can still be embedded is another question, see `EmbedsLaterIff`.
   */
  ghost predicate Marked(s: State, e: nat) {
    && e in s.jobs
    && (|| s.jobs[e].status.Pending?
        || e in s.abandoned
        || (s.jobs[e].status.Processing? && s.jobs[e].dirty)
        || exists w :: w in s.workers && WillEmbed(s, w, e))
  }

  ghost predicate Versions(s: State, e: nat) {
    && (e in s.text && e in s.enqueued ==> s.enqueued[e] <= s.text[e])
    && (e in s.text && e in s.embedded ==> s.embedded[e] <= s.text[e])
    && (e in s.text ==> e !in s.deleted)
    && (e in s.enqueued || e in s.embedded ==> e in s.text || e in s.deleted)
    && (e in s.enqueued || e in s.abandoned ==> e in s.jobs)
  }

  ghost predicate Inv(s: State) {
    && (forall w | w in s.workers :: HolderAgrees(s, w))
    && (forall v, w | v in s.workers && w in s.workers :: OneHolder(s, v, w))
    && (forall e | e in s.jobs :: JobAccounted(s, e))
    && (forall e :: Versions(s, e))
    && (forall e | Stale(s, e) :: Marked(s, e))
  }

  lemma InitInv(s: State)
    requires Init(s) && forall e | e in s.text :: e !in s.deleted
    ensures Inv(s)
  {
  }

  function Actor(v: Event): Option<nat> {
    match v
    case Edit(_) => None
    case Delete(_) => None
    case Enqueue(_) => None
    case Claim(w, _) => Some(w)
    case ReadEntity(w) => Some(w)
    case Write(w) => Some(w)
    case Finish(w) => Some(w)
    case Crash(w) => Some(w)
  }

  lemma OthersKeep(s: State, v: Event)
    requires Enabled(s, v)
    ensures Apply(s, v).workers.Keys == s.workers.Keys
    ensures forall w | w in s.workers && Actor(v) != Some(w) :: Apply(s, v).workers[w] == s.workers[w]
  {
  }

  lemma ActorAgrees(s: State, v: Event, w: nat)
    requires Inv(s) && Enabled(s, v) && w in s.workers && Actor(v) == Some(w)
    ensures w in Apply(s, v).workers && HolderAgrees(Apply(s, v), w)
  {
    assert HolderAgrees(s, w);
    if v.Claim? {
      assert JobAccounted(s, v.e);
    } else {
      assert !s.workers[w].Idle? ==> Versions(s, s.workers[w].e);
    }
  }

  lemma OtherAgrees(s: State, v: Event, w: nat)
    requires Inv(s) && Enabled(s, v) && w in s.workers && Actor(v) != Some(w)
    ensures w in Apply(s, v).workers && HolderAgrees(Apply(s, v), w)
  {
    hide HolderAgrees, OneHolder, JobAccounted, Versions, Stale, Marked, Apply;
    OtherKept(s, v, w);
  }

  lemma OtherKept(s: State, v: Event, w: nat)
    requires Enabled(s, v) && w in s.workers && Actor(v) != Some(w) && HolderAgrees(s, w)
    requires Actor(v).Some? ==> var a := Actor(v).value; a in s.workers && OneHolder(s, a, w) && HolderAgrees(s, a)
    ensures w in Apply(s, v).workers && HolderAgrees(Apply(s, v), w)
  {
    OthersKeep(s, v);
  }

  lemma StepOneHolder(s: State, v: Event, a: nat, b: nat)
    requires Inv(s) && Enabled(s, v) && a in s.workers && b in s.workers
    requires a in Apply(s, v).workers && b in Apply(s, v).workers
    ensures OneHolder(Apply(s, v), a, b)
  {
    assert OneHolder(s, a, b) && HolderAgrees(s, a) && HolderAgrees(s, b);
  }

  lemma HoldersOf(s: State, v: Event, e: nat)
    requires Enabled(s, v)
    ensures var t := Apply(s, v);
            HasHolder(t, e) <==>
              (exists w :: w in s.workers && Actor(v) != Some(w) && !s.workers[w].Idle? && s.workers[w].e == e)
              || (Actor(v).Some? && !t.workers[Actor(v).value].Idle? && t.workers[Actor(v).value].e == e)
  {
    OthersKeep(s, v);
    var t := Apply(s, v);
    assert forall w :: w in t.workers && Actor(v) != Some(w) ==> w in s.workers && t.workers[w] == s.workers[w];
  }

  lemma StepAccounts(s: State, v: Event, e: nat)
    requires Inv(s) && Enabled(s, v) && e in Apply(s, v).jobs
    ensures JobAccounted(Apply(s, v), e)
  {
    hide HolderAgrees, OneHolder, JobAccounted, Stale, Marked, Apply;
    if e !in s.jobs {
      assert Versions(s, e);
      forall w | w in s.workers ensures s.workers[w].Idle? || s.workers[w].e != e {
        HoldsJob(s, w);
      }
    }
    AccountsKept(s, v, e);
  }

  lemma HoldsJob(s: State, w: nat)
    requires w in s.workers && HolderAgrees(s, w)
    ensures s.workers[w].Idle? || s.workers[w].e in s.jobs
  {
  }

  lemma AccountsKept(s: State, v: Event, e: nat)
    requires Enabled(s, v) && e in Apply(s, v).jobs
    requires if e in s.jobs then JobAccounted(s, e) else !HasHolder(s, e) && e !in s.abandoned
    requires Actor(v).Some? ==>
               var w := Actor(v).value;
               w in s.workers && HolderAgrees(s, w) && forall a | a in s.workers :: OneHolder(s, a, w)
    ensures JobAccounted(Apply(s, v), e)
  {
    HoldersOf(s, v, e);
    if Actor(v).Some? {
      var w := Actor(v).value;
      assert !s.workers[w].Idle? ==> HasHolder(s, s.workers[w].e);
      assert forall a | a in s.workers && a != w :: OneHolder(s, a, w);
    }
  }

  lemma StepVersions(s: State, v: Event, e: nat)
    requires Inv(s) && Enabled(s, v)
    ensures Versions(Apply(s, v), e)
  {
    hide HolderAgrees, OneHolder, JobAccounted, Versions, Stale, Marked, Apply;
    VersionsKept(s, v, e);
  }

  lemma VersionsKept(s: State, v: Event, e: nat)
    requires Enabled(s, v) && Versions(s, e)
    requires Actor(v).Some? ==> Actor(v).value in s.workers && HolderAgrees(s, Actor(v).value)
    ensures Versions(Apply(s, v), e)
  {
  }

  /** No step leaves an enqueued edit behind. */
  lemma StepKeepsEdits(s: State, v: Event, e: nat)
    requires Inv(s) && Enabled(s, v) && Stale(Apply(s, v), e)
    ensures Marked(Apply(s, v), e)
  {
    hide HolderAgrees, OneHolder, JobAccounted, Versions, Stale, Marked, Apply, WillEmbed;
    if v.Enqueue? && v.e == e {
      EnqueueKeeps(s, e);
    } else {
      assert Versions(s, e);
      StaleBefore(s, v, e);
      if w :| w in s.workers && WillEmbed(s, w, e) {
        HolderStillEmbeds(s, v, w, e);
      } else {
        MarkKept(s, v, e);
      }
    }
  }

  lemma StaleBefore(s: State, v: Event, e: nat)
    requires Enabled(s, v) && Stale(Apply(s, v), e) && !(v.Enqueue? && v.e == e) && Versions(s, e)
    requires Actor(v).Some? ==> Actor(v).value in s.workers && HolderAgrees(s, Actor(v).value)
    ensures Stale(s, e)
  {
  }

  /** An edit that no worker will embed keeps the mark on its job. */
  lemma MarkKept(s: State, v: Event, e: nat)
    requires Enabled(s, v) && Marked(s, e) && forall w | w in s.workers :: !WillEmbed(s, w, e)
    requires Actor(v).Some? ==> Actor(v).value in s.workers && HolderAgrees(s, Actor(v).value)
    ensures Marked(Apply(s, v), e)
  {
    OthersKeep(s, v);
    if v.Claim? && v.e == e {
      assert WillEmbed(Apply(s, v), v.w, e);
    }
  }

  lemma EnqueueKeeps(s: State, e: nat)
    requires Inv(s)
    ensures Marked(Apply(s, Enqueue(e)), e)
  {
  }

  lemma HolderStillEmbeds(s: State, v: Event, w: nat, e: nat)
    requires Inv(s) && Enabled(s, v) && w in s.workers && WillEmbed(s, w, e)
    requires !(v.Enqueue? && v.e == e) && Stale(Apply(s, v), e)
    ensures Marked(Apply(s, v), e)
  {
    var t := Apply(s, v);
    assert HolderAgrees(s, w) && Versions(s, e);
    OthersKeep(s, v);
    if Actor(v) != Some(w) || v.ReadEntity? {
      assert w in t.workers && WillEmbed(t, w, e);
    }
  }

  /** Every step keeps the invariant. */
  lemma StepInv(s: State, v: Event)
    requires Inv(s) && Enabled(s, v)
    ensures Inv(Apply(s, v))
  {
    var t := Apply(s, v);
    OthersKeep(s, v);
    forall w | w in t.workers ensures HolderAgrees(t, w) {
      if Actor(v) == Some(w) {
        ActorAgrees(s, v, w);
      } else {
        OtherAgrees(s, v, w);
      }
    }
    forall a, b | a in t.workers && b in t.workers ensures OneHolder(t, a, b) {
      StepOneHolder(s, v, a, b);
    }
    forall e | e in t.jobs ensures JobAccounted(t, e) {
      StepAccounts(s, v, e);
    }
    forall e ensures Versions(t, e) {
      StepVersions(s, v, e);
    }
    forall e | Stale(t, e) ensures Marked(t, e) {
      StepKeepsEdits(s, v, e);
    }
  }

  lemma {:induction false} RunInv(s: State, events: seq<Event>, t: State)
    requires Init(s) && Run(s, events, t) && forall e | e in s.text :: e !in s.deleted
    ensures Inv(t)
    decreases |events|
  {
    if events == [] {
      InitInv(s);
    } else {
      var before := events[..|events| - 1];
      var u :| Run(s, before, u) && Next(u, events[|events| - 1], t);
      RunInv(s, before, u);
      StepInv(u, events[|events| - 1]);
    }
  }

  // --- what the queue guarantees ---------------------------------------------------------------

  /**
   * No edit is forgotten: while an entity's embedding is older than its last enqueued edit, its job is
   * pending, or was lost in a crash, or is marked dirty, or is held by a worker that has not read the
   * entity yet or has read that edit.
   */
  lemma NoEditForgotten(s: State, events: seq<Event>, t: State, e: nat)
    requires Init(s) && Run(s, events, t) && forall x | x in s.text :: x !in s.deleted
    requires Stale(t, e)
    ensures Marked(t, e)
  {
    RunInv(s, events, t);
  }

  // --- which edits are embedded ----------------------------------------------------------------

  /** Some run from here on embeds the last enqueued edit, or a later one. */
  ghost predicate EmbedsLater(s: State, e: nat)
    requires e in s.enqueued
  {
    exists events, t :: Run(s, events, t) && Reaches(t, e, s.enqueued[e])
  }

  /** The same, without a crash on the way. */
  ghost predicate EmbedsUndisturbed(s: State, e: nat)
    requires e in s.enqueued
  {
    exists events, t :: Run(s, events, t) && CrashFree(events) && Reaches(t, e, s.enqueued[e])
  }

  predicate Reaches(s: State, e: nat, version: nat) {
    e in s.embedded && s.embedded[e] >= version
  }

  predicate CrashFree(events: seq<Event>) {
    forall k | 0 <= k < |events| :: !events[k].Crash?
  }

  /** A worker will embed the edit, or the job was not lost and has an attempt left. */
  ghost predicate HasChance(s: State, e: nat) {
    || (exists w :: w in s.workers && WillEmbed(s, w, e))
    || (e !in s.abandoned && e in s.jobs && s.jobs[e].attempts < MAX_ATTEMPTS)
  }

  lemma {:induction false} RunJoin(s: State, a: seq<Event>, u: State, b: seq<Event>, t: State)
    requires Run(s, a, u) && Run(u, b, t)
    ensures Run(s, a + b, t)
    decreases |b|
  {
    hide Enabled, Apply;
    if b == [] {
      assert a + b == a;
    } else {
      var before := b[..|b| - 1];
      var v :| Run(u, before, v) && Next(v, b[|b| - 1], t);
      RunJoin(s, a, u, before, v);
      assert (a + b)[..|a + b| - 1] == a + before;
    }
  }

  lemma RunOne(s: State, v: Event, t: State)
    requires Next(s, v, t)
    ensures Run(s, [v], t)
  {
    var none: seq<Event> := [];
    assert [v][..0] == none && Run(s, none, s);
  }

  /** A worker that will embed the edit reads, if it has not yet, and writes. */
  lemma WillEmbedReaches(s: State, w: nat, e: nat) returns (events: seq<Event>, t: State)
    requires Inv(s) && w in s.workers && WillEmbed(s, w, e) && e in s.text && e in s.enqueued
    ensures Run(s, events, t) && CrashFree(events) && Reaches(t, e, s.enqueued[e])
    decreases s.workers[w].Fresh?
  {
    hide Enqueued, Finished, HolderAgrees, JobAccounted, Run;
    if s.workers[w].Fresh? {
      var u := Apply(s, ReadEntity(w));
      assert Versions(s, e);
      StepInv(s, ReadEntity(w));
      var rest;
      rest, t := WillEmbedReaches(u, w, e);
      RunOne(s, ReadEntity(w), u);
      RunJoin(s, [ReadEntity(w)], u, rest, t);
      events := [ReadEntity(w)] + rest;
    } else {
      t := Apply(s, Write(w));
      RunOne(s, Write(w), t);
      events := [Write(w)];
    }
  }

  /** The job waits for a worker, or is dirty and will wait once w has finished with it. */
  ghost predicate Ready(s: State, w: nat, e: nat) {
    && w in s.workers && e in s.jobs && s.jobs[e].attempts < MAX_ATTEMPTS && e in s.text && e in s.enqueued
    && if s.jobs[e].status.Pending? then s.workers[w].Idle? || s.workers[w].e != e
       else s.jobs[e].status.Processing? && s.jobs[e].dirty && !s.workers[w].Idle? && s.workers[w].e == e
  }

  /** How many steps w is from idle. */
  function StepsLeft(p: Phase): nat {
    match p
    case Idle => 0
    case Fresh(_) => 3
    case Read(_, _) => 2
    case Wrote(_, _) => 1
  }

  /** The next step of a worker that holds a job. */
  function NextStep(s: State, w: nat): Event
    requires w in s.workers && !s.workers[w].Idle?
  {
    match s.workers[w]
    case Fresh(_) => ReadEntity(w)
    case Read(_, _) => Write(w)
    case _ => Finish(w)
  }

  lemma StepStaysReady(s: State, w: nat, e: nat)
    requires Inv(s) && Ready(s, w, e) && !s.workers[w].Idle?
    ensures var v := NextStep(s, w);
            && Enabled(s, v)
            && var u := Apply(s, v);
               && Ready(u, w, e) && StepsLeft(u.workers[w]) < StepsLeft(s.workers[w])
               && u.enqueued == s.enqueued
  {
    hide Marked, Versions, OneHolder;
    assert HolderAgrees(s, w);
  }

  /** A ready job is claimed, read and embedded by w, once w is idle. */
  lemma {:induction false} ReadyReaches(s: State, w: nat, e: nat) returns (events: seq<Event>, t: State)
    requires Inv(s) && Ready(s, w, e)
    ensures Run(s, events, t) && CrashFree(events) && Reaches(t, e, s.enqueued[e])
    decreases StepsLeft(s.workers[w])
  {
    hide Inv, Run, Apply, Enabled;
    var v := if s.workers[w].Idle? then Claim(w, e) else NextStep(s, w);
    var rest;
    if s.workers[w].Idle? {
      ReadyIsClaimed(s, w, e);
      StepInv(s, v);
      rest, t := WillEmbedReaches(Apply(s, v), w, e);
    } else {
      StepStaysReady(s, w, e);
      StepInv(s, v);
      rest, t := ReadyReaches(Apply(s, v), w, e);
    }
    RunOne(s, v, Apply(s, v));
    RunJoin(s, [v], Apply(s, v), rest, t);
    events := [v] + rest;
  }

  lemma ReadyIsClaimed(s: State, w: nat, e: nat)
    requires Ready(s, w, e) && s.workers[w].Idle?
    ensures Enabled(s, Claim(w, e))
    ensures var u := Apply(s, Claim(w, e));
            WillEmbed(u, w, e) && w in u.workers && u.text == s.text && u.enqueued == s.enqueued
  {
  }

  /** An edit with a chance, while there is a worker, is embedded by some run without a crash. */
  lemma ChanceReaches(s: State, e: nat)
    requires Inv(s) && Stale(s, e) && HasChance(s, e) && s.workers != map[]
    ensures EmbedsUndisturbed(s, e)
  {
    hide Run, Apply, Enabled;
    var events, t;
    if w :| w in s.workers && WillEmbed(s, w, e) {
      events, t := WillEmbedReaches(s, w, e);
    } else {
      var w := ReadyWorker(s, e);
      events, t := ReadyReaches(s, w, e);
    }
  }

  lemma ReadyWorker(s: State, e: nat) returns (w: nat)
    requires Inv(s) && Stale(s, e) && HasChance(s, e) && s.workers != map[]
    requires forall w | w in s.workers :: !WillEmbed(s, w, e)
    ensures Ready(s, w, e)
  {
    assert Marked(s, e) && JobAccounted(s, e);
    if s.jobs[e].status.Pending? {
      w :| w in s.workers;
      assert HolderAgrees(s, w);
    } else {
      assert HasHolder(s, e);
      w :| w in s.workers && !s.workers[w].Idle? && s.workers[w].e == e;
    }
  }

  /** The version is not embedded, no worker is about to embed it, and the job is never claimed again. */
  ghost predicate Lost(s: State, e: nat, version: nat) {
    && e in s.jobs && (e in s.abandoned || s.jobs[e].attempts >= MAX_ATTEMPTS)
    && !Reaches(s, e, version)
    && forall w | w in s.workers ::
         var p := s.workers[w];
         p.Idle? || p.e != e || p.Wrote? || (p.Read? && (p.version.None? || p.version.value < version))
  }

  lemma LostStep(s: State, v: Event, e: nat, version: nat)
    requires Inv(s) && Lost(s, e, version) && Enabled(s, v)
    ensures Lost(Apply(s, v), e, version)
  {
    hide JobAccounted, Versions, Stale, Marked, Apply, Reaches, Enabled;
    LostKept(s, v, e, version);
  }

  lemma LostKept(s: State, v: Event, e: nat, version: nat)
    requires e in s.jobs && JobAccounted(s, e) && Lost(s, e, version) && Enabled(s, v)
    ensures Lost(Apply(s, v), e, version)
  {
    hide HasHolder;
    OthersKeep(s, v);
  }

  /** What is lost stays lost, whatever is edited, enqueued, claimed or deleted afterwards. */
  lemma {:induction false} LostForever(s: State, events: seq<Event>, t: State, e: nat, version: nat)
    requires Inv(s) && Lost(s, e, version) && Run(s, events, t)
    ensures Inv(t) && Lost(t, e, version)
    decreases |events|
  {
    hide Inv, Lost, Apply, Enabled;
    if events != [] {
      var before := events[..|events| - 1];
      var u :| Run(s, before, u) && Next(u, events[|events| - 1], t);
      LostForever(s, before, u, e, version);
      LostStep(u, events[|events| - 1], e, version);
      StepInv(u, events[|events| - 1]);
    }
  }

  lemma NoChanceIsLost(s: State, e: nat)
    requires Inv(s) && Stale(s, e) && !HasChance(s, e)
    ensures Lost(s, e, s.enqueued[e])
  {
    assert Marked(s, e);
    forall w | w in s.workers
      ensures var p := s.workers[w];
              p.Idle? || p.e != e || p.Wrote? || (p.Read? && (p.version.None? || p.version.value < s.enqueued[e]))
    {
      assert !WillEmbed(s, w, e);
    }
  }

  /**
   * Which edits are embedded: in every reachable state with a worker, some run embeds the last enqueued
   * edit of a stale entity if and only if a worker will embed it, or its job was not lost in a crash
   * and has an attempt left. Then some run does so without a crash.
   */
  lemma EmbedsLaterIff(s: State, events: seq<Event>, t: State, e: nat)
    requires Init(s) && Run(s, events, t) && forall x | x in s.text :: x !in s.deleted
    requires Stale(t, e) && t.workers != map[]
    ensures EmbedsLater(t, e) <==> HasChance(t, e)
    ensures EmbedsUndisturbed(t, e) <==> HasChance(t, e)
  {
    hide Inv, HasChance, Lost;
    RunInv(s, events, t);
    if HasChance(t, e) {
      ChanceReaches(t, e);
    } else {
      NoChanceIsLost(t, e);
      forall later, u | Run(t, later, u) ensures !Reaches(u, e, t.enqueued[e]) {
        LostForever(t, later, u, e, t.enqueued[e]);
        LostIsNotReached(u, e, t.enqueued[e]);
      }
    }
  }

  lemma LostIsNotReached(s: State, e: nat, version: nat)
    requires Lost(s, e, version)
    ensures !Reaches(s, e, version)
  {
  }

  /** An edit enqueued after the third attempt has read an older version marks its job dirty and is lost. */
  lemma LateEditIsLost(s: State, events: seq<Event>, t: State, w: nat, e: nat)
    requires Init(s) && Run(s, events, t) && forall x | x in s.text :: x !in s.deleted
    requires w in t.workers && t.workers[w].Read? && t.workers[w].e == e && t.workers[w].version.Some?
    requires e in t.text && e in t.enqueued && t.workers[w].version.value < t.enqueued[e]
    requires e in t.jobs && t.jobs[e].attempts == MAX_ATTEMPTS
    ensures Stale(t, e) && t.jobs[e].dirty && !EmbedsLater(t, e)
  {
    hide Run, HasHolder, Apply, Reaches, Enabled, CrashFree;
    RunInv(s, events, t);
    assert HolderAgrees(t, w);
    assert forall v | v in t.workers :: OneHolder(t, v, w);
    assert Marked(t, e);
    EmbedsLaterIff(s, events, t, e);
  }

  /**
   * When every worker is idle and none has crashed, an edit not embedded has a pending job, and can be
   * embedded if and only if the job has an attempt left.
   */
  lemma QuietMeansEmbedded(s: State, events: seq<Event>, t: State, e: nat)
    requires Init(s) && Run(s, events, t) && forall x | x in s.text :: x !in s.deleted
    requires (forall w | w in t.workers :: t.workers[w].Idle?) && t.abandoned == {} && t.workers != map[]
    requires e in t.text && e in t.enqueued
    ensures Reaches(t, e, t.enqueued[e]) ||
            (e in t.jobs && t.jobs[e].status.Pending? && (EmbedsLater(t, e) <==> t.jobs[e].attempts < MAX_ATTEMPTS))
  {
    RunInv(s, events, t);
    assert Versions(t, e) && JobAccounted(t, e);
    if Stale(t, e) {
      assert Marked(t, e);
      EmbedsLaterIff(s, events, t, e);
    }
  }

  /** No job is ever claimed more than three times, and no two workers hold one job. */
  lemma ClaimedAtMostThreeTimes(s: State, events: seq<Event>, t: State)
    requires Init(s) && Run(s, events, t) && forall x | x in s.text :: x !in s.deleted
    ensures forall e | e in t.jobs :: t.jobs[e].attempts <= MAX_ATTEMPTS
    ensures forall v, w | v in t.workers && w in t.workers && v != w && !t.workers[v].Idle? && !t.workers[w].Idle? ::
              t.workers[v].e != t.workers[w].e
  {
    RunInv(s, events, t);
    forall e | e in t.jobs ensures t.jobs[e].attempts <= MAX_ATTEMPTS {
      assert JobAccounted(t, e);
    }
    forall v, w | v in t.workers && w in t.workers && v != w && !t.workers[v].Idle? && !t.workers[w].Idle?
      ensures t.workers[v].e != t.workers[w].e
    {
      assert OneHolder(t, v, w);
    }
  }

  /** The job has used up its attempts and nobody holds it. */
  ghost predicate Exhausted(s: State, e: nat) {
    e in s.jobs && s.jobs[e].attempts >= MAX_ATTEMPTS && !HasHolder(s, e)
  }

  lemma ExhaustedStep(s: State, v: Event, e: nat)
    requires Exhausted(s, e) && Enabled(s, v)
    ensures Exhausted(Apply(s, v), e)
    ensures e in Apply(s, v).embedded <==> e in s.embedded
    ensures e in s.embedded ==> Apply(s, v).embedded[e] == s.embedded[e]
  {
    HoldersOf(s, v, e);
    if Actor(v).Some? && !s.workers[Actor(v).value].Idle? {
      assert s.workers[Actor(v).value].e != e;
    }
  }

  /**
   * An enqueue does not give a job its attempts back. Once they are used up its entity is never
   * embedded again, whatever is edited and enqueued afterwards.
   */
  lemma {:induction false} ExhaustedForever(s: State, events: seq<Event>, t: State, e: nat)
    requires Exhausted(s, e) && Run(s, events, t)
    ensures Exhausted(t, e)
    ensures e in t.embedded <==> e in s.embedded
    ensures e in s.embedded ==> t.embedded[e] == s.embedded[e]
    decreases |events|
  {
    if events != [] {
      var before := events[..|events| - 1];
      var u :| Run(s, before, u) && Next(u, events[|events| - 1], t);
      ExhaustedForever(s, before, u, e);
      ExhaustedStep(u, events[|events| - 1], e);
    }
  }

  /** Entity 0 embedded n times in a row by one worker, with n of n edits embedded. */
  function AfterCycles(n: nat): State {
    State(if n == 0 then map[] else map[0 := Job(Completed, n, false)], if n == 0 then map[] else map[0 := n], {},
          if n == 0 then map[] else map[0 := n], if n == 0 then map[] else map[0 := n], map[0 := Idle], {})
  }

  /** The state inside the next cycle. */
  function InCycle(n: nat, job: Job, phase: Phase, embedded: nat): State {
    State(map[0 := job], map[0 := n + 1], {}, map[0 := n + 1], if embedded == 0 then map[] else map[0 := embedded],
          map[0 := phase], {})
  }

  lemma CycleStarts(n: nat, u: State)
    requires n < MAX_ATTEMPTS + 1 && u == Apply(AfterCycles(n), Edit(0))
    ensures Next(u, Enqueue(0), InCycle(n, Job(Pending, n, false), Idle, n))
  {
  }

  lemma CycleClaims(n: nat)
    requires n < MAX_ATTEMPTS
    ensures Next(InCycle(n, Job(Pending, n, false), Idle, n), Claim(0, 0),
                 InCycle(n, Job(Processing, n + 1, false), Fresh(0), n))
    ensures Next(InCycle(n, Job(Processing, n + 1, false), Fresh(0), n), ReadEntity(0),
                 InCycle(n, Job(Processing, n + 1, false), Read(0, Some(n + 1)), n))
  {
  }

  lemma CycleEnds(n: nat)
    requires n < MAX_ATTEMPTS
    ensures Next(InCycle(n, Job(Processing, n + 1, false), Read(0, Some(n + 1)), n), Write(0),
                 InCycle(n, Job(Processing, n + 1, false), Wrote(0, Completed), n + 1))
    ensures Next(InCycle(n, Job(Processing, n + 1, false), Wrote(0, Completed), n + 1), Finish(0), AfterCycles(n + 1))
  {
  }

  lemma RunSnoc(s: State, events: seq<Event>, u: State, v: Event, t: State)
    requires Run(s, events, u) && Next(u, v, t)
    ensures Run(s, events + [v], t)
  {
    assert (events + [v])[..|events|] == events;
  }

  lemma {:induction false} Cycles(n: nat) returns (events: seq<Event>)
    requires n <= MAX_ATTEMPTS
    ensures Run(AfterCycles(0), events, AfterCycles(n))
  {
    if n == 0 {
      events := [];
    } else {
      var k := n - 1;
      events := Cycles(k);
      events := Started(AfterCycles(0), events, k);
      CycleClaims(k);
      CycleEnds(k);
      RunSnoc(AfterCycles(0), events, InCycle(k, Job(Pending, k, false), Idle, k), Claim(0, 0),
              InCycle(k, Job(Processing, n, false), Fresh(0), k));
      events := events + [Claim(0, 0)];
      RunSnoc(AfterCycles(0), events, InCycle(k, Job(Processing, n, false), Fresh(0), k), ReadEntity(0),
              InCycle(k, Job(Processing, n, false), Read(0, Some(n)), k));
      events := events + [ReadEntity(0)];
      RunSnoc(AfterCycles(0), events, InCycle(k, Job(Processing, n, false), Read(0, Some(n)), k), Write(0),
              InCycle(k, Job(Processing, n, false), Wrote(0, Completed), n));
      events := events + [Write(0)];
      RunSnoc(AfterCycles(0), events, InCycle(k, Job(Processing, n, false), Wrote(0, Completed), n), Finish(0),
              AfterCycles(n));
      events := events + [Finish(0)];
    }
  }

  lemma Started(s: State, events: seq<Event>, n: nat) returns (longer: seq<Event>)
    requires n <= MAX_ATTEMPTS && Run(s, events, AfterCycles(n))
    ensures Run(s, longer, InCycle(n, Job(Pending, n, false), Idle, n))
  {
    var u := Apply(AfterCycles(n), Edit(0));
    CycleStarts(n, u);
    RunSnoc(s, events, AfterCycles(n), Edit(0), u);
    RunSnoc(s, events + [Edit(0)], u, Enqueue(0), InCycle(n, Job(Pending, n, false), Idle, n));
    longer := events + [Edit(0)] + [Enqueue(0)];
  }

  lemma EditDuringAttempt(u: State, v: State, t: State)
    requires u == InCycle(2, Job(Processing, 3, false), Read(0, Some(3)), 2)
    requires v == u.(text := map[0 := 4])
    requires t == v.(jobs := map[0 := Job(Processing, 3, true)], enqueued := map[0 := 4])
    ensures Next(u, Edit(0), v) && Next(v, Enqueue(0), t)
  {
    assert u.text[0 := 4] == v.text && v.enqueued[0 := 4] == t.enqueued;
    assert v.jobs[0 := Job(Processing, 3, true)] == t.jobs;
  }

  /** An edit enqueued during the third attempt of an entity, without any crash, is embedded by no run. */
  lemma LateEditHappens()
    ensures exists s, events, t ::
              && Init(s) && Run(s, events, t) && t.abandoned == {}
              && Stale(t, 0) && !Exhausted(t, 0) && !EmbedsLater(t, 0)
  {
    hide Run, EmbedsLater, HasChance, Stale, Init, Next, Exhausted, AfterCycles;
    var s := AfterCycles(0);
    var events := Cycles(2);
    events := Started(s, events, 2);
    CycleClaims(2);
    RunSnoc(s, events, InCycle(2, Job(Pending, 2, false), Idle, 2), Claim(0, 0),
            InCycle(2, Job(Processing, 3, false), Fresh(0), 2));
    events := events + [Claim(0, 0)];
    var u := InCycle(2, Job(Processing, 3, false), Read(0, Some(3)), 2);
    RunSnoc(s, events, InCycle(2, Job(Processing, 3, false), Fresh(0), 2), ReadEntity(0), u);
    events := events + [ReadEntity(0)];
    var v := u.(text := map[0 := 4]);
    var t := v.(jobs := map[0 := Job(Processing, 3, true)], enqueued := map[0 := 4]);
    EditDuringAttempt(u, v, t);
    RunSnoc(s, events, u, Edit(0), v);
    events := events + [Edit(0)];
    RunSnoc(s, events, v, Enqueue(0), t);
    events := events + [Enqueue(0)];
    NothingAtFirst();
    HeldByReader(t);
    LateEditIsLost(s, events, t, 0, 0);
  }

  lemma NothingAtFirst()
    ensures Init(AfterCycles(0)) && AfterCycles(0).text == map[]
  {
  }

  lemma HeldByReader(t: State)
    requires 0 in t.workers && t.workers[0].Read? && t.workers[0].e == 0
    ensures !Exhausted(t, 0)
  {
  }

  lemma ThirdCycleIsExhausted(t: State)
    requires t == InCycle(3, Job(Pending, 3, false), Idle, 3)
    ensures Init(AfterCycles(0)) && Stale(t, 0) && Exhausted(t, 0) && !HasChance(t, 0) && t.workers != map[]
  {
    assert 0 in t.workers;
  }

  /** So after three embeddings of one entity, without any crash, no run embeds its next edit. */
  lemma FourthEditIsStuck()
    ensures exists s, events, t ::
              Init(s) && Run(s, events, t) && t.abandoned == {} && Stale(t, 0) && Exhausted(t, 0) && !EmbedsLater(t, 0)
  {
    hide EmbedsLater, HasHolder, HasChance, Exhausted, Init, Next, EmbedsUndisturbed;
    var events := Cycles(3);
    events := Started(AfterCycles(0), events, 3);
    var t := InCycle(3, Job(Pending, 3, false), Idle, 3);
    ThirdCycleIsExhausted(t);
    EmbedsLaterIff(AfterCycles(0), events, t, 0);
  }
}
