/**
 * One entity's job with each of the four conditional updates as a step of its own: any number of enqueues
 * and workers, interleaved in any way. Says exactly which enqueued edits can still be embedded.
 */
module EmbeddingSteps {
  import opened Wrappers
  import opened EmbeddingQueue

  /** What a worker has done with the job. */
  datatype Phase =
    | Idle
    | Fresh                // claimed, the entity not read yet
    | Read(version: nat)
    | Wrote                // embedding written, neither update of the finish done
    | Passed               // the first update of the finish matched nothing

  datatype State = State(
    job: Option<Job>,
    text: nat,               // the version of the entity
    enqueued: nat,           // the version at the last enqueue, 0 before the first
    embedded: nat,           // the version the stored embedding was made from, 0 for none
    workers: map<nat, Phase>,
    waiting: set<nat>        // enqueues whose first update matched nothing
  )

  datatype Event =
    | Edit
    | Mark(i: nat)     // first update of an enqueue
    | Pend(i: nat)     // second update of an enqueue
    | Claim(w: nat)
    | ReadText(w: nat)
    | Write(w: nat)
    | Requeue(w: nat)  // first update of a finish
    | Finalize(w: nat) // second update of a finish
    | Crash(w: nat)

  predicate Enabled(s: State, e: Event) {
    match e
    case Edit => true
    case Mark(i) => i !in s.waiting
    case Pend(i) => i in s.waiting
    case Claim(w) => w in s.workers && s.workers[w].Idle? && s.job.Some? && Claimable(s.job.value)
    case ReadText(w) => w in s.workers && s.workers[w].Fresh?
    case Write(w) => w in s.workers && s.workers[w].Read?
    case Requeue(w) => w in s.workers && s.workers[w].Wrote? && s.job.Some?
    case Finalize(w) => w in s.workers && s.workers[w].Passed? && s.job.Some?
    case Crash(w) => w in s.workers && !s.workers[w].Idle?
  }

  function Apply(s: State, e: Event): State
    requires Enabled(s, e)
  {
    match e
    case Edit => s.(text := s.text + 1)
    case Mark(i) =>
      (match MarkDirty(s.job)
       case Some(j) => s.(job := Some(j), enqueued := s.text)
       case None => s.(waiting := s.waiting + {i}, enqueued := s.text))
    case Pend(i) => s.(job := Some(SetPending(s.job)), waiting := s.waiting - {i})
    case Claim(w) => s.(job := Some(Claimed(s.job.value)), workers := s.workers[w := Fresh])
    case ReadText(w) => s.(workers := s.workers[w := Read(s.text)])
    case Write(w) => s.(embedded := s.workers[w].version, workers := s.workers[w := Wrote])
    case Requeue(w) =>
      (match RequeueDirty(s.job.value)
       case Some(j) => s.(job := Some(j), workers := s.workers[w := Idle])
       case None => s.(workers := s.workers[w := Passed]))
    case Finalize(w) => s.(job := Some(SetFinal(s.job.value, Completed)), workers := s.workers[w := Idle])
    case Crash(w) => s.(workers := s.workers[w := Idle])
  }

  ghost predicate Run(s: State, events: seq<Event>, t: State)
    decreases |events|
  {
    if events == [] then s == t
    else Enabled(s, events[0]) && Run(Apply(s, events[0]), events[1..], t)
  }

  predicate Init(s: State) {
    && s.job == None && s.enqueued == s.embedded == 0 && s.waiting == {}
    && forall w | w in s.workers :: s.workers[w].Idle?
  }

  /** Versions are in order, and a worker has a job to work on. */
  predicate Sane(s: State) {
    && s.enqueued <= s.text && s.embedded <= s.text
    && forall w | w in s.workers ::
         (!s.workers[w].Idle? ==> s.job.Some?) && (s.workers[w].Read? ==> s.workers[w].version <= s.text)
  }

  lemma StepSane(s: State, e: Event)
    requires Sane(s) && Enabled(s, e)
    ensures Sane(Apply(s, e))
  {
  }

  lemma {:induction false} RunSane(s: State, events: seq<Event>, t: State)
    requires Sane(s) && Run(s, events, t)
    ensures Sane(t)
    decreases |events|
  {
    hide Sane, Apply, Enabled;
    if events != [] {
      StepSane(s, events[0]);
      RunSane(Apply(s, events[0]), events[1..], t);
    }
  }

  // --- when a job is stuck ---------------------------------------------------------------------

  /** The worker has yet to do the first update of its finish. */
  predicate Unfinished(p: Phase) {
    p.Fresh? || p.Read? || p.Wrote?
  }

  /** A worker that can still take the job out of `processing`. */
  predicate Frees(s: State, w: nat)
    requires s.job.Some?
  {
    w in s.workers && (Unfinished(s.workers[w]) || (s.workers[w].Passed? && !s.job.value.dirty))
  }

  /** The job is processing, and nobody is left to change that. */
  ghost predicate Stuck(s: State) {
    && s.job.Some? && s.job.value.status.Processing? && s.waiting == {}
    && forall w | w in s.workers :: !Frees(s, w)
  }

  /** Nothing frees a stuck job, not even another enqueue. */
  lemma StuckStays(s: State, e: Event)
    requires Stuck(s) && Enabled(s, e)
    ensures Stuck(Apply(s, e)) && Apply(s, e).job.value.attempts == s.job.value.attempts
  {
    var t := Apply(s, e);
    forall w | w in t.workers ensures !Frees(t, w) {
      assert !Frees(s, w);
      assert e.ReadText? || e.Write? || e.Requeue? || e.Finalize? ==> !Frees(s, e.w);
    }
  }

  /**
   * A job gets stuck in two ways only: the first update of an enqueue marks it dirty when every worker on it
   * has the first update of its finish behind it, or the last worker that could free it crashes.
   */
  lemma GetsStuckIff(s: State, e: Event)
    requires Enabled(s, e) && !Stuck(s)
    ensures Stuck(Apply(s, e)) <==>
            && s.job.Some? && s.job.value.status.Processing? && s.waiting == {}
            && (|| (e.Mark? && forall w | w in s.workers :: !Unfinished(s.workers[w]))
                || (e.Crash? && forall w | w in s.workers && w != e.w :: !Frees(s, w)))
  {
    var t := Apply(s, e);
    if s.job.Some? && s.job.value.status.Processing? && s.waiting == {} {
      var v :| v in s.workers && Frees(s, v);
      match e
      case Mark(_) => MarkGetsStuck(s, e);
      case Crash(x) =>
        forall w | w in s.workers && w != x ensures Frees(t, w) <==> Frees(s, w) {
        }
      case Edit => assert Frees(t, v);
      case Claim(_) =>
      case ReadText(w) => assert Frees(t, w);
      case Write(w) => assert Frees(t, w);
      case Requeue(w) => assert s.job.value.dirty || Frees(t, w);
      case Finalize(w) => assert !s.job.value.dirty || (v != w && Frees(t, v));
    } else {
      NotProcessing(s, e);
    }
  }

  lemma MarkGetsStuck(s: State, e: Event)
    requires Enabled(s, e) && e.Mark? && s.job.Some? && s.job.value.status.Processing? && s.waiting == {}
    ensures Stuck(Apply(s, e)) <==> forall w | w in s.workers :: !Unfinished(s.workers[w])
  {
    var t := Apply(s, e);
    forall w | w in s.workers ensures Frees(t, w) <==> Unfinished(s.workers[w]) {
    }
  }

  lemma NotProcessing(s: State, e: Event)
    requires Enabled(s, e) && !(s.job.Some? && s.job.value.status.Processing? && s.waiting == {})
    ensures !Stuck(Apply(s, e))
  {
    var t := Apply(s, e);
    if e.Claim? {
      assert Frees(t, e.w);
    }
  }

  // --- which edits are embedded ----------------------------------------------------------------

  predicate Reaches(s: State, version: nat) {
    s.embedded >= version
  }

  predicate WillEmbed(s: State, w: nat, version: nat) {
    w in s.workers && (s.workers[w].Fresh? || (s.workers[w].Read? && s.workers[w].version >= version))
  }

  predicate AttemptLeft(s: State) {
    s.job.Some? ==> s.job.value.attempts < MAX_ATTEMPTS
  }

  /** A worker will embed the last enqueued edit, or an attempt is left and the job is not stuck. */
  ghost predicate HasChance(s: State) {
    (exists w :: WillEmbed(s, w, s.enqueued)) || (AttemptLeft(s) && !Stuck(s))
  }

  /** Some run from here on embeds the last enqueued edit or a later one. */
  ghost predicate EmbedsLater(s: State) {
    exists events, t :: Run(s, events, t) && Reaches(t, s.enqueued)
  }

  lemma {:induction false} RunJoin(s: State, a: seq<Event>, u: State, b: seq<Event>, t: State)
    requires Run(s, a, u) && Run(u, b, t)
    ensures Run(s, a + b, t)
    decreases |a|
  {
    hide Apply, Enabled;
    if a == [] {
      assert a + b == b;
    } else {
      RunJoin(Apply(s, a[0]), a[1..], u, b, t);
      assert (a + b)[1..] == a[1..] + b;
    }
  }

  lemma RunOne(s: State, e: Event)
    requires Enabled(s, e)
    ensures Run(s, [e], Apply(s, e))
  {
    hide Apply, Enabled;
    assert [e][1..] == [];
  }

  function StepsLeft(p: Phase): nat {
    match p
    case Idle => 0
    case Fresh => 4
    case Read(_) => 3
    case Wrote => 2
    case Passed => 1
  }

  function NextStep(s: State, w: nat): Event
    requires w in s.workers && !s.workers[w].Idle?
  {
    match s.workers[w]
    case Fresh => ReadText(w)
    case Read(_) => Write(w)
    case Wrote => Requeue(w)
    case _ => Finalize(w)
  }

  /** Nothing but worker w, the embedding and the status has changed. */
  predicate OnlyWorker(s: State, t: State, w: nat) {
    && w in t.workers && w in s.workers && t.workers == s.workers[w := t.workers[w]]
    && t.text == s.text && t.enqueued == s.enqueued && t.waiting == s.waiting
    && (s.job.Some? <==> t.job.Some?) && (s.job.Some? ==> t.job.value.attempts == s.job.value.attempts)
    && (s.job.Some? && t.job.value.dirty ==> s.job.value.dirty)
  }

  lemma WorkerStep(s: State, w: nat)
    requires Sane(s) && w in s.workers && !s.workers[w].Idle?
    ensures Enabled(s, NextStep(s, w))
    ensures var t := Apply(s, NextStep(s, w));
            && OnlyWorker(s, t, w) && StepsLeft(t.workers[w]) < StepsLeft(s.workers[w])
            && (Frees(s, w) ==> Frees(t, w) || !t.job.value.status.Processing?)
            && (t.workers[w].Idle? && Frees(s, w) ==> !t.job.value.status.Processing?)
            && (!s.job.value.status.Processing? ==> !t.job.value.status.Processing?)
            && (WillPend(s, w) ==> WillPend(t, w))
  {
  }

  /** The worker puts a dirty job back, or the job is pending and the worker leaves it so. */
  predicate WillPend(s: State, w: nat) {
    && s.job.Some? && w in s.workers
    && (|| (s.job.value.dirty && (Unfinished(s.workers[w]) || s.job.value.status.Pending?))
        || (s.workers[w].Idle? && s.job.value.status.Pending?))
  }

  /** No enqueue begins, and no worker crashes. */
  predicate Unaided(events: seq<Event>) {
    forall e | e in events :: !e.Mark? && !e.Crash?
  }

  /** A worker that goes on alone becomes idle, and frees the job if it can. */
  lemma {:induction false} ToIdle(s: State, w: nat) returns (events: seq<Event>, t: State)
    requires Sane(s) && w in s.workers
    ensures Run(s, events, t) && Sane(t) && OnlyWorker(s, t, w) && t.workers[w].Idle?
    ensures s.job.Some? && (Frees(s, w) || !s.job.value.status.Processing?) ==> !t.job.value.status.Processing?
    ensures Unaided(events) && (WillPend(s, w) ==> t.job.Some? && t.job.value.status.Pending?)
    decreases StepsLeft(s.workers[w])
  {
    hide Apply, Enabled, Sane, Run, Frees;
    if s.workers[w].Idle? {
      events, t := [], s;
      RunNone(s);
      IdleFreesNothing(s, w);
    } else {
      var e := NextStep(s, w);
      WorkerStep(s, w);
      StepSane(s, e);
      var rest;
      rest, t := ToIdle(Apply(s, e), w);
      RunOne(s, e);
      RunJoin(s, [e], Apply(s, e), rest, t);
      events := [e] + rest;
    }
  }

  lemma RunNone(s: State)
    ensures Run(s, [], s)
  {
  }

  lemma IdleFreesNothing(s: State, w: nat)
    requires w in s.workers && s.workers[w].Idle?
    ensures s.job.Some? ==> !Frees(s, w)
  {
  }

  /** The job can be claimed by w, and versions have not gone back. */
  predicate Offered(s: State, t: State, w: nat) {
    && Sane(t) && t.job.Some? && Claimable(t.job.value) && w in t.workers && t.workers[w].Idle?
    && t.text >= s.text
  }

  /** An enqueue in flight or a new one puts a job that is not processing, or any waited for, back. */
  lemma Offer(s: State, w: nat) returns (events: seq<Event>, t: State)
    requires Sane(s) && AttemptLeft(s) && w in s.workers && s.workers[w].Idle?
    requires s.waiting != {} || s.job.None? || !s.job.value.status.Processing?
    ensures Run(s, events, t) && Offered(s, t, w)
  {
    hide Run;
    if i :| i in s.waiting {
      t := Apply(s, Pend(i));
      RunOne(s, Pend(i));
      events := [Pend(i)];
    } else {
      var u := Apply(s, Mark(0));
      t := Apply(u, Pend(0));
      RunOne(s, Mark(0));
      RunOne(u, Pend(0));
      RunJoin(s, [Mark(0)], u, [Pend(0)], t);
      events := [Mark(0)] + [Pend(0)];
    }
  }

  /** With an idle worker, a job that is not stuck can be offered. */
  lemma ToOffered(s: State, w: nat) returns (events: seq<Event>, t: State)
    requires Sane(s) && AttemptLeft(s) && !Stuck(s) && w in s.workers && s.workers[w].Idle?
    ensures Run(s, events, t) && Offered(s, t, w)
  {
    hide Run, Apply, Enabled, Sane;
    if s.waiting == {} && s.job.Some? && s.job.value.status.Processing? {
      var v :| v in s.workers && Frees(s, v);
      IdleFreesNothing(s, w);
      var first, u := ToIdle(s, v);
      var rest;
      rest, t := Offer(u, w);
      RunJoin(s, first, u, rest, t);
      events := first + rest;
    } else {
      events, t := Offer(s, w);
    }
  }

  /** A worker that will embed the version reads, if it has not yet, and writes. */
  lemma WillEmbedReaches(s: State, w: nat, version: nat) returns (events: seq<Event>, t: State)
    requires Sane(s) && WillEmbed(s, w, version) && version <= s.text
    ensures Run(s, events, t) && Reaches(t, version) && Unaided(events)
  {
    hide Run;
    if s.workers[w].Fresh? {
      var u := Apply(s, ReadText(w));
      t := Apply(u, Write(w));
      RunOne(s, ReadText(w));
      RunOne(u, Write(w));
      RunJoin(s, [ReadText(w)], u, [Write(w)], t);
      events := [ReadText(w)] + [Write(w)];
    } else {
      t := Apply(s, Write(w));
      RunOne(s, Write(w));
      events := [Write(w)];
    }
  }

  lemma OfferedReaches(s: State, t: State, w: nat, version: nat) returns (events: seq<Event>, u: State)
    requires Offered(s, t, w) && version <= s.text
    ensures Run(t, events, u) && Reaches(u, version) && Unaided(events)
  {
    hide Run;
    var v := Apply(t, Claim(w));
    StepSane(t, Claim(w));
    var rest;
    rest, u := WillEmbedReaches(v, w, version);
    RunOne(t, Claim(w));
    RunJoin(t, [Claim(w)], v, rest, u);
    events := [Claim(w)] + rest;
  }

  lemma ChanceReaches(s: State)
    requires Sane(s) && s.workers != map[] && HasChance(s)
    ensures EmbedsLater(s)
  {
    hide Run, Apply, Enabled, Stuck;
    if w :| WillEmbed(s, w, s.enqueued) {
      var events, t := WillEmbedReaches(s, w, s.enqueued);
    } else {
      var w :| w in s.workers;
      var first, u := ToIdle(s, w);
      StaysFree(s, u, w);
      var second, v := ToOffered(u, w);
      var third, t := OfferedReaches(u, v, w, s.enqueued);
      RunJoin(s, first, u, second, v);
      RunJoin(s, first + second, v, third, t);
    }
  }

  /** A worker that goes on alone does not get the job stuck. */
  lemma StaysFree(s: State, t: State, w: nat)
    requires !Stuck(s) && OnlyWorker(s, t, w)
    requires s.job.Some? && (Frees(s, w) || !s.job.value.status.Processing?) ==> !t.job.value.status.Processing?
    ensures !Stuck(t)
  {
    if s.job.Some? && s.job.value.status.Processing? && s.waiting == {} && !Frees(s, w) {
      var v :| v in s.workers && Frees(s, v);
      assert t.job.value.status.Processing? ==> Frees(t, v);
    }
  }

  /** Not embedded, about to be embedded by nobody, and never to be claimed again. */
  ghost predicate Lost(s: State, version: nat) {
    && !Reaches(s, version) && (forall w :: !WillEmbed(s, w, version)) && s.job.Some?
    && (Stuck(s) || s.job.value.attempts >= MAX_ATTEMPTS)
  }

  lemma LostStep(s: State, e: Event, version: nat)
    requires Lost(s, version) && Enabled(s, e)
    ensures Lost(Apply(s, e), version)
  {
    hide Stuck;
    var t := Apply(s, e);
    if Stuck(s) {
      StuckStays(s, e);
      NotClaimable(s);
    }
    forall w ensures !WillEmbed(t, w, version) {
      assert !WillEmbed(s, w, version);
    }
    if e.Write? {
      assert !WillEmbed(s, e.w, version);
    }
  }

  lemma NotClaimable(s: State)
    requires Stuck(s)
    ensures !Claimable(s.job.value)
  {
  }

  lemma {:induction false} LostForever(s: State, events: seq<Event>, t: State, version: nat)
    requires Lost(s, version) && Run(s, events, t)
    ensures Lost(t, version)
    decreases |events|
  {
    hide Lost, Apply, Enabled;
    if events != [] {
      LostStep(s, events[0], version);
      LostForever(Apply(s, events[0]), events[1..], t, version);
    }
  }

  /**
   * Which edits are embedded when the updates interleave: in every state that a run reaches, with a worker, the
   * last enqueued edit of a stale entity is embedded by some run if and only if a worker will embed it, or an
   * attempt is left and the job is not stuck.
   */
  lemma EmbedsLaterIff(s: State, events: seq<Event>, t: State)
    requires Init(s) && Run(s, events, t) && t.workers != map[] && t.embedded < t.enqueued
    ensures EmbedsLater(t) <==> HasChance(t)
  {
    hide Run, Apply, Enabled, Stuck, Sane;
    InitSane(s);
    RunSane(s, events, t);
    if HasChance(t) {
      ChanceReaches(t);
    } else {
      NoChanceIsLost(t);
      forall later, u | Run(t, later, u) ensures !Reaches(u, t.enqueued) {
        LostForever(t, later, u, t.enqueued);
      }
    }
  }

  lemma InitSane(s: State)
    requires Init(s)
    ensures Sane(s)
  {
  }

  lemma NoChanceIsLost(s: State)
    requires !HasChance(s) && s.embedded < s.enqueued
    ensures Lost(s, s.enqueued)
  {
    forall w ensures !WillEmbed(s, w, s.enqueued) {
    }
  }

  // --- which edits are embedded without another enqueue ------------------------------------------

  /** Some run without a new enqueue or a crash embeds the last enqueued edit. */
  ghost predicate EmbedsUnaided(s: State) {
    exists events, t :: Run(s, events, t) && Unaided(events) && Reaches(t, s.enqueued)
  }

  /** An enqueue is in flight, or the job waits for a worker and is not overwritten, or it will be put back. */
  ghost predicate WillBeOffered(s: State) {
    || s.waiting != {}
    || exists w :: WillPend(s, w)
  }

  ghost predicate HasUnaidedChance(s: State) {
    (exists w :: WillEmbed(s, w, s.enqueued)) || (AttemptLeft(s) && WillBeOffered(s))
  }

  lemma PendOffers(s: State, i: nat, w: nat)
    requires Sane(s) && AttemptLeft(s) && i in s.waiting && w in s.workers && s.workers[w].Idle?
    ensures Enabled(s, Pend(i)) && Offered(s, Apply(s, Pend(i)), w)
  {
  }

  lemma UnaidedChanceReaches(s: State)
    requires Sane(s) && s.workers != map[] && HasUnaidedChance(s)
    ensures EmbedsUnaided(s)
  {
    hide Run, Apply, Enabled, WillPend, Sane;
    assert s.enqueued <= s.text by { InOrder(s); }
    if v :| WillEmbed(s, v, s.enqueued) {
      var events, t := WillEmbedReaches(s, v, s.enqueued);
    } else if w :| WillPend(s, w) {
      assert w in s.workers by { PendIsWorker(s, w); }
      var first, u := ToIdle(s, w);
      var second, t := OfferedReaches(s, u, w, s.enqueued);
      RunJoin(s, first, u, second, t);
      assert Unaided(first + second);
    } else {
      var i :| i in s.waiting;
      var w :| w in s.workers;
      var first, u := ToIdle(s, w);
      PendOffers(u, i, w);
      RunOne(u, Pend(i));
      var third, t := OfferedReaches(u, Apply(u, Pend(i)), w, s.enqueued);
      RunJoin(s, first, u, [Pend(i)], Apply(u, Pend(i)));
      RunJoin(s, first + [Pend(i)], Apply(u, Pend(i)), third, t);
      assert Unaided(first + [Pend(i)] + third);
    }
  }

  lemma InOrder(s: State)
    requires Sane(s)
    ensures s.enqueued <= s.text
  {
  }

  lemma PendIsWorker(s: State, w: nat)
    requires WillPend(s, w)
    ensures w in s.workers && s.job.Some?
  {
  }

  /** Not embedded, about to be embedded by nobody, and not to be offered again without another enqueue. */
  ghost predicate Forgotten(s: State, version: nat) {
    && !Reaches(s, version) && (forall w :: !WillEmbed(s, w, version))
    && (!AttemptLeft(s) || !WillBeOffered(s))
  }

  lemma ForgottenStep(s: State, e: Event, version: nat)
    requires Sane(s) && Forgotten(s, version) && Enabled(s, e) && !e.Mark? && !e.Crash?
    ensures Forgotten(Apply(s, e), version)
  {
    var t := Apply(s, e);
    ClaimOrPendOffers(s, e);
    ReaderWillEmbed(s, e, version);
    forall w ensures !WillEmbed(t, w, version) {
      assert !WillEmbed(s, w, version);
    }
    if e.Write? {
      assert !WillEmbed(s, e.w, version);
    }
    if AttemptLeft(s) {
      forall w ensures !WillPend(t, w) {
        assert !WillPend(s, w);
        PendsBefore(s, e, w);
      }
    }
  }

  lemma ReaderWillEmbed(s: State, e: Event, version: nat)
    requires Enabled(s, e)
    ensures e.ReadText? ==> WillEmbed(s, e.w, version)
  {
  }

  /** A worker that will put the job back, or leaves it pending, would have done so before the step as well. */
  lemma PendsBefore(s: State, e: Event, w: nat)
    requires Enabled(s, e) && !e.Mark? && !e.Crash? && !e.Claim? && !e.Pend?
    ensures WillPend(Apply(s, e), w) ==> WillPend(s, w) || (e.Requeue? && WillPend(s, e.w))
  {
  }

  lemma ClaimOrPendOffers(s: State, e: Event)
    requires Enabled(s, e)
    ensures e.Claim? ==> AttemptLeft(s) && WillBeOffered(s)
    ensures e.Pend? ==> WillBeOffered(s)
  {
    if e.Claim? {
      assert WillPend(s, e.w);
    }
  }

  lemma {:induction false} ForgottenForever(s: State, events: seq<Event>, t: State, version: nat)
    requires Sane(s) && Forgotten(s, version) && Run(s, events, t) && Unaided(events)
    ensures Forgotten(t, version)
    decreases |events|
  {
    hide Forgotten, Apply, Enabled, Sane;
    if events != [] {
      assert events[0] in events;
      ForgottenStep(s, events[0], version);
      StepSane(s, events[0]);
      assert forall e | e in events[1..] :: e in events;
      ForgottenForever(Apply(s, events[0]), events[1..], t, version);
    }
  }

  /**
   * Which edits are embedded without another enqueue and without a crash: a worker will embed the edit, or an
   * attempt is left and an enqueue is in flight, or the job is pending with an idle worker, or it is dirty and
   * pending or held by a worker that will put it back. In particular a pending job that is not dirty, while
   * every worker is still busy with it, is overwritten by the first of them to finish.
   */
  lemma EmbedsUnaidedIff(s: State, events: seq<Event>, t: State)
    requires Init(s) && Run(s, events, t) && t.workers != map[] && t.embedded < t.enqueued
    ensures EmbedsUnaided(t) <==> HasUnaidedChance(t)
  {
    hide Run, Apply, Enabled, Sane, WillBeOffered;
    InitSane(s);
    RunSane(s, events, t);
    if HasUnaidedChance(t) {
      UnaidedChanceReaches(t);
    } else {
      forall later, u | Run(t, later, u) && Unaided(later) ensures !Reaches(u, t.enqueued) {
        ForgottenForever(t, later, u, t.enqueued);
      }
    }
  }

  // --- a run -----------------------------------------------------------------------------------

  /** Two edits; the second is enqueued between the two updates of the finish that embedded the first. */
  const IN_THE_GAP: seq<Event> :=
    [Edit, Mark(0), Pend(0), Claim(0), ReadText(0), Write(0), Requeue(0), Edit, Mark(0)]

  lemma RunTwo(s: State, e: Event, f: Event)
    requires Enabled(s, e) && Enabled(Apply(s, e), f)
    ensures Run(s, [e, f], Apply(Apply(s, e), f))
  {
    hide Apply, Enabled, Run;
    RunOne(s, e);
    RunOne(Apply(s, e), f);
    RunJoin(s, [e], Apply(s, e), [f], Apply(Apply(s, e), f));
    assert [e] + [f] == [e, f];
  }

  lemma FirstEdit(s: State, a: State, b: State)
    requires s == State(None, 0, 0, 0, map[0 := Idle], {}) && a == State(None, 1, 1, 0, map[0 := Idle], {0})
    requires b == State(Some(Job(Processing, 1, false)), 1, 1, 0, map[0 := Fresh], {})
    ensures Run(s, [Edit, Mark(0)], a) && Run(a, [Pend(0), Claim(0)], b)
  {
    hide Run;
    RunTwo(s, Edit, Mark(0));
    assert Apply(Apply(s, Edit), Mark(0)) == a;
    RunTwo(a, Pend(0), Claim(0));
    assert Apply(Apply(a, Pend(0)), Claim(0)) == b;
  }

  lemma Embedding(b: State, c: State, d: State)
    requires b == State(Some(Job(Processing, 1, false)), 1, 1, 0, map[0 := Fresh], {})
    requires c == b.(embedded := 1, workers := map[0 := Wrote]) && d == c.(workers := map[0 := Passed])
    ensures Run(b, [ReadText(0), Write(0)], c) && Run(c, [Requeue(0)], d)
  {
    hide Run;
    RunTwo(b, ReadText(0), Write(0));
    assert Apply(Apply(b, ReadText(0)), Write(0)) == c;
    RunOne(c, Requeue(0));
    assert Apply(c, Requeue(0)) == d;
  }

  lemma SecondEdit(d: State, t: State)
    requires d == State(Some(Job(Processing, 1, false)), 1, 1, 1, map[0 := Passed], {})
    requires t == State(Some(Job(Processing, 1, true)), 2, 2, 1, map[0 := Passed], {})
    ensures Run(d, [Edit, Mark(0)], t)
  {
    hide Run;
    RunTwo(d, Edit, Mark(0));
    assert Apply(Apply(d, Edit), Mark(0)) == t;
  }

  lemma GapRun(s: State, t: State)
    requires s == State(None, 0, 0, 0, map[0 := Idle], {})
    requires t == State(Some(Job(Processing, 1, true)), 2, 2, 1, map[0 := Passed], {})
    ensures Run(s, IN_THE_GAP, t)
  {
    hide Run, Apply, Enabled;
    var a := State(None, 1, 1, 0, map[0 := Idle], {0});
    var b := State(Some(Job(Processing, 1, false)), 1, 1, 0, map[0 := Fresh], {});
    var c := b.(embedded := 1, workers := map[0 := Wrote]);
    var d := c.(workers := map[0 := Passed]);
    FirstEdit(s, a, b);
    Embedding(b, c, d);
    SecondEdit(d, t);
    RunJoin(s, [Edit, Mark(0)], a, [Pend(0), Claim(0)], b);
    RunJoin(b, [ReadText(0), Write(0)], c, [Requeue(0)], d);
    var first, second := [Edit, Mark(0)] + [Pend(0), Claim(0)], [ReadText(0), Write(0)] + [Requeue(0)];
    RunJoin(s, first, b, second, d);
    RunJoin(s, first + second, d, [Edit, Mark(0)], t);
    assert IN_THE_GAP == first + second + [Edit, Mark(0)];
  }

  /** Without any crash and with two attempts left, an edit enqueued in the gap of a finish is embedded by no run. */
  lemma GapLosesEdit(s: State, t: State)
    requires s == State(None, 0, 0, 0, map[0 := Idle], {})
    requires t == State(Some(Job(Processing, 1, true)), 2, 2, 1, map[0 := Passed], {})
    ensures Init(s) && Run(s, IN_THE_GAP, t) && Stuck(t) && AttemptLeft(t) && !EmbedsLater(t)
  {
    hide Run, EmbedsLater;
    GapRun(s, t);
    assert !HasChance(t);
    assert 0 in t.workers;
    EmbedsLaterIff(s, IN_THE_GAP, t);
  }
}
