/**
 * The claim queue of the benchmark: many workers claim, complete and re-enqueue vision jobs. Every
 * store call is one step, and the invariants hold in every interleaving, with store errors.
 */
module VisionQueue {
  import opened Wrappers

  datatype Status = Pending | Processing | Completed

  /** `touched` is the job's updatedAt, by which the claim sorts. */
  datatype Job = Job(status: Status, attempts: nat, touched: nat)

  type Jobs = map<nat, Job>

  /** Lane `lane` of client process `process`. */
  datatype Worker = Worker(process: nat, lane: nat)

  /** Between two store calls of a worker: what it has done with the job it claimed. */
  datatype Phase =
    | Idle
    | Holding(job: nat)                 // claimed
    | Done(job: nat)                    // marked completed
    | Looked(job: nat, running: bool)   // looked the job up again; `running`: it was processing
    | Returning(job: nat)               // re-enqueued, but still listed as in flight

  datatype State = State(
    jobs: Jobs,
    workers: map<Worker, Phase>,
    abandoned: set<nat>,           // jobs whose worker lost them to a store error
    measuring: bool,
    pairs: seq<(nat, nat)>,        // (job, attempts after the claim), as recorded
    inFlight: set<(nat, nat)>,     // (process, job)
    doubleClaims: nat
  )

  /** A pending job that no other pending job was touched before. */
  predicate IsNext(jobs: Jobs, j: nat) {
    && j in jobs && jobs[j].status.Pending?
    && forall k | k in jobs && jobs[k].status.Pending? :: jobs[j].touched <= jobs[k].touched
  }

  function Claimed(jobs: Jobs, j: nat, now: nat): Jobs
    requires j in jobs
  {
    jobs[j := Job(Processing, jobs[j].attempts + 1, now)]
  }

  function WithStatus(jobs: Jobs, j: nat, status: Status, now: nat): Jobs
    requires j in jobs
  {
    jobs[j := Job(status, jobs[j].attempts, now)]
  }

  // --- the store calls -------------------------------------------------------------------------

  class Store {
    var jobs: Jobs

    constructor (initial: Jobs)
      ensures jobs == initial
    {
      jobs := initial;
    }

    /** findOneAndUpdate: the pending job touched longest ago becomes processing; null when there is none. */
    method ClaimVisionJob(now: nat) returns (claimed: Option<nat>)
      modifies this
      ensures claimed.None? ==> jobs == old(jobs) && forall k | k in jobs :: !jobs[k].status.Pending?
      ensures claimed.Some? ==>
                var j := claimed.value;
                && IsNext(old(jobs), j)
                && (forall k | k in old(jobs) && old(jobs)[k].status == Pending ::
                      old(jobs)[j].touched <= old(jobs)[k].touched)
                && jobs == old(jobs)[j := old(jobs)[j].(status := Processing, attempts := old(jobs)[j].attempts + 1,
                                                        touched := now)]
    {
      claimed := None;
      var rest := jobs.Keys;
      while rest != {}
        invariant rest <= jobs.Keys && jobs == old(jobs)
        invariant claimed.Some? ==> claimed.value in jobs && jobs[claimed.value].status.Pending?
        invariant forall k | k in jobs.Keys - rest && jobs[k].status.Pending? ::
                    claimed.Some? && jobs[claimed.value].touched <= jobs[k].touched
        decreases rest
      {
        var k :| k in rest;
        if jobs[k].status.Pending? && (claimed.None? || jobs[k].touched < jobs[claimed.value].touched) {
          claimed := Some(k);
        }
        rest := rest - {k};
      }
      if claimed.Some? {
        jobs := Claimed(jobs, claimed.value, now);
      }
    }

    method Complete(j: nat, now: nat)
      requires j in jobs
      modifies this
      ensures jobs == old(jobs)[j := old(jobs)[j].(status := Completed, touched := now)]
    {
      jobs := WithStatus(jobs, j, Completed, now);
    }

    method Requeue(j: nat, now: nat)
      requires j in jobs
      modifies this
      ensures jobs == old(jobs)[j := old(jobs)[j].(status := Pending, touched := now)]
    {
      jobs := WithStatus(jobs, j, Pending, now);
    }

    /** The three calls of a worker in a row, undisturbed: the job is pending again. */
    method CompleteAndRequeue(j: nat, now: nat)
      requires j in jobs
      modifies this
      ensures jobs == old(jobs)[j := old(jobs)[j].(status := Pending, touched := now)]
    {
      Complete(j, now);
      if jobs[j].status.Processing? {
        return;
      }
      Requeue(j, now);
    }
  }

  // --- steps -----------------------------------------------------------------------------------

  datatype Event =
    | Claim(w: Worker, j: nat, now: nat)   // findOneAndUpdate, then the bookkeeping of the worker
    | Empty(w: Worker)                     // it found nothing
    | Complete(w: Worker, now: nat)        // updateOne to completed
    | Look(w: Worker)                      // findOne
    | Requeue(w: Worker, now: nat)         // updateOne to pending
    | Skip(w: Worker)                      // the job looked up was processing
    | Return(w: Worker)                    // the worker forgets the job
    | Fail(w: Worker)                      // a store call threw before its effect
    | FailLate(w: Worker)                  // the re-enqueue threw after its effect
    | LostClaim(j: nat, now: nat)          // a claim threw after its effect
    | Measure(on: bool)

  ghost predicate Enabled(s: State, e: Event) {
    match e
    case Claim(w, j, now) => w in s.workers && s.workers[w].Idle? && IsNext(s.jobs, j)
    case Empty(w) => w in s.workers && s.workers[w].Idle? && forall k | k in s.jobs :: !s.jobs[k].status.Pending?
    case Complete(w, now) => w in s.workers && s.workers[w].Holding? && s.workers[w].job in s.jobs
    case Look(w) => w in s.workers && s.workers[w].Done? && s.workers[w].job in s.jobs
    case Requeue(w, now) => w in s.workers && s.workers[w].Looked? && !s.workers[w].running &&
          s.workers[w].job in s.jobs
    case Skip(w) => w in s.workers && s.workers[w].Looked? && s.workers[w].running
    case Return(w) => w in s.workers && s.workers[w].Returning?
    case Fail(w) => w in s.workers && Held(s.workers[w])
    case FailLate(w) => w in s.workers && s.workers[w].Returning?
    case LostClaim(j, now) => IsNext(s.jobs, j)
    case Measure(on) => true
  }

  /** The worker has claimed a job and not given it back. */
  predicate Held(p: Phase) {
    p.Holding? || p.Done? || p.Looked?
  }

  ghost function Apply(s: State, e: Event): State
    requires Enabled(s, e)
  {
    match e
    case Claim(w, j, now) =>
      var counted := s.measuring && (w.process, j) in s.inFlight;
      s.(jobs := Claimed(s.jobs, j, now),
         workers := s.workers[w := Holding(j)],
         pairs := if s.measuring then s.pairs + [(j, s.jobs[j].attempts + 1)] else s.pairs,
         inFlight := s.inFlight + {(w.process, j)},
         doubleClaims := s.doubleClaims + if counted then 1 else 0)
    case Empty(w) => s
    case Complete(w, now) =>
      var j := s.workers[w].job;
      s.(jobs := WithStatus(s.jobs, j, Completed, now), workers := s.workers[w := Done(j)])
    case Look(w) =>
      var j := s.workers[w].job;
      s.(workers := s.workers[w := Looked(j, s.jobs[j].status.Processing?)])
    case Requeue(w, now) =>
      var j := s.workers[w].job;
      s.(jobs := WithStatus(s.jobs, j, Pending, now), workers := s.workers[w := Returning(j)])
    case Skip(w) => s.(workers := s.workers[w := Returning(s.workers[w].job)])
    case Return(w) =>
      s.(workers := s.workers[w := Idle], inFlight := s.inFlight - {(w.process, s.workers[w].job)})
    case Fail(w) =>
      s.(workers := s.workers[w := Idle], abandoned := s.abandoned + {s.workers[w].job})
    case FailLate(w) => s.(workers := s.workers[w := Idle])
    case LostClaim(j, now) => s.(jobs := Claimed(s.jobs, j, now), abandoned := s.abandoned + {j})
    case Measure(on) => s.(measuring := on)
  }

  ghost predicate Next(s: State, e: Event, t: State) {
    Enabled(s, e) && t == Apply(s, e)
  }

  ghost predicate Init(s: State) {
    && (forall j | j in s.jobs :: s.jobs[j].status.Pending?)
    && (forall w | w in s.workers :: s.workers[w].Idle?)
    && s.abandoned == {} && s.pairs == [] && s.inFlight == {} && s.doubleClaims == 0
  }

  /** The events can happen one after the other, from s to t. */
  ghost predicate Run(s: State, events: seq<Event>, t: State) {
    if events == [] then s == t
    else
      var before := events[..|events| - 1];
      exists u :: Run(s, before, u) && Next(u, events[|events| - 1], t)
  }

  // --- the invariant ---------------------------------------------------------------------------

  ghost predicate HasHolder(s: State, j: nat) {
    exists w :: w in s.workers && Held(s.workers[w]) && s.workers[w].job == j
  }

  /** Phase by phase, the job a worker holds has the status the worker left it in. */
  ghost predicate PhaseAgrees(s: State, w: Worker)
    requires w in s.workers
  {
    var p := s.workers[w];
    && (Held(p) ==> p.job in s.jobs && p.job !in s.abandoned)
    && (p.Holding? ==> s.jobs[p.job].status.Processing?)
    && (p.Done? ==> s.jobs[p.job].status.Completed?)
    && (p.Looked? ==> s.jobs[p.job].status.Completed? && !p.running)
  }

  ghost predicate OneHolder(s: State, v: Worker, w: Worker)
    requires v in s.workers && w in s.workers
  {
    v != w && Held(s.workers[v]) && Held(s.workers[w]) ==> s.workers[v].job != s.workers[w].job
  }

  /** A job leaves `pending` only while a worker holds it, or for good when its worker lost it. */
  ghost predicate JobAccounted(s: State, j: nat)
    requires j in s.jobs
  {
    !s.jobs[j].status.Pending? <==> HasHolder(s, j) || j in s.abandoned
  }

  ghost predicate PairsFresh(s: State) {
    && (forall k | 0 <= k < |s.pairs| :: s.pairs[k].0 in s.jobs && s.pairs[k].1 <= s.jobs[s.pairs[k].0].attempts)
    && (forall k, l | 0 <= k < l < |s.pairs| :: s.pairs[k] != s.pairs[l])
  }

  ghost predicate Inv(s: State) {
    && (forall w | w in s.workers :: PhaseAgrees(s, w))
    && (forall v, w | v in s.workers && w in s.workers :: OneHolder(s, v, w))
    && (forall j | j in s.jobs :: JobAccounted(s, j))
    && PairsFresh(s)
  }

  lemma InitInv(s: State)
    requires Init(s)
    ensures Inv(s)
  {
  }

  /** The worker an event belongs to. */
  function Actor(e: Event): Option<Worker> {
    match e
    case Claim(w, _, _) => Some(w)
    case Empty(w) => Some(w)
    case Complete(w, _) => Some(w)
    case Look(w) => Some(w)
    case Requeue(w, _) => Some(w)
    case Skip(w) => Some(w)
    case Return(w) => Some(w)
    case Fail(w) => Some(w)
    case FailLate(w) => Some(w)
    case LostClaim(_, _) => None
    case Measure(_) => None
  }

  /** Only the actor starts or stops holding a job. */
  lemma HoldersOf(s: State, e: Event, j: nat)
    requires Inv(s) && Enabled(s, e)
    ensures var t := Apply(s, e);
            HasHolder(t, j) <==>
              (exists w :: w in s.workers && Some(w) != Actor(e) && Held(s.workers[w]) && s.workers[w].job == j)
              || (Actor(e).Some? && Held(t.workers[Actor(e).value]) && t.workers[Actor(e).value].job == j)
  {
    hide Inv;
    var t := Apply(s, e);
    assert forall w :: w in t.workers && Some(w) != Actor(e) ==> w in s.workers && t.workers[w] == s.workers[w];
    assert t.workers.Keys == s.workers.Keys;
  }

  lemma StepAccounts(s: State, e: Event, j: nat)
    requires Inv(s) && Enabled(s, e) && j in Apply(s, e).jobs
    ensures JobAccounted(Apply(s, e), j)
  {
    var t := Apply(s, e);
    HoldersOf(s, e, j);
    assert JobAccounted(s, j);
    if Actor(e).Some? {
      var w := Actor(e).value;
      assert PhaseAgrees(s, w);
      assert Held(s.workers[w]) ==> HasHolder(s, s.workers[w].job);
      forall v | v in s.workers && v != w ensures OneHolder(s, v, w) {
      }
    }
  }

  lemma StepPairs(s: State, e: Event)
    requires Inv(s) && Enabled(s, e)
    ensures PairsFresh(Apply(s, e))
  {
  }

  lemma StepPhases(s: State, e: Event, w: Worker)
    requires Inv(s) && Enabled(s, e) && w in s.workers
    ensures w in Apply(s, e).workers && PhaseAgrees(Apply(s, e), w)
  {
    assert PhaseAgrees(s, w);
    if Actor(e).Some? && Actor(e).value != w {
      assert OneHolder(s, Actor(e).value, w);
      assert Held(s.workers[w]) ==> HasHolder(s, s.workers[w].job);
      assert Held(s.workers[w]) ==> JobAccounted(s, s.workers[w].job);
      assert PhaseAgrees(s, Actor(e).value);
    }
  }

  lemma StepOneHolder(s: State, e: Event, v: Worker, w: Worker)
    requires Inv(s) && Enabled(s, e) && v in s.workers && w in s.workers
    requires v in Apply(s, e).workers && w in Apply(s, e).workers
    ensures OneHolder(Apply(s, e), v, w)
  {
    assert OneHolder(s, v, w) && PhaseAgrees(s, v) && PhaseAgrees(s, w);
    assert Held(s.workers[v]) ==> HasHolder(s, s.workers[v].job) && JobAccounted(s, s.workers[v].job);
    assert Held(s.workers[w]) ==> HasHolder(s, s.workers[w].job) && JobAccounted(s, s.workers[w].job);
  }

  /** Every step keeps the invariant. */
  lemma StepInv(s: State, e: Event)
    requires Inv(s) && Enabled(s, e)
    ensures Inv(Apply(s, e))
  {
    var t := Apply(s, e);
    assert t.workers.Keys == s.workers.Keys;
    forall w | w in t.workers ensures PhaseAgrees(t, w) {
      StepPhases(s, e, w);
    }
    forall v, w | v in t.workers && w in t.workers ensures OneHolder(t, v, w) {
      StepOneHolder(s, e, v, w);
    }
    forall j | j in t.jobs ensures JobAccounted(t, j) {
      StepAccounts(s, e, j);
    }
    StepPairs(s, e);
  }

  lemma {:induction false} RunInv(s: State, events: seq<Event>, t: State)
    requires Init(s) && Run(s, events, t)
    ensures Inv(t)
    decreases |events|
  {
    if events == [] {
      InitInv(s);
    } else {
      var before := events[..|events| - 1];
      var u :| Run(s, before, u) && Next(u, events[|events| - 1], t);
      RunInv(s, before, u);
      StepInv(u, events[|events| - 1]);
    }
  }

  // --- what the queue guarantees ---------------------------------------------------------------

  /** In every run no two workers hold the same job, and no (job, attempts) pair is recorded twice. */
  lemma NoDoubleClaim(s: State, events: seq<Event>, t: State)
    requires Init(s) && Run(s, events, t)
    ensures forall v, w | v in t.workers && w in t.workers && v != w && Held(t.workers[v]) && Held(t.workers[w]) ::
              t.workers[v].job != t.workers[w].job
    ensures forall k, l | 0 <= k < l < |t.pairs| :: t.pairs[k] != t.pairs[l]
  {
    RunInv(s, events, t);
    forall v, w | v in t.workers && w in t.workers && v != w && Held(t.workers[v]) && Held(t.workers[w])
      ensures t.workers[v].job != t.workers[w].job
    {
      assert OneHolder(t, v, w);
    }
  }

  /** The second look never finds the job processing: nobody can claim what is not pending. */
  lemma NeverSkips(s: State, events: seq<Event>, t: State, w: Worker)
    requires Init(s) && Run(s, events, t)
    ensures !Enabled(t, Skip(w))
  {
    RunInv(s, events, t);
    assert w in t.workers ==> PhaseAgrees(t, w);
  }

  /** When every worker is idle, a job is stuck exactly when a store error lost it. */
  lemma IdleMeansPending(s: State, events: seq<Event>, t: State, j: nat)
    requires Init(s) && Run(s, events, t) && j in t.jobs
    requires forall w | w in t.workers :: t.workers[w].Idle?
    ensures t.jobs[j].status.Pending? <==> j !in t.abandoned
  {
    RunInv(s, events, t);
    assert JobAccounted(t, j);
  }

  predicate IsFailure(e: Event) {
    e.Fail? || e.LostClaim?
  }

  lemma {:induction false} NothingLost(s: State, events: seq<Event>, t: State)
    requires Init(s) && Run(s, events, t)
    requires forall k | 0 <= k < |events| :: !IsFailure(events[k])
    ensures t.abandoned == {}
    decreases |events|
  {
    hide Enabled, Apply, IsFailure;
    if events != [] {
      var before := events[..|events| - 1];
      var u :| Run(s, before, u) && Next(u, events[|events| - 1], t);
      NothingLost(s, before, u);
      StepLosesNothing(u, events[|events| - 1]);
    }
  }

  lemma StepLosesNothing(s: State, e: Event)
    requires Enabled(s, e) && !IsFailure(e)
    ensures Apply(s, e).abandoned == s.abandoned
  {
  }

  /** Without store errors, once all workers are idle nothing is left claimed. */
  lemma NothingLeftClaimed(s: State, events: seq<Event>, t: State)
    requires Init(s) && Run(s, events, t)
    requires forall k | 0 <= k < |events| :: !IsFailure(events[k])
    requires forall w | w in t.workers :: t.workers[w].Idle?
    ensures forall j | j in t.jobs :: t.jobs[j].status.Pending?
  {
    NothingLost(s, events, t);
    forall j | j in t.jobs ensures t.jobs[j].status.Pending? {
      IdleMeansPending(s, events, t, j);
    }
  }

  lemma RunSnoc(s: State, events: seq<Event>, u: State, e: Event, t: State)
    requires Run(s, events, u) && Next(u, e, t)
    ensures Run(s, events + [e], t)
  {
    assert (events + [e])[..|events|] == events;
  }

  // --- the in-process counter ------------------------------------------------------------------

  /** No two of the workers are lanes of one process. */
  ghost predicate OneLaneEach(workers: set<Worker>) {
    forall a, b | a in workers && b in workers && a.process == b.process :: a == b
  }

  predicate NoLateFailure(events: seq<Event>) {
    forall k | 0 <= k < |events| :: !events[k].FailLate?
  }

  /** No store call threw. */
  predicate NoError(events: seq<Event>) {
    NoLateFailure(events) && forall k | 0 <= k < |events| :: !IsFailure(events[k])
  }

  /** A listed job is held or being returned by a lane of the process, or was lost to a store error. */
  ghost predicate ListAgrees(s: State) {
    forall f | f in s.inFlight ::
      f.1 in s.abandoned
      || exists w :: w in s.workers && w.process == f.0 && !s.workers[w].Idle? && s.workers[w].job == f.1
  }

  /** An idle lane finds no pending job on the list of its process, if it is the only lane. */
  lemma StepDoesNotCount(s: State, e: Event)
    requires Inv(s) && ListAgrees(s) && OneLaneEach(s.workers.Keys) && Enabled(s, e)
    ensures Apply(s, e).doubleClaims == s.doubleClaims
  {
    hide PhaseAgrees, OneHolder, PairsFresh;
    if e.Claim? {
      assert JobAccounted(s, e.j);
    }
  }

  lemma StepListAgrees(s: State, e: Event)
    requires Inv(s) && ListAgrees(s) && OneLaneEach(s.workers.Keys) && Enabled(s, e) && !e.FailLate?
    ensures ListAgrees(Apply(s, e)) && Apply(s, e).workers.Keys == s.workers.Keys
  {
    hide Inv;
    var t := Apply(s, e);
    forall f | f in t.inFlight && f.1 !in t.abandoned
      ensures exists w :: w in t.workers && w.process == f.0 && !t.workers[w].Idle? && t.workers[w].job == f.1
    {
      if f in s.inFlight {
        var v :| v in s.workers && v.process == f.0 && !s.workers[v].Idle? && s.workers[v].job == f.1;
        assert v in t.workers && !t.workers[v].Idle? && t.workers[v].job == f.1;
      } else {
        assert e.Claim? && e.w in t.workers;
      }
    }
  }

  lemma {:induction false} OneLaneCountsRight(s: State, events: seq<Event>, t: State)
    requires Init(s) && Run(s, events, t) && OneLaneEach(s.workers.Keys) && NoLateFailure(events)
    ensures t.doubleClaims == 0 && ListAgrees(t) && t.workers.Keys == s.workers.Keys
    decreases |events|
  {
    hide Enabled, Apply, Inv, HasHolder;
    if events != [] {
      var before := events[..|events| - 1];
      var u :| Run(s, before, u) && Next(u, events[|events| - 1], t);
      OneLaneCountsRight(s, before, u);
      RunInv(s, before, u);
      StepDoesNotCount(u, events[|events| - 1]);
      StepListAgrees(u, events[|events| - 1]);
    }
  }

  /** One job, and `lanes` all idle but for one, which is at `phase` in its cycle with it. */
  function OneBusy(lanes: map<Worker, Phase>, a: Worker, job: Job, phase: Phase, pairs: seq<(nat, nat)>): State {
    State(map[0 := job], lanes[a := phase], {}, true, pairs, if pairs == [] then {} else {(a.process, 0)}, 0)
  }

  /** The workers, all idle. */
  function AllIdle(workers: set<Worker>): map<Worker, Phase> {
    map w | w in workers :: Idle
  }

  lemma LaneClaims(lanes: map<Worker, Phase>, a: Worker)
    requires a in lanes && lanes[a].Idle?
    ensures Next(OneBusy(lanes, a, Job(Pending, 0, 0), Idle, []), Claim(a, 0, 1),
                 OneBusy(lanes, a, Job(Processing, 1, 1), Holding(0), [(0, 1)]))
  {
    assert lanes[a := Idle][a := Holding(0)] == lanes[a := Holding(0)];
  }

  lemma LaneCompletes(lanes: map<Worker, Phase>, a: Worker)
    ensures Next(OneBusy(lanes, a, Job(Processing, 1, 1), Holding(0), [(0, 1)]), Event.Complete(a, 2),
                 OneBusy(lanes, a, Job(Completed, 1, 2), Done(0), [(0, 1)]))
  {
    assert lanes[a := Holding(0)][a := Done(0)] == lanes[a := Done(0)];
  }

  lemma LaneLooks(lanes: map<Worker, Phase>, a: Worker)
    ensures Next(OneBusy(lanes, a, Job(Completed, 1, 2), Done(0), [(0, 1)]), Look(a),
                 OneBusy(lanes, a, Job(Completed, 1, 2), Looked(0, false), [(0, 1)]))
  {
    assert lanes[a := Done(0)][a := Looked(0, false)] == lanes[a := Looked(0, false)];
  }

  lemma LaneRequeues(lanes: map<Worker, Phase>, a: Worker)
    ensures Next(OneBusy(lanes, a, Job(Completed, 1, 2), Looked(0, false), [(0, 1)]), Event.Requeue(a, 3),
                 OneBusy(lanes, a, Job(Pending, 1, 3), Returning(0), [(0, 1)]))
  {
    assert lanes[a := Looked(0, false)][a := Returning(0)] == lanes[a := Returning(0)];
  }

  /** The re-enqueue threw after it had taken effect: the job stays on the list. */
  lemma LaneFailsLate(lanes: map<Worker, Phase>, a: Worker)
    ensures Next(OneBusy(lanes, a, Job(Pending, 1, 3), Returning(0), [(0, 1)]), FailLate(a),
                 OneBusy(lanes, a, Job(Pending, 1, 3), Idle, [(0, 1)]))
  {
    assert lanes[a := Returning(0)][a := Idle] == lanes[a := Idle];
  }

  /** An idle lane of the same process claims the job that is still on the list. */
  lemma ClaimIsCounted(lanes: map<Worker, Phase>, a: Worker, b: Worker, phase: Phase)
    requires b in lanes && a.process == b.process && lanes[a := phase][b].Idle?
    ensures var s := OneBusy(lanes, a, Job(Pending, 1, 3), phase, [(0, 1)]);
            Enabled(s, Claim(b, 0, 4)) && Apply(s, Claim(b, 0, 4)).doubleClaims == 1
  {
  }

  /** One cycle of a lane up to the point where its job is pending again but still on the list. */
  lemma Cycle(workers: set<Worker>, a: Worker) returns (s: State, events: seq<Event>, t: State)
    requires a in workers
    ensures Init(s) && s.workers.Keys == workers && Run(s, events, t) && NoError(events)
    ensures t == OneBusy(AllIdle(workers), a, Job(Pending, 1, 3), Returning(0), [(0, 1)])
  {
    hide Enabled, Apply;
    var lanes, listed := AllIdle(workers), [(0, 1)];
    s := OneBusy(lanes, a, Job(Pending, 0, 0), Idle, []);
    LaneClaims(lanes, a);
    LaneCompletes(lanes, a);
    LaneLooks(lanes, a);
    LaneRequeues(lanes, a);
    var s1 := OneBusy(lanes, a, Job(Processing, 1, 1), Holding(0), listed);
    var s2 := OneBusy(lanes, a, Job(Completed, 1, 2), Done(0), listed);
    var s3 := OneBusy(lanes, a, Job(Completed, 1, 2), Looked(0, false), listed);
    t := OneBusy(lanes, a, Job(Pending, 1, 3), Returning(0), listed);
    RunSnoc(s, [], s, Claim(a, 0, 1), s1);
    RunSnoc(s, [] + [Claim(a, 0, 1)], s1, Event.Complete(a, 2), s2);
    RunSnoc(s, [] + [Claim(a, 0, 1)] + [Event.Complete(a, 2)], s2, Look(a), s3);
    RunSnoc(s, [] + [Claim(a, 0, 1)] + [Event.Complete(a, 2)] + [Look(a)], s3, Event.Requeue(a, 3), t);
    events := [] + [Claim(a, 0, 1)] + [Event.Complete(a, 2)] + [Look(a)] + [Event.Requeue(a, 3)];
  }

  /** Two lanes of one process: without any store error, a job that is never held twice is counted. */
  lemma TwoLanesMiscount(workers: set<Worker>, a: Worker, b: Worker)
    returns (s: State, events: seq<Event>, t: State)
    requires a in workers && b in workers && a != b && a.process == b.process
    ensures Init(s) && s.workers.Keys == workers && Run(s, events, t) && NoError(events) && t.doubleClaims == 1
  {
    hide Enabled, Apply, Init, Run;
    var u;
    s, events, u := Cycle(workers, a);
    ClaimIsCounted(AllIdle(workers), a, b, Returning(0));
    t := Apply(u, Claim(b, 0, 4));
    RunSnoc(s, events, u, Claim(b, 0, 4), t);
    events := events + [Claim(b, 0, 4)];
  }

  /**
   * When the counter is right: with these workers, no run without store errors counts a double claim if
   * and only if no two of them are lanes of one process. There are no double claims to count in any run
   * (`NoDoubleClaim`). The same holds of the runs in which no re-enqueue throws after its effect.
   */
  lemma CounterRightIff(workers: set<Worker>)
    ensures OneLaneEach(workers) <==>
            forall s, events, t | Init(s) && s.workers.Keys == workers && Run(s, events, t) && NoError(events) ::
              t.doubleClaims == 0
    ensures OneLaneEach(workers) <==>
            forall s, events, t | Init(s) && s.workers.Keys == workers && Run(s, events, t) && NoLateFailure(events) ::
              t.doubleClaims == 0
  {
    hide Init, Run, NoError;
    if OneLaneEach(workers) {
      forall s, events, t | Init(s) && s.workers.Keys == workers && Run(s, events, t) && NoLateFailure(events)
        ensures t.doubleClaims == 0
      {
        OneLaneCountsRight(s, events, t);
      }
      NoErrorIsNoLateFailure();
    } else {
      var a, b :| a in workers && b in workers && a.process == b.process && a != b;
      var s, events, t := TwoLanesMiscount(workers, a, b);
      NoErrorIsNoLateFailure();
    }
  }

  lemma NoErrorIsNoLateFailure()
    ensures forall events | NoError(events) :: NoLateFailure(events)
  {
  }

  /** A single lane can count when its re-enqueue throws after it took effect, and nothing else fails. */
  lemma LateFailureMiscounts(workers: set<Worker>, a: Worker)
    requires a in workers
    ensures exists s, events, t ::
              && Init(s) && s.workers.Keys == workers && Run(s, events, t) && t.doubleClaims == 1
              && forall k | 0 <= k < |events| :: !IsFailure(events[k])
  {
    hide Enabled, Apply, Init, Run;
    var s, events, u := Cycle(workers, a);
    LaneFailsLate(AllIdle(workers), a);
    var v := OneBusy(AllIdle(workers), a, Job(Pending, 1, 3), Idle, [(0, 1)]);
    RunSnoc(s, events, u, FailLate(a), v);
    ClaimIsCounted(AllIdle(workers), a, a, Idle);
    RunSnoc(s, events + [FailLate(a)], v, Claim(a, 0, 4), Apply(v, Claim(a, 0, 4)));
  }
}
