/**
 * The embedding queue of the benchmark: edits enqueue a job per entity, workers claim, read, embed
 * and finish. `enqueueEmbedding` and `finishEmbeddingJob` are each two conditional updates.
 */
module EmbeddingQueue {
  import opened Wrappers

  datatype Status = Pending | Processing | Completed | Failed

  /** An entity's job. `dirty`: the entity was edited while the job was processing. */
  datatype Job = Job(status: Status, attempts: nat, dirty: bool)

  /** Jobs by entity; there is at most one per entity (a unique index). */
  type Jobs = map<nat, Job>

  const MAX_ATTEMPTS: nat := 3

  // --- the four conditional updates ------------------------------------------------------------

  /** First update of an enqueue: matches a processing job and marks it dirty. */
  function MarkDirty(job: Option<Job>): Option<Job> {
    if job.Some? && job.value.status.Processing? then Some(job.value.(dirty := true)) else None
  }

  /** Second update of an enqueue: pending, inserting the job when there is none. */
  function SetPending(job: Option<Job>): Job {
    match job
    case Some(j) => j.(status := Pending)
    case None => Job(Pending, 0, false)
  }

  /** First update of a finish: matches a dirty job and puts it back. */
  function RequeueDirty(job: Job): Option<Job> {
    if job.dirty then Some(job.(status := Pending, dirty := false)) else None
  }

  /** Second update of a finish: matches a job that is not dirty and gives it its last status. */
  function SetFinal(job: Job, status: Status): Job {
    if job.dirty then job else job.(status := status, dirty := false)
  }

  // --- enqueue and finish as single steps ------------------------------------------------------

  function Enqueued(job: Option<Job>): Job {
    match MarkDirty(job)
    case Some(j) => j
    case None => SetPending(job)
  }

  function Finished(job: Job, status: Status): Job {
    match RequeueDirty(job)
    case Some(j) => j
    case None => SetFinal(job, status)
  }

  predicate Claimable(job: Job) {
    job.status.Pending? && job.attempts < MAX_ATTEMPTS
  }

  function Claimed(job: Job): Job {
    job.(status := Processing, attempts := job.attempts + 1)
  }

  function Lookup(jobs: Jobs, e: nat): Option<Job> {
    if e in jobs then Some(jobs[e]) else None
  }

  /** The store calls of the queue, each update a read and a write of one document. */
  class Store {
    var jobs: Jobs

    constructor ()
      ensures jobs == map[]
    {
      jobs := map[];
    }

    method EnqueueEmbedding(e: nat)
      modifies this
      ensures jobs == old(jobs)[e := Enqueued(Lookup(old(jobs), e))]
      ensures jobs == old(jobs)[e := if e !in old(jobs) then Job(Pending, 0, false)
                                     else if old(jobs)[e].status == Processing then old(jobs)[e].(dirty := true)
                                     else old(jobs)[e].(status := Pending)]
    {
      var matched := false;
      if e in jobs && jobs[e].status.Processing? {
        jobs := jobs[e := jobs[e].(dirty := true)];
        matched := true;
      }
      if !matched {
        if e in jobs {
          jobs := jobs[e := jobs[e].(status := Pending)];
        } else {
          jobs := jobs[e := Job(Pending, 0, false)];
        }
      }
    }

    method FinishEmbeddingJob(e: nat, status: Status)
      requires e in jobs
      modifies this
      ensures jobs == old(jobs)[e := Finished(old(jobs)[e], status)]
      ensures jobs == old(jobs)[e := if old(jobs)[e].dirty then Job(Pending, old(jobs)[e].attempts, false)
                                     else Job(status, old(jobs)[e].attempts, false)]
    {
      var matched := false;
      if jobs[e].dirty {
        jobs := jobs[e := jobs[e].(status := Pending, dirty := false)];
        matched := true;
      }
      if !matched {
        if !jobs[e].dirty {
          jobs := jobs[e := jobs[e].(status := status, dirty := false)];
        }
      }
    }
  }

  // --- the gap between the two updates ---------------------------------------------------------

  /** A finish with a whole enqueue between its two updates. */
  function FinishAroundEnqueue(job: Job, status: Status): Job {
    match RequeueDirty(job)
    case Some(j) => Enqueued(Some(j))
    case None => SetFinal(Enqueued(Some(job)), status)
  }

  /**
   * An enqueue in the gap of a finish behaves like one before or after it exactly when the job was
   * dirty to begin with. Otherwise the job stays `processing` and dirty with no worker left to finish it.
   */
  lemma FinishGap(job: Job, status: Status)
    requires job.status.Processing? && !status.Processing? && !status.Pending?
    ensures job.dirty <==>
            FinishAroundEnqueue(job, status) in
              {Enqueued(Some(Finished(job, status))), Finished(Enqueued(Some(job)), status)}
    ensures !job.dirty ==> FinishAroundEnqueue(job, status) == job.(dirty := true)
    ensures job.dirty ==> FinishAroundEnqueue(job, status).status.Pending?
  {
  }

  /** An enqueue with a claim, when there is something to claim, between its two updates. */
  function EnqueueAroundClaim(job: Job): Job {
    match MarkDirty(Some(job))
    case Some(j) => if Claimable(j) then Claimed(j) else j
    case None => SetPending(Some(if Claimable(job) then Claimed(job) else job))
  }

  function ClaimedIfClaimable(job: Job): Job {
    if Claimable(job) then Claimed(job) else job
  }

  /**
   * A claim in the gap of an enqueue behaves like one before or after it exactly when there was
   * nothing to claim. Otherwise the claimed job goes back to `pending` under its worker.
   */
  lemma EnqueueGap(job: Job)
    ensures EnqueueAroundClaim(job) in
              {ClaimedIfClaimable(Enqueued(Some(job))), Enqueued(Some(ClaimedIfClaimable(job)))}
            <==> !Claimable(job)
    ensures Claimable(job) ==> EnqueueAroundClaim(job).status.Pending?
  {
  }
}
