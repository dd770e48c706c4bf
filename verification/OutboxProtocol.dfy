/** Workers that claim, publish and settle outbox jobs, with crashes and the recovery of
    expired locks (internal/worker/outbox.go, internal/worker/recovery.go). Every SQL
    statement and every publish call is one step. */
module OutboxProtocol {
  import opened Core
  import opened RetryPolicies

  datatype Job = Job(
    status: JobStatus,
    attempts: int,
    availableAt: Instant,
    lockedAt: Option<Instant>,
    lockedBy: string,
    lastError: string,
    updatedAt: Instant)

  type Jobs = map<string, Job>

  // ---- Statements on the table ---------------------------------------------------

  predicate Claimable(job: Job, now: Instant) {
    (job.status.Pending? || job.status.Retry?) && job.availableAt <= now
  }

  /** The claim of a batch. Which claimable rows it picks depends on what other claims
      hold locked, so any of them may be picked, up to the limit. */
  function ClaimJobs(jobs: Jobs, worker: string, now: Instant, chosen: seq<string>): Jobs {
    map k | k in jobs :: if k in chosen
                         then jobs[k].(status := Running, lockedAt := Some(now), lockedBy := worker, updatedAt := now)
                         else jobs[k]
  }

  /** The settling update, guarded by the lock holder. */
  function SettleJob(jobs: Jobs, worker: string, id: string, now: Instant, status: JobStatus, lastError: string,
                     availableAt: Instant): Jobs
  {
    if id in jobs && jobs[id].lockedBy == worker then
      jobs[id := Job(status, jobs[id].attempts + 1, availableAt, None, "", lastError, now)]
    else jobs
  }

  predicate Expired(job: Job, policy: RetryPolicy, now: Instant) {
    job.status.Running? && job.lockedAt.Some? && job.lockedAt.value < now - policy.lockTimeout
  }

  function Recovered(job: Job, policy: RetryPolicy, now: Instant): Job {
    Job(if job.attempts >= policy.maximumAttempts then Failed else Retry, job.attempts, now, None, "",
        if job.lastError == "" then "worker lock expired" else job.lastError, now)
  }

  function RecoverJobs(jobs: Jobs, policy: RetryPolicy, now: Instant): Jobs {
    map k | k in jobs :: if Expired(jobs[k], policy, now) then Recovered(jobs[k], policy, now) else jobs[k]
  }

  /** The deletion of old delivered jobs, any of them up to the batch size. */
  predicate Deletable(job: Job, before: Instant) { job.status.Delivered? && job.updatedAt < before }

  // ---- The system ------------------------------------------------------------------

  /** How far a worker is with the job at the head of its batch: about to publish it,
      published it, failed to, or has also read the attempt number. */
  datatype Stage = Ready | Sent | Refused(error: string) | Counted(error: string, attempts: int)

  /** A worker inside RunOnce. The ticket of a job is how often it had been claimed when
      this worker claimed it. */
  datatype Worker = Worker(now: Instant, queue: seq<string>, stage: Stage, tickets: map<string, nat>)

  /** A successful publish call of a job, by which worker, under which claim. */
  datatype Success = Success(id: string, ticket: nat, worker: string)

  datatype System = System(
    jobs: Jobs,
    workers: map<string, Worker>,
    claims: map<string, nat>,        // how often each job was claimed
    publishes: map<string, nat>,     // how often Publish was called for it
    recoveries: map<string, nat>,    // how often an expired lock on it was recovered
    successes: set<Success>,
    settledBy: map<string, string>)  // whose settle last took effect

  const INITIAL := System(map[], map[], map[], map[], map[], {}, map[])

  datatype Action =
    | Enqueue(id: string, now: Instant)
    | Claim(worker: string, now: Instant, limit: int, chosen: seq<string>)
    | Publish(worker: string, failure: Option<string>)
    | CountAttempts(worker: string)
    | Settle(worker: string)
    | Recover(now: Instant)
    | Delete(before: Instant, limit: int, doomed: set<string>)
    | Crash(worker: string)

  const DEFAULT_BATCH := 20
  const DEFAULT_DELETION := 500

  predicate MayClaim(s: System, a: Action)
    requires a.Claim?
  {
    && a.worker != "" && a.worker !in s.workers && a.chosen != []
    && |a.chosen| <= (if a.limit <= 0 then DEFAULT_BATCH else a.limit)
    && NoRepeats(a.chosen)
    && forall id :: id in a.chosen ==> id in s.jobs && id in s.claims && Claimable(s.jobs[id], a.now)
  }

  function Bump(counts: map<string, nat>, ids: seq<string>): map<string, nat> {
    map k | k in counts :: if k in ids then counts[k] + 1 else counts[k]
  }

  function DoClaim(s: System, a: Action): System
    requires a.Claim? && MayClaim(s, a)
  {
    var claims := Bump(s.claims, a.chosen);
    s.(jobs := ClaimJobs(s.jobs, a.worker, a.now, a.chosen), claims := claims,
       workers := s.workers[a.worker := Worker(a.now, a.chosen, Ready, map id | id in claims && id in a.chosen :: claims[id])])
  }

  function DoPublish(s: System, w: string, failure: Option<string>): System
    requires w in s.workers && s.workers[w].queue != [] && s.workers[w].queue[0] in s.publishes && s.workers[w].queue[0] in s.workers[w].tickets
  {
    var batch := s.workers[w];
    var id := batch.queue[0];
    s.(publishes := s.publishes[id := s.publishes[id] + 1],
       successes := if failure.None? then s.successes + {Success(id, batch.tickets[id], w)} else s.successes,
       workers := s.workers[w := batch.(stage := if failure.None? then Sent else Refused(failure.value))])
  }

  /** Reading the attempt number finds no row when the lock was lost; RunOnce then gives
      up the rest of its batch. */
  function DoCount(s: System, w: string): System
    requires w in s.workers && s.workers[w].stage.Refused? && s.workers[w].queue != []
  {
    var batch := s.workers[w];
    var id := batch.queue[0];
    if id in s.jobs && s.jobs[id].lockedBy == w then
      s.(workers := s.workers[w := batch.(stage := Counted(batch.stage.error, s.jobs[id].attempts + 1))])
    else s.(workers := s.workers - {w})
  }

  function Advance(batch: Worker): Worker
    requires batch.queue != []
  {
    batch.(queue := batch.queue[1..], stage := Ready)
  }

  function DoSettle(s: System, policy: RetryPolicy, w: string): System
    requires w in s.workers && (s.workers[w].stage.Sent? || s.workers[w].stage.Counted?) && s.workers[w].queue != []
  {
    var batch := s.workers[w];
    var id := batch.queue[0];
    var jobs :=
      if batch.stage.Sent? then SettleJob(s.jobs, w, id, batch.now, Delivered, "", batch.now)
      else SettleJob(s.jobs, w, id, batch.now, policy.StatusAfterFailure(batch.stage.attempts), batch.stage.error,
                     batch.now + Backoff(policy, batch.stage.attempts, 0.5));
    s.(jobs := jobs,
       settledBy := if id in s.jobs && s.jobs[id].lockedBy == w then s.settledBy[id := w] else s.settledBy,
       workers := if |batch.queue| == 1 then s.workers - {w} else s.workers[w := Advance(batch)])
  }

  function DoRecover(s: System, policy: RetryPolicy, now: Instant): System {
    s.(jobs := RecoverJobs(s.jobs, policy, now),
       recoveries := map k | k in s.recoveries ::
                       if k in s.jobs && Expired(s.jobs[k], policy, now) then s.recoveries[k] + 1 else s.recoveries[k])
  }

  /** One step. An action that is not possible in the state changes nothing. */
  function Next(s: System, given: RetryPolicy, a: Action): System {
    var policy := given.Effective();
    match a
    case Enqueue(id, now) =>
      if id in s.claims then s
      else s.(jobs := s.jobs[id := Job(Pending, 0, now, None, "", "", now)], claims := s.claims[id := 0],
              publishes := s.publishes[id := 0], recoveries := s.recoveries[id := 0])
    case Claim(_, _, _, _) => if MayClaim(s, a) then DoClaim(s, a) else s
    case Publish(w, failure) =>
      if w in s.workers && s.workers[w].stage.Ready? && s.workers[w].queue != []
         && s.workers[w].queue[0] in s.publishes && s.workers[w].queue[0] in s.workers[w].tickets
      then DoPublish(s, w, failure) else s
    case CountAttempts(w) =>
      if w in s.workers && s.workers[w].stage.Refused? && s.workers[w].queue != [] then DoCount(s, w) else s
    case Settle(w) =>
      if w in s.workers && (s.workers[w].stage.Sent? || s.workers[w].stage.Counted?) && s.workers[w].queue != []
      then DoSettle(s, policy, w) else s
    case Recover(now) => DoRecover(s, policy, now)
    case Delete(before, limit, doomed) =>
      if (forall k :: k in doomed ==> k in s.jobs && Deletable(s.jobs[k], before))
         && |doomed| <= (if limit <= 0 then DEFAULT_DELETION else limit) && before != ZERO_INSTANT
      then s.(jobs := s.jobs - doomed) else s
    case Crash(w) => s.(workers := s.workers - {w})
  }

  function Run(policy: RetryPolicy, actions: seq<Action>): System {
    if actions == [] then INITIAL
    else Next(Run(policy, actions[..|actions| - 1]), policy, actions[|actions| - 1])
  }

  // ---- Invariant -------------------------------------------------------------------

  predicate JobOk(job: Job, policy: RetryPolicy) {
    && 0 <= job.attempts <= policy.maximumAttempts
    && (job.status.Pending? || job.status.Retry? || job.status.Running? ==> job.attempts < policy.maximumAttempts)
    && (job.status.Running? <==> job.lockedBy != "")
    && (job.status.Running? <==> job.lockedAt.Some?)
  }

  /** Every claim of a job ended in an attempt or in a recovery, or is still running. */
  predicate ClaimsAccounted(s: System, id: string)
    requires id in s.jobs
  {
    && id in s.claims && id in s.recoveries && id in s.publishes
    && s.claims[id] == s.jobs[id].attempts + s.recoveries[id] + (if s.jobs[id].status.Running? then 1 else 0)
  }

  /** A delivered job was published successfully, under its last claim, by the worker
      that settled it. */
  predicate DeliveryProven(s: System, id: string)
    requires id in s.jobs && id in s.claims
  {
    s.jobs[id].status.Delivered? ==> id in s.settledBy && Success(id, s.claims[id], s.settledBy[id]) in s.successes
  }

  predicate HoldsTicket(s: System, w: string, id: string)
    requires w in s.workers
  {
    id in s.workers[w].tickets && id in s.claims && id in s.publishes && s.workers[w].tickets[id] <= s.claims[id]
  }

  /** A worker that still holds the lock of a job in its batch holds its latest claim. */
  predicate LockIsCurrent(s: System, w: string, id: string)
    requires w in s.workers && HoldsTicket(s, w, id)
  {
    id in s.jobs && s.jobs[id].lockedBy == w ==> s.workers[w].tickets[id] == s.claims[id]
  }

  predicate StageOk(s: System, w: string)
    requires w in s.workers && s.workers[w].queue != [] && HoldsTicket(s, w, s.workers[w].queue[0])
  {
    var batch := s.workers[w];
    var id := batch.queue[0];
    match batch.stage
    case Sent => Success(id, batch.tickets[id], w) in s.successes
    case Counted(_, n) => id in s.jobs && s.jobs[id].lockedBy == w ==> n == s.jobs[id].attempts + 1
    case _ => true
  }

  predicate WorkerOk(s: System, w: string)
    requires w in s.workers
  {
    var batch := s.workers[w];
    && w != "" && batch.queue != [] && NoRepeats(batch.queue)
    && (forall id :: id in batch.queue ==> HoldsTicket(s, w, id) && LockIsCurrent(s, w, id))
    && HoldsTicket(s, w, batch.queue[0]) && StageOk(s, w)
  }

  ghost predicate JobsOk(s: System, policy: RetryPolicy) {
    && (forall id :: id in s.jobs ==> JobOk(s.jobs[id], policy) && ClaimsAccounted(s, id) && DeliveryProven(s, id))
    && s.publishes.Keys == s.claims.Keys
  }

  ghost predicate WorkersOk(s: System) {
    forall w :: w in s.workers ==> WorkerOk(s, w)
  }
}
