/** What each step writes into the rows of the outbox, and when a job is due again. */
module OutboxRows {
  import opened Core
  import opened RetryPolicies
  import opened OutboxProtocol
  import opened OutboxResults

  function RunFrom(s: System, given: RetryPolicy, actions: seq<Action>): System {
    if actions == [] then s
    else Next(RunFrom(s, given, actions[..|actions| - 1]), given, actions[|actions| - 1])
  }

  lemma {:induction false} RunFromKeepsInv(s: System, given: RetryPolicy, actions: seq<Action>)
    requires Inv(s, given)
    ensures Inv(RunFrom(s, given, actions), given)
  {
    if actions != [] {
      var front, a := actions[..|actions| - 1], actions[|actions| - 1];
      RunFromKeepsInv(s, given, front);
      StepKeepsInv(RunFrom(s, given, front), given, a);
    }
  }

  lemma StepKeepsInv(s: System, given: RetryPolicy, a: Action)
    requires Inv(s, given)
    ensures Inv(Next(s, given, a), given)
  {
    StepKeepsJobs(s, given, a);
    StepKeepsWorkers(s, given, a);
    StepBounded(s, given, a);
  }

  // ---- Rows --------------------------------------------------------------------------

  /** The wait after the n-th failure: the initial backoff doubled n - 1 times, at most 30
      times, and never more than the maximum. */
  function Wait(policy: RetryPolicy, n: int): Duration {
    var doubled := policy.initialBackoff * Pow2(if n <= 1 then 0 else if n > 31 then 30 else n - 1);
    if doubled <= policy.maximumBackoff then doubled else policy.maximumBackoff
  }

  /** The row of a job that was published or failed to be, in a batch claimed at an instant:
      one attempt more and unlocked, and either delivered, or due again after the wait, or
      given up with its last attempt. */
  ghost predicate SettledRow(before: Job, after: Job, policy: RetryPolicy, now: Instant, failure: Option<string>) {
    after ==
    match failure
    case None => Job(Delivered, before.attempts + 1, now, None, "", "", now)
    case Some(error) =>
      Job(if before.attempts + 1 >= policy.maximumAttempts then Failed else Retry, before.attempts + 1,
          now + Wait(policy, before.attempts + 1), None, "", error, now)
  }

  /** How a worker that has published, or failed to, came out of it. */
  function FailureOf(stage: Stage): Option<string>
    requires stage.Sent? || stage.Counted?
  {
    if stage.Sent? then None else Some(stage.error)
  }

  /** A settle writes the row of the job at the head of the batch if the worker still holds
      its lock, and no other row at all. */
  lemma SettleWrites(s: System, given: RetryPolicy, w: string)
    requires Inv(s, given) && w in s.workers
    requires s.workers[w].stage.Sent? || s.workers[w].stage.Counted?
    ensures s.workers[w].queue != []
    ensures
      var s', batch := Next(s, given, Settle(w)), s.workers[w];
      && s'.jobs.Keys == s.jobs.Keys
      && forall id :: id in s.jobs ==>
           if id == batch.queue[0] && s.jobs[id].lockedBy == w
           then SettledRow(s.jobs[id], s'.jobs[id], given.Effective(), batch.now, FailureOf(batch.stage))
           else s'.jobs[id] == s.jobs[id]
  {
    assert WorkerOk(s, w);
    var policy := given.Effective();
    SettleIsSettle(s, given, w);
    OthersUnsettled(s, policy, w);
    var head := s.workers[w].queue[0];
    if head in s.jobs && s.jobs[head].lockedBy == w {
      HeadWritten(s, policy, w);
    }
  }

  lemma SettleIsSettle(s: System, given: RetryPolicy, w: string)
    requires w in s.workers && s.workers[w].queue != [] && (s.workers[w].stage.Sent? || s.workers[w].stage.Counted?)
    ensures Next(s, given, Settle(w)) == DoSettle(s, given.Effective(), w)
  {
  }

  lemma OthersUnsettled(s: System, policy: RetryPolicy, w: string)
    requires w in s.workers && s.workers[w].queue != [] && (s.workers[w].stage.Sent? || s.workers[w].stage.Counted?)
    ensures
      var jobs, head := DoSettle(s, policy, w).jobs, s.workers[w].queue[0];
      && jobs.Keys == s.jobs.Keys
      && forall id :: id in s.jobs && !(id == head && s.jobs[id].lockedBy == w) ==> jobs[id] == s.jobs[id]
  {
  }

  lemma HeadWritten(s: System, policy: RetryPolicy, w: string)
    requires policy.Valid() && w in s.workers && WorkerOk(s, w)
    requires s.workers[w].stage.Sent? || s.workers[w].stage.Counted?
    requires var head := s.workers[w].queue[0]; head in s.jobs && s.jobs[head].lockedBy == w
    ensures
      var batch, jobs := s.workers[w], DoSettle(s, policy, w).jobs;
      var head := batch.queue[0];
      && jobs.Keys == s.jobs.Keys
      && SettledRow(s.jobs[head], jobs[head], policy, batch.now, FailureOf(batch.stage))
  {
    var batch := s.workers[w];
    assert StageOk(s, w);
    if batch.stage.Counted? {
      WaitIsBackoff(policy, batch.stage.attempts);
    }
  }

  lemma WaitIsBackoff(policy: RetryPolicy, n: int)
    requires policy.Valid()
    ensures Backoff(policy, n, 0.5) == Wait(policy, n)
  {
    WorkerBackoff(policy, n, n);
  }

  /** A claim takes only jobs that are pending or to be retried and due, at most the limit
      (twenty unless one is given), and locks exactly these for the worker. */
  lemma ClaimWrites(s: System, given: RetryPolicy, w: string, now: Instant, limit: int, chosen: seq<string>)
    requires Inv(s, given)
    ensures
      var s' := Next(s, given, Claim(w, now, limit, chosen));
      if TakesBatch(s, w, now, limit, chosen) then
        && w in s'.workers && s'.workers[w].now == now && s'.workers[w].queue == chosen && s'.workers[w].stage == Ready
        && ChosenLocked(s.jobs, s'.jobs, w, now, chosen)
      else s' == s
  {
    assert forall id :: id in s.jobs ==> ClaimsAccounted(s, id);
    ClaimIff(s, w, now, limit, chosen);
    if MayClaim(s, Claim(w, now, limit, chosen)) {
      ChosenAreLocked(s, given, w, now, limit, chosen);
    }
  }

  ghost predicate TakesBatch(s: System, w: string, now: Instant, limit: int, chosen: seq<string>) {
    && w != "" && w !in s.workers && chosen != [] && NoRepeats(chosen)
    && |chosen| <= (if limit > 0 then limit else 20)
    && forall id :: id in chosen ==> id in s.jobs && s.jobs[id].status in {Pending, Retry} && s.jobs[id].availableAt <= now
  }

  ghost predicate ChosenLocked(jobs: Jobs, jobs': Jobs, w: string, now: Instant, chosen: seq<string>) {
    && jobs'.Keys == jobs.Keys
    && forall id :: id in jobs ==>
         jobs'[id] == if id in chosen
                      then Job(Running, jobs[id].attempts, jobs[id].availableAt, Some(now), w, jobs[id].lastError, now)
                      else jobs[id]
  }

  lemma ClaimIff(s: System, w: string, now: Instant, limit: int, chosen: seq<string>)
    requires forall id :: id in s.jobs ==> id in s.claims
    ensures MayClaim(s, Claim(w, now, limit, chosen)) <==> TakesBatch(s, w, now, limit, chosen)
  {
  }

  lemma ChosenAreLocked(s: System, given: RetryPolicy, w: string, now: Instant, limit: int, chosen: seq<string>)
    requires MayClaim(s, Claim(w, now, limit, chosen))
    ensures
      var s' := Next(s, given, Claim(w, now, limit, chosen));
      && w in s'.workers && s'.workers[w].now == now && s'.workers[w].queue == chosen && s'.workers[w].stage == Ready
      && ChosenLocked(s.jobs, s'.jobs, w, now, chosen)
  {
  }

  /** What a claim does not take stays. */
  lemma NotTaken(s: System, given: RetryPolicy, a: Action, id: string)
    requires a.Claim? && id in s.jobs && id in s.claims && !(id in a.chosen && Claimable(s.jobs[id], a.now))
    ensures Untouched(s, Next(s, given, a), id)
  {
    if MayClaim(s, a) {
      assert Next(s, given, a) == DoClaim(s, a);
    }
  }

  /** A recovery takes exactly the locks that are older than the lock timeout, and makes
      their jobs due at once without counting an attempt. */
  lemma RecoverWrites(s: System, given: RetryPolicy, now: Instant)
    requires Inv(s, given)
    ensures
      var s' := Next(s, given, Recover(now));
      && s'.jobs.Keys == s.jobs.Keys && s'.workers == s.workers
      && forall id :: id in s.jobs ==>
           var job := s.jobs[id];
           s'.jobs[id] ==
           if job.status.Running? && job.lockedAt.Some? && job.lockedAt.value + given.Effective().lockTimeout < now
           then Job(Retry, job.attempts, now, None, "", if job.lastError == "" then "worker lock expired" else job.lastError, now)
           else job
  {
    forall id | id in s.jobs
      ensures JobOk(s.jobs[id], given.Effective())
    {
    }
  }

  /** A deletion removes delivered jobs not touched since the instant, at most the limit
      (five hundred unless one is given). */
  lemma DeleteWrites(s: System, given: RetryPolicy, before: Instant, limit: int, doomed: set<string>)
    ensures
      var s' := Next(s, given, Delete(before, limit, doomed));
      s'.jobs ==
      if && before != 0 && |doomed| <= (if limit > 0 then limit else 500)
         && (forall id :: id in doomed ==> id in s.jobs && s.jobs[id].status == Delivered && s.jobs[id].updatedAt < before)
      then map id | id in s.jobs && id !in doomed :: s.jobs[id]
      else s.jobs
  {
  }

  /** A new job is pending, due at once, without attempts or lock. */
  lemma EnqueueWrites(s: System, given: RetryPolicy, id: string, now: Instant)
    ensures
      Next(s, given, Enqueue(id, now)).jobs ==
      if id in s.claims then s.jobs else s.jobs[id := Job(Pending, 0, now, None, "", "", now)]
  {
  }

  /** Publish calls, the reading of an attempt number and crashes write no row; a crash ends
      the worker and nothing else. */
  lemma OthersWriteNothing(s: System, given: RetryPolicy, a: Action)
    requires a.Publish? || a.CountAttempts? || a.Crash?
    ensures Next(s, given, a).jobs == s.jobs
    ensures a.Crash? ==> Next(s, given, a) == s.(workers := map w | w in s.workers && w != a.worker :: s.workers[w])
  {
  }

  // ---- When a job is due, and how long a lock lasts --------------------------------------

  /** Not a claim of the job, or one that comes before the job is due. */
  predicate Premature(a: Action, id: string, due: Instant) {
    a.Claim? && id in a.chosen ==> a.now < due
  }

  predicate Waiting(s: System, id: string) {
    id in s.jobs && id in s.claims && (s.jobs[id].status.Pending? || s.jobs[id].status.Retry?)
  }

  /** The job has the same row, and has been claimed as often. */
  predicate Untouched(s: System, s': System, id: string)
    requires id in s.jobs && id in s.claims
  {
    id in s'.jobs && s'.jobs[id] == s.jobs[id] && id in s'.claims && s'.claims[id] == s.claims[id]
  }

  /** A job that is not delivered stays whatever else goes on than claims, settles and
      recoveries. */
  lemma BystanderStays(s: System, given: RetryPolicy, a: Action, id: string)
    requires !a.Claim? && !a.Settle? && !a.Recover?
    requires id in s.jobs && id in s.claims && !s.jobs[id].status.Delivered?
    ensures Untouched(s, Next(s, given, a), id)
  {
    match a
    case Enqueue(_, _) =>
    case Delete(_, _, _) =>
    case Crash(_) =>
    case _ => OthersWriteNothing(s, given, a);
  }

  /** A job that waits to be claimed stays as it is until a claim at or after the instant
      it is due. */
  lemma WaitingStays(s: System, given: RetryPolicy, a: Action, id: string)
    requires Inv(s, given) && Waiting(s, id) && Premature(a, id, s.jobs[id].availableAt)
    ensures Untouched(s, Next(s, given, a), id)
  {
    assert JobOk(s.jobs[id], given.Effective()) && ClaimsAccounted(s, id);
    match a
    case Claim(_, _, _, _) => NotTaken(s, given, a, id);
    case Recover(now) => RecoverWrites(s, given, now);
    case Settle(w) =>
      if w in s.workers {
        assert WorkerOk(s, w);
        RivalSettles(s, given, w, id);
      }
    case _ => BystanderStays(s, given, a, id);
  }

  /** Whatever happens, a job that waits is not claimed earlier than it is due: a run whose
      claims of it all come earlier leaves its row alone and its claims uncounted. */
  lemma {:induction false} NeverClaimedEarly(s: System, given: RetryPolicy, actions: seq<Action>, id: string)
    requires Inv(s, given) && Waiting(s, id)
    requires forall a :: a in actions ==> Premature(a, id, s.jobs[id].availableAt)
    ensures Untouched(s, RunFrom(s, given, actions), id)
  {
    if actions != [] {
      var front, a := actions[..|actions| - 1], actions[|actions| - 1];
      assert a in actions && forall x :: x in front ==> x in actions;
      NeverClaimedEarly(s, given, front, id);
      RunFromKeepsInv(s, given, front);
      WaitingStays(RunFrom(s, given, front), given, a, id);
    }
  }

  /** The worker is about to settle a failed publish of the job, and still holds its lock. */
  predicate AboutToRetry(s: System, w: string, id: string) {
    && w in s.workers && s.workers[w].stage.Counted? && s.workers[w].queue != []
    && s.workers[w].queue[0] == id && id in s.jobs && s.jobs[id].lockedBy == w
  }

  lemma RetryRow(s: System, given: RetryPolicy, w: string, id: string)
    requires Inv(s, given) && AboutToRetry(s, w, id)
    requires s.jobs[id].attempts + 1 < given.Effective().maximumAttempts
    ensures
      var s' := Next(s, given, Settle(w));
      && Inv(s', given) && Waiting(s', id)
      && s'.jobs[id].availableAt == s.workers[w].now + Wait(given.Effective(), s.jobs[id].attempts + 1)
      && s'.jobs[id].attempts == s.jobs[id].attempts + 1
  {
    SettleWrites(s, given, w);
    StepKeepsInv(s, given, Settle(w));
    StaysCounted(Next(s, given, Settle(w)), given, id);
  }

  lemma StaysCounted(s: System, given: RetryPolicy, id: string)
    requires Inv(s, given) && id in s.jobs
    ensures id in s.claims
  {
    assert ClaimsAccounted(s, id);
  }

  /** After a failed publish that is not the last one allowed, the job is not claimed again
      until the wait for its attempts is over. */
  lemma FailedPublishWaits(given: RetryPolicy, actions: seq<Action>, w: string, id: string, later: seq<Action>)
    requires AboutToRetry(Run(given, actions), w, id)
    requires Run(given, actions).jobs[id].attempts + 1 < given.Effective().maximumAttempts
    requires forall a :: a in later ==> Premature(a, id, RetryAt(Run(given, actions), given, w, id))
    ensures RetriedNoEarlier(Run(given, actions), given, w, id, later)
  {
    RunKeepsInv(given, actions);
    RetriesNoEarlier(Run(given, actions), given, w, id, later);
  }

  /** The instant of the batch plus the wait for one attempt more. */
  function RetryAt(s: System, given: RetryPolicy, w: string, id: string): Instant
    requires AboutToRetry(s, w, id)
  {
    s.workers[w].now + Wait(given.Effective(), s.jobs[id].attempts + 1)
  }

  ghost predicate RetriedNoEarlier(s: System, given: RetryPolicy, w: string, id: string, later: seq<Action>) {
    var settled := Next(s, given, Settle(w));
    id in settled.jobs && id in settled.claims && Untouched(settled, RunFrom(settled, given, later), id)
  }

  lemma RetriesNoEarlier(s: System, given: RetryPolicy, w: string, id: string, later: seq<Action>)
    requires Inv(s, given) && AboutToRetry(s, w, id)
    requires s.jobs[id].attempts + 1 < given.Effective().maximumAttempts
    requires forall a :: a in later ==> Premature(a, id, RetryAt(s, given, w, id))
    ensures RetriedNoEarlier(s, given, w, id, later)
  {
    RetryRow(s, given, w, id);
    NeverClaimedEarly(Next(s, given, Settle(w)), given, later, id);
  }

  /** Neither the settle of the holder nor a recovery later than the instant. */
  predicate Respects(a: Action, holder: string, until: Instant) {
    a != Settle(holder) && (a.Recover? ==> a.now <= until)
  }

  predicate Locked(s: System, id: string) {
    id in s.jobs && s.jobs[id].status.Running? && s.jobs[id].lockedAt.Some?
  }

  function LockEnd(job: Job, given: RetryPolicy): Instant
    requires job.lockedAt.Some?
  {
    job.lockedAt.value + given.Effective().lockTimeout
  }

  /** A lock holds at least as long as the lock timeout: the row of a running job stays as
      it is until its holder settles it or a recovery comes later than that. */
  lemma LockedStays(s: System, given: RetryPolicy, a: Action, id: string)
    requires Inv(s, given) && Locked(s, id)
    requires Respects(a, s.jobs[id].lockedBy, LockEnd(s.jobs[id], given))
    ensures var s' := Next(s, given, a);
            id in s'.jobs && s'.jobs[id] == s.jobs[id]
  {
    assert JobOk(s.jobs[id], given.Effective()) && ClaimsAccounted(s, id);
    match a
    case Claim(_, _, _, _) => NotTaken(s, given, a, id);
    case Recover(now) => RecoverWrites(s, given, now);
    case Settle(w) => RivalSettles(s, given, w, id);
    case _ => BystanderStays(s, given, a, id);
  }

  lemma RivalSettles(s: System, given: RetryPolicy, w: string, id: string)
    requires id in s.jobs && s.jobs[id].lockedBy != w
    ensures var jobs := Next(s, given, Settle(w)).jobs;
            id in jobs && jobs[id] == s.jobs[id]
  {
    var policy := given.Effective();
    if Next(s, given, Settle(w)) != s {
      OthersUnsettled(s, policy, w);
    }
  }

  /** No lock younger than the lock timeout is ever taken away from its holder. */
  lemma {:induction false} YoungLockKept(s: System, given: RetryPolicy, actions: seq<Action>, id: string)
    requires Inv(s, given) && Locked(s, id)
    requires forall a :: a in actions ==> Respects(a, s.jobs[id].lockedBy, LockEnd(s.jobs[id], given))
    ensures var s' := RunFrom(s, given, actions);
            id in s'.jobs && s'.jobs[id] == s.jobs[id]
  {
    if actions != [] {
      var front, a := actions[..|actions| - 1], actions[|actions| - 1];
      assert a in actions && forall x :: x in front ==> x in actions;
      YoungLockKept(s, given, front, id);
      RunFromKeepsInv(s, given, front);
      LockedStays(RunFrom(s, given, front), given, a, id);
    }
  }

  /** The same over any run from the empty outbox. */
  lemma YoungLocksHold(given: RetryPolicy, actions: seq<Action>, later: seq<Action>, id: string)
    requires Locked(Run(given, actions), id)
    requires var job := Run(given, actions).jobs[id];
             forall a :: a in later ==> Respects(a, job.lockedBy, LockEnd(job, given))
    ensures var s' := RunFrom(Run(given, actions), given, later);
            id in s'.jobs && s'.jobs[id] == Run(given, actions).jobs[id]
  {
    RunKeepsInv(given, actions);
    YoungLockKept(Run(given, actions), given, later, id);
  }
}
