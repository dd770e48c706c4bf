/** One pass of a worker over its batch, while other workers, recoveries and deletions
    go on between any two of its steps (RunOnce in internal/worker/outbox.go). */
module OutboxWorker {
  import opened Core
  import opened RetryPolicies
  import opened OutboxProtocol
  import opened OutboxResults
  import opened OutboxRows

  predicate ActsAs(a: Action, w: string) {
    match a
    case Claim(v, _, _, _) => v == w
    case Publish(v, _) => v == w
    case CountAttempts(v) => v == w
    case Settle(v) => v == w
    case Crash(v) => v == w
    case _ => false
  }

  predicate NoneActAs(actions: seq<Action>, w: string) {
    forall a :: a in actions ==> !ActsAs(a, w)
  }

  /** The step neither claims nor deletes a job of the batch, nor recovers locks. */
  predicate Apart(a: Action, batch: seq<string>) {
    match a
    case Claim(_, _, _, chosen) => forall id :: id in chosen ==> id !in batch
    case Delete(_, _, doomed) => forall id :: id in doomed ==> id !in batch
    case Recover(_) => false
    case _ => true
  }

  predicate AllApart(actions: seq<Action>, batch: seq<string>) {
    forall a :: a in actions ==> Apart(a, batch)
  }

  ghost predicate Quiet(rivals: nat -> seq<Action>, batch: seq<string>) {
    forall i :: AllApart(rivals(i), batch)
  }

  /** Every job of the batch is locked by the worker or by nobody. */
  ghost predicate OwnOrFree(jobs: Jobs, w: string, batch: seq<string>) {
    forall id :: id in batch ==> id in jobs && (jobs[id].lockedBy == w || jobs[id].lockedBy == "")
  }

  ghost predicate SameRows(jobs: Jobs, jobs': Jobs, batch: seq<string>) {
    forall id :: id in batch && id in jobs ==> id in jobs' && jobs'[id] == jobs[id]
  }

  lemma ApartKeepsRow(s: System, given: RetryPolicy, a: Action, w: string, batch: seq<string>, id: string)
    requires Inv(s, given) && !ActsAs(a, w) && Apart(a, batch) && id in batch
    requires id in s.jobs && (s.jobs[id].lockedBy == w || s.jobs[id].lockedBy == "")
    ensures var jobs := Next(s, given, a).jobs; id in jobs && jobs[id] == s.jobs[id]
  {
    match a
    case Settle(v) =>
      if v in s.workers {
        assert WorkerOk(s, v);
        RivalSettles(s, given, v, id);
      }
    case Claim(_, _, _, _) =>
      assert ClaimsAccounted(s, id);
      NotTaken(s, given, a, id);
    case Enqueue(_, _) => assert ClaimsAccounted(s, id);
    case Delete(_, _, _) =>
    case Crash(_) =>
    case _ => OthersWriteNothing(s, given, a);
  }

  lemma ApartKeepsRows(s: System, given: RetryPolicy, a: Action, w: string, batch: seq<string>)
    requires Inv(s, given) && !ActsAs(a, w) && Apart(a, batch) && OwnOrFree(s.jobs, w, batch)
    ensures SameRows(s.jobs, Next(s, given, a).jobs, batch) && OwnOrFree(Next(s, given, a).jobs, w, batch)
  {
    forall id | id in batch
      ensures var jobs := Next(s, given, a).jobs; id in jobs && jobs[id] == s.jobs[id]
    {
      ApartKeepsRow(s, given, a, w, batch, id);
    }
  }

  lemma {:induction false} ApartRunKeepsRows(s: System, given: RetryPolicy, actions: seq<Action>, w: string, batch: seq<string>)
    requires Inv(s, given) && NoneActAs(actions, w) && AllApart(actions, batch) && OwnOrFree(s.jobs, w, batch)
    ensures SameRows(s.jobs, RunFrom(s, given, actions).jobs, batch) && OwnOrFree(RunFrom(s, given, actions).jobs, w, batch)
  {
    if actions != [] {
      var front, a := actions[..|actions| - 1], actions[|actions| - 1];
      assert a in actions && forall x :: x in front ==> x in actions;
      ApartRunKeepsRows(s, given, front, w, batch);
      RunFromKeepsInv(s, given, front);
      ApartKeepsRows(RunFrom(s, given, front), given, a, w, batch);
    }
  }

  /** The row of the job is settled if the worker holds its lock; no other row changes. */
  ghost predicate HeadSettled(jobs: Jobs, jobs': Jobs, policy: RetryPolicy, w: string, now: Instant, head: string,
                              failure: Option<string>)
  {
    && jobs'.Keys == jobs.Keys
    && forall id :: id in jobs ==>
         if id == head && jobs[id].lockedBy == w then SettledRow(jobs[id], jobs'[id], policy, now, failure)
         else jobs'[id] == jobs[id]
  }

  /** The i-th job of a batch after k jobs of a pass without interference: settled, or still
      locked. */
  ghost predicate RowInPass(before: Job, job: Job, policy: RetryPolicy, w: string, now: Instant, failure: Option<string>, settled: bool) {
    if settled then SettledRow(before, job, policy, now, failure)
    else job.lockedBy == w && job.attempts == before.attempts
  }

  ghost predicate PassedTo(initial: Jobs, jobs: Jobs, policy: RetryPolicy, w: string, now: Instant, chosen: seq<string>,
                           outcomes: nat -> Option<string>, k: nat)
  {
    forall i :: 0 <= i < |chosen| ==>
      && chosen[i] in initial && chosen[i] in jobs
      && RowInPass(initial[chosen[i]], jobs[chosen[i]], policy, w, now, outcomes(i), i < k)
  }

  lemma PassIsOwnOrFree(initial: Jobs, jobs: Jobs, policy: RetryPolicy, w: string, now: Instant, chosen: seq<string>,
                        outcomes: nat -> Option<string>, k: nat)
    requires PassedTo(initial, jobs, policy, w, now, chosen, outcomes, k)
    ensures OwnOrFree(jobs, w, chosen)
  {
    forall id | id in chosen
      ensures id in jobs && (jobs[id].lockedBy == w || jobs[id].lockedBy == "")
    {
      var i :| 0 <= i < |chosen| && chosen[i] == id;
      assert RowInPass(initial[chosen[i]], jobs[chosen[i]], policy, w, now, outcomes(i), i < k);
    }
  }

  /** Each row of the batch is what the outcome of its publish call makes of it. */
  ghost predicate AllSettled(initial: Jobs, jobs: Jobs, policy: RetryPolicy, now: Instant, chosen: seq<string>,
                             outcomes: nat -> Option<string>)
  {
    forall k :: 0 <= k < |chosen| ==>
      && chosen[k] in initial && chosen[k] in jobs
      && SettledRow(initial[chosen[k]], jobs[chosen[k]], policy, now, outcomes(k))
  }

  lemma PassCompletes(initial: Jobs, jobs: Jobs, policy: RetryPolicy, w: string, now: Instant, chosen: seq<string>,
                      outcomes: nat -> Option<string>)
    requires PassedTo(initial, jobs, policy, w, now, chosen, outcomes, |chosen|)
    ensures AllSettled(initial, jobs, policy, now, chosen, outcomes)
  {
    forall k | 0 <= k < |chosen|
      ensures chosen[k] in initial && chosen[k] in jobs
      ensures SettledRow(initial[chosen[k]], jobs[chosen[k]], policy, now, outcomes(k))
    {
      assert RowInPass(initial[chosen[k]], jobs[chosen[k]], policy, w, now, outcomes(k), true);
    }
  }

  lemma PassAdvances(initial: Jobs, before: Jobs, published: Jobs, after: Jobs, policy: RetryPolicy, w: string, now: Instant,
                     chosen: seq<string>, outcomes: nat -> Option<string>, k: nat)
    requires k < |chosen| && NoRepeats(chosen)
    requires PassedTo(initial, before, policy, w, now, chosen, outcomes, k)
    requires SameRows(before, published, chosen)
    requires HeadSettled(published, after, policy, w, now, chosen[k], outcomes(k))
    ensures PassedTo(initial, after, policy, w, now, chosen, outcomes, k + 1)
  {
    forall i | 0 <= i < |chosen|
      ensures chosen[i] in initial && chosen[i] in after
      ensures RowInPass(initial[chosen[i]], after[chosen[i]], policy, w, now, outcomes(i), i < k + 1)
    {
      assert RowInPass(initial[chosen[i]], before[chosen[i]], policy, w, now, outcomes(i), i < k);
      assert published[chosen[i]] == before[chosen[i]];
      assert i != k ==> chosen[i] != chosen[k];
    }
  }

  /** Other actors neither touch a worker's batch nor hand it a lock. */
  ghost predicate KeepsOut(s: System, s': System, w: string) {
    && (w in s.workers <==> w in s'.workers)
    && (w in s.workers && w in s'.workers ==> s'.workers[w] == s.workers[w])
    && (forall id :: id in s'.jobs && s'.jobs[id].lockedBy == w ==> id in s.jobs && s.jobs[id].lockedBy == w)
  }

  lemma OthersKeepOut(s: System, given: RetryPolicy, a: Action, w: string)
    requires !ActsAs(a, w) && w != ""
    ensures KeepsOut(s, Next(s, given, a), w)
  {
    if Next(s, given, a) != s {
      match a
      case Settle(v) => SettleKeepsOut(s, given.Effective(), v, w);
      case CountAttempts(v) => CountKeepsOut(s, v, w);
      case _ =>
    }
  }

  lemma SettleKeepsOut(s: System, policy: RetryPolicy, v: string, w: string)
    requires v in s.workers && (s.workers[v].stage.Sent? || s.workers[v].stage.Counted?) && s.workers[v].queue != []
    requires v != w && w != ""
    ensures KeepsOut(s, DoSettle(s, policy, v), w)
  {
  }

  lemma CountKeepsOut(s: System, v: string, w: string)
    requires v in s.workers && s.workers[v].stage.Refused? && s.workers[v].queue != [] && v != w
    ensures KeepsOut(s, DoCount(s, v), w)
  {
  }

  lemma {:induction false} RivalsKeepOut(s: System, given: RetryPolicy, actions: seq<Action>, w: string)
    requires NoneActAs(actions, w) && w != ""
    ensures KeepsOut(s, RunFrom(s, given, actions), w)
  {
    if actions != [] {
      var front := actions[..|actions| - 1];
      RivalsKeepOut(s, given, front, w);
      OthersKeepOut(RunFrom(s, given, front), given, actions[|actions| - 1], w);
    }
  }

  predicate Released(s: System, id: string, w: string) {
    id in s.jobs ==> s.jobs[id].lockedBy != w
  }

  /** The worker has the k-th job of the batch that it claimed at the instant at the head,
      and the jobs before it no longer carry its lock. */
  ghost predicate AtJob(s: System, w: string, now: Instant, chosen: seq<string>, k: nat)
    requires k < |chosen|
  {
    w in s.workers && s.workers[w].now == now && s.workers[w].queue == chosen[k..] && AllReleased(s, w, chosen, k)
  }

  ghost predicate AllReleased(s: System, w: string, chosen: seq<string>, k: nat)
    requires k <= |chosen|
  {
    forall i :: 0 <= i < k ==> Released(s, chosen[i], w)
  }

  lemma StillAtJob(s: System, s': System, w: string, now: Instant, chosen: seq<string>, k: nat)
    requires k < |chosen| && KeepsOut(s, s', w) && AtJob(s, w, now, chosen, k)
    ensures AtJob(s', w, now, chosen, k) && s'.workers[w].stage == s.workers[w].stage
  {
  }

  lemma PublishEffect(s: System, given: RetryPolicy, w: string, failure: Option<string>, now: Instant, chosen: seq<string>, k: nat)
    requires k < |chosen| && AtJob(s, w, now, chosen, k) && WorkerOk(s, w) && s.workers[w].stage.Ready?
    ensures
      var s' := Next(s, given, Publish(w, failure));
      && AtJob(s', w, now, chosen, k)
      && s'.workers[w].stage == if failure.None? then Sent else Stage.Refused(failure.value)
  {
    assert HoldsTicket(s, w, s.workers[w].queue[0]);
  }

  lemma CountEffect(s: System, given: RetryPolicy, w: string, now: Instant, chosen: seq<string>, k: nat)
    requires k < |chosen| && AtJob(s, w, now, chosen, k) && s.workers[w].stage.Refused?
    ensures
      var s' := Next(s, given, CountAttempts(w));
      && (w in s'.workers ==> AtJob(s', w, now, chosen, k) && s'.workers[w].stage.Counted? && s'.workers[w].stage.error == s.workers[w].stage.error)
      && (w !in s'.workers ==> AllReleased(s', w, chosen, k + 1))
  {
    assert Next(s, given, CountAttempts(w)) == DoCount(s, w);
    assert DoCount(s, w).jobs == s.jobs;
  }

  lemma SettleEffect(s: System, given: RetryPolicy, w: string, now: Instant, chosen: seq<string>, k: nat)
    requires k < |chosen| && NoRepeats(chosen) && w != "" && AtJob(s, w, now, chosen, k)
    requires s.workers[w].stage.Sent? || s.workers[w].stage.Counted?
    ensures
      var s' := Next(s, given, Settle(w));
      && AllReleased(s', w, chosen, k + 1)
      && (k + 1 < |chosen| ==> AtJob(s', w, now, chosen, k + 1) && s'.workers[w].stage.Ready?)
      && (k + 1 == |chosen| ==> w !in s'.workers)
  {
    var s' := DoSettle(s, given.Effective(), w);
    assert chosen[k..][1..] == chosen[k + 1..];
    assert chosen[k..][0] == chosen[k];
  }

  lemma ClaimEffect(s: System, given: RetryPolicy, a: Action)
    requires a.Claim? && MayClaim(s, a)
    ensures var s' := Next(s, given, a);
            AtJob(s', a.worker, a.now, a.chosen, 0) && s'.workers[a.worker].stage.Ready?
  {
  }

  class Outbox {
    const policy: RetryPolicy
    var jobs: Jobs
    var workers: map<string, Worker>
    var claims: map<string, nat>
    var publishes: map<string, nat>
    var recoveries: map<string, nat>
    var successes: set<Success>
    var settledBy: map<string, string>

    function Contents(): System
      reads this
    {
      System(jobs, workers, claims, publishes, recoveries, successes, settledBy)
    }

    constructor (policy: RetryPolicy)
      ensures this.policy == policy && Contents() == INITIAL
    {
      this.policy := policy;
      jobs, workers, claims, publishes := map[], map[], map[], map[];
      recoveries, successes, settledBy := map[], {}, map[];
    }

    method Perform(a: Action)
      modifies this
      ensures Contents() == Next(old(Contents()), policy, a)
    {
      var s := Next(Contents(), policy, a);
      jobs, workers, claims, publishes := s.jobs, s.workers, s.claims, s.publishes;
      recoveries, successes, settledBy := s.recoveries, s.successes, s.settledBy;
    }

    method PerformAll(actions: seq<Action>)
      modifies this
      ensures Contents() == RunFrom(old(Contents()), policy, actions)
    {
      for i := 0 to |actions|
        invariant Contents() == RunFrom(old(Contents()), policy, actions[..i])
      {
        assert actions[..i + 1][..i] == actions[..i];
        Perform(actions[i]);
      }
      assert actions[..|actions|] == actions;
    }

    /** Rivals run between two steps of worker w. */
    method Interleave(rivals: seq<Action>, w: string, ghost batch: seq<string>)
      requires w != "" && NoneActAs(rivals, w) && Inv(Contents(), policy)
      modifies this
      ensures Inv(Contents(), policy) && KeepsOut(old(Contents()), Contents(), w)
      ensures Contents() == RunFrom(old(Contents()), policy, rivals)
      ensures AllApart(rivals, batch) && OwnOrFree(old(jobs), w, batch) ==>
                SameRows(old(jobs), jobs, batch) && OwnOrFree(jobs, w, batch)
    {
      if AllApart(rivals, batch) && OwnOrFree(jobs, w, batch) {
        ApartRunKeepsRows(Contents(), policy, rivals, w, batch);
      }
      RivalsKeepOut(Contents(), policy, rivals, w);
      RunFromKeepsInv(Contents(), policy, rivals);
      PerformAll(rivals);
    }

    method Act(a: Action)
      requires Inv(Contents(), policy)
      modifies this
      ensures Inv(Contents(), policy) && Contents() == Next(old(Contents()), policy, a)
    {
      StepKeepsJobs(Contents(), policy, a);
      StepKeepsWorkers(Contents(), policy, a);
      StepBounded(Contents(), policy, a);
      Perform(a);
    }

    /** One job of the batch: publish it and, if that failed, read its attempt number;
        a lost lock shows in the read and ends the pass. Rivals that keep apart from the
        batch leave all its rows alone. */
    method PublishJob(w: string, failure: Option<string>, rivals: nat -> seq<Action>, ghost now: Instant, ghost chosen: seq<string>,
                      ghost k: nat) returns (held: bool)
      requires w != "" && Inv(Contents(), policy)
      requires k < |chosen| && AtJob(Contents(), w, now, chosen, k) && workers[w].stage.Ready?
      requires forall i :: NoneActAs(rivals(i), w)
      modifies this
      ensures Inv(Contents(), policy)
      ensures held ==> AtJob(Contents(), w, now, chosen, k) && (workers[w].stage.Sent? || workers[w].stage.Counted?)
                       && FailureOf(workers[w].stage) == failure
      ensures !held ==> w !in workers && failure.Some? && AllReleased(Contents(), w, chosen, k + 1)
      ensures Quiet(rivals, chosen) && OwnOrFree(old(jobs), w, chosen) ==>
                SameRows(old(jobs), jobs, chosen) && (old(jobs)[chosen[k]].lockedBy == w ==> held)
    {
      ghost var before := Contents();
      Interleave(rivals(0), w, chosen);
      StillAtJob(before, Contents(), w, now, chosen, k);
      assert WorkerOk(Contents(), w);
      PublishEffect(Contents(), policy, w, failure, now, chosen, k);
      OthersWriteNothing(Contents(), policy, Publish(w, failure));
      Act(Publish(w, failure));
      ghost var published := Contents();
      Interleave(rivals(1), w, chosen);
      StillAtJob(published, Contents(), w, now, chosen, k);
      if failure.Some? {
        CountEffect(Contents(), policy, w, now, chosen, k);
        OthersWriteNothing(Contents(), policy, CountAttempts(w));
        Act(CountAttempts(w));
        if w !in workers {
          return false;
        }
        ghost var counted := Contents();
        Interleave(rivals(2), w, chosen);
        StillAtJob(counted, Contents(), w, now, chosen, k);
      }
      return true;
    }

    /** The settle of the job at the head: its row is written out if the worker still holds
        the lock, and no other row changes. */
    method SettleHead(w: string, ghost now: Instant, ghost chosen: seq<string>, ghost k: nat)
      requires w != "" && Inv(Contents(), policy)
      requires k < |chosen| && NoRepeats(chosen) && AtJob(Contents(), w, now, chosen, k)
      requires workers[w].stage.Sent? || workers[w].stage.Counted?
      modifies this
      ensures Inv(Contents(), policy)
      ensures AllReleased(Contents(), w, chosen, k + 1)
      ensures k + 1 < |chosen| ==> AtJob(Contents(), w, now, chosen, k + 1) && workers[w].stage.Ready?
      ensures k + 1 == |chosen| ==> w !in workers
      ensures HeadSettled(old(jobs), jobs, policy.Effective(), w, now, chosen[k], FailureOf(old(workers)[w].stage))
    {
      SettleEffect(Contents(), policy, w, now, chosen, k);
      SettleWrites(Contents(), policy, w);
      Act(Settle(w));
    }

    /** A pass over the chosen batch. When it runs to its end, no job of the batch is left
        locked by the worker. It stops early only when a publish call failed and the lock
        of that job was lost; that job and those before it are then not locked by the
        worker, while the later ones may stay locked until they are recovered. If the
        rivals keep apart from the batch, the pass runs to its end, and each of its rows is
        what the outcome of its publish call makes of it. */
    method RunOnce(w: string, now: Instant, limit: int, chosen: seq<string>, outcomes: nat -> Option<string>,
                   rivals: (nat, nat) -> seq<Action>) returns (done: bool)
      requires w != "" && w !in workers && Inv(Contents(), policy)
      requires chosen != [] ==> MayClaim(Contents(), Claim(w, now, limit, chosen))
      requires forall k, i :: NoneActAs(rivals(k, i), w)
      modifies this
      ensures Inv(Contents(), policy) && w !in workers
      ensures done ==> forall id :: id in chosen ==> Released(Contents(), id, w)
      ensures !done ==> exists k :: 0 <= k < |chosen| && outcomes(k).Some? && AllReleased(Contents(), w, chosen, k + 1)
      ensures (forall k, i :: AllApart(rivals(k, i), chosen)) ==>
                done && AllSettled(old(jobs), jobs, policy.Effective(), now, chosen, outcomes)
    {
      if chosen == [] {
        return true;
      }
      ghost var initial, quiet := jobs, forall k, i :: AllApart(rivals(k, i), chosen);
      ClaimChosen(w, now, limit, chosen, outcomes);
      for k := 0 to |chosen|
        invariant Inv(Contents(), policy)
        invariant AllReleased(Contents(), w, chosen, k)
        invariant k < |chosen| ==> AtJob(Contents(), w, now, chosen, k) && workers[w].stage.Ready?
        invariant k == |chosen| ==> w !in workers
        invariant quiet ==> PassedTo(initial, jobs, policy.Effective(), w, now, chosen, outcomes, k)
      {
        var held := HandleJob(w, outcomes, (i: nat) => rivals(k, i), now, chosen, k, initial);
        if !held {
          return false;
        }
      }
      if quiet {
        PassCompletes(initial, jobs, policy.Effective(), w, now, chosen, outcomes);
      }
      return true;
    }

    method ClaimChosen(w: string, now: Instant, limit: int, chosen: seq<string>, ghost outcomes: nat -> Option<string>)
      requires Inv(Contents(), policy) && MayClaim(Contents(), Claim(w, now, limit, chosen))
      modifies this
      ensures Inv(Contents(), policy) && AtJob(Contents(), w, now, chosen, 0) && workers[w].stage.Ready?
      ensures PassedTo(old(jobs), jobs, policy.Effective(), w, now, chosen, outcomes, 0)
    {
      ClaimEffect(Contents(), policy, Claim(w, now, limit, chosen));
      ClaimWrites(Contents(), policy, w, now, limit, chosen);
      Act(Claim(w, now, limit, chosen));
    }

    method HandleJob(w: string, outcomes: nat -> Option<string>, rivals: nat -> seq<Action>, ghost now: Instant, ghost chosen: seq<string>,
                     k: nat, ghost initial: Jobs) returns (held: bool)
      requires w != "" && Inv(Contents(), policy) && NoRepeats(chosen)
      requires k < |chosen| && AtJob(Contents(), w, now, chosen, k) && workers[w].stage.Ready?
      requires forall i :: NoneActAs(rivals(i), w)
      modifies this
      ensures Inv(Contents(), policy) && AllReleased(Contents(), w, chosen, k + 1)
      ensures held && k + 1 < |chosen| ==> AtJob(Contents(), w, now, chosen, k + 1) && workers[w].stage.Ready?
      ensures held && k + 1 == |chosen| ==> w !in workers
      ensures !held ==> w !in workers && outcomes(k).Some?
      ensures Quiet(rivals, chosen) && PassedTo(initial, old(jobs), policy.Effective(), w, now, chosen, outcomes, k) ==>
                held && PassedTo(initial, jobs, policy.Effective(), w, now, chosen, outcomes, k + 1)
    {
      ghost var before := jobs;
      ghost var passed := Quiet(rivals, chosen) && PassedTo(initial, jobs, policy.Effective(), w, now, chosen, outcomes, k);
      if passed {
        PassIsOwnOrFree(initial, jobs, policy.Effective(), w, now, chosen, outcomes, k);
        assert RowInPass(initial[chosen[k]], jobs[chosen[k]], policy.Effective(), w, now, outcomes(k), false);
      }
      held := PublishJob(w, outcomes(k), rivals, now, chosen, k);
      if held {
        ghost var published := jobs;
        SettleHead(w, now, chosen, k);
        if passed {
          PassAdvances(initial, before, published, jobs, policy.Effective(), w, now, chosen, outcomes, k);
        }
      }
    }
  }
}
