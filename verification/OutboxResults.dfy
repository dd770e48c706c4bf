/** The accounting of the outbox over every run of workers, crashes and recoveries. */
module OutboxResults {
  import opened Core
  import opened RetryPolicies
  import opened OutboxProtocol

  // ---- Jobs ------------------------------------------------------------------------

  lemma ClaimKeepsJobs(s: System, policy: RetryPolicy, a: Action)
    requires a.Claim? && MayClaim(s, a) && JobsOk(s, policy)
    ensures JobsOk(DoClaim(s, a), policy)
  {
    var s' := DoClaim(s, a);
    forall id | id in s'.jobs
      ensures JobOk(s'.jobs[id], policy) && ClaimsAccounted(s', id) && DeliveryProven(s', id)
    {
      assert JobOk(s.jobs[id], policy) && ClaimsAccounted(s, id) && DeliveryProven(s, id);
    }
  }

  lemma SettleKeepsJobs(s: System, policy: RetryPolicy, w: string)
    requires policy.Valid() && JobsOk(s, policy)
    requires w in s.workers && WorkerOk(s, w) && (s.workers[w].stage.Sent? || s.workers[w].stage.Counted?)
    ensures JobsOk(DoSettle(s, policy, w), policy)
  {
    var s' := DoSettle(s, policy, w);
    var head := s.workers[w].queue[0];
    assert HoldsTicket(s, w, head) && LockIsCurrent(s, w, head);
    forall id | id in s'.jobs
      ensures JobOk(s'.jobs[id], policy) && ClaimsAccounted(s', id) && DeliveryProven(s', id)
    {
      assert JobOk(s.jobs[id], policy) && ClaimsAccounted(s, id) && DeliveryProven(s, id);
    }
  }

  lemma RecoverKeepsJobs(s: System, policy: RetryPolicy, now: Instant)
    requires JobsOk(s, policy)
    ensures JobsOk(DoRecover(s, policy, now), policy)
  {
    var s' := DoRecover(s, policy, now);
    forall id | id in s'.jobs
      ensures JobOk(s'.jobs[id], policy) && ClaimsAccounted(s', id) && DeliveryProven(s', id)
    {
      assert JobOk(s.jobs[id], policy) && ClaimsAccounted(s, id) && DeliveryProven(s, id);
    }
  }

  /** Deletions and worker progress leave the remaining jobs as they were. */
  lemma RemainingKeepJobs(s: System, s': System, policy: RetryPolicy)
    requires JobsOk(s, policy)
    requires s'.publishes.Keys == s.publishes.Keys && s'.claims == s.claims && s'.recoveries == s.recoveries
    requires s.successes <= s'.successes && s'.settledBy == s.settledBy
    requires forall id :: id in s'.jobs ==> id in s.jobs && s'.jobs[id] == s.jobs[id]
    ensures JobsOk(s', policy)
  {
    forall id | id in s'.jobs
      ensures JobOk(s'.jobs[id], policy) && ClaimsAccounted(s', id) && DeliveryProven(s', id)
    {
      assert JobOk(s.jobs[id], policy) && ClaimsAccounted(s, id) && DeliveryProven(s, id);
    }
  }

  lemma PublishKeepsJobs(s: System, policy: RetryPolicy, w: string, failure: Option<string>)
    requires JobsOk(s, policy)
    requires w in s.workers && s.workers[w].queue != [] && s.workers[w].queue[0] in s.publishes && s.workers[w].queue[0] in s.workers[w].tickets
    ensures JobsOk(DoPublish(s, w, failure), policy)
  {
    RemainingKeepJobs(s, DoPublish(s, w, failure), policy);
  }

  lemma CountKeepsJobs(s: System, policy: RetryPolicy, w: string)
    requires JobsOk(s, policy) && w in s.workers && s.workers[w].stage.Refused? && s.workers[w].queue != []
    ensures JobsOk(DoCount(s, w), policy)
  {
    RemainingKeepJobs(s, DoCount(s, w), policy);
  }

  lemma EnqueueKeepsJobs(s: System, given: RetryPolicy, a: Action)
    requires a.Enqueue? && JobsOk(s, given.Effective())
    ensures JobsOk(Next(s, given, a), given.Effective())
  {
    var policy, s' := given.Effective(), Next(s, given, a);
    forall id | id in s'.jobs
      ensures JobOk(s'.jobs[id], policy) && ClaimsAccounted(s', id) && DeliveryProven(s', id)
    {
      assert id in s.jobs ==> JobOk(s.jobs[id], policy) && ClaimsAccounted(s, id) && DeliveryProven(s, id);
    }
  }

  lemma StepKeepsJobs(s: System, given: RetryPolicy, a: Action)
    requires JobsOk(s, given.Effective()) && WorkersOk(s)
    ensures JobsOk(Next(s, given, a), given.Effective())
  {
    var policy := given.Effective();
    var s' := Next(s, given, a);
    if s' != s {
      match a
      case Claim(_, _, _, _) => ClaimKeepsJobs(s, policy, a);
      case Settle(w) =>
        assert WorkerOk(s, w);
        SettleKeepsJobs(s, policy, w);
      case Recover(now) => RecoverKeepsJobs(s, policy, now);
      case Enqueue(_, _) => EnqueueKeepsJobs(s, given, a);
      case Delete(_, _, _) => RemainingKeepJobs(s, s', policy);
      case Publish(w, failure) => PublishKeepsJobs(s, policy, w, failure);
      case CountAttempts(w) => CountKeepsJobs(s, policy, w);
      case Crash(_) => RemainingKeepJobs(s, s', policy);
    }
  }

  // ---- Workers ---------------------------------------------------------------------

  /** The step left the worker and every job it holds alone. */
  ghost predicate Undisturbed(s: System, s': System, w: string) {
    && w in s.workers && w in s'.workers && s'.workers[w] == s.workers[w]
    && s.successes <= s'.successes
    && forall id :: id in s.workers[w].queue && id in s.claims && id in s.publishes ==>
         && id in s'.claims && id in s'.publishes && s.claims[id] <= s'.claims[id]
         && (id in s'.jobs && s'.jobs[id].lockedBy == w ==>
               id in s.jobs && s.jobs[id].lockedBy == w && s'.claims[id] == s.claims[id] && s'.jobs[id].attempts == s.jobs[id].attempts)
  }

  lemma UndisturbedKeepsWorker(s: System, s': System, w: string)
    requires Undisturbed(s, s', w) && WorkerOk(s, w)
    ensures WorkerOk(s', w)
  {
    forall id | id in s.workers[w].queue
      ensures HoldsTicket(s', w, id) && LockIsCurrent(s', w, id)
    {
      assert HoldsTicket(s, w, id) && LockIsCurrent(s, w, id);
    }
    var head := s.workers[w].queue[0];
    assert head in s.workers[w].queue;
  }

  lemma ClaimKeepsWorkers(s: System, a: Action)
    requires a.Claim? && MayClaim(s, a) && WorkersOk(s) && s.publishes.Keys == s.claims.Keys
    ensures WorkersOk(DoClaim(s, a))
  {
    var s' := DoClaim(s, a);
    forall w | w in s'.workers
      ensures WorkerOk(s', w)
    {
      if w == a.worker {
        assert a.chosen[0] in a.chosen;
        forall id | id in a.chosen
          ensures HoldsTicket(s', w, id) && LockIsCurrent(s', w, id)
        {
        }
      } else {
        assert WorkerOk(s, w);
        UndisturbedKeepsWorker(s, s', w);
      }
    }
  }

  lemma PublishKeepsWorkers(s: System, w: string, failure: Option<string>)
    requires WorkersOk(s) && w in s.workers && s.workers[w].stage.Ready?
    ensures WorkerOk(s, w)
    ensures WorkersOk(DoPublish(s, w, failure))
  {
    assert WorkerOk(s, w);
    var s' := DoPublish(s, w, failure);
    forall v | v in s'.workers
      ensures WorkerOk(s', v)
    {
      assert WorkerOk(s, v);
      if v == w {
        var queue := s.workers[w].queue;
        forall id | id in queue
          ensures HoldsTicket(s', w, id) && LockIsCurrent(s', w, id)
        {
          assert HoldsTicket(s, w, id) && LockIsCurrent(s, w, id);
        }
        assert queue[0] in queue;
      } else {
        UndisturbedKeepsWorker(s, s', v);
      }
    }
  }

  lemma CountKeepsWorkers(s: System, w: string)
    requires WorkersOk(s) && w in s.workers && s.workers[w].stage.Refused?
    ensures WorkerOk(s, w)
    ensures WorkersOk(DoCount(s, w))
  {
    assert WorkerOk(s, w);
    var s' := DoCount(s, w);
    forall v | v in s'.workers
      ensures WorkerOk(s', v)
    {
      assert WorkerOk(s, v);
      if v == w {
        var queue := s.workers[w].queue;
        forall id | id in queue
          ensures HoldsTicket(s', w, id) && LockIsCurrent(s', w, id)
        {
          assert HoldsTicket(s, w, id) && LockIsCurrent(s, w, id);
        }
        assert queue[0] in queue;
      } else {
        UndisturbedKeepsWorker(s, s', v);
      }
    }
  }

  lemma SettleKeepsWorkers(s: System, policy: RetryPolicy, w: string)
    requires WorkersOk(s) && w in s.workers && (s.workers[w].stage.Sent? || s.workers[w].stage.Counted?)
    ensures WorkerOk(s, w)
    ensures WorkersOk(DoSettle(s, policy, w))
  {
    assert WorkerOk(s, w);
    var s' := DoSettle(s, policy, w);
    forall v | v in s'.workers
      ensures WorkerOk(s', v)
    {
      assert WorkerOk(s, v);
      if v == w {
        SettlerStaysOk(s, policy, w);
      } else {
        UndisturbedKeepsWorker(s, s', v);
      }
    }
  }

  lemma SettlerStaysOk(s: System, policy: RetryPolicy, w: string)
    requires w in s.workers && WorkerOk(s, w) && (s.workers[w].stage.Sent? || s.workers[w].stage.Counted?)
    requires |s.workers[w].queue| > 1
    ensures var s' := DoSettle(s, policy, w); w in s'.workers && WorkerOk(s', w)
  {
    var s' := DoSettle(s, policy, w);
    var queue := s.workers[w].queue;
    var rest := queue[1..];
    assert rest[0] in rest;
    assert queue[0] !in rest;
    forall id | id in rest
      ensures HoldsTicket(s', w, id) && LockIsCurrent(s', w, id)
    {
      assert id in queue && HoldsTicket(s, w, id) && LockIsCurrent(s, w, id);
    }
  }

  lemma StepKeepsWorkers(s: System, given: RetryPolicy, a: Action)
    requires JobsOk(s, given.Effective()) && WorkersOk(s)
    ensures WorkersOk(Next(s, given, a))
  {
    var s' := Next(s, given, a);
    if s' != s {
      match a
      case Claim(_, _, _, _) => ClaimKeepsWorkers(s, a);
      case Publish(w, failure) => PublishKeepsWorkers(s, w, failure);
      case CountAttempts(w) => CountKeepsWorkers(s, w);
      case Settle(w) => SettleKeepsWorkers(s, given.Effective(), w);
      case Enqueue(_, _) => EnqueueKeepsWorkers(s, given, a);
      case Recover(now) => RecoverKeepsWorkers(s, given.Effective(), now);
      case Delete(_, _, _) => RemovalKeepsWorkers(s, s');
      case Crash(_) => RemovalKeepsWorkers(s, s');
    }
  }

  lemma EnqueueKeepsWorkers(s: System, given: RetryPolicy, a: Action)
    requires a.Enqueue? && WorkersOk(s)
    ensures WorkersOk(Next(s, given, a))
  {
    var s' := Next(s, given, a);
    forall w | w in s'.workers
      ensures WorkerOk(s', w)
    {
      assert WorkerOk(s, w);
      assert forall id :: id in s.workers[w].queue ==> HoldsTicket(s, w, id);
      UndisturbedKeepsWorker(s, s', w);
    }
  }

  lemma RecoverKeepsWorkers(s: System, policy: RetryPolicy, now: Instant)
    requires WorkersOk(s)
    ensures WorkersOk(DoRecover(s, policy, now))
  {
    var s' := DoRecover(s, policy, now);
    forall w | w in s'.workers
      ensures WorkerOk(s', w)
    {
      assert WorkerOk(s, w);
      UndisturbedKeepsWorker(s, s', w);
    }
  }

  lemma RemovalKeepsWorkers(s: System, s': System)
    requires WorkersOk(s)
    requires s'.claims == s.claims && s'.publishes == s.publishes && s'.successes == s.successes
    requires forall w :: w in s'.workers ==> w in s.workers && s'.workers[w] == s.workers[w]
    requires forall id :: id in s'.jobs ==> id in s.jobs && s'.jobs[id] == s.jobs[id]
    ensures WorkersOk(s')
  {
    forall w | w in s'.workers
      ensures WorkerOk(s', w)
    {
      assert WorkerOk(s, w);
      UndisturbedKeepsWorker(s, s', w);
    }
  }

  // ---- Publish calls -----------------------------------------------------------------

  /** The jobs of a batch that are still to be published. */
  function Unsent(batch: Worker): seq<string> {
    if batch.stage.Ready? || batch.queue == [] then batch.queue else batch.queue[1..]
  }

  /** The workers that are going to publish the job. */
  function Senders(s: System, id: string): set<string> {
    set w | w in s.workers && id in Unsent(s.workers[w])
  }

  /** Publish calls made and publish calls still to come never exceed the claims. */
  ghost predicate PublishesBounded(s: System) {
    forall id :: id in s.claims && id in s.publishes ==> s.publishes[id] + |Senders(s, id)| <= s.claims[id]
  }

  lemma SubsetCardinality<T>(a: set<T>, b: set<T>)
    requires a <= b
    ensures |a| <= |b|
  {
    assert b == a + (b - a);
  }

  lemma FewerSenders(s: System, s': System)
    requires PublishesBounded(s) && s'.claims == s.claims && s'.publishes == s.publishes
    requires forall w :: w in s'.workers ==> w in s.workers && forall id :: id in Unsent(s'.workers[w]) ==> id in Unsent(s.workers[w])
    ensures PublishesBounded(s')
  {
    forall id | id in s'.claims && id in s'.publishes
      ensures s'.publishes[id] + |Senders(s', id)| <= s'.claims[id]
    {
      SubsetCardinality(Senders(s', id), Senders(s, id));
    }
  }

  lemma SettleSendsLess(s: System, policy: RetryPolicy, w: string)
    requires PublishesBounded(s) && w in s.workers && s.workers[w].queue != []
    requires s.workers[w].stage.Sent? || s.workers[w].stage.Counted?
    ensures PublishesBounded(DoSettle(s, policy, w))
  {
    FewerSenders(s, DoSettle(s, policy, w));
  }

  lemma CountSendsLess(s: System, w: string)
    requires PublishesBounded(s) && w in s.workers && s.workers[w].queue != [] && s.workers[w].stage.Refused?
    ensures PublishesBounded(DoCount(s, w))
  {
    FewerSenders(s, DoCount(s, w));
  }

  lemma ClaimSenders(s: System, a: Action, id: string)
    requires a.Claim? && MayClaim(s, a)
    ensures Senders(DoClaim(s, a), id) == if id in a.chosen then Senders(s, id) + {a.worker} else Senders(s, id)
  {
  }

  lemma ClaimBounded(s: System, a: Action)
    requires a.Claim? && MayClaim(s, a) && PublishesBounded(s)
    ensures PublishesBounded(DoClaim(s, a))
  {
    var s' := DoClaim(s, a);
    forall id | id in s'.claims && id in s'.publishes
      ensures s'.publishes[id] + |Senders(s', id)| <= s'.claims[id]
    {
      ClaimSenders(s, a, id);
      assert id in s.claims && s'.claims[id] == if id in a.chosen then s.claims[id] + 1 else s.claims[id];
    }
  }

  lemma PublishBounded(s: System, w: string, failure: Option<string>)
    requires PublishesBounded(s) && w in s.workers && WorkerOk(s, w) && s.workers[w].stage.Ready?
    ensures PublishesBounded(DoPublish(s, w, failure))
  {
    var s' := DoPublish(s, w, failure);
    var queue := s.workers[w].queue;
    assert queue == [queue[0]] + queue[1..];
    forall id | id in s'.claims && id in s'.publishes
      ensures s'.publishes[id] + |Senders(s', id)| <= s'.claims[id]
    {
      if id == queue[0] {
        assert w in Senders(s, id);
        assert Senders(s', id) == Senders(s, id) - {w};
      } else {
        assert Senders(s', id) == Senders(s, id);
      }
    }
  }

  lemma EnqueueBounded(s: System, s': System, id: string)
    requires WorkersOk(s) && PublishesBounded(s) && id !in s.claims
    requires s'.workers == s.workers && s'.claims == s.claims[id := 0] && s'.publishes == s.publishes[id := 0]
    ensures PublishesBounded(s')
  {
    assert forall x :: Senders(s', x) == Senders(s, x);
    forall w | w in s.workers
      ensures id !in Unsent(s.workers[w])
    {
      assert WorkerOk(s, w);
      assert forall x :: x in Unsent(s.workers[w]) ==> x in s.workers[w].queue;
      assert id in s.workers[w].queue ==> HoldsTicket(s, w, id);
    }
    assert Senders(s', id) == {};
  }

  lemma StepBounded(s: System, given: RetryPolicy, a: Action)
    requires WorkersOk(s) && PublishesBounded(s)
    ensures PublishesBounded(Next(s, given, a))
  {
    var s' := Next(s, given, a);
    if s' != s {
      match a
      case Enqueue(id, _) => EnqueueBounded(s, s', id);
      case Claim(_, _, _, _) => ClaimBounded(s, a);
      case Publish(w, failure) =>
        assert WorkerOk(s, w);
        PublishBounded(s, w, failure);
      case Settle(w) => SettleSendsLess(s, given.Effective(), w);
      case CountAttempts(w) => CountSendsLess(s, w);
      case Recover(_) => FewerSenders(s, s');
      case Delete(_, _, _) => FewerSenders(s, s');
      case Crash(_) => FewerSenders(s, s');
    }
  }

  // ---- Results -----------------------------------------------------------------------

  ghost predicate Inv(s: System, given: RetryPolicy) {
    JobsOk(s, given.Effective()) && WorkersOk(s) && PublishesBounded(s)
  }

  lemma {:induction false} RunKeepsInv(given: RetryPolicy, actions: seq<Action>)
    ensures Inv(Run(given, actions), given)
  {
    if actions != [] {
      var s, a := Run(given, actions[..|actions| - 1]), actions[|actions| - 1];
      RunKeepsInv(given, actions[..|actions| - 1]);
      StepKeepsJobs(s, given, a);
      StepKeepsWorkers(s, given, a);
      StepBounded(s, given, a);
    }
  }

  /** Outbox accounting: claims are attempts plus recoveries plus the one running, and
      publish calls never outnumber claims. */
  lemma ClaimsAreAccounted(given: RetryPolicy, actions: seq<Action>, id: string)
    requires id in Run(given, actions).jobs
    ensures
      var s := Run(given, actions);
      && ClaimsAccounted(s, id)
      && s.publishes[id] <= s.claims[id]
  {
    RunKeepsInv(given, actions);
    var s := Run(given, actions);
    assert ClaimsAccounted(s, id);
    assert s.publishes[id] + |Senders(s, id)| <= s.claims[id];
  }

  /** The bound on publish calls holds of every job ever enqueued, deleted or not. */
  lemma PublishesNeverExceedClaims(given: RetryPolicy, actions: seq<Action>, id: string)
    requires id in Run(given, actions).claims
    ensures var s := Run(given, actions);
            id in s.publishes && s.publishes[id] <= s.claims[id]
  {
    RunKeepsInv(given, actions);
    var s := Run(given, actions);
    assert id in s.publishes.Keys;
    assert s.publishes[id] + |Senders(s, id)| <= s.claims[id];
  }

  /** Attempts stay within the policy, jobs that may run again have attempts left, and a
      job is running exactly while somebody holds its lock. */
  lemma AttemptsAreBounded(given: RetryPolicy, actions: seq<Action>, id: string)
    requires id in Run(given, actions).jobs
    ensures JobOk(Run(given, actions).jobs[id], given.Effective())
  {
    RunKeepsInv(given, actions);
  }

  /** A delivered job was published successfully by the worker that settled it. */
  lemma DeliveredWasPublished(given: RetryPolicy, actions: seq<Action>, id: string)
    requires id in Run(given, actions).jobs && Run(given, actions).jobs[id].status.Delivered?
    ensures
      var s := Run(given, actions);
      && id in s.claims && id in s.settledBy && id in s.publishes
      && Success(id, s.claims[id], s.settledBy[id]) in s.successes
      && s.publishes[id] >= 1
  {
    RunKeepsInv(given, actions);
    SuccessesCount(given, actions);
    var s := Run(given, actions);
    assert ClaimsAccounted(s, id) && DeliveryProven(s, id);
  }

  /** A successful publish call was a publish call. */
  ghost predicate SuccessesCounted(s: System) {
    forall x :: x in s.successes ==> x.id in s.publishes && s.publishes[x.id] >= 1
  }

  lemma {:induction false} SuccessesCount(given: RetryPolicy, actions: seq<Action>)
    ensures SuccessesCounted(Run(given, actions))
  {
    if actions != [] {
      var s, a := Run(given, actions[..|actions| - 1]), actions[|actions| - 1];
      SuccessesCount(given, actions[..|actions| - 1]);
      RunKeepsInv(given, actions[..|actions| - 1]);
      StepCountsSuccesses(s, given, a);
    }
  }

  lemma StepCountsSuccesses(s: System, given: RetryPolicy, a: Action)
    requires SuccessesCounted(s) && s.publishes.Keys == s.claims.Keys
    ensures SuccessesCounted(Next(s, given, a))
  {
    var s' := Next(s, given, a);
    if s' != s {
      match a
      case Publish(w, failure) =>
        assert s' == DoPublish(s, w, failure);
      case _ =>
        assert s'.successes == s.successes;
    }
  }

  /** The settle of a worker whose claim of the job has been superseded, whether by a
      recovery or by a later claim, changes no job. */
  lemma SupersededSettleIsIdle(given: RetryPolicy, actions: seq<Action>, w: string)
    requires w in Run(given, actions).workers && Superseded(Run(given, actions), w)
    ensures Next(Run(given, actions), given, Settle(w)).jobs == Run(given, actions).jobs
  {
    RunKeepsInv(given, actions);
    SupersededInState(Run(given, actions), given, w);
  }

  /** The job at the head of the batch is gone, is not running, or has been claimed
      again since this worker claimed it. */
  predicate Superseded(s: System, w: string)
    requires w in s.workers
  {
    var batch := s.workers[w];
    batch.queue != [] &&
    var id := batch.queue[0];
    || id !in s.jobs || !s.jobs[id].status.Running?
    || (id in batch.tickets && id in s.claims && batch.tickets[id] < s.claims[id])
  }

  lemma SupersededInState(s: System, given: RetryPolicy, w: string)
    requires JobsOk(s, given.Effective()) && w in s.workers && WorkerOk(s, w) && Superseded(s, w)
    ensures Next(s, given, Settle(w)).jobs == s.jobs
  {
    var id := s.workers[w].queue[0];
    assert HoldsTicket(s, w, id) && LockIsCurrent(s, w, id);
    assert id in s.jobs ==> JobOk(s.jobs[id], given.Effective()) && s.jobs[id].lockedBy != w;
  }

  /** Delivered and failed are final: the job stays as it is, or a delivered one is
      deleted. */
  lemma FinalStatesStay(given: RetryPolicy, actions: seq<Action>, a: Action, id: string)
    requires id in Run(given, actions).jobs
    requires var job := Run(given, actions).jobs[id]; job.status.Delivered? || job.status.Failed?
    ensures
      var s := Run(given, actions);
      var s' := Next(s, given, a);
      if id in s'.jobs then s'.jobs[id] == s.jobs[id] else a.Delete? && s.jobs[id].status.Delivered?
  {
    RunKeepsInv(given, actions);
    FinalInState(Run(given, actions), given, a, id);
  }

  lemma FinalInState(s: System, given: RetryPolicy, a: Action, id: string)
    requires JobsOk(s, given.Effective()) && WorkersOk(s) && id in s.jobs
    requires s.jobs[id].status.Delivered? || s.jobs[id].status.Failed?
    ensures var s' := Next(s, given, a);
            if id in s'.jobs then s'.jobs[id] == s.jobs[id] else a.Delete? && s.jobs[id].status.Delivered?
  {
    assert JobOk(s.jobs[id], given.Effective()) && ClaimsAccounted(s, id);
    var s' := Next(s, given, a);
    if s' != s {
      match a
      case Settle(w) =>
        assert WorkerOk(s, w);
        assert s.jobs[id].lockedBy != w;
      case _ =>
    }
  }

  /** Under one policy a recovery never gives a job up: it always goes back to retry. */
  lemma RecoveryAlwaysRetries(given: RetryPolicy, actions: seq<Action>, now: Instant, id: string)
    requires id in Run(given, actions).jobs && Expired(Run(given, actions).jobs[id], given.Effective(), now)
    ensures
      var s' := Next(Run(given, actions), given, Recover(now));
      id in s'.jobs && s'.jobs[id].status.Retry? && s'.jobs[id].lockedBy == ""
  {
    RunKeepsInv(given, actions);
    assert JobOk(Run(given, actions).jobs[id], given.Effective());
  }
}
