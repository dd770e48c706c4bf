/** A batch of declarations in the worker pool (internal/service/batch.go): every call is a
    declaration, committed at some moment between its take and its finish. */
module Batches {
  import opened Core
  import opened Authorization
  import opened Workflow
  import opened Admission
  import opened Coordinator
  import opened Arrivals
  import Pools = WorkerPool
  import C = Clearance

  /** What is fixed for a batch of commands without idempotency keys. */
  datatype Batch = Batch(digests: Digests, actor: User, commands: seq<DeclareCommand>, concurrency: nat)

  datatype State = State(pool: Pools.Pool<Result<C.Voyage>>, tables: Tables)

  datatype Action = Take(worker: nat) | Commit(worker: nat) | Cancel | Close | Return

  ghost function Outcome(b: Batch, t: Tables, i: nat): Result<(C.Voyage, Tables)>
    requires i < |b.commands|
  {
    DeclareTx(b.digests, t, b.actor, Request(b.commands[i]))
  }

  ghost function Answer(outcome: Result<(C.Voyage, Tables)>): Result<C.Voyage> {
    if outcome.Ok? then Ok(outcome.value.0) else Err(outcome.error)
  }

  ghost function Next(b: Batch, s: State, a: Action): State {
    match a
    case Commit(w) =>
      if w in s.pool.held && s.pool.held[w] < |b.commands| then
        var outcome := Outcome(b, s.tables, s.pool.held[w]);
        State(Pools.Next(s.pool, b.concurrency, Pools.Finish(w, Answer(outcome))), Committed(s.tables, outcome))
      else s
    case Take(w) => s.(pool := Pools.Next(s.pool, b.concurrency, Pools.Take(w)))
    case Cancel => s.(pool := Pools.Next(s.pool, b.concurrency, Pools.Cancel))
    case Close => s.(pool := Pools.Next(s.pool, b.concurrency, Pools.Close))
    case Return => s.(pool := Pools.Next(s.pool, b.concurrency, Pools.Return))
  }

  ghost function Run(b: Batch, t: Tables, schedule: seq<Action>): State {
    if schedule == [] then State(Pools.Start(|b.commands|), t)
    else Next(b, Run(b, t, schedule[..|schedule| - 1]), schedule[|schedule| - 1])
  }

  lemma RunAppend(b: Batch, t: Tables, schedule: seq<Action>, a: Action)
    ensures Run(b, t, schedule + [a]) == Next(b, Run(b, t, schedule), a)
  {
    assert (schedule + [a])[..|schedule|] == schedule;
  }

  /** No call that has finished was refused. */
  ghost predicate NoneRefused(s: State) {
    forall k :: 0 <= k < |s.pool.calls| ==> s.pool.calls[k].1.Ok?
  }

  /** Each command would go through by itself, and their ids differ. */
  ghost predicate Acceptable(b: Batch, t: Tables) {
    && Reachable(b.digests, t) && SeparatesIds(b.digests.event)
    && (forall i :: 0 <= i < |b.commands| ==> Outcome(b, t, i).Ok?)
    && (forall i, k :: 0 <= i < k < |b.commands| ==> b.commands[i].id != b.commands[k].id)
  }

  lemma AcceptableMeans(b: Batch, t: Tables, i: nat)
    requires Acceptable(b, t) && i < |b.commands|
    ensures WellFormed(b.digests, b.actor, b.commands[i])
    ensures b.commands[i].id !in t.voyages && InOrder(t, b.actor.tenantID, b.commands[i].eta - 12 * HOUR)
  {
    assert Outcome(b, t, i).Ok?;
    DeclareSucceedsIff(b.digests, t, b.actor, Request(b.commands[i]));
  }

  // ---- Arrivals that suit the pool suffice -------------------------------------------------

  ghost predicate EqualArrivals(b: Batch) {
    forall i, k :: 0 <= i < |b.commands| && 0 <= k < |b.commands| ==> b.commands[i].eta == b.commands[k].eta
  }

  ghost predicate RisingArrivals(b: Batch) {
    forall i, k :: 0 <= i <= k < |b.commands| ==> b.commands[i].eta <= b.commands[k].eta
  }

  /** One worker needs arrivals that never go back, several need equal ones. */
  ghost predicate Suited(b: Batch) {
    if b.concurrency == 1 then RisingArrivals(b) else EqualArrivals(b)
  }

  /** The commands that have not finished would still go through. */
  ghost predicate StillAcceptable(b: Batch, s: State) {
    && Reachable(b.digests, s.tables) && Pools.Inv(s.pool, |b.commands|, b.concurrency) && NoneRefused(s)
    && forall i :: 0 <= i < |b.commands| && !Pools.Called(s.pool, i) ==> Open(b, s, i)
  }

  predicate Open(b: Batch, s: State, i: nat)
    requires i < |b.commands|
  {
    InOrder(s.tables, b.actor.tenantID, b.commands[i].eta - 12 * HOUR) && b.commands[i].id !in s.tables.voyages
  }

  /** No command that is still to finish arrives before the one being finished. */
  lemma OthersArriveLater(b: Batch, s: State, w: nat, k: nat)
    requires Suited(b) && Pools.Inv(s.pool, |b.commands|, b.concurrency)
    requires w in s.pool.held && k < |b.commands| && !Pools.Called(s.pool, k)
    ensures s.pool.held[w] < |b.commands| && b.commands[s.pool.held[w]].eta <= b.commands[k].eta
  {
    if b.concurrency == 1 {
      assert forall v :: v in s.pool.held ==> v == w;
    }
  }

  lemma CommitStaysAcceptable(b: Batch, t: Tables, s: State, w: nat)
    requires Acceptable(b, t) && Suited(b) && StillAcceptable(b, s)
    requires w in s.pool.held
    ensures StillAcceptable(b, Next(b, s, Commit(w)))
  {
    var i := s.pool.held[w];
    assert !Pools.Called(s.pool, i) && Open(b, s, i);
    AcceptableMeans(b, t, i);
    DeclareIff(b.digests, s.tables, b.actor, b.commands[i]);
    DeclarationSetsClock(b.digests, s.tables, b.actor, b.commands[i]);
    Pools.FinishKeepsInv(s.pool, |b.commands|, b.concurrency, w, Answer(Outcome(b, s.tables, i)));
    CommitCalls(b, s, w);
    CommitLeavesOpen(b, t, s, w);
  }

  lemma CommitLeavesOpen(b: Batch, t: Tables, s: State, w: nat)
    requires Acceptable(b, t) && Suited(b) && StillAcceptable(b, s)
    requires w in s.pool.held && Outcome(b, s.tables, s.pool.held[w]).Ok?
    ensures
      var s' := Next(b, s, Commit(w));
      forall k :: 0 <= k < |b.commands| && !Pools.Called(s'.pool, k) ==> Open(b, s', k)
  {
    var i, s' := s.pool.held[w], Next(b, s, Commit(w));
    DeclarationSetsClock(b.digests, s.tables, b.actor, b.commands[i]);
    CommitCalls(b, s, w);
    forall k | 0 <= k < |b.commands| && !Pools.Called(s'.pool, k)
      ensures Open(b, s', k)
    {
      assert k != i && !Pools.Called(s.pool, k) && Open(b, s, k);
      OthersArriveLater(b, s, w, k);
      assert b.commands[k].id != b.commands[i].id;
    }
  }

  /** A commit finishes the worker's index. */
  lemma CommitCalls(b: Batch, s: State, w: nat)
    requires Pools.Inv(s.pool, |b.commands|, b.concurrency) && w in s.pool.held
    ensures
      var s' := Next(b, s, Commit(w));
      && s'.pool.calls == s.pool.calls + [(s.pool.held[w], Answer(Outcome(b, s.tables, s.pool.held[w])))]
      && forall k: nat :: Pools.Called(s'.pool, k) <==> Pools.Called(s.pool, k) || k == s.pool.held[w]
  {
    var s' := Next(b, s, Commit(w));
    var n := |s.pool.calls|;
    assert s'.pool.calls[n].0 == s.pool.held[w];
    forall k: nat
      ensures Pools.Called(s'.pool, k) <==> Pools.Called(s.pool, k) || k == s.pool.held[w]
    {
      if Pools.Called(s.pool, k) {
        var j :| 0 <= j < n && s.pool.calls[j].0 == k;
        assert s'.pool.calls[j].0 == k;
      }
    }
  }

  lemma OthersStayAcceptable(b: Batch, s: State, a: Action)
    requires StillAcceptable(b, s) && !a.Commit?
    ensures StillAcceptable(b, Next(b, s, a))
  {
    match a {
      case Take(w) => Pools.TakeKeepsInv(s.pool, |b.commands|, b.concurrency, w);
      case Cancel => Pools.SignalKeepsInv(s.pool, |b.commands|, b.concurrency, Pools.Cancel);
      case Close => Pools.SignalKeepsInv(s.pool, |b.commands|, b.concurrency, Pools.Close);
      case Return => Pools.SignalKeepsInv(s.pool, |b.commands|, b.concurrency, Pools.Return);
    }
    assert Next(b, s, a).pool.calls == s.pool.calls && Next(b, s, a).tables == s.tables;
    forall k | 0 <= k < |b.commands| && !Pools.Called(Next(b, s, a).pool, k)
      ensures Open(b, Next(b, s, a), k)
    {
      assert !Pools.Called(s.pool, k) && Open(b, s, k);
    }
  }

  lemma {:induction false} SuitedSuffices(b: Batch, t: Tables, schedule: seq<Action>)
    requires Acceptable(b, t) && Suited(b)
    ensures StillAcceptable(b, Run(b, t, schedule))
  {
    if schedule == [] {
      Pools.RunKeepsInv<Result<C.Voyage>>(|b.commands|, b.concurrency, []);
      forall i | 0 <= i < |b.commands|
        ensures Open(b, Run(b, t, schedule), i)
      {
        AcceptableMeans(b, t, i);
      }
    } else {
      var s, a := Run(b, t, schedule[..|schedule| - 1]), schedule[|schedule| - 1];
      SuitedSuffices(b, t, schedule[..|schedule| - 1]);
      if a.Commit? && a.worker in s.pool.held {
        CommitStaysAcceptable(b, t, s, a.worker);
      } else if !a.Commit? {
        OthersStayAcceptable(b, s, a);
      }
    }
  }

  // ---- And are needed ------------------------------------------------------------------------

  /** One worker takes and finishes the next n commands, one after the other. */
  function Rounds(prefix: seq<Action>, w: nat, n: nat): seq<Action> {
    if n == 0 then prefix else Rounds(prefix, w, n - 1) + [Take(w)] + [Commit(w)]
  }

  ghost predicate NeverRefused(b: Batch, t: Tables) {
    forall schedule :: NoneRefused(Run(b, t, schedule))
  }

  /** The tenant's clock stands at the declaration of the arrival. */
  ghost predicate ClockAt(b: Batch, s: State, eta: Instant) {
    forall later :: InOrder(s.tables, b.actor.tenantID, later) <==> eta - 12 * HOUR <= later
  }

  ghost predicate Idle(b: Batch, s: State, w: nat) {
    s.pool.phase.Feeding? && w < b.concurrency && w !in s.pool.held && |s.pool.results| == |b.commands|
  }

  lemma OneRound(b: Batch, t: Tables, schedule: seq<Action>, w: nat)
    requires NeverRefused(b, t)
    requires var s := Run(b, t, schedule); Idle(b, s, w) && s.pool.next < |b.commands| && Reachable(b.digests, s.tables)
    ensures
      var s, s' := Run(b, t, schedule), Run(b, t, schedule + [Take(w)] + [Commit(w)]);
      && Idle(b, s', w) && s'.pool.next == s.pool.next + 1 && s'.pool.held == s.pool.held
      && Outcome(b, s.tables, s.pool.next).Ok?
      && Reachable(b.digests, s'.tables) && ClockAt(b, s', b.commands[s.pool.next].eta)
  {
    var s := Run(b, t, schedule);
    RunAppend(b, t, schedule, Take(w));
    RunAppend(b, t, schedule + [Take(w)], Commit(w));
    var s1 := Run(b, t, schedule + [Take(w)]);
    var s' := Run(b, t, schedule + [Take(w)] + [Commit(w)]);
    assert s1.tables == s.tables && s1.pool.held == s.pool.held[w := s.pool.next];
    LastCallAccepted(b, s1, w, s');
    DeclarationSetsClock(b.digests, s.tables, b.actor, b.commands[s.pool.next]);
  }

  lemma LastCallAccepted(b: Batch, s: State, w: nat, s': State)
    requires w in s.pool.held && s.pool.held[w] < |b.commands| == |s.pool.results|
    requires s' == Next(b, s, Commit(w)) && NoneRefused(s')
    ensures Outcome(b, s.tables, s.pool.held[w]).Ok?
  {
    assert s'.pool.calls[|s.pool.calls|].1 == Answer(Outcome(b, s.tables, s.pool.held[w]));
  }

  /** Where n rounds of a worker lead. */
  ghost predicate After(b: Batch, s: State, s': State, w: nat, n: nat) {
    && Idle(b, s', w) && s'.pool.next == s.pool.next + n && s'.pool.held == s.pool.held && Reachable(b.digests, s'.tables)
    && (0 < n && s'.pool.next <= |b.commands| ==> ClockAt(b, s', b.commands[s'.pool.next - 1].eta))
  }

  lemma {:induction false} RoundsState(b: Batch, t: Tables, prefix: seq<Action>, w: nat, n: nat)
    requires NeverRefused(b, t)
    requires var s := Run(b, t, prefix); Idle(b, s, w) && s.pool.next + n <= |b.commands| && Reachable(b.digests, s.tables)
    ensures After(b, Run(b, t, prefix), Run(b, t, Rounds(prefix, w, n)), w, n)
  {
    if n > 0 {
      var front := Rounds(prefix, w, n - 1);
      RoundsState(b, t, prefix, w, n - 1);
      OneRound(b, t, front, w);
      assert Rounds(prefix, w, n) == front + [Take(w)] + [Commit(w)];
      OneMoreRound(b, Run(b, t, prefix), Run(b, t, front), Run(b, t, Rounds(prefix, w, n)), w, n - 1);
    }
  }

  lemma OneMoreRound(b: Batch, s: State, s1: State, s': State, w: nat, n: nat)
    requires After(b, s, s1, w, n) && s1.pool.next < |b.commands|
    requires Idle(b, s', w) && s'.pool.next == s1.pool.next + 1 && s'.pool.held == s1.pool.held
    requires Reachable(b.digests, s'.tables) && ClockAt(b, s', b.commands[s1.pool.next].eta)
    ensures After(b, s, s', w, n + 1)
  {
  }

  /** Served one by one, no command may arrive before the one in front of it. */
  lemma ArrivalsRise(b: Batch, t: Tables, k: nat)
    requires Acceptable(b, t) && NeverRefused(b, t) && b.concurrency > 0 && k + 1 < |b.commands|
    ensures b.commands[k].eta <= b.commands[k + 1].eta
  {
    ServedUpTo(b, t, k);
    NextServed(b, t, Rounds([], 0, k + 1), k);
  }

  lemma ServedUpTo(b: Batch, t: Tables, k: nat)
    requires Acceptable(b, t) && NeverRefused(b, t) && b.concurrency > 0 && k + 1 < |b.commands|
    ensures var s := Run(b, t, Rounds([], 0, k + 1));
            Idle(b, s, 0) && s.pool.next == k + 1 && Reachable(b.digests, s.tables) && ClockAt(b, s, b.commands[k].eta)
  {
    StartIsIdle(b, t);
    RoundsState(b, t, [], 0, k + 1);
  }

  lemma StartIsIdle(b: Batch, t: Tables)
    requires b.concurrency > 0
    ensures var s := Run(b, t, []); Idle(b, s, 0) && s.pool.next == 0 && s.pool.held == map[] && s.tables == t
  {
  }

  lemma NextServed(b: Batch, t: Tables, schedule: seq<Action>, k: nat)
    requires Acceptable(b, t) && NeverRefused(b, t) && k + 1 < |b.commands|
    requires var s := Run(b, t, schedule);
             Idle(b, s, 0) && s.pool.next == k + 1 && Reachable(b.digests, s.tables) && ClockAt(b, s, b.commands[k].eta)
    ensures b.commands[k].eta <= b.commands[k + 1].eta
  {
    OneRound(b, t, schedule, 0);
    AcceptableMeans(b, t, k + 1);
    DeclareIff(b.digests, Run(b, t, schedule).tables, b.actor, b.commands[k + 1]);
  }

  /** A second worker may serve all the others while the first still has its command. */
  lemma FirstArrivesLast(b: Batch, t: Tables)
    requires Acceptable(b, t) && NeverRefused(b, t) && b.concurrency > 1 && |b.commands| > 1
    ensures b.commands[|b.commands| - 1].eta <= b.commands[0].eta
  {
    OthersServed(b, t);
    HeldCommits(b, t, Rounds([] + [Take(0)], 1, |b.commands| - 1), b.commands[|b.commands| - 1].eta);
  }

  lemma OthersServed(b: Batch, t: Tables)
    requires Acceptable(b, t) && NeverRefused(b, t) && b.concurrency > 1 && |b.commands| > 1
    ensures var s := Run(b, t, Rounds([] + [Take(0)], 1, |b.commands| - 1));
            && 0 in s.pool.held && s.pool.held[0] == 0 && |s.pool.results| == |b.commands|
            && Reachable(b.digests, s.tables) && ClockAt(b, s, b.commands[|b.commands| - 1].eta)
  {
    var taken := [] + [Take(0)];
    RunAppend(b, t, [], Take(0));
    RoundsState(b, t, taken, 1, |b.commands| - 1);
  }

  /** The first worker's commit goes through only if its arrival is no earlier than the
      clock. */
  lemma HeldCommits(b: Batch, t: Tables, schedule: seq<Action>, eta: Instant)
    requires Acceptable(b, t) && NeverRefused(b, t) && |b.commands| > 0
    requires var s := Run(b, t, schedule);
             && 0 in s.pool.held && s.pool.held[0] == 0 && |s.pool.results| == |b.commands|
             && Reachable(b.digests, s.tables) && ClockAt(b, s, eta)
    ensures eta <= b.commands[0].eta
  {
    var s := Run(b, t, schedule);
    RunAppend(b, t, schedule, Commit(0));
    LastCallAccepted(b, s, 0, Run(b, t, schedule + [Commit(0)]));
    AcceptableMeans(b, t, 0);
    DeclareIff(b.digests, s.tables, b.actor, b.commands[0]);
  }

  lemma {:induction false} Rising(b: Batch, i: nat, k: nat)
    requires i <= k < |b.commands|
    requires forall j :: 0 <= j < |b.commands| - 1 ==> b.commands[j].eta <= b.commands[j + 1].eta
    ensures b.commands[i].eta <= b.commands[k].eta
  {
    if i < k {
      Rising(b, i, k - 1);
      assert b.commands[k - 1].eta <= b.commands[k - 1 + 1].eta;
    }
  }

  /** A batch whose commands would each go through by itself is declared without a refusal
      under every schedule exactly if its arrivals suit the pool: they never go back for one
      worker, and are all equal for several. */
  lemma BatchNeverRefusedIff(b: Batch, t: Tables)
    requires Acceptable(b, t) && b.concurrency > 0
    ensures NeverRefused(b, t) <==> Suited(b)
  {
    if Suited(b) {
      forall schedule
        ensures NoneRefused(Run(b, t, schedule))
      {
        SuitedSuffices(b, t, schedule);
      }
    }
    if NeverRefused(b, t) {
      ArrivalsSuit(b, t);
    }
  }

  lemma ArrivalsSuit(b: Batch, t: Tables)
    requires Acceptable(b, t) && NeverRefused(b, t) && b.concurrency > 0
    ensures Suited(b)
  {
    forall j | 0 <= j < |b.commands| - 1
      ensures b.commands[j].eta <= b.commands[j + 1].eta
    {
      ArrivalsRise(b, t, j);
    }
    forall i, k | 0 <= i <= k < |b.commands|
      ensures b.commands[i].eta <= b.commands[k].eta
    {
      Rising(b, i, k);
    }
    if b.concurrency > 1 && |b.commands| > 1 {
      FirstArrivesLast(b, t);
      AllEqual(b);
    }
  }

  lemma AllEqual(b: Batch)
    requires RisingArrivals(b) && |b.commands| > 1 && b.commands[|b.commands| - 1].eta <= b.commands[0].eta
    ensures EqualArrivals(b)
  {
    forall i | 0 <= i < |b.commands|
      ensures b.commands[i].eta == b.commands[0].eta
    {
      assert b.commands[0].eta <= b.commands[i].eta <= b.commands[|b.commands| - 1].eta;
    }
  }
}
