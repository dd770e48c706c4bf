/** The pool of goroutines that takes indices from a channel and writes each outcome into
    a shared slice, with cancellation (internal/notification/dispatcher.go,
    internal/service/batch.go). */
module WorkerPool {
  import opened Core

  /** What a slot of the result slice holds in the end: the outcome of the one call made
      for that index, or the note that the context was cancelled first. */
  datatype Slot<R> = Done(outcome: R) | NotStarted

  datatype Phase = Feeding | Draining(cancelled: bool) | Returned(cancelled: bool)

  datatype Pool<R> = Pool(
    phase: Phase,
    next: nat,                          // indices handed out so far
    held: map<nat, nat>,                // index that each busy worker is working on
    results: seq<Option<Slot<R>>>,
    calls: seq<(nat, R)>)               // completed calls, in order of completion

  datatype Action<R> = Take(worker: nat) | Finish(worker: nat, outcome: R) | Cancel | Close | Return

  const DISPATCH_LIMIT: nat := 32
  const BATCH_LIMIT: nat := 16

  function Concurrency(asked: int, limit: nat): int {
    if asked <= 0 then 4 else if asked > limit then limit else asked
  }

  function Start<R>(n: nat): Pool<R> {
    Pool(Feeding, 0, map[], seq(n, _ => None), [])
  }

  /** One step; what is not possible in the state changes nothing. */
  function Next<R>(p: Pool<R>, concurrency: int, a: Action<R>): Pool<R> {
    match a
    case Take(w) =>
      if p.phase.Feeding? && p.next < |p.results| && w < concurrency && w !in p.held
      then p.(next := p.next + 1, held := p.held[w := p.next]) else p
    case Finish(w, outcome) =>
      if w in p.held && p.held[w] < |p.results|
      then p.(held := p.held - {w}, results := p.results[p.held[w] := Some(Done(outcome))], calls := p.calls + [(p.held[w], outcome)])
      else p
    case Cancel => if p.phase.Feeding? && p.next < |p.results| then p.(phase := Draining(true)) else p
    case Close => if p.phase.Feeding? && p.next == |p.results| then p.(phase := Draining(false)) else p
    case Return =>
      if p.phase.Draining? && p.held == map[] then
        p.(phase := Returned(p.phase.cancelled),
           results := seq(|p.results|, i requires 0 <= i < |p.results| =>
                          if p.phase.cancelled && i >= p.next then Some(NotStarted) else p.results[i]))
      else p
  }

  function Run<R>(n: nat, concurrency: int, actions: seq<Action<R>>): Pool<R> {
    if actions == [] then Start(n)
    else Next(Run(n, concurrency, actions[..|actions| - 1]), concurrency, actions[|actions| - 1])
  }

  // ---- Invariant -------------------------------------------------------------------

  predicate Called<R(==)>(p: Pool<R>, i: nat) { exists k :: 0 <= k < |p.calls| && p.calls[k].0 == i }

  /** Every index is untouched, in the hands of exactly one worker, or called for exactly
      once with the outcome in its slot. */
  ghost predicate Inv<R(!new)>(p: Pool<R>, n: nat, concurrency: int) {
    && |p.results| == n && p.next <= n
    && (forall w :: w in p.held ==> w < concurrency && p.held[w] < p.next)
    && (forall v, w :: v in p.held && w in p.held && v != w ==> p.held[v] != p.held[w])
    && (forall k :: 0 <= k < |p.calls| ==>
          p.calls[k].0 < p.next && p.results[p.calls[k].0] == Some(Done(p.calls[k].1)) && forall w :: w in p.held ==> p.held[w] != p.calls[k].0)
    && (forall j, k :: 0 <= j < k < |p.calls| ==> p.calls[j].0 != p.calls[k].0)
    && (forall i: nat :: i < p.next ==> (exists w :: w in p.held && p.held[w] == i) || Called(p, i))
    && (p.phase.Draining? && !p.phase.cancelled ==> p.next == n)
    && (p.phase.Returned? ==>
          && p.held == map[] && (!p.phase.cancelled ==> p.next == n)
          && forall i :: p.next <= i < n ==> p.results[i] == Some(NotStarted))
  }

  lemma TakeKeepsInv<R(!new)>(p: Pool<R>, n: nat, concurrency: int, w: nat)
    requires Inv(p, n, concurrency)
    ensures Inv(Next(p, concurrency, Take(w)), n, concurrency)
  {
    var p' := Next(p, concurrency, Take(w));
    forall i: nat | i < p'.next
      ensures (exists v :: v in p'.held && p'.held[v] == i) || Called(p', i)
    {
      if i < p.next {
        if v :| v in p.held && p.held[v] == i {
          assert v in p'.held && p'.held[v] == i;
        } else {
          assert Called(p, i);
        }
      } else {
        assert w in p'.held && p'.held[w] == i;
      }
    }
  }

  lemma FinishKeepsInv<R(!new)>(p: Pool<R>, n: nat, concurrency: int, w: nat, outcome: R)
    requires Inv(p, n, concurrency)
    ensures Inv(Next(p, concurrency, Finish(w, outcome)), n, concurrency)
  {
    var p' := Next(p, concurrency, Finish(w, outcome));
    forall i: nat | i < p'.next
      ensures (exists v :: v in p'.held && p'.held[v] == i) || Called(p', i)
    {
      if Called(p, i) {
        var k :| 0 <= k < |p.calls| && p.calls[k].0 == i;
        assert p'.calls[k].0 == i;
      } else {
        var v :| v in p.held && p.held[v] == i;
        if v == w {
          assert p'.calls[|p.calls|].0 == i;
        } else {
          assert v in p'.held && p'.held[v] == i;
        }
      }
    }
  }

  lemma {:induction false} RunKeepsInv<R(!new)>(n: nat, concurrency: int, actions: seq<Action<R>>)
    ensures Inv(Run(n, concurrency, actions), n, concurrency)
  {
    if actions != [] {
      var p, a := Run(n, concurrency, actions[..|actions| - 1]), actions[|actions| - 1];
      RunKeepsInv(n, concurrency, actions[..|actions| - 1]);
      match a
      case Take(w) => TakeKeepsInv(p, n, concurrency, w);
      case Finish(w, outcome) => FinishKeepsInv(p, n, concurrency, w, outcome);
      case _ => SignalKeepsInv(p, n, concurrency, a);
    }
  }

  lemma SignalKeepsInv<R(!new)>(p: Pool<R>, n: nat, concurrency: int, a: Action<R>)
    requires Inv(p, n, concurrency) && (a.Cancel? || a.Close? || a.Return?)
    ensures Inv(Next(p, concurrency, a), n, concurrency)
  {
    var p' := Next(p, concurrency, a);
    assert p'.calls == p.calls && p'.held == p.held;
    assert forall i: nat :: Called(p, i) <==> Called(p', i);
  }

  // ---- Results -----------------------------------------------------------------------

  /** The slot carries the outcome of a call made for this very index. */
  ghost predicate HoldsItsCall<R(!new)>(p: Pool<R>, i: nat)
    requires i < |p.results|
  {
    exists k :: 0 <= k < |p.calls| && p.calls[k].0 == i && p.results[i] == Some(Done(p.calls[k].1))
  }

  /** When the pool returns, a prefix of the slots holds the outcome of the one call made
      for each index, the others say they were never started, and without cancellation
      the prefix is everything. */
  lemma ResultsAreComplete<R(!new)>(n: nat, concurrency: int, actions: seq<Action<R>>)
    requires Run(n, concurrency, actions).phase.Returned?
    ensures
      var p := Run(n, concurrency, actions);
      && |p.results| == n && p.next <= n
      && (forall k :: 0 <= k < |p.calls| ==> p.calls[k].0 < n)
      && (forall i: nat :: i < p.next ==> HoldsItsCall(p, i))
      && (forall i: nat :: p.next <= i < n ==> p.results[i] == Some(NotStarted) && !Called(p, i))
      && (forall j, k :: 0 <= j < k < |p.calls| ==> p.calls[j].0 != p.calls[k].0)
      && (!p.phase.cancelled ==> p.next == n)
  {
    RunKeepsInv(n, concurrency, actions);
    var p := Run(n, concurrency, actions);
    forall i: nat | i < p.next
      ensures HoldsItsCall(p, i)
    {
      assert Called(p, i);
      var k :| 0 <= k < |p.calls| && p.calls[k].0 == i;
    }
  }

  /** No more calls run at once than the pool has workers. */
  lemma ConcurrencyBounded<R(!new)>(n: nat, concurrency: nat, actions: seq<Action<R>>)
    ensures |Run(n, concurrency, actions).held| <= concurrency
  {
    RunKeepsInv(n, concurrency, actions);
    var held := Run(n, concurrency, actions).held;
    BelowIsFull(concurrency);
    assert held.Keys <= Below(concurrency);
    assert Below(concurrency) == held.Keys + (Below(concurrency) - held.Keys);
  }

  /** The pool has at least one worker, and whatever is asked for, no more calls run at
      once than the limit: 32 notifications, or 16 declarations of a batch. */
  lemma LimitsHold<R(!new)>(n: nat, asked: int, limit: nat, actions: seq<Action<R>>)
    requires limit == DISPATCH_LIMIT || limit == BATCH_LIMIT
    ensures DISPATCH_LIMIT == 32 && BATCH_LIMIT == 16
    ensures Concurrency(asked, limit) == if asked < 1 then 4 else if asked <= limit then asked else limit
    ensures |Run(n, Concurrency(asked, limit), actions).held| <= limit
    ensures 0 < asked ==> |Run(n, Concurrency(asked, limit), actions).held| <= asked
  {
    ConcurrencyBounded(n, Concurrency(asked, limit), actions);
  }

  function Below(n: nat): set<nat> {
    if n == 0 then {} else Below(n - 1) + {n - 1}
  }

  lemma {:induction false} BelowIsFull(n: nat)
    ensures |Below(n)| == n && forall w: nat :: w in Below(n) <==> w < n
  {
    if n > 0 {
      BelowIsFull(n - 1);
    }
  }

  // ---- Progress ----------------------------------------------------------------------

  function RunOn<R>(p: Pool<R>, concurrency: int, actions: seq<Action<R>>): Pool<R>
    decreases |actions|
  {
    if actions == [] then p else RunOn(Next(p, concurrency, actions[0]), concurrency, actions[1..])
  }

  lemma FirstThen<R(!new)>(p: Pool<R>, concurrency: int, a: Action<R>, rest: seq<Action<R>>)
    ensures RunOn(p, concurrency, [a] + rest) == RunOn(Next(p, concurrency, a), concurrency, rest)
  {
    assert ([a] + rest)[0] == a && ([a] + rest)[1..] == rest;
  }

  /** What an idle worker, a busy worker and the feeder do next: take the next index, write
      the outcome into the slot of the index held, close when nothing is left, and return
      when nobody is busy. */
  ghost function NextAction<R>(p: Pool<R>, outcome: R): Action<R> {
    if p.held != map[] then Finish(AnyOf(p.held.Keys), outcome)
    else if p.phase.Feeding? then (if p.next < |p.results| then Take(0) else Close)
    else Return
  }

  ghost function AnyOf(s: set<nat>): (x: nat)
    requires s != {}
    ensures x in s
  {
    var x :| x in s; x
  }

  function Left<R>(p: Pool<R>): int {
    2 * (|p.results| - p.next) + |p.held| + match p.phase case Feeding => 2 case Draining(_) => 1 case Returned(_) => 0
  }

  lemma ActionAdvances<R(!new)>(p: Pool<R>, n: nat, concurrency: int, outcome: R)
    requires Inv(p, n, concurrency) && concurrency >= 1 && !p.phase.Returned?
    ensures
      var p' := Next(p, concurrency, NextAction(p, outcome));
      && Inv(p', n, concurrency) && 0 <= Left(p') < Left(p)
      && (Uncancelled(p) ==> Uncancelled(p'))
  {
    var a := NextAction(p, outcome);
    match a
    case Finish(w, _) =>
      FinishKeepsInv(p, n, concurrency, w, outcome);
      FinishAdvances(p, concurrency, w, outcome);
    case Take(w) =>
      TakeKeepsInv(p, n, concurrency, w);
      TakeAdvances(p, concurrency, w);
    case _ => SignalKeepsInv(p, n, concurrency, a);
  }

  lemma FinishAdvances<R(!new)>(p: Pool<R>, concurrency: int, w: nat, outcome: R)
    requires w in p.held && p.held[w] < |p.results| && p.next <= |p.results|
    ensures var p' := Next(p, concurrency, Finish(w, outcome)); 0 <= Left(p') < Left(p) && p'.phase == p.phase
  {
    assert p.held.Keys == (p.held - {w}).Keys + {w};
    assert |p.held.Keys| == |(p.held - {w}).Keys| + 1;
  }

  lemma TakeAdvances<R(!new)>(p: Pool<R>, concurrency: int, w: nat)
    requires p.phase.Feeding? && p.next < |p.results| && w < concurrency && w !in p.held
    ensures var p' := Next(p, concurrency, Take(w)); 0 <= Left(p') < Left(p) && p'.phase == p.phase
  {
  }

  predicate Uncancelled<R>(p: Pool<R>) { p.phase.Feeding? || !p.phase.cancelled }

  /** The pool never gets stuck: from whatever it has come to, its workers can bring it to
      return, and unless it was cancelled every index then has its outcome. */
  lemma {:induction false} CanReturn<R(!new)>(p: Pool<R>, n: nat, concurrency: int, outcome: R) returns (actions: seq<Action<R>>)
    requires Inv(p, n, concurrency) && concurrency >= 1
    ensures var last := RunOn(p, concurrency, actions);
            && last.phase.Returned? && Inv(last, n, concurrency)
            && (Uncancelled(p) ==> !last.phase.cancelled && forall i: nat :: i < n ==> Called(last, i))
    decreases if p.phase.Returned? then 0 else Left(p) + 1
  {
    if p.phase.Returned? {
      actions := [];
    } else {
      var a := NextAction(p, outcome);
      ActionAdvances(p, n, concurrency, outcome);
      var rest := CanReturn(Next(p, concurrency, a), n, concurrency, outcome);
      FirstThen(p, concurrency, a, rest);
      actions := [a] + rest;
    }
  }

  /** No schedule leads the pool into a state that it cannot finish from. */
  lemma NeverStuck<R(!new)>(n: nat, concurrency: int, sofar: seq<Action<R>>, outcome: R)
    requires concurrency >= 1
    ensures exists actions: seq<Action<R>> :: Finishes(Run(n, concurrency, sofar), concurrency, actions)
  {
    RunKeepsInv(n, concurrency, sofar);
    var actions := CanReturn(Run(n, concurrency, sofar), n, concurrency, outcome);
    assert Finishes(Run(n, concurrency, sofar), concurrency, actions);
  }

  ghost predicate Finishes<R(!new)>(p: Pool<R>, concurrency: int, actions: seq<Action<R>>) {
    var last := RunOn(p, concurrency, actions);
    last.phase.Returned? && (Uncancelled(p) ==> !last.phase.cancelled && forall i: nat :: i < |p.results| ==> Called(last, i))
  }

  // ---- Batches -----------------------------------------------------------------------

  const MAXIMUM_BATCH := 100

  /** The checks of DeclareBatch on the voyage ids of its commands. */
  method CheckBatch(ids: seq<string>) returns (r: Result<()>)
    ensures r.Ok? <==> 1 <= |ids| <= 100 && NoRepeats(ids) && "" !in ids
    ensures r.Err? && r.error.Conflict? ==> !NoRepeats(ids)
  {
    if |ids| == 0 || |ids| > MAXIMUM_BATCH {
      return Err(Invalid);
    }
    var seen: set<string> := {};
    for i := 0 to |ids|
      invariant forall k :: k in seen <==> k in ids[..i]
      invariant NoRepeats(ids[..i]) && "" !in ids[..i]
    {
      assert ids[..i + 1] == ids[..i] + [ids[i]];
      if ids[i] == "" {
        return Err(Invalid);
      }
      if ids[i] in seen {
        var j :| 0 <= j < i && ids[..i][j] == ids[i];
        assert ids[j] == ids[i];
        return Err(Conflict);
      }
      seen := seen + {ids[i]};
    }
    assert ids[..|ids|] == ids;
    return Ok(());
  }
}
