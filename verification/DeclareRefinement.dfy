/** One call of Declare, as the coordinator runs it, is a stretch of the idempotency
    protocol: its begin, whatever rivals do meanwhile, and its completion or failure. */
module DeclareRefinement {
  import opened Core
  import opened Idempotency
  import opened IdempotencyProtocol
  import opened Coordinator

  function RunFrom(s: System, tenant: string, key: string, actions: seq<Action>): System {
    if actions == [] then s
    else Next(RunFrom(s, tenant, key, actions[..|actions| - 1]), tenant, key, actions[|actions| - 1])
  }

  /** The repository call that an action makes, if it makes one. */
  function CallOf(s: System, tenant: string, key: string, a: Action): seq<Call> {
    match a
    case Call(c, operation, hash, now, ttl, staleAfter) =>
      var candidate := NewRecord(tenant, key, operation, hash, now, ttl);
      if c in s.holders || candidate.Err? then [] else [BeginCall(candidate.value, staleAfter)]
    case Finish(c, body, now) =>
      if c !in s.holders || Complete(s.holders[c], 201, body, now, s.holders[c].version).Err? then []
      else [CompleteCall(Complete(s.holders[c], 201, body, now, s.holders[c].version).value)]
    case Abort(c, message, now) =>
      if c !in s.holders || Fail(s.holders[c], message, now, s.holders[c].version).Err? then []
      else [FailCall(Fail(s.holders[c], message, now, s.holders[c].version).value)]
    case Crash(_) => []
  }

  function CallsOf(s: System, tenant: string, key: string, actions: seq<Action>): seq<Call> {
    if actions == [] then []
    else
      var front := actions[..|actions| - 1];
      CallsOf(s, tenant, key, front) + CallOf(RunFrom(s, tenant, key, front), tenant, key, actions[|actions| - 1])
  }

  /** All records concern the one key. */
  ghost predicate OneKey(s: System, k: RowKey) {
    && (s.row.Some? ==> (s.row.value.tenantID, s.row.value.key) == k)
    && forall c :: c in s.holders ==> (s.holders[c].tenantID, s.holders[c].key) == k
  }

  function KeyOf(tenant: string, key: string): RowKey { (TrimSpace(tenant), TrimSpace(key)) }

  lemma StepFollowsCall(s: System, tenant: string, key: string, a: Action)
    requires OneKey(s, KeyOf(tenant, key))
    ensures OneKey(Next(s, tenant, key, a), KeyOf(tenant, key))
    ensures Next(s, tenant, key, a).row == CallsOn(s.row, KeyOf(tenant, key), CallOf(s, tenant, key, a))
  {
    var calls := CallOf(s, tenant, key, a);
    if calls != [] {
      assert calls == [calls[0]] && calls[..0] == [];
    }
  }

  lemma {:induction false} CallsOnAppend(row: Row, k: RowKey, a: seq<Call>, b: seq<Call>)
    ensures CallsOn(row, k, a + b) == CallsOn(CallsOn(row, k, a), k, b)
  {
    if b == [] {
      assert a + b == a;
    } else {
      assert (a + b)[..|a + b| - 1] == a + b[..|b| - 1];
      CallsOnAppend(row, k, a, b[..|b| - 1]);
    }
  }

  /** The row sees of the rivals exactly the calls they make. */
  lemma {:induction false} RowFollowsCalls(s: System, tenant: string, key: string, actions: seq<Action>)
    requires OneKey(s, KeyOf(tenant, key))
    ensures OneKey(RunFrom(s, tenant, key, actions), KeyOf(tenant, key))
    ensures RunFrom(s, tenant, key, actions).row == CallsOn(s.row, KeyOf(tenant, key), CallsOf(s, tenant, key, actions))
  {
    if actions != [] {
      var front := actions[..|actions| - 1];
      RowFollowsCalls(s, tenant, key, front);
      StepFollowsCall(RunFrom(s, tenant, key, front), tenant, key, actions[|actions| - 1]);
      CallsOnAppend(s.row, KeyOf(tenant, key), CallsOf(s, tenant, key, front),
                    CallOf(RunFrom(s, tenant, key, front), tenant, key, actions[|actions| - 1]));
    }
  }

  lemma {:induction false} ReachableOneKey(tenant: string, key: string, actions: seq<Action>)
    ensures OneKey(Run(tenant, key, actions), KeyOf(tenant, key))
  {
    if actions != [] {
      ReachableOneKey(tenant, key, actions[..|actions| - 1]);
      StepFollowsCall(Run(tenant, key, actions[..|actions| - 1]), tenant, key, actions[|actions| - 1]);
    }
  }

  predicate Concerns(a: Action, c: string) { a.client == c }

  lemma {:induction false} RivalsLeaveHolder(s: System, tenant: string, key: string, actions: seq<Action>, c: string)
    requires forall a :: a in actions ==> !Concerns(a, c)
    ensures var s' := RunFrom(s, tenant, key, actions);
            (c in s.holders <==> c in s'.holders) && (c in s.holders ==> s'.holders[c] == s.holders[c])
  {
    if actions != [] {
      RivalsLeaveHolder(s, tenant, key, actions[..|actions| - 1], c);
      assert actions[|actions| - 1] in actions && actions[|actions| - 1].client != c;
    }
  }

  /** The last step of a client that was told to start: it completes or fails. */
  function LastStep(c: string, outcome: Outcome, later: Instant): Action {
    match outcome
    case Succeeded(response) => Finish(c, response, later)
    case Refused(_, message) => Abort(c, message, later)
  }

  /** The last step of a client that holds a record settles the row as Declare does. */
  lemma LastStepSettles(s: System, tenant: string, key: string, c: string, outcome: Outcome, later: Instant)
    requires c in s.holders
    ensures
      var s' := Next(s, tenant, key, LastStep(c, outcome, later));
      var (reply, row) := Settle(s.row, s.holders[c], outcome, later);
      && row == s'.row
      && (reply.Ok? ==> s'.answers == s.answers + [Answer(s.span, s.holders[c].requestHash, reply.value)])
      && (reply.Err? ==> s'.answers == s.answers)
  {
  }

  /** What Declare answers and leaves in the table is what the protocol does: same row,
      and a reply of the workflow is recorded as an answer of the current span. */
  lemma DeclareRefinesProtocol(tenant: string, key: string, history: seq<Action>, call: Action, rivals: seq<Action>,
                               outcome: Outcome, later: Instant)
    requires call.Call? && call.client !in Run(tenant, key, history).holders
    requires NewRecord(tenant, key, call.operation, call.requestHash, call.now, call.ttl).Ok?
    requires Begin(Run(tenant, key, history).row,
                   NewRecord(tenant, key, call.operation, call.requestHash, call.now, call.ttl).value, call.staleAfter).Ok?
    requires Begin(Run(tenant, key, history).row,
                   NewRecord(tenant, key, call.operation, call.requestHash, call.now, call.ttl).value, call.staleAfter).value.0.Start?
    requires forall a :: a in rivals ==> !Concerns(a, call.client)
    ensures
      var s := Run(tenant, key, history);
      var candidate := NewRecord(tenant, key, call.operation, call.requestHash, call.now, call.ttl).value;
      var s1 := Next(s, tenant, key, call);
      var s2 := RunFrom(s1, tenant, key, rivals);
      var s3 := Next(s2, tenant, key, LastStep(call.client, outcome, later));
      var (reply, row) := DeclareSpec(s.row, candidate, call.staleAfter, CallsOf(s1, tenant, key, rivals), outcome, later);
      && row == s3.row
      && (reply.Ok? <==> |s3.answers| > |s2.answers|)
      && (reply.Ok? ==> s3.answers == s2.answers + [Answer(s2.span, s1.holders[call.client].requestHash, reply.value)])
  {
    var s := Run(tenant, key, history);
    var s1 := Next(s, tenant, key, call);
    ReachableOneKey(tenant, key, history);
    StepFollowsCall(s, tenant, key, call);
    RowFollowsCalls(s1, tenant, key, rivals);
    RivalsLeaveHolder(s1, tenant, key, rivals, call.client);
    LastStepSettles(RunFrom(s1, tenant, key, rivals), tenant, key, call.client, outcome, later);
  }

  /** A call that is not told to start leaves the row alone, and answers exactly if it
      replays, with the reply that the protocol records. */
  lemma DeclareWithoutStart(tenant: string, key: string, s: System, call: Action, rivals: seq<Call>, outcome: Outcome, later: Instant)
    requires call.Call? && call.client !in s.holders
    requires NewRecord(tenant, key, call.operation, call.requestHash, call.now, call.ttl).Ok?
    requires
      var begun := Begin(s.row, NewRecord(tenant, key, call.operation, call.requestHash, call.now, call.ttl).value, call.staleAfter);
      begun.Ok? ==> !begun.value.0.Start?
    ensures
      var candidate := NewRecord(tenant, key, call.operation, call.requestHash, call.now, call.ttl).value;
      var s' := Next(s, tenant, key, call);
      var (reply, row) := DeclareSpec(s.row, candidate, call.staleAfter, rivals, outcome, later);
      && row == s.row && s'.row == s.row && s'.holders == s.holders
      && (reply.Ok? ==> s'.answers == s.answers + [Answer(s.span, candidate.requestHash, reply.value)])
      && (reply.Err? ==> s' == s)
  {
    var candidate := NewRecord(tenant, key, call.operation, call.requestHash, call.now, call.ttl).value;
    assert Begin(s.row, candidate, call.staleAfter).Ok? ==> s.row.Some?;
  }
}
