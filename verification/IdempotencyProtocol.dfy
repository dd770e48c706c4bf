/** Any number of clients declaring under one tenant and key, interleaved at the calls
    to the repository (internal/service/coordinator.go over internal/store/idempotency.go). */
module IdempotencyProtocol {
  import opened Core
  import opened Idempotency

  /** A response, the request it answers, and the span it belongs to. A span runs from
      one insertion or expiry reset of the record to the next. */
  datatype Answer = Answer(span: nat, requestHash: string, body: string)

  datatype System = System(
    row: Row,
    holders: map<string, Record>,   // clients between Begin and Complete or Fail
    span: nat,                      // resets of the record so far
    starts: seq<int>,               // versions handed out with a Start decision
    completions: seq<Answer>,       // completions stored
    answers: seq<Answer>)           // successful replies of Declare

  const INITIAL := System(None, map[], 0, [], [], [])

  datatype Action =
    | Call(client: string, operation: string, requestHash: string, now: Instant, ttl: Duration, staleAfter: Duration)
    | Finish(client: string, body: string, now: Instant)
    | Abort(client: string, message: string, now: Instant)
    | Crash(client: string)

  /** Declare up to and including BeginIdempotent. */
  function DoCall(s: System, tenant: string, key: string, a: Action): System
    requires a.Call?
  {
    var candidate := NewRecord(tenant, key, a.operation, a.requestHash, a.now, a.ttl);
    if a.client in s.holders || candidate.Err? then s
    else
      var begun := Begin(s.row, candidate.value, a.staleAfter);
      if begun.Err? then s
      else
        var (decision, stored, row) := begun.value;
        match decision
        case Start =>
          s.(row := row, holders := s.holders[a.client := stored], starts := s.starts + [stored.version],
             span := if Vacant(s.row, a.now) then s.span + 1 else s.span)
        case Replay => s.(answers := s.answers + [Answer(s.span, candidate.value.requestHash, stored.responseBody)])
        case _ => s
  }

  /** Declare after the workflow succeeded: complete and store the completion. */
  function DoFinish(s: System, a: Action): System
    requires a.Finish?
  {
    if a.client !in s.holders then s
    else
      var stored, s' := s.holders[a.client], s.(holders := s.holders - {a.client});
      var completed := Complete(stored, 201, a.body, a.now, stored.version);
      if completed.Err? then s'
      else
        var row := StoreCompletion(s.row, completed.value);
        if row.Err? then s'
        else
          var answer := Answer(s.span, stored.requestHash, a.body);
          s'.(row := row.value, completions := s.completions + [answer], answers := s.answers + [answer])
  }

  /** Declare after the workflow failed. */
  function DoAbort(s: System, a: Action): System
    requires a.Abort?
  {
    if a.client !in s.holders then s
    else
      var stored, s' := s.holders[a.client], s.(holders := s.holders - {a.client});
      var failed := Fail(stored, a.message, a.now, stored.version);
      if failed.Err? then s'
      else
        var row := StoreFailure(s.row, failed.value);
        if row.Err? then s' else s'.(row := row.value)
  }

  function Next(s: System, tenant: string, key: string, a: Action): System {
    match a
    case Call(_, _, _, _, _, _) => DoCall(s, tenant, key, a)
    case Finish(_, _, _) => DoFinish(s, a)
    case Abort(_, _, _) => DoAbort(s, a)
    case Crash(client) => s.(holders := s.holders - {client})
  }

  function Run(tenant: string, key: string, actions: seq<Action>): System {
    if actions == [] then INITIAL
    else Next(Run(tenant, key, actions[..|actions| - 1]), tenant, key, actions[|actions| - 1])
  }

  // ---- Invariant ---------------------------------------------------------------

  /** Versions handed out rise strictly and never exceed the row's version, which is the
      last one handed out exactly while the row is being processed. */
  ghost predicate VersionsOk(s: System) {
    && (forall i, j :: 0 <= i < j < |s.starts| ==> s.starts[i] < s.starts[j])
    && (s.row.None? ==> s.starts == [] && s.holders == map[] && s.span == 0)
    && (s.row.Some? ==>
          && s.starts != [] && s.starts[0] >= 1
          && s.starts[|s.starts| - 1] <= s.row.value.version
          && (s.row.value.status.Processing? <==> s.starts[|s.starts| - 1] == s.row.value.version))
  }

  /** A client holds a version that was handed out to it alone, and its record equals
      the row as long as the versions agree. */
  ghost predicate HoldersOk(s: System) {
    && (forall c :: c in s.holders ==>
          && s.holders[c].status.Processing? && s.holders[c].version in s.starts
          && (s.row.Some? && s.holders[c].version == s.row.value.version ==> s.row == Some(s.holders[c])))
    && (forall c, e :: c in s.holders && e in s.holders && s.holders[c].version == s.holders[e].version ==> c == e)
  }

  /** Completions are one per span, the current span has one exactly when the row is
      completed, and replies repeat the completion of their span. */
  ghost predicate CompletionsOk(s: System) {
    && (forall i :: 0 <= i < |s.completions| ==> s.completions[i].span <= s.span)
    && (forall i, j :: 0 <= i < j < |s.completions| ==> s.completions[i].span < s.completions[j].span)
    && (s.row.None? ==> s.completions == [])
    && (s.row.Some? && s.row.value.status.Completed? ==>
          s.completions != [] &&
          s.completions[|s.completions| - 1] == Answer(s.span, s.row.value.requestHash, s.row.value.responseBody))
    && (s.row.Some? && !s.row.value.status.Completed? ==>
          forall i :: 0 <= i < |s.completions| ==> s.completions[i].span < s.span)
    && (forall a :: a in s.answers ==> a in s.completions)
  }

  ghost predicate Inv(s: System) { VersionsOk(s) && HoldersOk(s) && CompletionsOk(s) }

  lemma StartsBounded(s: System)
    requires VersionsOk(s)
    ensures forall v :: v in s.starts ==> s.row.Some? && v <= s.row.value.version
    ensures s.row.Some? && !s.row.value.status.Processing? ==> forall v :: v in s.starts ==> v < s.row.value.version
  {
  }

  lemma CallKeepsVersions(s: System, tenant: string, key: string, a: Action)
    requires VersionsOk(s) && a.Call?
    ensures VersionsOk(DoCall(s, tenant, key, a))
  {
    StartsBounded(s);
  }

  /** A call that is told to start holds a record equal to the row, under a version above
      all handed out before; any other call leaves row and holders alone. */
  lemma CallStarts(s: System, tenant: string, key: string, a: Action)
    requires VersionsOk(s) && a.Call?
    ensures
      var s' := DoCall(s, tenant, key, a);
      || (s'.row == s.row && s'.holders == s.holders && s'.starts == s.starts)
      || exists stored :: Started(s, s', a.client, stored)
  {
    StartsBounded(s);
    var s' := DoCall(s, tenant, key, a);
    if s'.starts != s.starts {
      assert Started(s, s', a.client, s'.row.value);
    }
  }

  predicate Started(s: System, s': System, c: string, stored: Record) {
    && c !in s.holders && stored.status.Processing?
    && s'.row == Some(stored) && s'.holders == s.holders[c := stored] && s'.starts == s.starts + [stored.version]
    && forall v :: v in s.starts ==> v < stored.version
  }

  lemma CallKeepsHolders(s: System, tenant: string, key: string, a: Action)
    requires VersionsOk(s) && HoldersOk(s) && a.Call?
    ensures HoldersOk(DoCall(s, tenant, key, a))
  {
    CallStarts(s, tenant, key, a);
    var s' := DoCall(s, tenant, key, a);
    if stored :| Started(s, s', a.client, stored) {
      StartKeepsHolders(s, s', a.client, stored);
    }
  }

  lemma StartKeepsHolders(s: System, s': System, c: string, stored: Record)
    requires HoldersOk(s) && Started(s, s', c, stored)
    ensures HoldersOk(s')
  {
    assert forall v :: v in s'.starts <==> v in s.starts || v == stored.version;
  }

  lemma CallKeepsCompletions(s: System, tenant: string, key: string, a: Action)
    requires VersionsOk(s) && CompletionsOk(s) && a.Call?
    ensures CompletionsOk(DoCall(s, tenant, key, a))
  {
  }

  lemma CallKeepsInv(s: System, tenant: string, key: string, a: Action)
    requires Inv(s) && a.Call?
    ensures Inv(DoCall(s, tenant, key, a))
  {
    CallKeepsVersions(s, tenant, key, a);
    CallKeepsHolders(s, tenant, key, a);
    CallKeepsCompletions(s, tenant, key, a);
  }

  lemma FinishKeepsInv(s: System, a: Action)
    requires Inv(s) && a.Finish?
    ensures Inv(DoFinish(s, a))
  {
    StartsBounded(s);
    FinishKeepsCompletions(s, a);
  }

  lemma FinishKeepsCompletions(s: System, a: Action)
    requires Inv(s) && a.Finish?
    ensures CompletionsOk(DoFinish(s, a))
  {
    var s' := DoFinish(s, a);
    if s'.completions != s.completions {
      var answer := s'.completions[|s.completions|];
      assert s'.completions == s.completions + [answer] && s'.answers == s.answers + [answer];
      assert s.row == Some(s.holders[a.client]);
    }
  }

  lemma AbortKeepsInv(s: System, a: Action)
    requires Inv(s) && a.Abort?
    ensures Inv(DoAbort(s, a))
  {
    assert forall v :: v in s.starts ==> s.row.Some? && v <= s.row.value.version;
  }

  lemma NextKeepsInv(s: System, tenant: string, key: string, a: Action)
    requires Inv(s)
    ensures Inv(Next(s, tenant, key, a))
  {
    match a
    case Call(_, _, _, _, _, _) => CallKeepsInv(s, tenant, key, a);
    case Finish(_, _, _) => FinishKeepsInv(s, a);
    case Abort(_, _, _) => AbortKeepsInv(s, a);
    case Crash(_) =>
  }

  lemma {:induction false} RunKeepsInv(tenant: string, key: string, actions: seq<Action>)
    ensures Inv(Run(tenant, key, actions))
  {
    if actions != [] {
      RunKeepsInv(tenant, key, actions[..|actions| - 1]);
      NextKeepsInv(Run(tenant, key, actions[..|actions| - 1]), tenant, key, actions[|actions| - 1]);
    }
  }

  // ---- Results -----------------------------------------------------------------

  /** Start decisions hand out pairwise distinct versions. */
  lemma StartsAreDistinct(tenant: string, key: string, actions: seq<Action>)
    ensures NoRepeats(Run(tenant, key, actions).starts)
  {
    RunKeepsInv(tenant, key, actions);
  }

  /** Only the one client that holds the row's current version can complete or fail it;
      everyone else's attempt leaves the row as it was. */
  lemma OnlyCurrentHolderSettles(tenant: string, key: string, actions: seq<Action>, a: Action)
    requires a.Finish? || a.Abort?
    ensures
      var s := Run(tenant, key, actions);
      Next(s, tenant, key, a).row != s.row ==>
        && a.client in s.holders && s.row == Some(s.holders[a.client])
        && forall c :: c in s.holders && c != a.client ==> s.holders[c].version < s.row.value.version
  {
    var s := Run(tenant, key, actions);
    RunKeepsInv(tenant, key, actions);
    assert forall v :: v in s.starts ==> s.row.Some? && v <= s.row.value.version;
  }

  /** At most one completion is stored in a span. */
  lemma OneCompletionPerSpan(tenant: string, key: string, actions: seq<Action>)
    ensures var completions := Run(tenant, key, actions).completions;
            forall i, j :: 0 <= i < j < |completions| ==> completions[i].span != completions[j].span
  {
    RunKeepsInv(tenant, key, actions);
  }

  /** All successful replies of a span, started or replayed, carry one response to one
      and the same request. */
  lemma AnswersAgree(tenant: string, key: string, actions: seq<Action>, a: Answer, b: Answer)
    requires a in Run(tenant, key, actions).answers && b in Run(tenant, key, actions).answers
    requires a.span == b.span
    ensures a == b
  {
    var s := Run(tenant, key, actions);
    RunKeepsInv(tenant, key, actions);
    var i :| 0 <= i < |s.completions| && s.completions[i] == a;
    var j :| 0 <= j < |s.completions| && s.completions[j] == b;
  }

  /** Once completed, the row stays put for the rest of its span. */
  lemma CompletedIsFinal(tenant: string, key: string, actions: seq<Action>, a: Action)
    requires var row := Run(tenant, key, actions).row; row.Some? && row.value.status.Completed?
    ensures
      var s := Run(tenant, key, actions);
      var s' := Next(s, tenant, key, a);
      s'.span == s.span ==> s'.row == s.row
  {
    RunKeepsInv(tenant, key, actions);
    CompletedStays(Run(tenant, key, actions), tenant, key, a);
  }

  lemma CompletedStays(s: System, tenant: string, key: string, a: Action)
    requires Inv(s) && s.row.Some? && s.row.value.status.Completed?
    ensures var s' := Next(s, tenant, key, a); s'.span == s.span ==> s'.row == s.row
  {
    assert forall v :: v in s.starts ==> v < s.row.value.version;
  }

  // ---- How long a holder is safe -----------------------------------------------------

  /** A call takes the row from whoever has it exactly if the row's time is up, or it is of
      the same request and failed or stale. */
  lemma TakesOverIff(s: System, tenant: string, key: string, a: Action)
    requires s.row.Some? && a.Call? && a.client !in s.holders
    requires NewRecord(tenant, key, a.operation, a.requestHash, a.now, a.ttl).Ok?
    ensures
      var row := s.row.value;
      Next(s, tenant, key, a).row != s.row <==>
        || row.expiresAt <= a.now
        || (row.requestHash == TrimSpace(a.requestHash) && (row.status == Failed || Stale(row, a.now, a.staleAfter)))
  {
    var candidate := NewRecord(tenant, key, a.operation, a.requestHash, a.now, a.ttl).value;
    BeginTells(s.row, candidate, a.staleAfter);
    NewRecordIff(tenant, key, a.operation, a.requestHash, a.now, a.ttl);
  }

  function RunOn(s: System, tenant: string, key: string, actions: seq<Action>): System {
    if actions == [] then s
    else Next(RunOn(s, tenant, key, actions[..|actions| - 1]), tenant, key, actions[|actions| - 1])
  }

  /** The rival cannot take the record: it acts for another client, and if it calls, does so
      before the record is stale by its measure and before its time is up. */
  predicate Early(r: Record, c: string, a: Action) {
    a.client != c && (a.Call? ==> a.now < r.expiresAt && (a.staleAfter <= 0 || a.now < r.updatedAt + a.staleAfter))
  }

  lemma EarlyStepLeavesRow(s: System, tenant: string, key: string, c: string, a: Action)
    requires Inv(s) && c in s.holders && s.row == Some(s.holders[c]) && Early(s.holders[c], c, a)
    ensures var s' := Next(s, tenant, key, a); s'.row == s.row && c in s'.holders && s'.holders[c] == s.holders[c]
  {
    if a.Call? {
      if a.client !in s.holders && NewRecord(tenant, key, a.operation, a.requestHash, a.now, a.ttl).Ok? {
        TakesOverIff(s, tenant, key, a);
      }
    } else if a.client in s.holders {
      assert s.holders[a.client].version in s.starts && s.holders[a.client].version != s.holders[c].version;
      StartsBounded(s);
    }
  }

  /** Nobody takes the record from its holder before its stale time has passed: whatever
      rivals do before then, the holder can still settle. */
  lemma {:induction false} FreshHolderKeepsRecord(s: System, tenant: string, key: string, c: string, rivals: seq<Action>)
    requires Inv(s) && c in s.holders && s.row == Some(s.holders[c])
    requires forall a :: a in rivals ==> Early(s.holders[c], c, a)
    ensures
      var s' := RunOn(s, tenant, key, rivals);
      Inv(s') && s'.row == s.row && c in s'.holders && s'.holders[c] == s.holders[c]
  {
    if rivals != [] {
      var front, a := rivals[..|rivals| - 1], rivals[|rivals| - 1];
      FreshHolderKeepsRecord(s, tenant, key, c, front);
      assert a in rivals;
      EarlyStepLeavesRow(RunOn(s, tenant, key, front), tenant, key, c, a);
      NextKeepsInv(RunOn(s, tenant, key, front), tenant, key, a);
    }
  }

  /** A client that has just been told to start is such a holder, and its record is dated at
      its call. */
  lemma StarterHoldsRecord(s: System, tenant: string, key: string, a: Action)
    requires Inv(s) && a.Call? && a.client !in s.holders && a.client in Next(s, tenant, key, a).holders
    ensures
      var s' := Next(s, tenant, key, a);
      s'.row == Some(s'.holders[a.client]) && s'.holders[a.client].updatedAt == a.now
  {
    NewRecordIff(tenant, key, a.operation, a.requestHash, a.now, a.ttl);
    BeginTells(s.row, NewRecord(tenant, key, a.operation, a.requestHash, a.now, a.ttl).value, a.staleAfter);
  }
}
