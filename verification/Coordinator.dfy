/** The client side of idempotent declarations: one call of Declare against the shared
    table, while rival clients make any repository calls of their own between its two
    (internal/service/coordinator.go). */
module Coordinator {
  import opened Core
  import opened Authorization
  import opened Idempotency
  import M = Manifests
  import W = Workflow

  /** What a client asks for, under which idempotency key. */
  datatype DeclareCommand = DeclareCommand(
    id: string,
    vesselIMO: string,
    vesselName: string,
    originPort: string,
    destinationPort: string,
    eta: Instant,
    items: seq<M.CargoItem>,
    idempotencyKey: string)

  /** The request that reaches the store: a voyage counts as declared twelve hours before
      its arrival (internal/store/service_adapter.go). */
  function Request(c: DeclareCommand): W.DeclareRequest {
    W.DeclareRequest(c.id, c.vesselIMO, c.vesselName, c.originPort, c.destinationPort, c.eta, c.items, c.eta - 12 * HOUR)
  }

  /** The refusals that come before anything is read or written. */
  function Gate(actor: User, interrupted: bool, command: DeclareCommand): Option<Error> {
    if actor.disabled || actor.id == "" || TrimSpace(actor.tenantID) == "" || (actor.role != Carrier && actor.role != Dispatcher)
    then Some(Forbidden)
    else if interrupted then Some(Interrupted)
    else if command.eta == ZERO_INSTANT || command.items == [] then Some(Invalid)
    else None
  }

  const DEFAULT_TTL: Duration := 24 * HOUR
  const OPERATION := "voyage.declare"

  /** What a repository call does to the row stored under k. */
  function CallOn(row: Row, k: RowKey, c: Call): Row {
    match c
    case BeginCall(candidate, staleAfter) =>
      if (candidate.tenantID, candidate.key) != k || Begin(row, candidate, staleAfter).Err? then row
      else Begin(row, candidate, staleAfter).value.2
    case CompleteCall(r) =>
      if (r.tenantID, r.key) != k || StoreCompletion(row, r).Err? then row else StoreCompletion(row, r).value
    case FailCall(r) =>
      if (r.tenantID, r.key) != k || StoreFailure(row, r).Err? then row else StoreFailure(row, r).value
  }

  function CallsOn(row: Row, k: RowKey, calls: seq<Call>): Row {
    if calls == [] then row else CallOn(CallsOn(row, k, calls[..|calls| - 1]), k, calls[|calls| - 1])
  }

  /** The version is a fencing token: a row that shows the same version again was not
      touched in between. */
  lemma {:induction false} SameVersionSameRow(row: Row, k: RowKey, calls: seq<Call>)
    requires row.Some?
    ensures var after := CallsOn(row, k, calls);
            after.Some? && (after == row || after.value.version > row.value.version)
  {
    if calls != [] {
      SameVersionSameRow(row, k, calls[..|calls| - 1]);
    }
  }

  method Perform(table: IdempotencyTable, calls: seq<Call>)
    requires WellKeyed(table.records)
    modifies table
    ensures WellKeyed(table.records)
    ensures forall k :: RowIn(table.records, k) == CallsOn(RowIn(old(table.records), k), k, calls)
  {
    for i := 0 to |calls|
      invariant WellKeyed(table.records)
      invariant forall k :: RowIn(table.records, k) == CallsOn(RowIn(old(table.records), k), k, calls[..i])
    {
      assert calls[..i + 1][..i] == calls[..i];
      match calls[i] {
        case BeginCall(candidate, staleAfter) =>
          var _ := table.BeginIdempotent(candidate, staleAfter);
        case CompleteCall(r) =>
          var _ := table.CompleteIdempotent(r);
        case FailCall(r) =>
          var _ := table.FailIdempotent(r);
      }
    }
    assert calls[..|calls|] == calls;
  }

  /** The workflow's outcome: the encoded voyage, or its error with the text recorded for it. */
  datatype Outcome = Succeeded(response: string) | Refused(error: Error, message: string)

  function Reply(outcome: Outcome): Result<string> {
    match outcome
    case Succeeded(response) => Ok(response)
    case Refused(error, _) => Err(error)
  }

  /** The reply and the row once the workflow has run for a client that was told to start
      with the record stored, and finds the row. */
  function Settle(row: Row, stored: Record, outcome: Outcome, later: Instant): (Result<string>, Row) {
    match outcome
    case Refused(error, message) =>
      var failed := Fail(stored, message, later, stored.version);
      if failed.Ok? && StoreFailure(row, failed.value).Ok? then (Err(error), StoreFailure(row, failed.value).value)
      else (Err(error), row)
    case Succeeded(response) =>
      var completed := Complete(stored, 201, response, later, stored.version);
      if completed.Err? then (Err(completed.error), row)
      else
        var settled := StoreCompletion(row, completed.value);
        if settled.Err? then (Err(settled.error), row) else (Ok(response), settled.value)
  }

  /** The reply of Declare and the row it leaves, given the row it finds and what the
      rivals do while its workflow runs. */
  function DeclareSpec(row: Row, candidate: Record, staleAfter: Duration, rivals: seq<Call>, outcome: Outcome, later: Instant)
    : (Result<string>, Row)
  {
    var k := (candidate.tenantID, candidate.key);
    var begun := Begin(row, candidate, staleAfter);
    if begun.Err? then (Err(begun.error), row)
    else
      var (decision, stored, row1) := begun.value;
      match decision
      case Replay => (Ok(stored.responseBody), row1)
      case Busy => (Err(Conflict), row1)
      case Clash => (Err(Conflict), row1)
      case Start =>
        var row2 := CallsOn(row1, k, rivals);
        Settle(row2, stored, outcome, later)
  }

  /** The client was told to start, so that its workflow runs while rivals act. */
  function Started(row: Row, candidate: Record, staleAfter: Duration): bool {
    var begun := Begin(row, candidate, staleAfter);
    begun.Ok? && begun.value.0.Start?
  }

  /** The settled row is the one found, completed or failed under the next version, if the
      client still has its version; the reply is a success only with a stored completion. */
  predicate SettledAs(row: Row, stored: Record, outcome: Outcome, later: Instant, reply: Result<string>, row': Row) {
    var current := row.Some? && row.value.version == stored.version && stored.updatedAt <= later;
    match outcome
    case Refused(error, message) =>
      && reply == Err(error)
      && row' == if current && TrimSpace(message) != ""
                 then Some(Record(row.value.tenantID, row.value.key, row.value.operation, row.value.requestHash, Failed, 0, "",
                                  TrimSpace(message), row.value.createdAt, later, row.value.expiresAt, stored.version + 1))
                 else row
    case Succeeded(response) =>
      && reply == (if current then Ok(response) else Err(Conflict))
      && row' == if current
                 then Some(Record(row.value.tenantID, row.value.key, row.value.operation, row.value.requestHash, Completed, 201,
                                  response, "", row.value.createdAt, later, row.value.expiresAt, stored.version + 1))
                 else row
  }

  lemma SettleTells(row: Row, stored: Record, outcome: Outcome, later: Instant)
    requires stored.status == Processing && 1 <= stored.version
    ensures SettledAs(row, stored, outcome, later, Settle(row, stored, outcome, later).0, Settle(row, stored, outcome, later).1)
  {
  }

  /** A request finds no live record, or one of its own that failed or has gone stale. */
  predicate ToldToStart(row: Row, candidate: Record, staleAfter: Duration) {
    || row == None || row.value.expiresAt <= candidate.createdAt
    || (row.value.requestHash == candidate.requestHash &&
        (row.value.status == Failed || Stale(row.value, candidate.createdAt, staleAfter)))
  }

  /** The record that a request told to start works under. */
  function StartedRecord(row: Row, candidate: Record): Record {
    if row == None || row.value.expiresAt <= candidate.createdAt then
      Record(candidate.tenantID, candidate.key, candidate.operation, candidate.requestHash, candidate.status, 0, "", "",
             candidate.createdAt, candidate.createdAt, candidate.expiresAt, if row == None then 1 else row.value.version + 1)
    else Again(row.value, candidate.createdAt)
  }

  /** Reply and row of one keyed call, written out. */
  predicate DeclaredAs(row: Row, candidate: Record, staleAfter: Duration, rivals: seq<Call>, outcome: Outcome, later: Instant,
                       reply: Result<string>, row': Row)
  {
    if ToldToStart(row, candidate, staleAfter) then
      var stored := StartedRecord(row, candidate);
      SettledAs(CallsOn(Some(stored), (candidate.tenantID, candidate.key), rivals), stored, outcome, later, reply, row')
    else
      && row' == row
      && reply == if row.value.requestHash == candidate.requestHash && row.value.status == Completed
                  then Ok(row.value.responseBody) else Err(Conflict)
  }

  lemma DeclareTells(row: Row, candidate: Record, staleAfter: Duration, rivals: seq<Call>, outcome: Outcome, later: Instant)
    requires candidate.status == Processing && (row.Some? ==> 0 <= row.value.version)
    ensures var (reply, row') := DeclareSpec(row, candidate, staleAfter, rivals, outcome, later);
            DeclaredAs(row, candidate, staleAfter, rivals, outcome, later, reply, row')
    ensures Started(row, candidate, staleAfter) <==> ToldToStart(row, candidate, staleAfter)
  {
    BeginTells(row, candidate, staleAfter);
    if ToldToStart(row, candidate, staleAfter) {
      var stored := StartedRecord(row, candidate);
      SettleTells(CallsOn(Some(stored), (candidate.tenantID, candidate.key), rivals), stored, outcome, later);
    }
  }

  /** What follows the workflow: complete or fail the record. */
  method SettleOutcome(table: IdempotencyTable, stored: Record, outcome: Outcome, later: Instant) returns (r: Result<string>)
    requires WellKeyed(table.records)
    modifies table
    ensures WellKeyed(table.records)
    ensures var k := (stored.tenantID, stored.key);
            && (r, RowIn(table.records, k)) == Settle(RowIn(old(table.records), k), stored, outcome, later)
            && forall other :: other != k ==> RowIn(table.records, other) == RowIn(old(table.records), other)
    ensures stored.status == Processing && 1 <= stored.version ==>
              var k := (stored.tenantID, stored.key);
              SettledAs(RowIn(old(table.records), k), stored, outcome, later, r, RowIn(table.records, k))
  {
    if stored.status == Processing && 1 <= stored.version {
      SettleTells(RowIn(table.records, (stored.tenantID, stored.key)), stored, outcome, later);
    }
    match outcome {
      case Refused(error, message) =>
        var failed := Fail(stored, message, later, stored.version);
        if failed.Ok? {
          var _ := table.FailIdempotent(failed.value);
        }
        return Err(error);
      case Succeeded(response) =>
        var completed := Complete(stored, 201, response, later, stored.version);
        if completed.Err? {
          return Err(completed.error);
        }
        var settled := table.CompleteIdempotent(completed.value);
        if settled.Err? {
          return Err(settled.error);
        }
        return Ok(response);
    }
  }

  /** One idempotent declaration. */
  method DeclareOnce(table: IdempotencyTable, candidate: Record, staleAfter: Duration, rivals: seq<Call>, outcome: Outcome,
                     later: Instant) returns (r: Result<string>)
    requires WellKeyed(table.records)
    modifies table
    ensures WellKeyed(table.records)
    ensures
      var k := (candidate.tenantID, candidate.key);
      && (r, RowIn(table.records, k)) == DeclareSpec(RowIn(old(table.records), k), candidate, staleAfter, rivals, outcome, later)
      && forall other :: other != k ==>
           RowIn(table.records, other)
           == CallsOn(RowIn(old(table.records), other), other,
                      if Started(RowIn(old(table.records), k), candidate, staleAfter) then rivals else [])
    ensures
      var k := (candidate.tenantID, candidate.key);
      candidate.status == Processing && (RowIn(old(table.records), k).Some? ==> 0 <= RowIn(old(table.records), k).value.version) ==>
        && DeclaredAs(RowIn(old(table.records), k), candidate, staleAfter, rivals, outcome, later, r, RowIn(table.records, k))
        && (Started(RowIn(old(table.records), k), candidate, staleAfter)
            <==> ToldToStart(RowIn(old(table.records), k), candidate, staleAfter))
  {
    ghost var row := RowIn(table.records, (candidate.tenantID, candidate.key));
    if candidate.status == Processing && (row.Some? ==> 0 <= row.value.version) {
      DeclareTells(row, candidate, staleAfter, rivals, outcome, later);
    }
    var begun := table.BeginIdempotent(candidate, staleAfter);
    if begun.Err? {
      return Err(begun.error);
    }
    var (decision, stored) := begun.value;
    match decision {
      case Replay => return Ok(stored.responseBody);
      case Busy => return Err(Conflict);
      case Clash => return Err(Conflict);
      case Start =>
    }
    Perform(table, rivals);
    r := SettleOutcome(table, stored, outcome, later);
  }

  /** A declaration as the service offers it. Without an idempotency key the workflow's
      outcome is the reply and no record is kept; the table then changes by the rivals
      only, as it does for every key but the client's own. */
  method Declare(table: IdempotencyTable, actor: User, interrupted: bool, command: DeclareCommand,
                 fingerprint: DeclareCommand -> string, now: Instant, recordTTL: Duration, staleAfter: Duration,
                 rivals: seq<Call>, outcome: Outcome, later: Instant) returns (r: Result<string>)
    requires WellKeyed(table.records)
    modifies table
    ensures WellKeyed(table.records)
    ensures Gate(actor, interrupted, command).Some? ==>
              r == Err(Gate(actor, interrupted, command).value) && table.records == old(table.records)
    ensures Gate(actor, interrupted, command).None? && command.idempotencyKey == "" ==>
              && r == (match outcome case Succeeded(response) => Ok(response) case Refused(error, _) => Err(error))
              && forall k :: RowIn(table.records, k) == CallsOn(RowIn(old(table.records), k), k, rivals)
    ensures
      Gate(actor, interrupted, command).None? && command.idempotencyKey != "" ==>
        var candidate := NewRecord(actor.tenantID, command.idempotencyKey, "voyage.declare", fingerprint(command), now,
                                   if recordTTL <= 0 then 24 * HOUR else recordTTL);
        if candidate.Err? then r == Err(candidate.error) && table.records == old(table.records)
        else
          var k := (candidate.value.tenantID, candidate.value.key);
          && (r, RowIn(table.records, k))
             == DeclareSpec(RowIn(old(table.records), k), candidate.value, staleAfter, rivals, outcome, later)
          && forall other :: other != k ==>
               RowIn(table.records, other)
               == CallsOn(RowIn(old(table.records), other), other,
                          if Started(RowIn(old(table.records), k), candidate.value, staleAfter) then rivals else [])
    ensures
      Gate(actor, interrupted, command).None? && command.idempotencyKey != "" ==>
        var candidate := NewRecord(actor.tenantID, command.idempotencyKey, "voyage.declare", fingerprint(command), now,
                                   if recordTTL <= 0 then 24 * HOUR else recordTTL);
        candidate.Ok? ==>
          var k := (candidate.value.tenantID, candidate.value.key);
          (RowIn(old(table.records), k).Some? ==> 0 <= RowIn(old(table.records), k).value.version) ==>
            DeclaredAs(RowIn(old(table.records), k), candidate.value, staleAfter, rivals, outcome, later, r, RowIn(table.records, k))
  {
    AuthorizeIff(actor, actor.tenantID, VoyageDeclare);
    var authorized := Authorize(actor, actor.tenantID, VoyageDeclare);
    if authorized.Err? {
      return Err(authorized.error);
    }
    if interrupted {
      return Err(Interrupted);
    }
    if command.eta == ZERO_INSTANT || |command.items| == 0 {
      return Err(Invalid);
    }
    if command.idempotencyKey == "" {
      Perform(table, rivals);
      return Reply(outcome);
    }
    var ttl := recordTTL;
    if ttl <= 0 {
      ttl := DEFAULT_TTL;
    }
    var candidate := NewRecord(actor.tenantID, command.idempotencyKey, OPERATION, fingerprint(command), now, ttl);
    if candidate.Err? {
      return Err(candidate.error);
    }
    r := DeclareOnce(table, candidate.value, staleAfter, rivals, outcome, later);
  }

  /** A successful reply is what the row now stores for this very request. */
  lemma ReplyIsStored(row: Row, candidate: Record, staleAfter: Duration, rivals: seq<Call>, outcome: Outcome, later: Instant)
    ensures
      var (reply, row') := DeclareSpec(row, candidate, staleAfter, rivals, outcome, later);
      reply.Ok? ==>
        && row'.Some? && row'.value.status.Completed?
        && row'.value.responseBody == reply.value && row'.value.requestHash == candidate.requestHash
  {
    var begun := Begin(row, candidate, staleAfter);
    if begun.Ok? {
      SameVersionSameRow(begun.value.2, (candidate.tenantID, candidate.key), rivals);
    }
  }

  /** A started declaration succeeds only if no rival changed the row meanwhile. */
  lemma SuccessMeansUndisturbed(row: Row, candidate: Record, staleAfter: Duration, rivals: seq<Call>, outcome: Outcome, later: Instant)
    requires Begin(row, candidate, staleAfter).Ok? && Begin(row, candidate, staleAfter).value.0.Start?
    requires DeclareSpec(row, candidate, staleAfter, rivals, outcome, later).0.Ok?
    ensures var row1 := Begin(row, candidate, staleAfter).value.2;
            CallsOn(row1, (candidate.tenantID, candidate.key), rivals) == row1
  {
    SameVersionSameRow(Begin(row, candidate, staleAfter).value.2, (candidate.tenantID, candidate.key), rivals);
  }
}
