/** Idempotency records and the table that holds them (internal/idempotency/record.go,
    internal/store/idempotency.go). */
module Idempotency {
  import opened Core

  datatype Status = Processing | Completed | Failed

  datatype Record = Record(
    tenantID: string,
    key: string,
    operation: string,
    requestHash: string,
    status: Status,
    responseCode: int,
    responseBody: string,
    failureMessage: string,
    createdAt: Instant,
    updatedAt: Instant,
    expiresAt: Instant,
    version: int)

  datatype Decision = Start | Replay | Clash | Busy

  function NewRecord(tenantID: string, key: string, operation: string, requestHash: string, now: Instant, ttl: Duration)
    : Result<Record>
  {
    var tenant, k, op, hash := TrimSpace(tenantID), TrimSpace(key), TrimSpace(operation), TrimSpace(requestHash);
    if tenant == "" || ByteLength(k) < 8 || ByteLength(k) > 128 || op == "" || ByteLength(hash) != 64
       || now == ZERO_INSTANT || ttl <= 0
    then Err(Invalid)
    else Ok(Record(tenant, k, op, hash, Processing, 0, "", "", now, now, now + ttl, 1))
  }

  function Decide(existing: Record, requestHash: string, now: Instant, staleAfter: Duration): Decision {
    if existing.expiresAt <= now then Start
    else if existing.requestHash != requestHash then Clash
    else match existing.status
      case Completed => Replay
      case Processing => if staleAfter > 0 && existing.updatedAt + staleAfter <= now then Start else Busy
      case Failed => Start
  }

  function Complete(r: Record, code: int, body: string, now: Instant, expectedVersion: int): Result<Record> {
    if !r.status.Processing? || r.version != expectedVersion || code < 200 || code >= 300 || now < r.updatedAt then Err(Conflict)
    else
      Ok(r.(status := Completed, responseCode := code, responseBody := body, failureMessage := "", updatedAt := now,
            version := r.version + 1))
  }

  function Fail(r: Record, message: string, now: Instant, expectedVersion: int): Result<Record> {
    if !r.status.Processing? || r.version != expectedVersion || TrimSpace(message) == "" || now < r.updatedAt then Err(Conflict)
    else
      Ok(r.(status := Failed, responseCode := 0, responseBody := "", failureMessage := TrimSpace(message), updatedAt := now,
            version := r.version + 1))
  }

  function Restart(r: Record, now: Instant, expectedVersion: int): Result<Record> {
    if r.version != expectedVersion || r.status.Completed? || r.expiresAt <= now then Err(Conflict)
    else
      Ok(r.(status := Processing, responseCode := 0, responseBody := "", failureMessage := "", updatedAt := now,
            version := r.version + 1))
  }

  // ---- One row ---------------------------------------------------------------

  type Row = Option<Record>

  /** The row is missing, or its time is up for a request made now. */
  predicate Vacant(row: Row, now: Instant) { row.None? || row.value.expiresAt <= now }

  /** BeginIdempotent: the decision, the record handed to the caller, the new row. */
  function Begin(row: Row, candidate: Record, staleAfter: Duration): Result<(Decision, Record, Row)> {
    if Vacant(row, candidate.createdAt) then
      var stored := candidate.(responseCode := 0, responseBody := "", failureMessage := "", updatedAt := candidate.createdAt,
                              version := if row.None? then 1 else row.value.version + 1);
      Ok((Start, stored, Some(stored)))
    else
      var decision := Decide(row.value, candidate.requestHash, candidate.createdAt, staleAfter);
      if !decision.Start? then Ok((decision, row.value, row))
      else
        var restarted :- Restart(row.value, candidate.createdAt, row.value.version);
        Ok((Start, restarted, Some(row.value.(status := restarted.status, responseCode := 0, responseBody := "",
                                              failureMessage := "", updatedAt := restarted.updatedAt,
                                              version := restarted.version))))
  }

  /** CompleteIdempotent: an update guarded by the version before the completion. */
  function StoreCompletion(row: Row, r: Record): Result<Row> {
    if !r.status.Completed? || r.version < 2 then Err(Invalid)
    else if row.None? || row.value.version != r.version - 1 then Err(Conflict)
    else
      Ok(Some(row.value.(status := r.status, responseCode := r.responseCode, responseBody := r.responseBody,
                         failureMessage := "", updatedAt := r.updatedAt, version := r.version)))
  }

  /** FailIdempotent: likewise for a failure. */
  function StoreFailure(row: Row, r: Record): Result<Row> {
    if !r.status.Failed? || r.version < 2 then Err(Invalid)
    else if row.None? || row.value.version != r.version - 1 then Err(Conflict)
    else
      Ok(Some(row.value.(status := r.status, responseCode := 0, responseBody := "", failureMessage := r.failureMessage,
                         updatedAt := r.updatedAt, version := r.version)))
  }

  // ---- What each operation does, written out -----------------------------------

  lemma NewRecordIff(tenantID: string, key: string, operation: string, requestHash: string, now: Instant, ttl: Duration)
    ensures
      var made := NewRecord(tenantID, key, operation, requestHash, now, ttl);
      && (made.Ok? <==>
            && TrimSpace(tenantID) != "" && 8 <= ByteLength(TrimSpace(key)) <= 128 && TrimSpace(operation) != ""
            && ByteLength(TrimSpace(requestHash)) == 64 && now != 0 && 0 < ttl)
      && (made.Err? ==> made.error == Invalid)
      && (made.Ok? ==>
            made.value == Record(TrimSpace(tenantID), TrimSpace(key), TrimSpace(operation), TrimSpace(requestHash), Processing,
                                 0, "", "", now, now, now + ttl, 1))
  {
  }

  /** A record in work is completed, once, by whoever knows its version and does not date
      the completion before the record. */
  lemma CompleteIff(r: Record, code: int, body: string, now: Instant, expected: int)
    ensures
      var done := Complete(r, code, body, now, expected);
      && (done.Ok? <==> r.status.Processing? && r.version == expected && 200 <= code < 300 && r.updatedAt <= now)
      && (done.Err? ==> done.error == Conflict)
      && (done.Ok? ==>
            done.value == Record(r.tenantID, r.key, r.operation, r.requestHash, Completed, code, body, "", r.createdAt, now,
                                 r.expiresAt, r.version + 1))
  {
  }

  lemma FailIff(r: Record, message: string, now: Instant, expected: int)
    ensures
      var done := Fail(r, message, now, expected);
      && (done.Ok? <==> r.status.Processing? && r.version == expected && TrimSpace(message) != "" && r.updatedAt <= now)
      && (done.Err? ==> done.error == Conflict)
      && (done.Ok? ==>
            done.value == Record(r.tenantID, r.key, r.operation, r.requestHash, Failed, 0, "", TrimSpace(message), r.createdAt,
                                 now, r.expiresAt, r.version + 1))
  {
  }

  /** A record in work that has not been touched for the stale time. */
  predicate Stale(r: Record, now: Instant, staleAfter: Duration) {
    r.status == Processing && 0 < staleAfter && r.updatedAt + staleAfter <= now
  }

  /** The record as a new attempt of the same request finds it. */
  function Again(r: Record, now: Instant): Record {
    Record(r.tenantID, r.key, r.operation, r.requestHash, Processing, 0, "", "", r.createdAt, now, r.expiresAt, r.version + 1)
  }

  /** Whoever knows the version of a record that is not completed may start it again, until
      its time is up. */
  lemma RestartIff(r: Record, now: Instant, expected: int)
    ensures Restart(r, now, expected) ==
            if r.version == expected && r.status != Completed && now < r.expiresAt then Ok(Again(r, now)) else Err(Conflict)
  {
  }

  /** A record is no obstacle once its time is up, once it failed or went stale; the decision
      to start is always one that the restart allows. */
  lemma DecideIff(r: Record, requestHash: string, now: Instant, staleAfter: Duration)
    ensures Decide(r, requestHash, now, staleAfter) == Start <==>
              r.expiresAt <= now || (r.requestHash == requestHash && (r.status == Failed || Stale(r, now, staleAfter)))
    ensures Decide(r, requestHash, now, staleAfter) == Clash <==> now < r.expiresAt && r.requestHash != requestHash
    ensures Decide(r, requestHash, now, staleAfter) == Replay <==>
              now < r.expiresAt && r.requestHash == requestHash && r.status == Completed
    ensures Decide(r, requestHash, now, staleAfter) == Start && now < r.expiresAt ==> Restart(r, now, r.version).Ok?
  {
  }

  /** What a request is told about a record whose time is not up: another request clashes, a
      completed one is replayed, a failed or stale one is started again, and one in work is
      busy. The row changes only when the request is started. */
  predicate LiveAnswer(r: Record, candidate: Record, staleAfter: Duration, answer: Result<(Decision, Record)>, row': Row) {
    if r.requestHash != candidate.requestHash then answer == Ok((Clash, r)) && row' == Some(r)
    else if r.status == Completed then answer == Ok((Replay, r)) && row' == Some(r)
    else if r.status == Failed || Stale(r, candidate.createdAt, staleAfter) then
      answer == Ok((Start, Again(r, candidate.createdAt))) && row' == Some(Again(r, candidate.createdAt))
    else answer == Ok((Busy, r)) && row' == Some(r)
  }

  /** A missing record, or one whose time is up, is replaced by the candidate, under the next
      version. */
  predicate VacantAnswer(row: Row, candidate: Record, answer: Result<(Decision, Record)>, row': Row) {
    var stored := Record(candidate.tenantID, candidate.key, candidate.operation, candidate.requestHash, candidate.status,
                         0, "", "", candidate.createdAt, candidate.createdAt, candidate.expiresAt,
                         if row == None then 1 else row.value.version + 1);
    answer == Ok((Start, stored)) && row' == Some(stored)
  }

  predicate BeginAnswer(row: Row, candidate: Record, staleAfter: Duration, answer: Result<(Decision, Record)>, row': Row) {
    if row.Some? && candidate.createdAt < row.value.expiresAt then LiveAnswer(row.value, candidate, staleAfter, answer, row')
    else VacantAnswer(row, candidate, answer, row')
  }

  lemma BeginTells(row: Row, candidate: Record, staleAfter: Duration)
    ensures
      var begun := Begin(row, candidate, staleAfter);
      begun.Ok? && BeginAnswer(row, candidate, staleAfter, Ok((begun.value.0, begun.value.1)), begun.value.2)
  {
  }

  // ---- The table -------------------------------------------------------------

  datatype Call = BeginCall(candidate: Record, staleAfter: Duration) | CompleteCall(record: Record) | FailCall(record: Record)

  type RowKey = (string, string)

  function RowIn(records: map<RowKey, Record>, k: RowKey): Row {
    if k in records then Some(records[k]) else None
  }

  /** Rows are stored under their own tenant and key. */
  ghost predicate WellKeyed(records: map<RowKey, Record>) {
    forall k :: k in records ==> (records[k].tenantID, records[k].key) == k
  }

  class IdempotencyTable {
    var records: map<RowKey, Record>

    constructor ()
      ensures records == map[]
    {
      records := map[];
    }

    /** The body of the transaction. */
    method BeginTx(candidate: Record, staleAfter: Duration) returns (r: Result<(Decision, Record)>)
      requires WellKeyed(records)
      modifies this
      ensures WellKeyed(records)
      ensures
        var k := (candidate.tenantID, candidate.key);
        var outcome := Begin(RowIn(old(records), k), candidate, staleAfter);
        && (outcome.Ok? ==> r == Ok((outcome.value.0, outcome.value.1)) && RowIn(records, k) == outcome.value.2)
        && (outcome.Err? ==> r == Err(outcome.error) && RowIn(records, k) == RowIn(old(records), k))
        && forall other :: other != k ==> RowIn(records, other) == RowIn(old(records), other)
    {
      var k := (candidate.tenantID, candidate.key);
      if k !in records || records[k].expiresAt <= candidate.createdAt {
        if k !in records {
          records := records[k := candidate.(responseCode := 0, responseBody := "", failureMessage := "",
                                             updatedAt := candidate.createdAt, version := 1)];
        } else {
          records := records[k := candidate.(responseCode := 0, responseBody := "", failureMessage := "",
                                             updatedAt := candidate.createdAt, version := records[k].version + 1)];
        }
        return Ok((Start, records[k]));
      }
      var current := records[k];
      var decision := Decide(current, candidate.requestHash, candidate.createdAt, staleAfter);
      if !decision.Start? {
        return Ok((decision, current));
      }
      var restarted := Restart(current, candidate.createdAt, current.version);
      if restarted.Err? {
        return Err(restarted.error);
      }
      records := records[k := current.(status := restarted.value.status, responseCode := 0, responseBody := "",
                                       failureMessage := "", updatedAt := restarted.value.updatedAt,
                                       version := restarted.value.version)];
      return Ok((Start, restarted.value));
    }

    /** The transaction; what it answers is written out in BeginAnswer. */
    method BeginIdempotent(candidate: Record, staleAfter: Duration) returns (r: Result<(Decision, Record)>)
      requires WellKeyed(records)
      modifies this
      ensures WellKeyed(records)
      ensures
        var k := (candidate.tenantID, candidate.key);
        var outcome := Begin(RowIn(old(records), k), candidate, staleAfter);
        && (outcome.Ok? ==> r == Ok((outcome.value.0, outcome.value.1)) && RowIn(records, k) == outcome.value.2)
        && (outcome.Err? ==> r == Err(outcome.error) && RowIn(records, k) == RowIn(old(records), k))
        && forall other :: other != k ==> RowIn(records, other) == RowIn(old(records), other)
      ensures
        var k := (candidate.tenantID, candidate.key);
        BeginAnswer(RowIn(old(records), k), candidate, staleAfter, r, RowIn(records, k))
    {
      BeginTells(RowIn(records, (candidate.tenantID, candidate.key)), candidate, staleAfter);
      r := BeginTx(candidate, staleAfter);
    }

    method CompleteIdempotent(record: Record) returns (r: Result<()>)
      requires WellKeyed(records)
      modifies this
      ensures WellKeyed(records)
      ensures
        var k := (record.tenantID, record.key);
        var outcome := StoreCompletion(RowIn(old(records), k), record);
        && (outcome.Ok? ==> r.Ok? && RowIn(records, k) == outcome.value)
        && (outcome.Err? ==> r == Err(outcome.error) && RowIn(records, k) == RowIn(old(records), k))
        && forall other :: other != k ==> RowIn(records, other) == RowIn(old(records), other)
    {
      if !record.status.Completed? || record.version < 2 {
        return Err(Invalid);
      }
      var k := (record.tenantID, record.key);
      if k !in records || records[k].version != record.version - 1 {
        return Err(Conflict);
      }
      records := records[k := records[k].(status := record.status, responseCode := record.responseCode,
                                          responseBody := record.responseBody, failureMessage := "",
                                          updatedAt := record.updatedAt, version := record.version)];
      return Ok(());
    }

    method FailIdempotent(record: Record) returns (r: Result<()>)
      requires WellKeyed(records)
      modifies this
      ensures WellKeyed(records)
      ensures
        var k := (record.tenantID, record.key);
        var outcome := StoreFailure(RowIn(old(records), k), record);
        && (outcome.Ok? ==> r.Ok? && RowIn(records, k) == outcome.value)
        && (outcome.Err? ==> r == Err(outcome.error) && RowIn(records, k) == RowIn(old(records), k))
        && forall other :: other != k ==> RowIn(records, other) == RowIn(old(records), other)
    {
      if !record.status.Failed? || record.version < 2 {
        return Err(Invalid);
      }
      var k := (record.tenantID, record.key);
      if k !in records || records[k].version != record.version - 1 {
        return Err(Conflict);
      }
      records := records[k := records[k].(status := record.status, responseCode := 0, responseBody := "",
                                          failureMessage := record.failureMessage, updatedAt := record.updatedAt,
                                          version := record.version)];
      return Ok(());
    }
  }
}
