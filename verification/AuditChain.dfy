/** The tamper-evident audit chain of each tenant (internal/audit/chain.go) and its
    table (appendAuditTx in internal/store/workflow.go). */
module AuditChain {
  import opened Core

  datatype Event = Event(
    id: string,
    tenantID: string,
    actorID: string,
    action: string,
    objectType: string,
    objectID: string,
    outcome: string,
    details: map<string, string>,
    occurredAt: Instant,
    sequence: int,
    previousHash: string,
    hash: string)
  {
    function Hashed(): Payload {
      Payload(id, tenantID, actorID, action, objectType, objectID, outcome, details, occurredAt, sequence, previousHash)
    }

    predicate Complete() {
      && id != "" && tenantID != "" && actorID != "" && action != ""
      && objectType != "" && objectID != "" && outcome != "" && occurredAt != ZERO_INSTANT
    }
  }

  /** Everything the hash is computed from, which is every field but the hash. */
  datatype Payload = Payload(
    id: string,
    tenantID: string,
    actorID: string,
    action: string,
    objectType: string,
    objectID: string,
    outcome: string,
    details: map<string, string>,
    occurredAt: Instant,
    sequence: int,
    previousHash: string)

  /** SHA-256 over the encoded payload, kept abstract. */
  type Digest = Payload -> string

  ghost predicate CollisionFree(h: Digest) {
    forall p, q :: h(p) == h(q) ==> p == q
  }

  /** Go's zero Event, which stands for "no predecessor". */
  const NO_EVENT := Event("", "", "", "", "", "", "", map[], ZERO_INSTANT, 0, "", "")

  function Append(h: Digest, previous: Event, event: Event): Result<Event> {
    if !event.Complete() then Err(Invalid)
    else if previous.id != "" && (previous.tenantID != event.tenantID || event.occurredAt < previous.occurredAt) then Err(Conflict)
    else
      var linked := event.(sequence := previous.sequence + 1, previousHash := previous.hash);
      Ok(linked.(hash := h(linked.Hashed())))
  }

  /** An event with a blank field is invalid; one of another tenant than its predecessor or
      before it is a conflict; any other is linked to its predecessor and hashed with all
      its fields. */
  lemma AppendTells(h: Digest, previous: Event, e: Event)
    ensures
      Append(h, previous, e) ==
      if || e.id == "" || e.tenantID == "" || e.actorID == "" || e.action == "" || e.objectType == "" || e.objectID == ""
         || e.outcome == "" || e.occurredAt == 0
      then Err(Invalid)
      else if previous.id != "" && (previous.tenantID != e.tenantID || previous.occurredAt > e.occurredAt) then Err(Conflict)
      else
        var sequence, link := previous.sequence + 1, previous.hash;
        Ok(Event(e.id, e.tenantID, e.actorID, e.action, e.objectType, e.objectID, e.outcome, e.details, e.occurredAt, sequence, link,
                 h(Payload(e.id, e.tenantID, e.actorID, e.action, e.objectType, e.objectID, e.outcome, e.details, e.occurredAt,
                           sequence, link))))
  {
  }

  // ---- Verification ----------------------------------------------------------

  function Before(s: seq<Event>, i: nat): Event
    requires i <= |s|
  {
    if i == 0 then NO_EVENT else s[i - 1]
  }

  predicate Linked(h: Digest, s: seq<Event>, i: nat)
    requires i < |s|
  {
    s[i].sequence == i + 1 && s[i].previousHash == Before(s, i).hash && s[i].hash == h(s[i].Hashed())
  }

  /** Numbered 1, 2, ... with each event naming its predecessor's hash and carrying
      its own. */
  ghost predicate Chained(h: Digest, s: seq<Event>) {
    forall i :: 0 <= i < |s| ==> Linked(h, s, i)
  }

  /** Some order of the events is a chain. */
  ghost predicate Verified(h: Digest, events: multiset<Event>) {
    exists s :: multiset(s) == events && Chained(h, s)
  }

  predicate SequencedNoLater(a: Event, b: Event) { a.sequence <= b.sequence }

  /** The verdict is a function of the multiset of events: presentation order and the
      instability of the sort cannot change it. */
  method Verify(h: Digest, events: seq<Event>) returns (verdict: Result<()>)
    ensures verdict.Ok? <==> Verified(h, multiset(events))
    ensures verdict.Err? ==> verdict.error == Conflict
  {
    var ordered := Sort(SequencedNoLater, events);
    VerifiedMeansSortedChain(h, events, ordered);
    var previous := NO_EVENT;
    for index := 0 to |ordered|
      invariant previous == Before(ordered, index)
      invariant forall i :: 0 <= i < index ==> Linked(h, ordered, i)
    {
      var event := ordered[index];
      if event.sequence != index + 1 || event.previousHash != previous.hash || event.hash != h(event.Hashed()) {
        assert !Linked(h, ordered, index);
        return Err(Conflict);
      }
      previous := event;
    }
    assert Chained(h, ordered);
    return Ok(());
  }

  lemma VerifiedMeansSortedChain(h: Digest, events: seq<Event>, ordered: seq<Event>)
    requires multiset(ordered) == multiset(events) && SortedBy(SequencedNoLater, ordered)
    ensures Verified(h, multiset(events)) ==> Chained(h, ordered)
  {
    if Verified(h, multiset(events)) {
      var s :| multiset(s) == multiset(events) && Chained(h, s);
      ChainIsSorted(h, s);
      SortedPermutationUnique(SequencedNoLater, s, ordered);
    }
  }

  lemma ChainNumbers(h: Digest, s: seq<Event>)
    requires Chained(h, s)
    ensures forall i :: 0 <= i < |s| ==> s[i].sequence == i + 1
  {
    forall i | 0 <= i < |s|
      ensures s[i].sequence == i + 1
    {
      assert Linked(h, s, i);
    }
  }

  lemma ChainIsSorted(h: Digest, s: seq<Event>)
    requires Chained(h, s)
    ensures SortedBy(SequencedNoLater, s)
    ensures forall x, y :: x in s && y in s && SequencedNoLater(x, y) && SequencedNoLater(y, x) ==> x == y
  {
    ChainNumbers(h, s);
  }

  /** A chain is determined by the hash of its last event. */
  lemma {:induction false} LastHashDeterminesChain(h: Digest, a: seq<Event>, b: seq<Event>)
    requires CollisionFree(h)
    requires Chained(h, a) && Chained(h, b) && a != [] && b != []
    requires a[|a| - 1].hash == b[|b| - 1].hash
    ensures a == b
  {
    var x, y := a[|a| - 1], b[|b| - 1];
    assert Linked(h, a, |a| - 1) && Linked(h, b, |b| - 1);
    assert x.Hashed() == y.Hashed();
    assert x == y && |a| == |b|;
    var a', b' := a[..|a| - 1], b[..|b| - 1];
    if |a| > 1 {
      ChainPrefix(h, a, |a| - 1);
      ChainPrefix(h, b, |b| - 1);
      LastHashDeterminesChain(h, a', b');
    }
    assert a == a' + [x] && b == b' + [y];
  }

  lemma ChainPrefix(h: Digest, s: seq<Event>, n: nat)
    requires Chained(h, s) && n <= |s|
    ensures Chained(h, s[..n])
  {
    forall i | 0 <= i < n
      ensures Linked(h, s[..n], i)
    {
      assert Linked(h, s, i);
    }
  }

  ghost predicate IsHead(events: multiset<Event>, head: Event) {
    head in events && forall e :: e in events ==> e.sequence <= head.sequence
  }

  /** Tamper evidence: two verified lists whose newest events have the same hash are
      the same list, field for field. */
  lemma SameHeadSameEvents(h: Digest, a: multiset<Event>, b: multiset<Event>, x: Event, y: Event)
    requires CollisionFree(h)
    requires Verified(h, a) && Verified(h, b)
    requires IsHead(a, x) && IsHead(b, y) && x.hash == y.hash
    ensures a == b
  {
    var s :| multiset(s) == a && Chained(h, s);
    var t :| multiset(t) == b && Chained(h, t);
    HeadIsLast(h, s, x);
    HeadIsLast(h, t, y);
    LastHashDeterminesChain(h, s, t);
  }

  lemma HeadIsLast(h: Digest, s: seq<Event>, head: Event)
    requires Chained(h, s) && IsHead(multiset(s), head)
    ensures s != [] && s[|s| - 1] == head
  {
    assert head in s;
    assert s[|s| - 1] in s;
    ChainNumbers(h, s);
  }

  // ---- The table -------------------------------------------------------------

  function OfTenant(tenant: string): Event -> bool {
    (e: Event) => e.tenantID == tenant
  }

  /** The rows of one tenant, in insertion order. */
  function TenantLog(log: seq<Event>, tenant: string): seq<Event> {
    Select(log, OfTenant(tenant))
  }

  /** The tenant's row with the highest sequence, or the zero event. */
  function Latest(log: seq<Event>, tenant: string): Event {
    if log == [] then NO_EVENT
    else
      var best := Latest(log[..|log| - 1], tenant);
      var row := log[|log| - 1];
      if row.tenantID == tenant && row.sequence > best.sequence then row else best
  }

  /** The two rows clash in the primary key on id, or in the unique index on the hash or
      on tenant and sequence. */
  predicate Clash(e: Event, row: Event) {
    e.id == row.id || e.hash == row.hash || (e.tenantID == row.tenantID && e.sequence == row.sequence)
  }

  predicate Admits(log: seq<Event>, row: Event) {
    forall e :: e in log ==> !Clash(e, row)
  }

  /** One call of appendAuditTx: the table after it, or the error that rolls back. */
  function AppendRow(h: Digest, log: seq<Event>, candidate: Event): Result<seq<Event>> {
    var row :- Append(h, Latest(log, candidate.tenantID), candidate);
    if Admits(log, row) then Ok(log + [row]) else Err(Database)
  }

  method AppendAudit(h: Digest, log: seq<Event>, candidate: Event) returns (r: Result<seq<Event>>)
    ensures r == AppendRow(h, log, candidate)
  {
    var previous := NO_EVENT;
    for i := 0 to |log|
      invariant previous == Latest(log[..i], candidate.tenantID)
    {
      assert log[..i + 1][..i] == log[..i];
      if log[i].tenantID == candidate.tenantID && log[i].sequence > previous.sequence {
        previous := log[i];
      }
    }
    assert log[..|log|] == log;
    var row := Append(h, previous, candidate);
    if row.Err? {
      return Err(row.error);
    }
    for i := 0 to |log|
      invariant forall j :: 0 <= j < i ==> !Clash(log[j], row.value)
    {
      if log[i].id == row.value.id || log[i].hash == row.value.hash
         || (log[i].tenantID == row.value.tenantID && log[i].sequence == row.value.sequence) {
        assert log[i] in log;
        return Err(Database);
      }
    }
    return Ok(log + [row.value]);
  }

  ghost predicate Chronological(s: seq<Event>) {
    forall i, j :: 0 <= i < j < |s| ==> s[i].occurredAt <= s[j].occurredAt
  }

  /** A tenant's rows form one chain whose times never go back. */
  ghost predicate TenantLogOk(h: Digest, log: seq<Event>, tenant: string) {
    var s := TenantLog(log, tenant);
    Chained(h, s) && Chronological(s) && forall e :: e in s ==> e.Complete() && e.tenantID == tenant
  }

  ghost predicate LogOk(h: Digest, log: seq<Event>) {
    forall tenant :: TenantLogOk(h, log, tenant)
  }

  lemma {:induction false} LatestIsLast(h: Digest, log: seq<Event>, tenant: string)
    requires Chained(h, TenantLog(log, tenant))
    ensures Latest(log, tenant) == var s := TenantLog(log, tenant); if s == [] then NO_EVENT else s[|s| - 1]
  {
    if log != [] {
      var front, row := log[..|log| - 1], log[|log| - 1];
      var s, t := TenantLog(front, tenant), TenantLog(log, tenant);
      if row.tenantID == tenant {
        assert t == s + [row];
        ChainPrefix(h, t, |s|);
        assert t[..|s|] == s;
        ChainNumbers(h, t);
      }
      LatestIsLast(h, front, tenant);
    }
  }

  /** The sequence of a new event is new to its tenant. */
  lemma SequenceIsNew(h: Digest, log: seq<Event>, candidate: Event, e: Event)
    requires Chained(h, TenantLog(log, candidate.tenantID)) && e in log && e.tenantID == candidate.tenantID
    requires Append(h, Latest(log, candidate.tenantID), candidate).Ok?
    ensures e.sequence < Append(h, Latest(log, candidate.tenantID), candidate).value.sequence
  {
    var s := TenantLog(log, candidate.tenantID);
    LatestIsLast(h, log, candidate.tenantID);
    ChainNumbers(h, s);
    SelectMembers(log, OfTenant(candidate.tenantID));
    assert e in s;
  }

  /** Appending to one tenant's chain extends it and leaves every other alone. */
  lemma AppendRowExtends(h: Digest, log: seq<Event>, candidate: Event, tenant: string)
    requires AppendRow(h, log, candidate).Ok?
    ensures
      var log' := AppendRow(h, log, candidate).value;
      |log'| == |log| + 1 && log'[..|log|] == log &&
      var row := log'[|log|];
      && row.id == candidate.id && row.tenantID == candidate.tenantID && row.actorID == candidate.actorID
      && row.action == candidate.action && row.objectType == candidate.objectType && row.objectID == candidate.objectID
      && row.outcome == candidate.outcome && row.details == candidate.details && row.occurredAt == candidate.occurredAt
      && TenantLog(log', tenant) == if tenant == candidate.tenantID then TenantLog(log, tenant) + [row] else TenantLog(log, tenant)
  {
    var log' := AppendRow(h, log, candidate).value;
    SelectAppend(log, log'[|log|], OfTenant(tenant));
  }

  lemma AppendRowKeepsTenant(h: Digest, log: seq<Event>, candidate: Event, tenant: string)
    requires TenantLogOk(h, log, tenant) && AppendRow(h, log, candidate).Ok?
    ensures TenantLogOk(h, AppendRow(h, log, candidate).value, tenant)
  {
    AppendRowExtends(h, log, candidate, tenant);
    if tenant == candidate.tenantID {
      var s := TenantLog(log, tenant);
      var row := AppendRow(h, log, candidate).value[|log|];
      LatestIsLast(h, log, tenant);
      NewRowLinks(h, s, candidate);
      ChainGrows(h, s, row);
      assert forall e :: e in s + [row] <==> e in s || e == row;
    }
  }

  lemma NewRowLinks(h: Digest, s: seq<Event>, candidate: Event)
    requires Chained(h, s) && forall e :: e in s ==> e.Complete() && e.tenantID == candidate.tenantID
    requires Append(h, Before(s, |s|), candidate).Ok?
    ensures var row := Append(h, Before(s, |s|), candidate).value;
            && Linked(h, s + [row], |s|) && row.Complete()
            && (s != [] ==> s[|s| - 1].occurredAt <= row.occurredAt)
  {
    ChainNumbers(h, s);
    assert s != [] ==> s[|s| - 1] in s;
  }

  lemma ChainGrows(h: Digest, s: seq<Event>, row: Event)
    requires Chained(h, s) && Chronological(s)
    requires Linked(h, s + [row], |s|)
    requires s != [] ==> s[|s| - 1].occurredAt <= row.occurredAt
    ensures Chained(h, s + [row]) && Chronological(s + [row])
  {
    var t := s + [row];
    forall i | 0 <= i < |t|
      ensures Linked(h, t, i)
    {
      if i < |s| {
        assert Linked(h, s, i);
      }
    }
  }

  // ---- Runs ------------------------------------------------------------------

  /** The table after an interleaved run of appends by any tenants; a refused append
      leaves it as it was. */
  function LogAfter(h: Digest, candidates: seq<Event>): seq<Event> {
    if candidates == [] then []
    else
      var before := LogAfter(h, candidates[..|candidates| - 1]);
      var attempt := AppendRow(h, before, candidates[|candidates| - 1]);
      if attempt.Ok? then attempt.value else before
  }

  lemma {:induction false} EveryTenantLogOk(h: Digest, candidates: seq<Event>, tenant: string)
    ensures TenantLogOk(h, LogAfter(h, candidates), tenant)
  {
    if candidates != [] {
      var before := candidates[..|candidates| - 1];
      EveryTenantLogOk(h, before, tenant);
      if AppendRow(h, LogAfter(h, before), candidates[|candidates| - 1]).Ok? {
        AppendRowKeepsTenant(h, LogAfter(h, before), candidates[|candidates| - 1], tenant);
      }
    }
  }

  /** Whatever is appended, a tenant's rows verify in any presentation order, are
      numbered 1..n without gaps, and never go back in time. */
  lemma EveryTenantLogVerifies(h: Digest, candidates: seq<Event>, tenant: string, shown: seq<Event>)
    requires multiset(shown) == multiset(TenantLog(LogAfter(h, candidates), tenant))
    ensures Verified(h, multiset(shown))
    ensures
      var s := TenantLog(LogAfter(h, candidates), tenant);
      (forall i :: 0 <= i < |s| ==> s[i].sequence == i + 1) && Chronological(s)
  {
    EveryTenantLogOk(h, candidates, tenant);
    ChainNumbers(h, TenantLog(LogAfter(h, candidates), tenant));
  }
}
