/** Conservation: versions count audit events, and declarations and clearances count
    outbox jobs. */
module Ledger {
  import opened Core
  import opened Passage
  import opened Operations
  import opened Manifests
  import opened AuditChain
  import opened Workflow
  import opened Commits
  import opened Invariants
  import C = Clearance

  /** Versions begin at 1 in the draft, so a stored voyage has made version - 1 steps. */
  function VoyageSteps(tenant: string): C.Voyage -> int {
    (v: C.Voyage) => if v.tenantID == tenant then v.version - 1 else 0
  }

  /** A stored reservation is inserted as confirmed, with version 2. */
  function ReservationSteps(tenant: string): Reservation -> int {
    (r: Reservation) => if r.tenantID == tenant then r.version - 2 else 0
  }

  function JobCount(tenant: string): OutboxRow -> int {
    (row: OutboxRow) => if row.tenantID == tenant then 1 else 0
  }

  /** One job for the declaration and one for the clearance. */
  function JobsDue(tenant: string): C.Voyage -> int {
    (v: C.Voyage) => if v.tenantID == tenant then (if v.clearedAt.Some? then 2 else 1) else 0
  }

  ghost predicate AuditsBalance(t: Tables, tenant: string) {
    |TenantLog(t.audits, tenant)| == SumMap(t.voyages, VoyageSteps(tenant)) + SumMap(t.reservations, ReservationSteps(tenant))
  }

  ghost predicate JobsBalance(t: Tables, tenant: string) {
    SumMap(t.outbox, JobCount(tenant)) == SumMap(t.voyages, JobsDue(tenant))
  }

  lemma AuditCount(d: Digests, t: Tables, t': Tables, actor: string, at: Instant, k: AuditKey, tenant: string)
    requires AuditGrew(d, t, t', actor, at, k)
    ensures |TenantLog(t'.audits, tenant)| == |TenantLog(t.audits, tenant)| + if tenant == actor then 1 else 0
  {
    var c :| AppendsEvent(d, t, t', actor, at, k, c);
    AppendRowExtends(d.event, t.audits, c, tenant);
  }

  lemma JobCountGrows(t: Tables, t': Tables, actor: string, k: JobKey, tenant: string)
    requires JobAdded(t, t', actor, k)
    ensures SumMap(t'.outbox, JobCount(tenant)) == SumMap(t.outbox, JobCount(tenant)) + if tenant == actor then 1 else 0
  {
    var row :| AddsJob(t, t', actor, k, row);
    SumMapUpdate(t.outbox, JobID(k), row, JobCount(tenant));
  }

  lemma VoyageRowUpdated(t: Tables, v: C.Voyage, tenant: string)
    ensures
      var vs := t.voyages[v.id := v];
      && SumMap(vs, VoyageSteps(tenant)) == SumMap(t.voyages, VoyageSteps(tenant)) + VoyageSteps(tenant)(v)
           - (if v.id in t.voyages then VoyageSteps(tenant)(t.voyages[v.id]) else 0)
      && SumMap(vs, JobsDue(tenant)) == SumMap(t.voyages, JobsDue(tenant)) + JobsDue(tenant)(v)
           - (if v.id in t.voyages then JobsDue(tenant)(t.voyages[v.id]) else 0)
  {
    SumMapUpdate(t.voyages, v.id, v, VoyageSteps(tenant));
    SumMapUpdate(t.voyages, v.id, v, JobsDue(tenant));
  }

  lemma DeclareBalances(d: Digests, t: Tables, t': Tables, v: C.Voyage, m: Manifest, at: Instant, tenant: string)
    requires AuditsBalance(t, tenant) && JobsBalance(t, tenant)
    requires DeclareCommit(d, t, t', v, m, at)
    ensures AuditsBalance(t', tenant) && JobsBalance(t', tenant)
  {
    AuditCount(d, t, t', v.tenantID, at, OfDeclaration(v.id), tenant);
    JobCountGrows(t, t', v.tenantID, DeclareJob(v.id), tenant);
    VoyageRowUpdated(t, v, tenant);
  }

  lemma OpenBalances(d: Digests, t: Tables, t': Tables, v: C.Voyage, i: C.Inspection, at: Instant, tenant: string)
    requires AuditsBalance(t, tenant) && JobsBalance(t, tenant)
    requires OpenCommit(d, t, t', v, i, at)
    ensures AuditsBalance(t', tenant) && JobsBalance(t', tenant)
  {
    AuditCount(d, t, t', v.tenantID, at, OfOpening(i.id), tenant);
    VoyageRowUpdated(t, v.(status := C.Held, version := v.version + 1), tenant);
  }

  lemma PassBalances(d: Digests, t: Tables, t': Tables, v: C.Voyage, i: C.Inspection, at: Instant, tenant: string)
    requires AuditsBalance(t, tenant) && JobsBalance(t, tenant) && VoyagesOk(t)
    requires PassCommit(d, t, t', v, i, at)
    ensures AuditsBalance(t', tenant) && JobsBalance(t', tenant)
  {
    AuditCount(d, t, t', v.tenantID, at, OfRelease(v.id), tenant);
    JobCountGrows(t, t', v.tenantID, ReleaseJob(v.id), tenant);
    assert StatusFixes(t, v.id);
    VoyageRowUpdated(t, v.(status := C.Cleared, clearedAt := Some(at), version := v.version + 1), tenant);
  }

  lemma ReserveBalances(d: Digests, t: Tables, t': Tables, v: C.Voyage, r: Reservation, at: Instant, tenant: string)
    requires AuditsBalance(t, tenant) && JobsBalance(t, tenant)
    requires ReserveCommit(d, t, t', v, r, at)
    ensures AuditsBalance(t', tenant) && JobsBalance(t', tenant)
  {
    AuditCount(d, t, t', v.tenantID, at, OfReserve(r.id), tenant);
    VoyageRowUpdated(t, v.(status := C.Scheduled, version := v.version + 1), tenant);
    SumMapUpdate(t.reservations, r.id, r, ReservationSteps(tenant));
  }

  lemma MoveBalances(d: Digests, t: Tables, t': Tables, r: Reservation, m: Movement, tenant: string)
    requires AuditsBalance(t, tenant) && JobsBalance(t, tenant)
    requires MoveCommit(d, t, t', r, m)
    ensures AuditsBalance(t', tenant) && JobsBalance(t', tenant)
  {
    AuditCount(d, t, t', r.tenantID, m.occurredAt, OfMove(m.status, r.id), tenant);
    SumMapUpdate(t.reservations, r.id, r.(status := m.status, version := r.version + 1), ReservationSteps(tenant));
  }

  lemma CommitBalances(d: Digests, t: Tables, t': Tables, tenant: string)
    requires AuditsBalance(t, tenant) && JobsBalance(t, tenant) && VoyagesOk(t)
    requires Commit(d, t, t')
    ensures AuditsBalance(t', tenant) && JobsBalance(t', tenant)
  {
    if v, m, at :| DeclareCommit(d, t, t', v, m, at) {
      DeclareBalances(d, t, t', v, m, at, tenant);
    } else if v, i, at :| OpenCommit(d, t, t', v, i, at) {
      OpenBalances(d, t, t', v, i, at, tenant);
    } else if v, i, at :| PassCommit(d, t, t', v, i, at) {
      PassBalances(d, t, t', v, i, at, tenant);
    } else if v, r, at :| ReserveCommit(d, t, t', v, r, at) {
      ReserveBalances(d, t, t', v, r, at, tenant);
    } else {
      var r, m :| MoveCommit(d, t, t', r, m);
      MoveBalances(d, t, t', r, m, tenant);
    }
  }

  lemma CommitKeepsChain(d: Digests, t: Tables, t': Tables, tenant: string)
    requires TenantLogOk(d.event, t.audits, tenant) && Commit(d, t, t')
    ensures TenantLogOk(d.event, t'.audits, tenant)
  {
    var actor, at, k := CommitAppends(d, t, t');
    var c :| AppendsEvent(d, t, t', actor, at, k, c);
    AppendRowKeepsTenant(d.event, t.audits, c, tenant);
  }
}
