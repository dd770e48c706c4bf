/** Exactly when a command goes through, and what the audit trail and the outbox then
    hold. In a reachable state no version guard and no unique index of the audit, outbox,
    manifest and movement tables ever refuses a command. */
module Admission {
  import opened Core
  import opened Passage
  import opened Operations
  import opened Manifests
  import opened AuditChain
  import opened Authorization
  import opened Workflow
  import opened Commits
  import opened Invariants
  import opened PassageInvariants
  import opened ReachableStates
  import C = Clearance

  // ---- Generated ids ---------------------------------------------------------------

  lemma SuffixUnique(prefix: string, a: string, b: string)
    requires prefix + a == prefix + b
    ensures a == b
  {
    assert (prefix + a)[|prefix|..] == a && (prefix + b)[|prefix|..] == b;
  }

  /** Different changes have different audit ids, whatever characters the ids contain. */
  lemma AuditIDUnique(a: AuditKey, b: AuditKey)
    requires AuditID(a) == AuditID(b)
    ensures a == b
  {
    assert AuditID(a)[6] == AuditID(b)[6] && AuditID(a)[8] == AuditID(b)[8];
    match a {
      case OfDeclaration(id) => SuffixUnique("audit-declare-", id, b.id);
      case OfOpening(id) => SuffixUnique("audit-inspection-open-", id, b.id);
      case OfRelease(id) => SuffixUnique("audit-release-", id, b.id);
      case OfReserve(id) => SuffixUnique("audit-reserve-", id, b.id);
      case OfMove(status, id) => MoveIDUnique(status, id, b.status, b.id);
    }
  }

  lemma MoveIDUnique(s: SlotStatus, id: string, s': SlotStatus, id': string)
    requires AuditID(OfMove(s, id)) == AuditID(OfMove(s', id'))
    ensures s == s' && id == id'
  {
    assert AuditID(OfMove(s, id)) == "audit-passage-" + (StatusText(s) + "-" + id);
    assert AuditID(OfMove(s', id')) == "audit-passage-" + (StatusText(s') + "-" + id');
    SuffixUnique("audit-passage-", StatusText(s) + "-" + id, StatusText(s') + "-" + id');
    assert (StatusText(s) + "-" + id)[0] == StatusText(s)[0] && (StatusText(s) + "-" + id)[1] == StatusText(s)[1];
    assert (StatusText(s') + "-" + id')[0] == StatusText(s')[0] && (StatusText(s') + "-" + id')[1] == StatusText(s')[1];
    SuffixUnique(StatusText(s) + "-", id, id');
  }

  lemma JobIDUnique(a: JobKey, b: JobKey)
    requires JobID(a) == JobID(b)
    ensures a == b
  {
    assert JobID(a)[7] == JobID(b)[7];
    SuffixUnique(if a.DeclareJob? then "outbox-declare-" else "outbox-release-", a.id, b.id);
  }

  // ---- Where audit events and jobs come from -----------------------------------------

  /** The change has happened, as the tables show. */
  predicate Happened(t: Tables, k: AuditKey) {
    match k
    case OfDeclaration(id) => id in t.voyages
    case OfOpening(id) => id in t.inspections
    case OfRelease(id) => id in t.voyages && t.voyages[id].clearedAt.Some?
    case OfReserve(id) => id in t.reservations
    case OfMove(status, id) => exists m :: m in t.movements && m.reservationID == id && m.status == status
  }

  predicate Due(t: Tables, k: JobKey) {
    match k
    case DeclareJob(id) => Happened(t, OfDeclaration(id))
    case ReleaseJob(id) => Happened(t, OfRelease(id))
  }

  ghost predicate EventExplained(t: Tables, id: string) { exists k :: id == AuditID(k) && Happened(t, k) }

  ghost predicate JobExplained(t: Tables, id: string) { exists k :: id == JobID(k) && Due(t, k) }

  /** No event and no job without the change it is about. */
  ghost predicate Explained(t: Tables) {
    && (forall e :: e in t.audits ==> EventExplained(t, e.id))
    && (forall id :: id in t.outbox ==> JobExplained(t, id))
  }

  ghost predicate Named(t: Tables) {
    && t.manifests.Keys == t.voyages.Keys
    && forall k :: k in t.voyages ==> k != "" && t.voyages[k].tenantID != "" && t.voyages[k].manifestHash != ""
  }

  /** Nothing that happened is undone. */
  ghost predicate Lasting(t: Tables, t': Tables) {
    forall k :: Happened(t, k) ==> Happened(t', k)
  }

  /** The change is on record. */
  ghost predicate Recorded(t: Tables, k: AuditKey) { exists e :: e in t.audits && e.id == AuditID(k) }

  /** No change without its event and, if one is due, its job; no event id twice. */
  ghost predicate OnRecord(t: Tables) {
    && (forall k :: Happened(t, k) ==> Recorded(t, k))
    && (forall k :: Due(t, k) ==> JobID(k) in t.outbox)
    && (forall i, j :: 0 <= i < j < |t.audits| ==> t.audits[i].id != t.audits[j].id)
  }

  /** One change happened. */
  ghost predicate OnlyNew(t: Tables, t': Tables, change: AuditKey) {
    forall k :: Happened(t', k) ==> Happened(t, k) || k == change
  }

  lemma CommitKeepsRecord(d: Digests, t: Tables, t': Tables, tenant: string, at: Instant, k: AuditKey)
    requires OnRecord(t) && OnlyNew(t, t', k) && AuditGrew(d, t, t', tenant, at, k)
    requires forall id :: id in t.outbox ==> id in t'.outbox
    requires k.OfDeclaration? ==> JobID(DeclareJob(k.id)) in t'.outbox
    requires k.OfRelease? ==> JobID(ReleaseJob(k.id)) in t'.outbox
    ensures OnRecord(t')
  {
    var c :| AppendsEvent(d, t, t', tenant, at, k, c);
    var row := t'.audits[|t.audits|];
    assert t'.audits == t.audits + [row] && row.id == AuditID(k);
    forall x | Happened(t', x)
      ensures Recorded(t', x)
    {
      if x == k {
        assert row in t'.audits;
      } else {
        var e :| e in t.audits && e.id == AuditID(x);
        assert e in t'.audits;
      }
    }
    assert forall i :: 0 <= i < |t.audits| ==> t.audits[i] in t.audits;
  }

  lemma EventKeepsExplained(d: Digests, t: Tables, t': Tables, tenant: string, at: Instant, k: AuditKey)
    requires Explained(t) && Lasting(t, t') && AuditGrew(d, t, t', tenant, at, k) && Happened(t', k)
    ensures forall e :: e in t'.audits ==> EventExplained(t', e.id)
  {
    var c :| AppendsEvent(d, t, t', tenant, at, k, c);
    forall e | e in t'.audits
      ensures EventExplained(t', e.id)
    {
      if e in t.audits {
        var x :| e.id == AuditID(x) && Happened(t, x);
        assert Happened(t', x);
      }
    }
  }

  lemma JobKeepsExplained(t: Tables, t': Tables, tenant: string, k: JobKey)
    requires Explained(t) && Lasting(t, t') && JobAdded(t, t', tenant, k) && Due(t', k)
    ensures forall id :: id in t'.outbox ==> JobExplained(t', id)
  {
    SameJobsExplained(t, t'.(outbox := t.outbox));
    var row :| AddsJob(t, t', tenant, k, row);
    forall id | id in t'.outbox
      ensures JobExplained(t', id)
    {
      if id in t.outbox {
        var x :| id == JobID(x) && Due(t, x);
        assert Due(t', x);
      }
    }
  }

  lemma SameJobsExplained(t: Tables, t': Tables)
    requires Explained(t) && Lasting(t, t') && t'.outbox == t.outbox
    ensures forall id :: id in t'.outbox ==> JobExplained(t', id)
  {
    forall id | id in t'.outbox
      ensures JobExplained(t', id)
    {
      var x :| id == JobID(x) && Due(t, x);
      assert Due(t', x);
    }
  }

  lemma DeclareKeepsExplained(d: Digests, t: Tables, t': Tables, v: C.Voyage, m: Manifest, at: Instant)
    requires Explained(t) && Named(t) && DeclareCommit(d, t, t', v, m, at)
    ensures Explained(t') && Named(t')
  {
    EventKeepsExplained(d, t, t', v.tenantID, at, OfDeclaration(v.id));
    JobKeepsExplained(t, t', v.tenantID, DeclareJob(v.id));
  }

  lemma DeclareKeepsRecord(d: Digests, t: Tables, t': Tables, v: C.Voyage, m: Manifest, at: Instant)
    requires OnRecord(t) && DeclareCommit(d, t, t', v, m, at)
    ensures OnRecord(t')
  {
    CommitKeepsRecord(d, t, t', v.tenantID, at, OfDeclaration(v.id));
  }

  lemma OpenKeepsExplained(d: Digests, t: Tables, t': Tables, v: C.Voyage, i: C.Inspection, at: Instant)
    requires Explained(t) && Named(t) && OpenCommit(d, t, t', v, i, at)
    ensures Explained(t') && Named(t')
  {
    EventKeepsExplained(d, t, t', v.tenantID, at, OfOpening(i.id));
    SameJobsExplained(t, t');
  }

  lemma OpenKeepsRecord(d: Digests, t: Tables, t': Tables, v: C.Voyage, i: C.Inspection, at: Instant)
    requires OnRecord(t) && OpenCommit(d, t, t', v, i, at)
    ensures OnRecord(t')
  {
    CommitKeepsRecord(d, t, t', v.tenantID, at, OfOpening(i.id));
  }

  lemma PassKeepsExplained(d: Digests, t: Tables, t': Tables, v: C.Voyage, i: C.Inspection, at: Instant)
    requires Explained(t) && Named(t) && PassCommit(d, t, t', v, i, at)
    ensures Explained(t') && Named(t')
  {
    EventKeepsExplained(d, t, t', v.tenantID, at, OfRelease(v.id));
    JobKeepsExplained(t, t', v.tenantID, ReleaseJob(v.id));
  }

  lemma PassKeepsRecord(d: Digests, t: Tables, t': Tables, v: C.Voyage, i: C.Inspection, at: Instant)
    requires OnRecord(t) && PassCommit(d, t, t', v, i, at)
    ensures OnRecord(t')
  {
    CommitKeepsRecord(d, t, t', v.tenantID, at, OfRelease(v.id));
  }

  lemma ReserveKeepsExplained(d: Digests, t: Tables, t': Tables, v: C.Voyage, r: Reservation, at: Instant)
    requires Explained(t) && Named(t) && ReserveCommit(d, t, t', v, r, at)
    ensures Explained(t') && Named(t')
  {
    EventKeepsExplained(d, t, t', v.tenantID, at, OfReserve(r.id));
    SameJobsExplained(t, t');
  }

  lemma ReserveKeepsRecord(d: Digests, t: Tables, t': Tables, v: C.Voyage, r: Reservation, at: Instant)
    requires OnRecord(t) && ReserveCommit(d, t, t', v, r, at)
    ensures OnRecord(t')
  {
    CommitKeepsRecord(d, t, t', v.tenantID, at, OfReserve(r.id));
  }

  lemma MoveKeepsExplained(d: Digests, t: Tables, t': Tables, r: Reservation, m: Movement)
    requires Explained(t) && Named(t) && MoveCommit(d, t, t', r, m)
    ensures Explained(t') && Named(t')
  {
    assert forall x :: x in t'.movements <==> x in t.movements || x == m;
    EventKeepsExplained(d, t, t', r.tenantID, m.occurredAt, OfMove(m.status, r.id));
    SameJobsExplained(t, t');
  }

  lemma MoveKeepsRecord(d: Digests, t: Tables, t': Tables, r: Reservation, m: Movement)
    requires OnRecord(t) && MoveCommit(d, t, t', r, m)
    ensures OnRecord(t')
  {
    assert forall x :: x in t'.movements <==> x in t.movements || x == m;
    CommitKeepsRecord(d, t, t', r.tenantID, m.occurredAt, OfMove(m.status, r.id));
  }

  lemma CommitKeepsExplained(d: Digests, t: Tables, t': Tables)
    requires Explained(t) && Named(t) && OnRecord(t) && Commit(d, t, t')
    ensures Explained(t') && Named(t') && OnRecord(t')
  {
    if v, m, at :| DeclareCommit(d, t, t', v, m, at) {
      DeclareKeepsExplained(d, t, t', v, m, at);
      DeclareKeepsRecord(d, t, t', v, m, at);
    } else if v, i, at :| OpenCommit(d, t, t', v, i, at) {
      OpenKeepsExplained(d, t, t', v, i, at);
      OpenKeepsRecord(d, t, t', v, i, at);
    } else if v, i, at :| PassCommit(d, t, t', v, i, at) {
      PassKeepsExplained(d, t, t', v, i, at);
      PassKeepsRecord(d, t, t', v, i, at);
    } else if v, r, at :| ReserveCommit(d, t, t', v, r, at) {
      ReserveKeepsExplained(d, t, t', v, r, at);
      ReserveKeepsRecord(d, t, t', v, r, at);
    } else {
      var r, m :| MoveCommit(d, t, t', r, m);
      MoveKeepsExplained(d, t, t', r, m);
      MoveKeepsRecord(d, t, t', r, m);
    }
  }

  lemma {:induction false} RunIsExplained(d: Digests, commands: seq<Command>)
    ensures Explained(Run(d, commands)) && Named(Run(d, commands)) && OnRecord(Run(d, commands))
  {
    if commands != [] {
      var t := Run(d, commands[..|commands| - 1]);
      RunIsExplained(d, commands[..|commands| - 1]);
      RunKeepsInv(d, commands[..|commands| - 1]);
      StepCommitsOrNothing(d, t, commands[|commands| - 1]);
      if Run(d, commands) != t {
        CommitKeepsExplained(d, t, Run(d, commands));
      }
    }
  }

  lemma ReachableIsExplained(d: Digests, t: Tables)
    requires Reachable(d, t)
    ensures Explained(t) && Named(t) && OnRecord(t) && Inv(d, t)
  {
    var commands :| t == Run(d, commands);
    RunIsExplained(d, commands);
    RunKeepsInv(d, commands);
  }

  lemma ReachableBasics(d: Digests, t: Tables)
    requires Reachable(d, t)
    ensures Explained(t) && Named(t) && Keyed(t) && LogOk(d.event, t.audits)
  {
    ReachableIsExplained(d, t);
  }

  // ---- Audit appends -------------------------------------------------------------------

  /** The instant is no earlier than the tenant's newest audit event. */
  predicate InOrder(t: Tables, tenant: string, at: Instant) {
    Latest(t.audits, tenant).id == "" || Latest(t.audits, tenant).occurredAt <= at
  }

  /** A commit sets the tenant's clock: from then on exactly the instants from its own are
      in order. */
  lemma CommitSetsClock(d: Digests, t: Tables, t': Tables, tenant: string, at: Instant, k: AuditKey, later: Instant)
    requires AuditGrew(d, t, t', tenant, at, k)
    ensures InOrder(t', tenant, later) <==> at <= later
  {
    var c :| AppendsEvent(d, t, t', tenant, at, k, c);
    assert t'.audits[..|t'.audits| - 1] == t.audits;
  }

  lemma {:induction false} LatestIsOfTenant(log: seq<Event>, tenant: string)
    ensures Latest(log, tenant).id != "" ==> Latest(log, tenant).tenantID == tenant
  {
    if log != [] {
      LatestIsOfTenant(log[..|log| - 1], tenant);
    }
  }

  /** All that is needed of the hash: events of different ids get different hashes. */
  ghost predicate SeparatesIds(h: Digest) {
    forall p, q :: h(p) == h(q) ==> p.id == q.id
  }

  lemma HashIsOwn(d: Digests, t: Tables, e: Event)
    requires LogOk(d.event, t.audits) && e in t.audits
    ensures e.hash == d.event(e.Hashed())
  {
    SelectMembers(t.audits, OfTenant(e.tenantID));
    var s := TenantLog(t.audits, e.tenantID);
    assert TenantLogOk(d.event, t.audits, e.tenantID);
    var i :| 0 <= i < |s| && s[i] == e;
    assert Linked(d.event, s, i);
  }

  /** A complete event about a change that has not happened yet is appended exactly if it
      is in order. */
  lemma AppendIff(d: Digests, t: Tables, k: AuditKey, c: Event)
    requires SeparatesIds(d.event) && LogOk(d.event, t.audits) && Explained(t)
    requires c.id == AuditID(k) && !Happened(t, k) && c.Complete()
    ensures AppendRow(d.event, t.audits, c).Ok? <==> InOrder(t, c.tenantID, c.occurredAt)
    ensures AppendRow(d.event, t.audits, c) != Err(Database)
  {
    LatestIsOfTenant(t.audits, c.tenantID);
    var attempt := Append(d.event, Latest(t.audits, c.tenantID), c);
    if attempt.Ok? {
      var row := attempt.value;
      forall e | e in t.audits
        ensures !Clash(e, row)
      {
        IdIsNew(t, k, e);
        HashIsOwn(d, t, e);
        assert e.Hashed().id != row.Hashed().id;
        if e.tenantID == c.tenantID {
          assert TenantLogOk(d.event, t.audits, c.tenantID);
          SequenceIsNew(d.event, t.audits, c, e);
        }
      }
    }
  }

  lemma IdIsNew(t: Tables, k: AuditKey, e: Event)
    requires Explained(t) && !Happened(t, k) && e in t.audits
    ensures e.id != AuditID(k)
  {
    var x :| e.id == AuditID(x) && Happened(t, x);
    if AuditID(x) == AuditID(k) {
      AuditIDUnique(x, k);
    }
  }

  lemma JobIsNew(t: Tables, k: JobKey)
    requires Explained(t) && !Due(t, k)
    ensures JobID(k) !in t.outbox
  {
    if JobID(k) in t.outbox {
      var x :| JobID(k) == JobID(x) && Due(t, x);
      JobIDUnique(x, k);
    }
  }

  // ---- Results ---------------------------------------------------------------------------

  /** The audit trail is exact: a change is on record, in exactly one event of the table,
      if and only if it happened, and every event is about a change that happened. */
  lemma AuditTrailIsExact(d: Digests, t: Tables, k: AuditKey)
    requires Reachable(d, t)
    ensures Happened(t, k) <==> Recorded(t, k)
    ensures forall e, f :: e in t.audits && f in t.audits && e.id == f.id ==> e == f
    ensures forall e :: e in t.audits ==> EventExplained(t, e.id)
  {
    ReachableIsExplained(d, t);
    if !Happened(t, k) {
      NotRecorded(t, k);
    }
    forall e, f | e in t.audits && f in t.audits && e.id == f.id
      ensures e == f
    {
      OneEventPerId(t, e, f);
    }
  }

  lemma NotRecorded(t: Tables, k: AuditKey)
    requires Explained(t) && !Happened(t, k)
    ensures !Recorded(t, k)
  {
    forall e | e in t.audits
      ensures e.id != AuditID(k)
    {
      IdIsNew(t, k, e);
    }
  }

  lemma OneEventPerId(t: Tables, e: Event, f: Event)
    requires OnRecord(t) && e in t.audits && f in t.audits && e.id == f.id
    ensures e == f
  {
    var i :| 0 <= i < |t.audits| && t.audits[i] == e;
    var j :| 0 <= j < |t.audits| && t.audits[j] == f;
  }

  /** And so is the outbox: one job for each declaration and each release, and no other. */
  lemma OutboxIsExact(d: Digests, t: Tables, k: JobKey)
    requires Reachable(d, t)
    ensures JobID(k) in t.outbox <==> Due(t, k)
    ensures forall id :: id in t.outbox ==> JobExplained(t, id)
  {
    ReachableIsExplained(d, t);
    if !Due(t, k) {
      JobIsNew(t, k);
    }
  }

  lemma {:induction false} ComplaintKinds(items: seq<CargoItem>)
    ensures Complaint(items).Some? ==> Complaint(items).value == Invalid || Complaint(items).value == Conflict
  {
    if items != [] {
      ComplaintKinds(items[..|items| - 1]);
    }
  }

  /** A draft of a new id is declared, so that only its fields, its manifest, the id and
      the inserts can refuse it. */
  lemma DeclareOutcome(d: Digests, t: Tables, actor: User, q: DeclareRequest, draft: C.Voyage, m: Manifest)
    requires actor.role.Carrier? || actor.role.Dispatcher?
    requires C.NewVoyage(q.id, actor.tenantID, q.vesselIMO, q.vesselName, q.originPort, q.destinationPort, q.eta) == Ok(draft)
    requires BuildManifest(d.items, q.id, q.items) == Ok(m)
    requires t.manifests.Keys == t.voyages.Keys
    ensures
      var voyage := draft.(status := C.Declared, manifestHash := m.hash, declaredAt := Some(q.at), version := 2);
      var appended := AppendRow(d.event, t.audits, DeclareEvent(actor, voyage, m, q.at));
      && (DeclareTx(d, t, actor, q).Ok? <==>
            ByteLength(m.hash) == 64 && q.at != ZERO_INSTANT && q.id !in t.voyages && appended.Ok? && JobID(DeclareJob(q.id)) !in t.outbox)
      && (DeclareTx(d, t, actor, q) == Err(Database) ==>
            q.id !in t.voyages && (appended == Err(Database) || JobID(DeclareJob(q.id)) in t.outbox))
  {
  }

  /** A declaration goes through exactly for a carrier or dispatcher with a valid voyage
      and manifest, under an id not in use, at an instant in order. */
  lemma DeclareSucceedsIff(d: Digests, t: Tables, actor: User, q: DeclareRequest)
    requires Reachable(d, t) && SeparatesIds(d.event)
    ensures DeclareTx(d, t, actor, q) != Err(Database)
    ensures
      DeclareTx(d, t, actor, q).Ok? <==>
        && (actor.role.Carrier? || actor.role.Dispatcher?) && actor.id != ""
        && C.NewVoyage(q.id, actor.tenantID, q.vesselIMO, q.vesselName, q.originPort, q.destinationPort, q.eta).Ok?
        && BuildManifest(d.items, q.id, q.items).Ok? && ByteLength(BuildManifest(d.items, q.id, q.items).value.hash) == 64
        && q.at != ZERO_INSTANT && q.id !in t.voyages && InOrder(t, actor.tenantID, q.at)
  {
    ReachableBasics(d, t);
    ComplaintKinds(q.items);
    var draft := C.NewVoyage(q.id, actor.tenantID, q.vesselIMO, q.vesselName, q.originPort, q.destinationPort, q.eta);
    var built := BuildManifest(d.items, q.id, q.items);
    if (actor.role.Carrier? || actor.role.Dispatcher?) && draft.Ok? && built.Ok? {
      DeclareOutcome(d, t, actor, q, draft.value, built.value);
      if q.id !in t.voyages {
        JobIsNew(t, DeclareJob(q.id));
        var voyage := draft.value.(status := C.Declared, manifestHash := built.value.hash, declaredAt := Some(q.at), version := 2);
        var event := DeclareEvent(actor, voyage, built.value, q.at);
        if event.Complete() {
          AppendIff(d, t, OfDeclaration(q.id), event);
        }
      }
    }
  }

  /** The version guard of a voyage just read cannot refuse, so that only the inspection,
      its id and the audit append can. */
  lemma OpenOutcome(d: Digests, t: Tables, actor: User, id: string, voyageID: string, kind: string, at: Instant)
    requires Keyed(t) && actor.role.Customs? && GetVoyage(t, actor.tenantID, voyageID).Ok?
    ensures
      var inspected := C.OpenInspection(id, t.voyages[voyageID], actor.id, kind, at);
      var appended := AppendRow(d.event, t.audits, OpeningEvent(actor, id, voyageID, kind, at));
      && (OpenInspectionTx(d, t, actor, id, voyageID, kind, at).Ok? <==> inspected.Ok? && id !in t.inspections && appended.Ok?)
      && (OpenInspectionTx(d, t, actor, id, voyageID, kind, at) == Err(Database) ==> appended == Err(Database) && id !in t.inspections)
  {
  }

  /** An inspection opens exactly for a customs officer on a declared voyage of the
      tenant, under an id not in use, at an instant in order. */
  lemma OpenSucceedsIff(d: Digests, t: Tables, actor: User, id: string, voyageID: string, kind: string, at: Instant)
    requires Reachable(d, t) && SeparatesIds(d.event)
    ensures OpenInspectionTx(d, t, actor, id, voyageID, kind, at) != Err(Database)
    ensures
      OpenInspectionTx(d, t, actor, id, voyageID, kind, at).Ok? <==>
        && actor.role.Customs? && actor.id != "" && id != "" && kind != "" && at != ZERO_INSTANT
        && GetVoyage(t, actor.tenantID, voyageID).Ok? && t.voyages[voyageID].status.Declared?
        && id !in t.inspections && InOrder(t, actor.tenantID, at)
  {
    ReachableBasics(d, t);
    if actor.role.Customs? && GetVoyage(t, actor.tenantID, voyageID).Ok? {
      OpenOutcome(d, t, actor, id, voyageID, kind, at);
      var event := OpeningEvent(actor, id, voyageID, kind, at);
      if id !in t.inspections && event.Complete() {
        AppendIff(d, t, OfOpening(id), event);
      }
    }
  }

  /** Passing an open inspection always releases its voyage, which has no other; it only
      takes a customs officer of the tenant, a finding and an instant in order. */
  lemma PassSucceedsIff(d: Digests, t: Tables, actor: User, inspectionID: string, finding: string, at: Instant)
    requires Reachable(d, t) && SeparatesIds(d.event)
    ensures PassInspectionTx(d, t, actor, inspectionID, finding, at) != Err(Database)
    ensures
      PassInspectionTx(d, t, actor, inspectionID, finding, at).Ok? <==>
        && actor.role.Customs? && actor.id != "" && at != ZERO_INSTANT && TrimSpace(finding) != ""
        && inspectionID in t.inspections && t.inspections[inspectionID].status.Open? && t.inspections[inspectionID].openedAt <= at
        && GetVoyage(t, actor.tenantID, t.inspections[inspectionID].voyageID).Ok?
        && InOrder(t, actor.tenantID, at)
  {
    if actor.role.Customs? && CanPass(t, actor.tenantID, inspectionID, finding, at) {
      PassingReleases(d, t, actor, inspectionID, finding, at);
      var event := ReleaseEvent(actor, t.inspections[inspectionID].voyageID, inspectionID, at);
      if event.Complete() {
        ReachableBasics(d, t);
        AppendIff(d, t, OfRelease(t.inspections[inspectionID].voyageID), event);
      }
    } else {
      CannotPass(d, t, actor, inspectionID, finding, at);
    }
  }

  /** In a reachable state only the audit append can stand between passing an inspection and
      the release. */
  lemma PassingReleases(d: Digests, t: Tables, actor: User, id: string, finding: string, at: Instant)
    requires Reachable(d, t) && actor.role.Customs? && CanPass(t, actor.tenantID, id, finding, at)
    ensures
      var k := t.inspections[id].voyageID;
      var appended := AppendRow(d.event, t.audits, ReleaseEvent(actor, k, id, at));
      && k != "" && actor.tenantID != "" && !Happened(t, OfRelease(k))
      && (PassInspectionTx(d, t, actor, id, finding, at).Ok? <==> appended.Ok?)
      && (PassInspectionTx(d, t, actor, id, finding, at) == Err(Database) ==> appended == Err(Database))
  {
    ReachableIsExplained(d, t);
    OpenMeansHeld(t, id);
    PassOutcome(d, t, actor, id, finding, at);
    JobIsNew(t, ReleaseJob(t.inspections[id].voyageID));
  }

  predicate CanPass(t: Tables, tenant: string, id: string, finding: string, at: Instant) {
    && TrimSpace(finding) != ""
    && id in t.inspections && t.inspections[id].status.Open? && t.inspections[id].openedAt <= at
    && GetVoyage(t, tenant, t.inspections[id].voyageID).Ok?
  }

  lemma CannotPass(d: Digests, t: Tables, actor: User, id: string, finding: string, at: Instant)
    requires !actor.role.Customs? || !CanPass(t, actor.tenantID, id, finding, at)
    ensures PassInspectionTx(d, t, actor, id, finding, at).Err? && PassInspectionTx(d, t, actor, id, finding, at) != Err(Database)
  {
  }

  /** Passing the only inspection of a held voyage releases it, so that only the audit
      append and the job can refuse it. */
  lemma PassOutcome(d: Digests, t: Tables, actor: User, id: string, finding: string, at: Instant)
    requires Keyed(t) && actor.role.Customs? && CanPass(t, actor.tenantID, id, finding, at)
    requires InspectionIds(t, t.inspections[id].voyageID) == {id}
    requires t.voyages[t.inspections[id].voyageID].status.Held? && t.voyages[t.inspections[id].voyageID].manifestHash != ""
    ensures
      var k := t.inspections[id].voyageID;
      var appended := AppendRow(d.event, t.audits, ReleaseEvent(actor, k, id, at));
      && (PassInspectionTx(d, t, actor, id, finding, at).Ok? <==> appended.Ok? && JobID(ReleaseJob(k)) !in t.outbox)
      && (PassInspectionTx(d, t, actor, id, finding, at) == Err(Database) ==> appended == Err(Database) || JobID(ReleaseJob(k)) in t.outbox)
  {
    var closed := C.CloseInspection(t.inspections[id], finding, true, at, t.inspections[id].version).value;
    ClosingReleases(t, id, closed, at);
  }

  /** An open inspection is the only one of its voyage, which is held. */
  lemma OpenMeansHeld(t: Tables, i: string)
    requires RowsOk(t) && VoyagesOk(t) && i in t.inspections && t.inspections[i].status.Open?
    ensures t.inspections[i].voyageID in t.voyages
    ensures var k := t.inspections[i].voyageID;
            t.voyages[k].status.Held? && t.voyages[k].clearedAt.None? && InspectionIds(t, k) == {i}
  {
    var k := t.inspections[i].voyageID;
    assert StatusFixes(t, k);
    assert i in InspectionIds(t, k);
  }

  lemma ClosingReleases(t: Tables, i: string, closed: C.Inspection, at: Instant)
    requires Keyed(t) && i in t.inspections && t.inspections[i].voyageID in t.voyages
    requires InspectionIds(t, t.inspections[i].voyageID) == {i}
    requires t.voyages[t.inspections[i].voyageID].status.Held? && t.voyages[t.inspections[i].voyageID].manifestHash != ""
    requires closed.voyageID == t.inspections[i].voyageID && closed.status.Passed?
    ensures
      var v := t.voyages[t.inspections[i].voyageID];
      C.Release(v, InspectionsOf(t.(inspections := t.inspections[i := closed]), v.id), at, v.version).Ok?
  {
    var v := t.voyages[t.inspections[i].voyageID];
    var t1 := t.(inspections := t.inspections[i := closed]);
    assert t1.inspections[i] in InspectionsOf(t1, v.id);
    forall x | x in InspectionsOf(t1, v.id)
      ensures x == closed
    {
      var j :| j in t1.inspections && t1.inspections[j].voyageID == v.id && x == t1.inspections[j];
      assert j != i ==> j in InspectionIds(t, v.id);
    }
  }

  /** A new reservation is confirmed and schedules its voyage, so that only Reserve, the
      id and the audit append can refuse it. */
  lemma ReserveOutcome(d: Digests, t: Tables, actor: User, q: ReserveRequest)
    requires Keyed(t) && actor.role.Dispatcher? && q.requestedAt != ZERO_INSTANT
    requires GetVoyage(t, actor.tenantID, q.voyageID).Ok? && t.voyages[q.voyageID].status.Cleared?
    ensures
      var reserved := Reserve(q.id, q.voyageID, actor.tenantID, q.chamber, q.slot, q.length, q.beam, q.draft,
                              CollidingReservations(t, q.chamber.id, q.slot));
      var appended := AppendRow(d.event, t.audits, ReserveEvent(actor, q));
      && (ReserveTx(d, t, actor, q).Ok? <==>
            reserved.Ok? && q.id !in t.reservations && q.slot.startsAt != ZERO_INSTANT && appended.Ok?)
      && (ReserveTx(d, t, actor, q) == Err(Database) ==> appended == Err(Database) && q.id !in t.reservations)
  {
  }

  /** A reservation goes through exactly for a dispatcher with a cleared voyage of the
      tenant and a slot that Reserve accepts against all reservations of all tenants, under
      an id not in use, at an instant in order. */
  lemma ReserveSucceedsIff(d: Digests, t: Tables, actor: User, q: ReserveRequest)
    requires Reachable(d, t) && SeparatesIds(d.event)
    ensures ReserveTx(d, t, actor, q) != Err(Database)
    ensures
      ReserveTx(d, t, actor, q).Ok? <==>
        && actor.role.Dispatcher? && actor.id != "" && q.requestedAt != ZERO_INSTANT && q.slot.startsAt != ZERO_INSTANT
        && GetVoyage(t, actor.tenantID, q.voyageID).Ok? && t.voyages[q.voyageID].status.Cleared?
        && Reserve(q.id, q.voyageID, actor.tenantID, q.chamber, q.slot, q.length, q.beam, q.draft, AllReservations(t)).Ok?
        && q.id !in t.reservations && InOrder(t, actor.tenantID, q.requestedAt)
  {
    ReachableBasics(d, t);
    CollidingRowsSuffice(t, q.id, q.voyageID, actor.tenantID, q.chamber, q.slot, q.length, q.beam, q.draft);
    if actor.role.Dispatcher? && q.requestedAt != ZERO_INSTANT && GetVoyage(t, actor.tenantID, q.voyageID).Ok?
       && t.voyages[q.voyageID].status.Cleared? {
      ReserveOutcome(d, t, actor, q);
      if actor.id != "" && q.id !in t.reservations {
        AppendIff(d, t, OfReserve(q.id), ReserveEvent(actor, q));
      }
    }
  }

  /** The version guard of a reservation just read cannot refuse, so that only the life
      cycle, the unique index and the audit append can. */
  lemma MoveOutcome(d: Digests, t: Tables, actor: User, id: string, next: SlotStatus, at: Instant, note: string)
    requires actor.role.LockController? && GetReservation(t, actor.tenantID, id).Ok? && t.reservations[id].id == id
    requires BuildMovement(t.reservations[id], next, at, actor.id, note).Ok?
    requires InsertMovement(t, BuildMovement(t.reservations[id], next, at, actor.id, note).value.0).Ok?
    ensures
      var appended := AppendRow(d.event, t.audits, MoveEvent(actor, id, next, at, note));
      && (MoveTx(d, t, actor, id, next, at, note).Ok? <==> appended.Ok?)
      && (MoveTx(d, t, actor, id, next, at, note) == Err(Database) ==> appended == Err(Database))
  {
  }

  lemma BuildsIff(r: Reservation, next: SlotStatus, at: Instant, operatorID: string, note: string)
    ensures BuildMovement(r, next, at, operatorID, note).Ok? <==>
              operatorID != "" && at != ZERO_INSTANT && MayMove(r, Movement(r.id, next, at, operatorID, note))
    ensures BuildMovement(r, next, at, operatorID, note) != Err(Database)
    ensures BuildMovement(r, next, at, operatorID, note).Ok? ==>
              BuildMovement(r, next, at, operatorID, note).value.0 == Movement(r.id, next, at, operatorID, note)
  {
  }

  lemma FitsMeansNew(t: Tables, movement: Movement)
    requires InsertMovement(t, movement).Ok?
    ensures !Happened(t, OfMove(movement.status, movement.reservationID))
  {
    assert forall m :: m in t.movements ==> !SameMove(m, movement);
  }

  /** A movement goes through exactly for a lock controller on a reservation of the tenant
      whose life cycle allows it, at an instant in order. */
  lemma MoveSucceedsIff(d: Digests, t: Tables, actor: User, id: string, next: SlotStatus, at: Instant, note: string)
    requires Reachable(d, t) && SeparatesIds(d.event)
    ensures MoveTx(d, t, actor, id, next, at, note) != Err(Database)
    ensures
      MoveTx(d, t, actor, id, next, at, note).Ok? <==>
        && actor.role.LockController? && actor.id != "" && at != ZERO_INSTANT
        && GetReservation(t, actor.tenantID, id).Ok?
        && MayMove(t.reservations[id], Movement(id, next, at, actor.id, note))
        && InOrder(t, actor.tenantID, at)
  {
    if actor.role.LockController? && GetReservation(t, actor.tenantID, id).Ok? {
      ReservationFacts(d, t, actor.tenantID, id);
      BuildsIff(t.reservations[id], next, at, actor.id, note);
      if BuildMovement(t.reservations[id], next, at, actor.id, note).Ok? {
        MovementAlwaysFits(d, t, id, next, at, actor.id, note);
        MoveOutcome(d, t, actor, id, next, at, note);
        FitsMeansNew(t, Movement(id, next, at, actor.id, note));
        ReachableBasics(d, t);
        AppendIff(d, t, OfMove(next, id), MoveEvent(actor, id, next, at, note));
      }
    }
  }

  lemma ReservationFacts(d: Digests, t: Tables, tenant: string, id: string)
    requires Reachable(d, t) && GetReservation(t, tenant, id).Ok?
    ensures id != "" && t.reservations[id].id == id && tenant != ""
  {
    ReachableIsExplained(d, t);
    assert StatusTells(t, id);
  }

  /** Cancelling a confirmed reservation more than fifteen minutes early commits, and
      leaves a reservation whose recorded history does not validate. */
  lemma EarlyCancelCommits(d: Digests, t: Tables, actor: User, id: string, at: Instant, note: string)
    requires Reachable(d, t) && SeparatesIds(d.event)
    requires actor.role.LockController? && actor.id != "" && at != ZERO_INSTANT && InOrder(t, actor.tenantID, at)
    requires GetReservation(t, actor.tenantID, id).Ok? && t.reservations[id].status.Confirmed?
    requires at < t.reservations[id].startsAt - EARLY_ENTRY
    ensures
      var t' := Step(d, t, MovePassage(actor, id, Cancelled, at, note));
      && Reachable(d, t')
      && id in t'.reservations && t'.reservations[id].status.Cancelled?
      && !ConsistentHistory(t'.reservations[id], MovesOf(t', id))
  {
    var t' := CancelStep(d, t, actor, id, at, note);
    CancelledHistory(d, t, t', t.reservations[id], Movement(id, Cancelled, at, actor.id, note));
    RecordedHistoriesValidate(d, t', id);
  }

  lemma CancelStep(d: Digests, t: Tables, actor: User, id: string, at: Instant, note: string) returns (t': Tables)
    requires Reachable(d, t) && SeparatesIds(d.event)
    requires actor.role.LockController? && actor.id != "" && at != ZERO_INSTANT && InOrder(t, actor.tenantID, at)
    requires GetReservation(t, actor.tenantID, id).Ok? && t.reservations[id].status.Confirmed? && at < t.reservations[id].startsAt
    ensures t' == Step(d, t, MovePassage(actor, id, Cancelled, at, note)) && Reachable(d, t')
    ensures HistoriesOk(t) && t.reservations[id].id == id
    ensures MoveCommit(d, t, t', t.reservations[id], Movement(id, Cancelled, at, actor.id, note))
  {
    ReachableIsExplained(d, t);
    MoveSucceedsIff(d, t, actor, id, Cancelled, at, note);
    MoveLeadsOn(d, t, actor, id, Cancelled, at, note);
    StepsStayReachable(d, t, MovePassage(actor, id, Cancelled, at, note));
    assert StatusTells(t, id);
    t' := Step(d, t, MovePassage(actor, id, Cancelled, at, note));
  }

  lemma MoveLeadsOn(d: Digests, t: Tables, actor: User, id: string, next: SlotStatus, at: Instant, note: string)
    requires Keyed(t) && MoveTx(d, t, actor, id, next, at, note).Ok?
    ensures id in t.reservations
    ensures MoveCommit(d, t, Step(d, t, MovePassage(actor, id, next, at, note)), t.reservations[id], Movement(id, next, at, actor.id, note))
  {
    MoveCommits(d, t, actor, id, next, at, note);
  }

  lemma CancelledHistory(d: Digests, t: Tables, t': Tables, r: Reservation, m: Movement)
    requires HistoriesOk(t) && MoveCommit(d, t, t', r, m) && m.status.Cancelled?
    ensures r.id in t'.reservations && t'.reservations[r.id] == r.(status := Cancelled, version := r.version + 1)
    ensures MovesOf(t', r.id) == [m]
  {
    assert StatusTells(t, r.id);
    SelectAppend(t.movements, m, ForReservation(r.id));
    assert MovesOf(t, r.id) == [];
  }
}
