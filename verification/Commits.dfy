/** What each transaction changes when it commits. */
module Commits {
  import opened Core
  import opened Passage
  import opened Operations
  import opened Manifests
  import opened AuditChain
  import opened Authorization
  import opened Workflow
  import C = Clearance

  /** Rows are stored under their own id. */
  ghost predicate Keyed(t: Tables) {
    && (forall k :: k in t.voyages ==> t.voyages[k].id == k)
    && (forall k :: k in t.inspections ==> t.inspections[k].id == k)
    && (forall k :: k in t.reservations ==> t.reservations[k].id == k)
  }

  /** One event of the tenant, about the given change, was appended to the audit table. */
  ghost predicate AuditGrew(d: Digests, t: Tables, t': Tables, tenant: string, at: Instant, k: AuditKey) {
    exists c :: AppendsEvent(d, t, t', tenant, at, k, c)
  }

  ghost predicate AppendsEvent(d: Digests, t: Tables, t': Tables, tenant: string, at: Instant, k: AuditKey, c: Event) {
    c.tenantID == tenant && c.occurredAt == at && c.id == AuditID(k) && AppendRow(d.event, t.audits, c) == Ok(t'.audits)
  }

  ghost predicate JobAdded(t: Tables, t': Tables, tenant: string, k: JobKey) {
    exists row :: AddsJob(t, t', tenant, k, row)
  }

  predicate AddsJob(t: Tables, t': Tables, tenant: string, k: JobKey, row: OutboxRow) {
    JobID(k) !in t.outbox && row.tenantID == tenant && t'.outbox == t.outbox[JobID(k) := row]
  }

  /** A declaration inserts a voyage and its manifest. */
  ghost predicate Declares(d: Digests, t: Tables, t': Tables, v: C.Voyage, m: Manifest) {
    && v.id !in t.voyages && v.id != "" && v.tenantID != ""
    && v.status.Declared? && v.version == 2 && v.clearedAt.None?
    && Built(d.items, m) && m.voyageID == v.id && m.hash == v.manifestHash && v.manifestHash != ""
    && t' == t.(voyages := t.voyages[v.id := v], manifests := t.manifests[v.id := m], audits := t'.audits, outbox := t'.outbox)
  }

  /** Opening an inspection holds a declared voyage. */
  ghost predicate Opens(t: Tables, t': Tables, v: C.Voyage, i: C.Inspection) {
    && v.id in t.voyages && t.voyages[v.id] == v && v.status.Declared?
    && i.id !in t.inspections && i.voyageID == v.id && i.status.Open?
    && t' == t.(voyages := t.voyages[v.id := v.(status := C.Held, version := v.version + 1)],
                inspections := t.inspections[i.id := i], audits := t'.audits)
  }

  /** Passing the last open inspection clears the voyage. */
  ghost predicate Passes(t: Tables, t': Tables, v: C.Voyage, i: C.Inspection, at: Instant) {
    && v.id in t.voyages && t.voyages[v.id] == v && (v.status.Declared? || v.status.Held?)
    && i.id in t.inspections && t.inspections[i.id].status.Open? && t.inspections[i.id].voyageID == v.id
    && i.voyageID == v.id && i.status.Passed?
    && (forall k :: k in t.inspections && t.inspections[k].voyageID == v.id && k != i.id ==> t.inspections[k].status.Passed?)
    && t' == t.(voyages := t.voyages[v.id := v.(status := C.Cleared, clearedAt := Some(at), version := v.version + 1)],
                inspections := t.inspections[i.id := i], audits := t'.audits, outbox := t'.outbox)
  }

  /** A reservation schedules a cleared voyage in a chamber that is free as far as the
      queried rows tell. */
  ghost predicate Reserves(t: Tables, t': Tables, v: C.Voyage, r: Reservation) {
    && v.id in t.voyages && t.voyages[v.id] == v && v.status.Cleared?
    && r.id !in t.reservations && r.id != "" && r.voyageID == v.id && r.tenantID == v.tenantID
    && r.status.Confirmed? && r.version == 2 && r.startsAt < r.endsAt
    && ClearOfReservations(r.chamberID, CollidingReservations(t, r.chamberID, r.Slot()), r.Slot())
    && t' == t.(voyages := t.voyages[v.id := v.(status := C.Scheduled, version := v.version + 1)],
                reservations := t.reservations[r.id := r], audits := t'.audits)
  }

  /** The life cycle of a reservation and the times it allows. */
  predicate MayMove(r: Reservation, m: Movement) {
    match m.status
    case Entered => r.status.Confirmed? && r.startsAt - EARLY_ENTRY <= m.occurredAt < r.endsAt
    case Exited => r.status.Entered? && r.startsAt <= m.occurredAt
    case Cancelled => (r.status.Reserved? || r.status.Confirmed?) && m.occurredAt < r.startsAt
    case _ => false
  }

  /** A movement advances a reservation. */
  ghost predicate Moves(t: Tables, t': Tables, r: Reservation, m: Movement) {
    && r.id in t.reservations && t.reservations[r.id] == r
    && m.reservationID == r.id && m.operatorID != ""
    && MayMove(r, m)
    && t' == t.(reservations := t.reservations[r.id := r.(status := m.status, version := r.version + 1)],
                movements := t.movements + [m], audits := t'.audits)
  }

  ghost predicate DeclareCommit(d: Digests, t: Tables, t': Tables, v: C.Voyage, m: Manifest, at: Instant) {
    Declares(d, t, t', v, m) && AuditGrew(d, t, t', v.tenantID, at, OfDeclaration(v.id)) && JobAdded(t, t', v.tenantID, DeclareJob(v.id))
  }

  ghost predicate OpenCommit(d: Digests, t: Tables, t': Tables, v: C.Voyage, i: C.Inspection, at: Instant) {
    Opens(t, t', v, i) && AuditGrew(d, t, t', v.tenantID, at, OfOpening(i.id))
  }

  ghost predicate PassCommit(d: Digests, t: Tables, t': Tables, v: C.Voyage, i: C.Inspection, at: Instant) {
    Passes(t, t', v, i, at) && AuditGrew(d, t, t', v.tenantID, at, OfRelease(v.id)) && JobAdded(t, t', v.tenantID, ReleaseJob(v.id))
  }

  ghost predicate ReserveCommit(d: Digests, t: Tables, t': Tables, v: C.Voyage, r: Reservation, at: Instant) {
    Reserves(t, t', v, r) && AuditGrew(d, t, t', v.tenantID, at, OfReserve(r.id))
  }

  ghost predicate MoveCommit(d: Digests, t: Tables, t': Tables, r: Reservation, m: Movement) {
    Moves(t, t', r, m) && AuditGrew(d, t, t', r.tenantID, m.occurredAt, OfMove(m.status, r.id))
  }

  /** The tables changed in one of the five ways. */
  ghost predicate Commit(d: Digests, t: Tables, t': Tables) {
    || (exists v, m, at :: DeclareCommit(d, t, t', v, m, at))
    || (exists v, i, at :: OpenCommit(d, t, t', v, i, at))
    || (exists v, i, at :: PassCommit(d, t, t', v, i, at))
    || (exists v, r, at :: ReserveCommit(d, t, t', v, r, at))
    || (exists r, m :: MoveCommit(d, t, t', r, m))
  }

  /** The voyage row and the manifest row that a declaration inserts. */
  lemma DeclareRows(d: Digests, t: Tables, actor: User, request: DeclareRequest)
    requires DeclareTx(d, t, actor, request).Ok?
    ensures
      var v := DeclareTx(d, t, actor, request).value.0;
      var built := BuildManifest(d.items, request.id, request.items);
      && built.Ok?
      && v.id == request.id && v.id != "" && v.tenantID == actor.tenantID && v.tenantID != ""
      && v.status.Declared? && v.version == 2 && v.clearedAt.None? && v.manifestHash == built.value.hash
      && v.manifestHash != ""
  {
  }

  lemma InsertDeclaredTables(d: Digests, t: Tables, actor: User, v: C.Voyage, m: Manifest, at: Instant)
    requires InsertDeclared(d, t, actor, v, m, at).Ok?
    ensures
      var t' := InsertDeclared(d, t, actor, v, m, at).value;
      && v.id !in t.voyages
      && AppendRow(d.event, t.audits, DeclareEvent(actor, v, m, at)) == Ok(t'.audits)
      && JobID(DeclareJob(v.id)) !in t.outbox
      && t'.outbox == t.outbox[JobID(DeclareJob(v.id)) := DeclaredJob(v, at)]
      && t' == t.(voyages := t.voyages[v.id := v], manifests := t.manifests[v.id := m], audits := t'.audits, outbox := t'.outbox)
  {
  }

  lemma DeclareCommits(d: Digests, t: Tables, actor: User, request: DeclareRequest)
    requires DeclareTx(d, t, actor, request).Ok?
    ensures var out := DeclareTx(d, t, actor, request).value;
            DeclareCommit(d, t, out.1, out.0, BuildManifest(d.items, request.id, request.items).value, request.at)
  {
    var out := DeclareTx(d, t, actor, request).value;
    DeclareRows(d, t, actor, request);
    var m := BuiltAgain(d.items, request.id, request.items);
    InsertDeclaredTables(d, t, actor, out.0, m, request.at);
    AssembleDeclare(d, t, out.1, out.0, m, actor, request.at);
  }

  lemma AssembleDeclare(d: Digests, t: Tables, t': Tables, v: C.Voyage, m: Manifest, actor: User, at: Instant)
    requires v.id !in t.voyages && v.id != "" && v.tenantID == actor.tenantID && v.tenantID != ""
    requires v.status.Declared? && v.version == 2 && v.clearedAt.None? && v.manifestHash != ""
    requires Built(d.items, m) && m.voyageID == v.id && m.hash == v.manifestHash
    requires AppendRow(d.event, t.audits, DeclareEvent(actor, v, m, at)) == Ok(t'.audits)
    requires JobID(DeclareJob(v.id)) !in t.outbox
    requires t'.outbox == t.outbox[JobID(DeclareJob(v.id)) := DeclaredJob(v, at)]
    requires t' == t.(voyages := t.voyages[v.id := v], manifests := t.manifests[v.id := m], audits := t'.audits, outbox := t'.outbox)
    ensures DeclareCommit(d, t, t', v, m, at)
  {
    assert AppendsEvent(d, t, t', v.tenantID, at, OfDeclaration(v.id), DeclareEvent(actor, v, m, at));
    assert AddsJob(t, t', v.tenantID, DeclareJob(v.id), DeclaredJob(v, at));
  }

  lemma BuiltAgain(h: ItemsDigest, voyageID: string, items: seq<CargoItem>) returns (m: Manifest)
    requires BuildManifest(h, voyageID, items).Ok?
    ensures BuildManifest(h, voyageID, items) == Ok(m) && Built(h, m) && m.voyageID == voyageID
  {
    m := BuildManifest(h, voyageID, items).value;
  }

  lemma OpenTables(d: Digests, t: Tables, actor: User, id: string, voyageID: string, kind: string, at: Instant)
    requires Keyed(t) && OpenInspectionTx(d, t, actor, id, voyageID, kind, at).Ok?
    ensures
      var out := OpenInspectionTx(d, t, actor, id, voyageID, kind, at).value;
      && GetVoyage(t, actor.tenantID, voyageID).Ok? && Opens(t, out.1, t.voyages[voyageID], out.0.0) && out.0.0.id == id
      && AppendRow(d.event, t.audits, OpeningEvent(actor, id, voyageID, kind, at)) == Ok(out.1.audits)
  {
  }

  lemma OpenCommits(d: Digests, t: Tables, actor: User, id: string, voyageID: string, kind: string, at: Instant)
    requires Keyed(t) && OpenInspectionTx(d, t, actor, id, voyageID, kind, at).Ok?
    ensures var out := OpenInspectionTx(d, t, actor, id, voyageID, kind, at).value;
            voyageID in t.voyages && OpenCommit(d, t, out.1, t.voyages[voyageID], out.0.0, at)
  {
    OpenTables(d, t, actor, id, voyageID, kind, at);
    var t' := OpenInspectionTx(d, t, actor, id, voyageID, kind, at).value.1;
    assert AppendsEvent(d, t, t', actor.tenantID, at, OfOpening(id), OpeningEvent(actor, id, voyageID, kind, at));
  }

  lemma PassCommits(d: Digests, t: Tables, actor: User, inspectionID: string, finding: string, at: Instant)
    requires Keyed(t) && PassInspectionTx(d, t, actor, inspectionID, finding, at).Ok?
    ensures var t' := PassInspectionTx(d, t, actor, inspectionID, finding, at).value.1;
            PassCommit(d, t, t', t.voyages[t.inspections[inspectionID].voyageID], t'.inspections[inspectionID], at)
  {
    var out := PassInspectionTx(d, t, actor, inspectionID, finding, at).value;
    var t' := out.1;
    var inspection := t.inspections[inspectionID];
    var v := t.voyages[inspection.voyageID];
    var closed := C.CloseInspection(inspection, finding, true, at, inspection.version).value;
    var t1 := t.(inspections := t.inspections[inspectionID := closed]);
    var c := ReleaseEvent(actor, v.id, closed.id, at);
    assert AppendsEvent(d, t, t', c.tenantID, c.occurredAt, OfRelease(v.id), c);
    var row := OutboxRow(v.tenantID, "voyage.released", v.id, C.Cleared, at);
    assert AddsJob(t, t', v.tenantID, ReleaseJob(v.id), row);
    forall k | k in t.inspections && t.inspections[k].voyageID == v.id && k != closed.id
      ensures t.inspections[k].status.Passed?
    {
      assert t1.inspections[k] in InspectionsOf(t1, v.id);
    }
  }

  /** The reservation row that a reservation inserts. */
  lemma ReserveRow(d: Digests, t: Tables, actor: User, q: ReserveRequest)
    requires ReserveTx(d, t, actor, q).Ok?
    ensures
      var r := ReserveTx(d, t, actor, q).value.0;
      && r.id == q.id && r.id != "" && r.voyageID == q.voyageID && r.tenantID == actor.tenantID && r.chamberID == q.chamber.id
      && r.status.Confirmed? && r.version == 2 && r.startsAt < r.endsAt && r.Slot() == q.slot
      && ClearOfReservations(r.chamberID, CollidingReservations(t, r.chamberID, r.Slot()), r.Slot())
  {
  }

  lemma ReserveTables(d: Digests, t: Tables, actor: User, q: ReserveRequest)
    requires Keyed(t) && ReserveTx(d, t, actor, q).Ok?
    ensures
      var out := ReserveTx(d, t, actor, q).value;
      var r, t' := out.0, out.1;
      && q.voyageID in t.voyages && t.voyages[q.voyageID].tenantID == actor.tenantID && t.voyages[q.voyageID].status.Cleared?
      && r.id !in t.reservations
      && AppendRow(d.event, t.audits, ReserveEvent(actor, q)) == Ok(t'.audits)
      && var v := t.voyages[q.voyageID];
         t' == t.(voyages := t.voyages[v.id := v.(status := C.Scheduled, version := v.version + 1)],
                  reservations := t.reservations[r.id := r], audits := t'.audits)
  {
  }

  lemma ReserveCommits(d: Digests, t: Tables, actor: User, q: ReserveRequest)
    requires Keyed(t) && ReserveTx(d, t, actor, q).Ok?
    ensures var out := ReserveTx(d, t, actor, q).value;
            ReserveCommit(d, t, out.1, t.voyages[q.voyageID], out.0, q.requestedAt)
  {
    ReserveRow(d, t, actor, q);
    ReserveTables(d, t, actor, q);
    var c := ReserveEvent(actor, q);
    assert AppendsEvent(d, t, ReserveTx(d, t, actor, q).value.1, actor.tenantID, q.requestedAt, OfReserve(q.id), c);
  }

  lemma MoveCommits(d: Digests, t: Tables, actor: User, reservationID: string, next: SlotStatus, at: Instant, note: string)
    requires Keyed(t) && MoveTx(d, t, actor, reservationID, next, at, note).Ok?
    ensures var t' := MoveTx(d, t, actor, reservationID, next, at, note).value.1;
            MoveCommit(d, t, t', t.reservations[reservationID], Movement(reservationID, next, at, actor.id, note))
  {
    var t' := MoveTx(d, t, actor, reservationID, next, at, note).value.1;
    var r := t.reservations[reservationID];
    var c := MoveEvent(actor, r.id, next, at, note);
    assert AppendsEvent(d, t, t', c.tenantID, c.occurredAt, OfMove(next, r.id), c);
  }

  /** A command commits in one of the five ways or changes nothing at all. */
  lemma StepCommitsOrNothing(d: Digests, t: Tables, c: Command)
    requires Keyed(t)
    ensures Step(d, t, c) == t || Commit(d, t, Step(d, t, c))
  {
    if Step(d, t, c) != t {
      match c
      case DeclareVoyage(actor, request) =>
        DeclareCommits(d, t, actor, request);
      case OpenInspection(actor, id, voyageID, kind, at) =>
        OpenCommits(d, t, actor, id, voyageID, kind, at);
      case PassInspection(actor, id, finding, at) =>
        PassCommits(d, t, actor, id, finding, at);
      case ReservePassage(actor, q) =>
        ReserveCommits(d, t, actor, q);
      case MovePassage(actor, id, next, at, note) =>
        MoveCommits(d, t, actor, id, next, at, note);
    }
  }

  /** Every commit appends one audit event. */
  lemma CommitAppends(d: Digests, t: Tables, t': Tables) returns (actor: string, at: Instant, k: AuditKey)
    requires Commit(d, t, t')
    ensures AuditGrew(d, t, t', actor, at, k)
  {
    if v, m, when :| DeclareCommit(d, t, t', v, m, when) {
      return v.tenantID, when, OfDeclaration(v.id);
    } else if v, i, when :| OpenCommit(d, t, t', v, i, when) {
      return v.tenantID, when, OfOpening(i.id);
    } else if v, i, when :| PassCommit(d, t, t', v, i, when) {
      return v.tenantID, when, OfRelease(v.id);
    } else if v, r, when :| ReserveCommit(d, t, t', v, r, when) {
      return v.tenantID, when, OfReserve(r.id);
    } else {
      var r, m :| MoveCommit(d, t, t', r, m);
      return r.tenantID, m.occurredAt, OfMove(m.status, r.id);
    }
  }
}
