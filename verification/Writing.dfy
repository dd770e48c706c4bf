/** What each committed transaction writes, field by field: the rows, the audit event that
    names its user, and the outbox job. */
module Writing {
  import opened Core
  import opened Passage
  import opened Operations
  import opened Manifests
  import opened AuditChain
  import opened Authorization
  import opened Workflow
  import opened Commits
  import C = Clearance

  /** The audit event tells of an act of the user on the object. */
  predicate TellsOf(e: Event, id: string, actor: User, action: string, objectType: string, objectID: string,
                    details: map<string, string>, at: Instant)
  {
    && e.id == id && e.tenantID == actor.tenantID && e.actorID == actor.id && e.action == action
    && e.objectType == objectType && e.objectID == objectID && e.outcome == "ok" && e.details == details
    && e.occurredAt == at
  }

  /** One event was appended to the audit table, and tells of the act. */
  predicate Logged(t: Tables, t': Tables, id: string, actor: User, action: string, objectType: string, objectID: string,
                   details: map<string, string>, at: Instant)
  {
    && |t'.audits| == |t.audits| + 1 && t'.audits[..|t.audits|] == t.audits
    && TellsOf(t'.audits[|t.audits|], id, actor, action, objectType, objectID, details, at)
  }

  lemma AppendLogs(d: Digests, t: Tables, t': Tables, c: Event, actor: User)
    requires AppendRow(d.event, t.audits, c) == Ok(t'.audits)
    requires c.tenantID == actor.tenantID && c.actorID == actor.id && c.outcome == "ok"
    ensures Logged(t, t', c.id, actor, c.action, c.objectType, c.objectID, c.details, c.occurredAt)
  {
    AppendRowExtends(d.event, t.audits, c, c.tenantID);
  }

  // ---- Declarations --------------------------------------------------------------------

  /** The manifest holds the items asked for, each once and by container, under their hash. */
  ghost predicate ManifestOf(d: Digests, m: Manifest, q: DeclareRequest) {
    && m.voyageID == q.id && m.hash == d.items(m.items)
    && (forall x :: x in m.items <==> x in q.items)
    && (forall i, j :: 0 <= i < j < |m.items| ==> StringLess(m.items[i].containerNo, m.items[j].containerNo))
  }

  ghost predicate DeclaresAs(d: Digests, t: Tables, t': Tables, actor: User, q: DeclareRequest) {
    && q.id !in t.voyages && q.id !in t.manifests && "outbox-declare-" + q.id !in t.outbox
    && q.id in t'.manifests && var m := t'.manifests[q.id];
    && ManifestOf(d, m, q)
    && t'.manifests == t.manifests[q.id := m]
    && t'.voyages == t.voyages[q.id :=
         C.Voyage(q.id, actor.tenantID, TrimSpace(q.vesselIMO), TrimSpace(q.vesselName), q.originPort, q.destinationPort, q.eta,
                  C.Declared, m.hash, Some(q.at), None, 2)]
    && t'.inspections == t.inspections && t'.reservations == t.reservations && t'.movements == t.movements
    && t'.outbox == t.outbox["outbox-declare-" + q.id := OutboxRow(actor.tenantID, "voyage.declared", q.id, C.Declared, q.at)]
    && Logged(t, t', "audit-declare-" + q.id, actor, "voyage.declared", "voyage", q.id, map["manifest_hash" := m.hash], q.at)
  }

  lemma DeclareWrites(d: Digests, t: Tables, actor: User, q: DeclareRequest)
    requires DeclareTx(d, t, actor, q).Ok?
    ensures var out := DeclareTx(d, t, actor, q).value;
            DeclaresAs(d, t, out.1, actor, q) && out.0 == out.1.voyages[q.id]
  {
    var out := DeclareTx(d, t, actor, q).value;
    var v := out.0;
    var m := BuildManifest(d.items, q.id, q.items).value;
    BuildTells(d.items, q.id, q.items);
    DeclaredVoyage(d, t, actor, q);
    InsertDeclaredTables(d, t, actor, v, m, q.at);
    NotInserted(d, t, actor, v, m, q.at);
    AppendLogs(d, t, out.1, DeclareEvent(actor, v, m, q.at), actor);
  }

  lemma NotInserted(d: Digests, t: Tables, actor: User, v: C.Voyage, m: Manifest, at: Instant)
    requires InsertDeclared(d, t, actor, v, m, at).Ok?
    ensures v.id !in t.manifests
  {
  }

  lemma DeclaredVoyage(d: Digests, t: Tables, actor: User, q: DeclareRequest)
    requires DeclareTx(d, t, actor, q).Ok?
    ensures
      var built, out := BuildManifest(d.items, q.id, q.items), DeclareTx(d, t, actor, q).value;
      && built.Ok?
      && out.0 == C.Voyage(q.id, actor.tenantID, TrimSpace(q.vesselIMO), TrimSpace(q.vesselName), q.originPort,
                           q.destinationPort, q.eta, C.Declared, built.value.hash, Some(q.at), None, 2)
      && InsertDeclared(d, t, actor, out.0, built.value, q.at) == Ok(out.1)
  {
  }

  // ---- Inspections ---------------------------------------------------------------------

  predicate OpensAs(t: Tables, t': Tables, actor: User, id: string, voyageID: string, kind: string, at: Instant) {
    && voyageID in t.voyages && var v := t.voyages[voyageID];
    && v.tenantID == actor.tenantID && v.status == C.Declared && id !in t.inspections
    && t'.voyages == t.voyages[voyageID := v.(status := C.Held, version := v.version + 1)]
    && t'.inspections == t.inspections[id := C.Inspection(id, voyageID, actor.id, kind, C.Open, "", at, None, 1)]
    && t'.manifests == t.manifests && t'.reservations == t.reservations && t'.movements == t.movements && t'.outbox == t.outbox
    && Logged(t, t', "audit-inspection-open-" + id, actor, "inspection.opened", "voyage", voyageID, map["kind" := kind], at)
  }

  lemma OpenWrites(d: Digests, t: Tables, actor: User, id: string, voyageID: string, kind: string, at: Instant)
    requires Keyed(t) && OpenInspectionTx(d, t, actor, id, voyageID, kind, at).Ok?
    ensures var out := OpenInspectionTx(d, t, actor, id, voyageID, kind, at).value;
            OpensAs(t, out.1, actor, id, voyageID, kind, at) && out.0 == (out.1.inspections[id], out.1.voyages[voyageID])
  {
    OpenTables(d, t, actor, id, voyageID, kind, at);
    OpenedRow(d, t, actor, id, voyageID, kind, at);
    var t' := OpenInspectionTx(d, t, actor, id, voyageID, kind, at).value.1;
    AppendLogs(d, t, t', OpeningEvent(actor, id, voyageID, kind, at), actor);
  }

  lemma OpenedRow(d: Digests, t: Tables, actor: User, id: string, voyageID: string, kind: string, at: Instant)
    requires Keyed(t) && OpenInspectionTx(d, t, actor, id, voyageID, kind, at).Ok?
    ensures
      var out := OpenInspectionTx(d, t, actor, id, voyageID, kind, at).value;
      && GetVoyage(t, actor.tenantID, voyageID).Ok?
      && out.0.0 == C.Inspection(id, voyageID, actor.id, kind, C.Open, "", at, None, 1)
      && out.0.1 == t.voyages[voyageID].(status := C.Held, version := t.voyages[voyageID].version + 1)
  {
  }

  predicate PassesAs(t: Tables, t': Tables, actor: User, inspectionID: string, finding: string, at: Instant) {
    && inspectionID in t.inspections && var i := t.inspections[inspectionID];
    && i.voyageID in t.voyages && var v := t.voyages[i.voyageID];
    && v.tenantID == actor.tenantID && (v.status == C.Declared || v.status == C.Held)
    && i.status == C.Open && i.openedAt <= at && TrimSpace(finding) != ""
    && (forall k :: k in t.inspections && t.inspections[k].voyageID == i.voyageID && k != inspectionID ==>
          t.inspections[k].status == C.Passed)
    && t'.voyages == t.voyages[i.voyageID := v.(status := C.Cleared, clearedAt := Some(at), version := v.version + 1)]
    && t'.inspections == t.inspections[inspectionID :=
         C.Inspection(i.id, i.voyageID, i.officerID, i.kind, C.Passed, TrimSpace(finding), i.openedAt, Some(at), i.version + 1)]
    && t'.manifests == t.manifests && t'.reservations == t.reservations && t'.movements == t.movements
    && "outbox-release-" + i.voyageID !in t.outbox
    && t'.outbox
       == t.outbox["outbox-release-" + i.voyageID := OutboxRow(actor.tenantID, "voyage.released", i.voyageID, C.Cleared, at)]
    && Logged(t, t', "audit-release-" + i.voyageID, actor, "voyage.released", "voyage", i.voyageID,
              map["inspection" := inspectionID], at)
  }

  lemma PassWrites(d: Digests, t: Tables, actor: User, inspectionID: string, finding: string, at: Instant)
    requires Keyed(t) && PassInspectionTx(d, t, actor, inspectionID, finding, at).Ok?
    ensures var out := PassInspectionTx(d, t, actor, inspectionID, finding, at).value;
            PassesAs(t, out.1, actor, inspectionID, finding, at) && out.0 == out.1.voyages[t.inspections[inspectionID].voyageID]
  {
    var out := PassInspectionTx(d, t, actor, inspectionID, finding, at).value;
    PassTables(d, t, actor, inspectionID, finding, at);
    PassCommits(d, t, actor, inspectionID, finding, at);
    var i := t.inspections[inspectionID];
    AppendLogs(d, t, out.1, ReleaseEvent(actor, i.voyageID, i.id, at), actor);
  }

  lemma PassTables(d: Digests, t: Tables, actor: User, inspectionID: string, finding: string, at: Instant)
    requires Keyed(t) && PassInspectionTx(d, t, actor, inspectionID, finding, at).Ok?
    ensures inspectionID in t.inspections && GetVoyage(t, actor.tenantID, t.inspections[inspectionID].voyageID).Ok?
    ensures
      var (released, t') := PassInspectionTx(d, t, actor, inspectionID, finding, at).value;
      var i := t.inspections[inspectionID];
      var v := t.voyages[i.voyageID];
      && i.status == C.Open && i.openedAt <= at && TrimSpace(finding) != ""
      && released == v.(status := C.Cleared, clearedAt := Some(at), version := v.version + 1)
      && t'.voyages == t.voyages[i.voyageID := released]
      && t'.inspections == t.inspections[inspectionID :=
           C.Inspection(i.id, i.voyageID, i.officerID, i.kind, C.Passed, TrimSpace(finding), i.openedAt, Some(at), i.version + 1)]
      && AppendRow(d.event, t.audits, ReleaseEvent(actor, i.voyageID, i.id, at)) == Ok(t'.audits)
      && JobID(ReleaseJob(i.voyageID)) !in t.outbox
      && t'.outbox == t.outbox[JobID(ReleaseJob(i.voyageID)) := OutboxRow(v.tenantID, "voyage.released", i.voyageID, C.Cleared, at)]
  {
  }

  // ---- Passage -------------------------------------------------------------------------

  predicate ReservesAs(t: Tables, t': Tables, actor: User, q: ReserveRequest) {
    && q.voyageID in t.voyages && var v := t.voyages[q.voyageID];
    && v.tenantID == actor.tenantID && v.status == C.Cleared && q.id !in t.reservations
    && t'.voyages == t.voyages[q.voyageID := v.(status := C.Scheduled, version := v.version + 1)]
    && t'.reservations == t.reservations[q.id :=
         Reservation(q.id, q.voyageID, actor.tenantID, q.chamber.id, q.slot.startsAt, q.slot.endsAt, q.length, q.beam, q.draft,
                     Confirmed, 2)]
    && t'.manifests == t.manifests && t'.inspections == t.inspections && t'.movements == t.movements && t'.outbox == t.outbox
    && Logged(t, t', "audit-reserve-" + q.id, actor, "passage.reserved", "voyage", q.voyageID, map["chamber" := q.chamber.id],
              q.requestedAt)
  }

  lemma ReserveWrites(d: Digests, t: Tables, actor: User, q: ReserveRequest)
    requires Keyed(t) && ReserveTx(d, t, actor, q).Ok?
    ensures var out := ReserveTx(d, t, actor, q).value;
            ReservesAs(t, out.1, actor, q) && out.0 == out.1.reservations[q.id]
  {
    ReservedRow(d, t, actor, q);
    ReserveTables(d, t, actor, q);
    AppendLogs(d, t, ReserveTx(d, t, actor, q).value.1, ReserveEvent(actor, q), actor);
  }

  lemma ReservedRow(d: Digests, t: Tables, actor: User, q: ReserveRequest)
    requires ReserveTx(d, t, actor, q).Ok?
    ensures ReserveTx(d, t, actor, q).value.0 ==
            Reservation(q.id, q.voyageID, actor.tenantID, q.chamber.id, q.slot.startsAt, q.slot.endsAt, q.length, q.beam, q.draft,
                        Confirmed, 2)
  {
  }

  /** How the new status reads in an audit event. */
  function Spelled(next: SlotStatus): string
    requires next in {Entered, Exited, Cancelled}
  {
    if next == Entered then "entered" else if next == Exited then "exited" else "cancelled"
  }

  predicate MovesAs(t: Tables, t': Tables, actor: User, id: string, next: SlotStatus, at: Instant, note: string) {
    && id in t.reservations && var r := t.reservations[id];
    && r.tenantID == actor.tenantID && next in {Entered, Exited, Cancelled}
    && t'.reservations == t.reservations[id := r.(status := next, version := r.version + 1)]
    && t'.movements == t.movements + [Movement(id, next, at, actor.id, note)]
    && t'.voyages == t.voyages && t'.manifests == t.manifests && t'.inspections == t.inspections && t'.outbox == t.outbox
    && Logged(t, t', "audit-passage-" + Spelled(next) + "-" + id, actor, "passage." + Spelled(next), "passage_reservation", id,
              map["note" := note], at)
  }

  lemma MoveWrites(d: Digests, t: Tables, actor: User, id: string, next: SlotStatus, at: Instant, note: string)
    requires Keyed(t) && MoveTx(d, t, actor, id, next, at, note).Ok?
    ensures var out := MoveTx(d, t, actor, id, next, at, note).value;
            MovesAs(t, out.1, actor, id, next, at, note) && out.0 == out.1.reservations[id]
  {
    MoveTables(d, t, actor, id, next, at, note);
    AppendLogs(d, t, MoveTx(d, t, actor, id, next, at, note).value.1, MoveEvent(actor, id, next, at, note), actor);
  }

  lemma MoveTables(d: Digests, t: Tables, actor: User, id: string, next: SlotStatus, at: Instant, note: string)
    requires Keyed(t) && MoveTx(d, t, actor, id, next, at, note).Ok?
    ensures GetReservation(t, actor.tenantID, id).Ok? && next in {Entered, Exited, Cancelled}
    ensures
      var (moved, t') := MoveTx(d, t, actor, id, next, at, note).value;
      var r := t.reservations[id];
      && moved == r.(status := next, version := r.version + 1)
      && AppendRow(d.event, t.audits, MoveEvent(actor, id, next, at, note)) == Ok(t'.audits)
      && t' == t.(reservations := t.reservations[id := moved], movements := t.movements + [Movement(id, next, at, actor.id, note)],
                  audits := t'.audits)
  {
  }

  // ---- All five ------------------------------------------------------------------------

  /** The command committed, and wrote what it asked for. */
  ghost predicate Wrote(d: Digests, t: Tables, t': Tables, c: Command) {
    match c
    case DeclareVoyage(actor, request) => DeclaresAs(d, t, t', actor, request)
    case OpenInspection(actor, id, voyageID, kind, at) => OpensAs(t, t', actor, id, voyageID, kind, at)
    case PassInspection(actor, id, finding, at) => PassesAs(t, t', actor, id, finding, at)
    case ReservePassage(actor, q) => ReservesAs(t, t', actor, q)
    case MovePassage(actor, id, next, at, note) => MovesAs(t, t', actor, id, next, at, note)
  }

  /** A command writes what it asked for, or nothing. */
  lemma StepWrites(d: Digests, t: Tables, c: Command)
    requires Keyed(t)
    ensures Step(d, t, c) == t || Wrote(d, t, Step(d, t, c), c)
  {
    if Step(d, t, c) != t {
      match c
      case DeclareVoyage(actor, request) => DeclareWrites(d, t, actor, request);
      case OpenInspection(actor, id, voyageID, kind, at) => OpenWrites(d, t, actor, id, voyageID, kind, at);
      case PassInspection(actor, id, finding, at) => PassWrites(d, t, actor, id, finding, at);
      case ReservePassage(actor, q) => ReserveWrites(d, t, actor, q);
      case MovePassage(actor, id, next, at, note) => MoveWrites(d, t, actor, id, next, at, note);
    }
  }
}
