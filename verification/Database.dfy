/** The store as an object whose methods run the transactions statement by statement
    and roll back on the first error (internal/store/workflow.go,
    internal/store/passage_operations.go, WithTx in internal/store/database.go). */
module Store {
  import opened Core
  import opened TimeWindows
  import opened Passage
  import opened Operations
  import opened Manifests
  import opened AuditChain
  import opened Authorization
  import opened Workflow
  import opened Commits
  import opened Writing
  import opened Invariants
  import opened PassageInvariants
  import opened ReachableStates
  import opened Admission
  import opened EligibilityReports
  import opened Answers
  import E = Eligibility
  import C = Clearance

  function Answer<R>(outcome: Result<(R, Tables)>): Result<R> {
    if outcome.Ok? then Ok(outcome.value.0) else Err(outcome.error)
  }

  /** ORDER BY opened_at, id. */
  predicate OpenedNoLater(a: C.Inspection, b: C.Inspection) {
    if a.openedAt == b.openedAt then StringLeq(a.id, b.id) else a.openedAt < b.openedAt
  }

  /** ORDER BY starts_at, id. */
  predicate BeginsNoLater(a: Reservation, b: Reservation) {
    if a.startsAt == b.startsAt then StringLeq(a.id, b.id) else a.startsAt < b.startsAt
  }

  lemma QueryOrders()
    ensures TotalPreorder(OpenedNoLater) && TotalPreorder(BeginsNoLater)
  {
    StringLessIsStrictOrder();
  }

  lemma SortedRows<T>(a: seq<T>, b: seq<T>)
    requires forall x :: x in a <==> x in b
    ensures Rows(a) == Rows(b)
  {
  }

  lemma OneMore(found: set<string>, found': set<string>, k: string)
    requires k !in found && found' == found + {k}
    ensures |found'| == |found| + 1
  {
  }

  /** Of the stored reservations, the rows are the live ones of the chamber that begin before
      the slot ends and end after it begins. */
  ghost predicate InTheWay(reservations: map<string, Reservation>, chamberID: string, slot: Window, rows: seq<Reservation>) {
    forall k :: k in reservations ==>
      var r := reservations[k];
      (r in rows <==> r.chamberID == chamberID && r.status != Cancelled && r.startsAt < slot.endsAt && slot.startsAt < r.endsAt)
  }

  lemma CollidingTells(t: Tables, chamberID: string, slot: Window, rows: seq<Reservation>)
    requires Rows(rows) == CollidingReservations(t, chamberID, slot)
    ensures InTheWay(t.reservations, chamberID, slot, rows)
  {
    forall k | k in t.reservations
      ensures t.reservations[k] in rows <==> Colliding(t.reservations[k], chamberID, slot)
    {
      assert t.reservations[k] in rows <==> t.reservations[k] in CollidingReservations(t, chamberID, slot) by {
        assert t.reservations[k] in rows <==> t.reservations[k] in Rows(rows);
      }
    }
  }

  class Database {
    const digests: Digests
    var voyages: map<string, C.Voyage>
    var manifests: map<string, Manifest>
    var inspections: map<string, C.Inspection>
    var reservations: map<string, Reservation>
    var movements: seq<Movement>
    var audits: seq<Event>
    var outbox: map<string, OutboxRow>

    function Contents(): Tables
      reads this
    {
      Tables(voyages, manifests, inspections, reservations, movements, audits, outbox)
    }

    constructor (digests: Digests)
      ensures this.digests == digests && Contents() == EMPTY
    {
      this.digests := digests;
      voyages, manifests, inspections, reservations := map[], map[], map[], map[];
      movements, audits, outbox := [], [], map[];
    }

    /** The rollback of an uncommitted transaction. */
    method Rollback(before: Tables)
      modifies this
      ensures Contents() == before
    {
      voyages, manifests, inspections := before.voyages, before.manifests, before.inspections;
      reservations, movements := before.reservations, before.movements;
      audits, outbox := before.audits, before.outbox;
    }

    // ---- Statements --------------------------------------------------------------

    method SaveVoyageTx(v: C.Voyage, expected: int) returns (r: Result<()>)
      modifies this`voyages
      ensures r.Ok? ==> SaveVoyage(old(Contents()), v, expected) == Ok(Contents())
      ensures r.Err? ==> SaveVoyage(old(Contents()), v, expected) == Err(r.error)
    {
      if v.id !in voyages || voyages[v.id].version != expected {
        return Err(Conflict);
      }
      var row := voyages[v.id];
      row := row.(status := v.status, manifestHash := v.manifestHash, declaredAt := v.declaredAt);
      row := row.(clearedAt := v.clearedAt, version := v.version);
      voyages := voyages[v.id := row];
      return Ok(());
    }

    method AppendAuditTx(candidate: Event) returns (r: Result<()>)
      modifies this`audits
      ensures r.Ok? ==> AppendTo(digests, old(Contents()), candidate) == Ok(Contents())
      ensures r.Err? ==> AppendTo(digests, old(Contents()), candidate) == Err(r.error)
    {
      var appended := AppendAudit(digests.event, audits, candidate);
      if appended.Err? {
        return Err(appended.error);
      }
      audits := appended.value;
      return Ok(());
    }

    method InsertJobTx(id: string, row: OutboxRow) returns (r: Result<()>)
      modifies this`outbox
      ensures r.Ok? ==> Enqueue(old(Contents()), id, row) == Ok(Contents())
      ensures r.Err? ==> Enqueue(old(Contents()), id, row) == Err(r.error)
    {
      if id in outbox {
        return Err(Database);
      }
      outbox := outbox[id := row];
      return Ok(());
    }

    method InsertMovementTx(movement: Movement) returns (r: Result<()>)
      modifies this`movements
      ensures r.Ok? ==> InsertMovement(old(Contents()), movement) == Ok(Contents())
      ensures r.Err? ==> InsertMovement(old(Contents()), movement) == Err(r.error)
    {
      for i := 0 to |movements|
        invariant forall j :: 0 <= j < i ==> !SameMove(movements[j], movement)
      {
        if movements[i].reservationID == movement.reservationID && movements[i].status == movement.status {
          assert movements[i] in movements && SameMove(movements[i], movement);
          return Err(Database);
        }
      }
      movements := movements + [movement];
      return Ok(());
    }

    method ListInspectionsTx(voyageID: string) returns (rows: seq<C.Inspection>)
      ensures Rows(rows) == InspectionsOf(Contents(), voyageID) && |rows| == |InspectionIds(Contents(), voyageID)|
      ensures SortedBy(OpenedNoLater, rows)
      ensures forall i, j :: 0 <= i < j < |rows| ==>
                || rows[i].openedAt < rows[j].openedAt
                || (rows[i].openedAt == rows[j].openedAt && (rows[i].id == rows[j].id || StringLess(rows[i].id, rows[j].id)))
    {
      rows := [];
      var rest := inspections.Keys;
      ghost var found: set<string> := {};
      while rest != {}
        invariant rest <= inspections.Keys
        invariant found == set k | k in inspections && k !in rest && inspections[k].voyageID == voyageID
        invariant |rows| == |found|
        invariant Rows(rows) == set k | k in found && k in inspections :: inspections[k]
        decreases rest
      {
        var k :| k in rest;
        ghost var before := rest;
        rest := rest - {k};
        assert forall x :: x in inspections && x !in rest <==> (x in inspections && x !in before) || x == k;
        if inspections[k].voyageID == voyageID {
          RowsAppend(rows, inspections[k]);
          OneMore(found, found + {k}, k);
          rows, found := rows + [inspections[k]], found + {k};
        }
      }
      assert found == InspectionIds(Contents(), voyageID);
      QueryOrders();
      var ordered := Sort(OpenedNoLater, rows);
      SortedRows(rows, ordered);
      rows := ordered;
    }

    method ListReservationsTx(chamberID: string, slot: Window) returns (rows: seq<Reservation>)
      ensures Rows(rows) == CollidingReservations(Contents(), chamberID, slot)
      ensures InTheWay(reservations, chamberID, slot, rows)
    {
      rows := [];
      var rest := reservations.Keys;
      while rest != {}
        invariant rest <= reservations.Keys
        invariant Rows(rows)
               == set k | k in reservations && k !in rest && Colliding(reservations[k], chamberID, slot) :: reservations[k]
        decreases rest
      {
        var k :| k in rest;
        ghost var before := rest;
        rest := rest - {k};
        assert forall x :: x in reservations && x !in rest <==> (x in reservations && x !in before) || x == k;
        if Colliding(reservations[k], chamberID, slot) {
          RowsAppend(rows, reservations[k]);
          rows := rows + [reservations[k]];
        }
      }
      CollidingTells(Contents(), chamberID, slot, rows);
    }

    // ---- Transactions --------------------------------------------------------------

    method DeclareVoyage(actor: User, request: DeclareRequest) returns (r: Result<C.Voyage>)
      modifies this
      ensures Contents() == Step(digests, old(Contents()), Command.DeclareVoyage(actor, request))
      ensures r == Answer(DeclareTx(digests, old(Contents()), actor, request))
      ensures r.Err? ==> Contents() == old(Contents())
      ensures r.Ok? ==> DeclaresAs(digests, old(Contents()), Contents(), actor, request) && r.value == voyages[request.id]
      ensures Reachable(digests, old(Contents())) && SeparatesIds(digests.event) ==>
                Refusal(r) == DeclareRefusal(digests, old(Contents()), actor, request)
    {
      if Reachable(digests, Contents()) && SeparatesIds(digests.event) {
        DeclareAnswers(digests, Contents(), actor, request);
      }
      if DeclareTx(digests, Contents(), actor, request).Ok? {
        DeclareWrites(digests, Contents(), actor, request);
      }
      r := DeclareInTx(actor, request);
    }

    /** The declaration: checks, then the inserts in one transaction. */
    method DeclareInTx(actor: User, request: DeclareRequest) returns (r: Result<C.Voyage>)
      modifies this
      ensures Contents() == Step(digests, old(Contents()), Command.DeclareVoyage(actor, request))
      ensures r == Answer(DeclareTx(digests, old(Contents()), actor, request))
    {
      if !actor.role.Carrier? && !actor.role.Dispatcher? {
        return Err(Forbidden);
      }
      var draft := C.NewVoyage(request.id, actor.tenantID, request.vesselIMO, request.vesselName, request.originPort,
                               request.destinationPort, request.eta);
      if draft.Err? {
        return Err(draft.error);
      }
      var manifest := BuildManifestOf(digests.items, draft.value.id, request.items);
      if manifest.Err? {
        return Err(manifest.error);
      }
      var voyage := C.Declare(draft.value, manifest.value, request.at, draft.value.version);
      if voyage.Err? {
        return Err(voyage.error);
      }
      var before := Contents();
      var done := DeclareBody(actor, voyage.value, manifest.value, request.at);
      if done.Err? {
        Rollback(before);
        return Err(done.error);
      }
      return Ok(voyage.value);
    }

    method DeclareBody(actor: User, voyage: C.Voyage, manifest: Manifest, at: Instant) returns (r: Result<()>)
      requires manifest.voyageID == voyage.id
      modifies this
      ensures
        var t' := InsertDeclared(digests, old(Contents()), actor, voyage, manifest, at);
        if t'.Err? then r == Err(t'.error) else r == Ok(()) && Contents() == t'.value
    {
      if voyage.id in voyages {
        return Err(Conflict);
      }
      voyages := voyages[voyage.id := voyage];
      if manifest.voyageID in manifests {
        return Err(Database);
      }
      manifests := manifests[manifest.voyageID := manifest];
      var audited := AppendAuditTx(DeclareEvent(actor, voyage, manifest, at));
      if audited.Err? {
        return audited;
      }
      var queued := InsertJobTx(JobID(DeclareJob(voyage.id)), DeclaredJob(voyage, at));
      if queued.Err? {
        return queued;
      }
      return Ok(());
    }

    method OpenInspection(actor: User, id: string, voyageID: string, kind: string, at: Instant)
      returns (r: Result<(C.Inspection, C.Voyage)>)
      modifies this
      ensures Contents() == Step(digests, old(Contents()), Command.OpenInspection(actor, id, voyageID, kind, at))
      ensures r == Answer(OpenInspectionTx(digests, old(Contents()), actor, id, voyageID, kind, at))
      ensures r.Err? ==> Contents() == old(Contents())
      ensures r.Ok? && Keyed(old(Contents())) ==>
                && OpensAs(old(Contents()), Contents(), actor, id, voyageID, kind, at)
                && r.value == (inspections[id], voyages[voyageID])
      ensures Reachable(digests, old(Contents())) && SeparatesIds(digests.event) ==>
                Refusal(r) == OpenRefusal(old(Contents()), actor, id, voyageID, kind, at)
    {
      if Reachable(digests, Contents()) && SeparatesIds(digests.event) {
        OpenAnswers(digests, Contents(), actor, id, voyageID, kind, at);
      }
      if Keyed(Contents()) && OpenInspectionTx(digests, Contents(), actor, id, voyageID, kind, at).Ok? {
        OpenWrites(digests, Contents(), actor, id, voyageID, kind, at);
      }
      r := OpenInTx(actor, id, voyageID, kind, at);
    }

    method OpenInTx(actor: User, id: string, voyageID: string, kind: string, at: Instant)
      returns (r: Result<(C.Inspection, C.Voyage)>)
      modifies this
      ensures Contents() == Step(digests, old(Contents()), Command.OpenInspection(actor, id, voyageID, kind, at))
      ensures r == Answer(OpenInspectionTx(digests, old(Contents()), actor, id, voyageID, kind, at))
    {
      if !actor.role.Customs? {
        return Err(Forbidden);
      }
      var before := Contents();
      r := OpenBody(actor, id, voyageID, kind, at);
      if r.Err? {
        Rollback(before);
      }
    }

    method OpenBody(actor: User, id: string, voyageID: string, kind: string, at: Instant)
      returns (r: Result<(C.Inspection, C.Voyage)>)
      requires actor.role.Customs?
      modifies this
      ensures r == Answer(OpenInspectionTx(digests, old(Contents()), actor, id, voyageID, kind, at))
      ensures r.Ok? ==> Contents() == OpenInspectionTx(digests, old(Contents()), actor, id, voyageID, kind, at).value.1
    {
      var voyage := GetVoyage(Contents(), actor.tenantID, voyageID);
      if voyage.Err? {
        return Err(voyage.error);
      }
      var held := C.OpenInspection(id, voyage.value, actor.id, kind, at);
      if held.Err? {
        return Err(held.error);
      }
      var inspection, updated := held.value.0, held.value.1;
      if inspection.id in inspections {
        return Err(Conflict);
      }
      inspections := inspections[inspection.id := inspection];
      var saved := SaveVoyageTx(updated, voyage.value.version);
      if saved.Err? {
        return Err(saved.error);
      }
      var audited := AppendAuditTx(OpeningEvent(actor, id, voyageID, kind, at));
      if audited.Err? {
        return Err(audited.error);
      }
      return Ok((inspection, updated));
    }

    method PassInspectionAndRelease(actor: User, inspectionID: string, finding: string, at: Instant) returns (r: Result<C.Voyage>)
      modifies this
      ensures Contents() == Step(digests, old(Contents()), PassInspection(actor, inspectionID, finding, at))
      ensures r == Answer(PassInspectionTx(digests, old(Contents()), actor, inspectionID, finding, at))
      ensures r.Err? ==> Contents() == old(Contents())
      ensures r.Ok? && Keyed(old(Contents())) ==>
                && PassesAs(old(Contents()), Contents(), actor, inspectionID, finding, at)
                && r.value == voyages[old(inspections)[inspectionID].voyageID]
      ensures Reachable(digests, old(Contents())) && SeparatesIds(digests.event) ==>
                Refusal(r) == PassRefusal(old(Contents()), actor, inspectionID, finding, at)
    {
      if Reachable(digests, Contents()) && SeparatesIds(digests.event) {
        PassAnswers(digests, Contents(), actor, inspectionID, finding, at);
      }
      if Keyed(Contents()) && PassInspectionTx(digests, Contents(), actor, inspectionID, finding, at).Ok? {
        PassWrites(digests, Contents(), actor, inspectionID, finding, at);
      }
      r := PassInTx(actor, inspectionID, finding, at);
    }

    method PassInTx(actor: User, inspectionID: string, finding: string, at: Instant)
      returns (r: Result<C.Voyage>)
      modifies this
      ensures Contents() == Step(digests, old(Contents()), PassInspection(actor, inspectionID, finding, at))
      ensures r == Answer(PassInspectionTx(digests, old(Contents()), actor, inspectionID, finding, at))
    {
      if !actor.role.Customs? {
        return Err(Forbidden);
      }
      var before := Contents();
      r := PassBody(actor, inspectionID, finding, at);
      if r.Err? {
        Rollback(before);
      }
    }

    method PassBody(actor: User, inspectionID: string, finding: string, at: Instant) returns (r: Result<C.Voyage>)
      requires actor.role.Customs?
      modifies this
      ensures r == Answer(PassInspectionTx(digests, old(Contents()), actor, inspectionID, finding, at))
      ensures r.Ok? ==> Contents() == PassInspectionTx(digests, old(Contents()), actor, inspectionID, finding, at).value.1
    {
      var found := GetInspection(Contents(), inspectionID);
      if found.Err? {
        return Err(found.error);
      }
      var voyage := GetVoyage(Contents(), actor.tenantID, found.value.voyageID);
      if voyage.Err? {
        return Err(voyage.error);
      }
      var closed := C.CloseInspection(found.value, finding, true, at, found.value.version);
      if closed.Err? {
        return Err(closed.error);
      }
      inspections := inspections[inspectionID := closed.value];
      var rows := ListInspectionsTx(voyage.value.id);
      var released := C.ReleaseVoyage(voyage.value, rows, at, voyage.value.version);
      if released.Err? {
        return Err(released.error);
      }
      var saved := SaveVoyageTx(released.value, voyage.value.version);
      if saved.Err? {
        return Err(saved.error);
      }
      var audited := AppendAuditTx(ReleaseEvent(actor, voyage.value.id, closed.value.id, at));
      if audited.Err? {
        return Err(audited.error);
      }
      var queued := InsertJobTx(JobID(ReleaseJob(voyage.value.id)),
                                OutboxRow(voyage.value.tenantID, "voyage.released", voyage.value.id, released.value.status, at));
      if queued.Err? {
        return Err(queued.error);
      }
      return Ok(released.value);
    }

    method ReservePassage(actor: User, q: ReserveRequest) returns (r: Result<Reservation>)
      modifies this
      ensures Contents() == Step(digests, old(Contents()), Command.ReservePassage(actor, q))
      ensures r == Answer(ReserveTx(digests, old(Contents()), actor, q))
      ensures r.Err? ==> Contents() == old(Contents())
      ensures r.Ok? && Keyed(old(Contents())) ==>
                ReservesAs(old(Contents()), Contents(), actor, q) && r.value == reservations[q.id]
      ensures Reachable(digests, old(Contents())) && SeparatesIds(digests.event) ==>
                Refusal(r) == ReserveRefusal(old(Contents()), actor, q)
    {
      if Reachable(digests, Contents()) && SeparatesIds(digests.event) {
        ReserveAnswers(digests, Contents(), actor, q);
      }
      if Keyed(Contents()) && ReserveTx(digests, Contents(), actor, q).Ok? {
        ReserveWrites(digests, Contents(), actor, q);
      }
      r := ReserveInTx(actor, q);
    }

    method ReserveInTx(actor: User, q: ReserveRequest)
      returns (r: Result<Reservation>)
      modifies this
      ensures Contents() == Step(digests, old(Contents()), Command.ReservePassage(actor, q))
      ensures r == Answer(ReserveTx(digests, old(Contents()), actor, q))
    {
      if !actor.role.Dispatcher? {
        return Err(Forbidden);
      }
      if q.requestedAt == ZERO_INSTANT {
        return Err(Invalid);
      }
      var before := Contents();
      r := ReserveBody(actor, q);
      if r.Err? {
        Rollback(before);
      }
    }

    method ReserveBody(actor: User, q: ReserveRequest) returns (r: Result<Reservation>)
      requires actor.role.Dispatcher? && q.requestedAt != ZERO_INSTANT
      modifies this
      ensures r == Answer(ReserveTx(digests, old(Contents()), actor, q))
      ensures r.Ok? ==> Contents() == ReserveTx(digests, old(Contents()), actor, q).value.1
    {
      var voyage := GetVoyage(Contents(), actor.tenantID, q.voyageID);
      if voyage.Err? {
        return Err(voyage.error);
      }
      if !voyage.value.status.Cleared? {
        return Err(BadState);
      }
      var existing := ListReservationsTx(q.chamber.id, q.slot);
      var reserved := ReserveSlot(q.id, q.voyageID, actor.tenantID, q.chamber, q.slot, q.length, q.beam, q.draft, existing);
      if reserved.Err? {
        return Err(reserved.error);
      }
      var confirmed := Confirm(reserved.value, true, reserved.value.version);
      if confirmed.Err? {
        return Err(confirmed.error);
      }
      if confirmed.value.id in reservations {
        return Err(Conflict);
      }
      reservations := reservations[confirmed.value.id := confirmed.value];
      var scheduled := C.Transition(voyage.value, C.Scheduled, q.slot.startsAt);
      if scheduled.Err? {
        return Err(scheduled.error);
      }
      var saved := SaveVoyageTx(scheduled.value, voyage.value.version);
      if saved.Err? {
        return Err(saved.error);
      }
      var audited := AppendAuditTx(ReserveEvent(actor, q));
      if audited.Err? {
        return Err(audited.error);
      }
      return Ok(confirmed.value);
    }

    method MovePassage(actor: User, reservationID: string, next: SlotStatus, at: Instant, note: string)
      returns (r: Result<Reservation>)
      modifies this
      ensures Contents() == Step(digests, old(Contents()), Command.MovePassage(actor, reservationID, next, at, note))
      ensures r == Answer(MoveTx(digests, old(Contents()), actor, reservationID, next, at, note))
      ensures r.Err? ==> Contents() == old(Contents())
      ensures r.Ok? && Keyed(old(Contents())) ==>
                && MovesAs(old(Contents()), Contents(), actor, reservationID, next, at, note)
                && r.value == reservations[reservationID]
      ensures Reachable(digests, old(Contents())) && SeparatesIds(digests.event) ==>
                Refusal(r) == MoveRefusal(old(Contents()), actor, reservationID, next, at)
    {
      if Reachable(digests, Contents()) && SeparatesIds(digests.event) {
        MoveAnswers(digests, Contents(), actor, reservationID, next, at, note);
      }
      if Keyed(Contents()) && MoveTx(digests, Contents(), actor, reservationID, next, at, note).Ok? {
        MoveWrites(digests, Contents(), actor, reservationID, next, at, note);
      }
      r := MoveInTx(actor, reservationID, next, at, note);
    }

    method MoveInTx(actor: User, reservationID: string, next: SlotStatus, at: Instant, note: string)
      returns (r: Result<Reservation>)
      modifies this
      ensures Contents() == Step(digests, old(Contents()), Command.MovePassage(actor, reservationID, next, at, note))
      ensures r == Answer(MoveTx(digests, old(Contents()), actor, reservationID, next, at, note))
    {
      if !actor.role.LockController? {
        return Err(Forbidden);
      }
      var before := Contents();
      r := MoveBody(actor, reservationID, next, at, note);
      if r.Err? {
        Rollback(before);
      }
    }

    method MoveBody(actor: User, reservationID: string, next: SlotStatus, at: Instant, note: string)
      returns (r: Result<Reservation>)
      requires actor.role.LockController?
      modifies this
      ensures r == Answer(MoveTx(digests, old(Contents()), actor, reservationID, next, at, note))
      ensures r.Ok? ==> Contents() == MoveTx(digests, old(Contents()), actor, reservationID, next, at, note).value.1
    {
      var found := GetReservation(Contents(), actor.tenantID, reservationID);
      if found.Err? {
        return Err(found.error);
      }
      var built := BuildMovement(found.value, next, at, actor.id, note);
      if built.Err? {
        return Err(built.error);
      }
      var movement, updated := built.value.0, built.value.1;
      if updated.id !in reservations || reservations[updated.id].version != found.value.version {
        return Err(Conflict);
      }
      reservations := reservations[updated.id := reservations[updated.id].(status := updated.status, version := updated.version)];
      var recorded := RecordMovementTx(movement, MoveEvent(actor, found.value.id, next, at, note));
      if recorded.Err? {
        return Err(recorded.error);
      }
      return Ok(updated);
    }

    /** The movement row and its audit event. */
    method RecordMovementTx(movement: Movement, event: Event) returns (r: Result<()>)
      modifies this`movements, this`audits
      ensures
        var t1 := InsertMovement(old(Contents()), movement);
        if t1.Err? then r == Err(t1.error)
        else
          var t2 := AppendTo(digests, t1.value, event);
          if t2.Err? then r == Err(t2.error) else r.Ok? && Contents() == t2.value
    {
      r := InsertMovementTx(movement);
      if r.Err? {
        return r;
      }
      r := AppendAuditTx(event);
    }

    // ---- Reports -------------------------------------------------------------------

    method ListReservations(tenant: string, voyageID: string) returns (rows: seq<Reservation>)
      ensures Rows(rows) == ReservationsOf(Contents(), tenant, voyageID)
      ensures |rows| == |ReservationKeys(Contents(), tenant, voyageID)|
      ensures SortedBy(BeginsNoLater, rows)
      ensures forall i, j :: 0 <= i < j < |rows| ==>
                || rows[i].startsAt < rows[j].startsAt
                || (rows[i].startsAt == rows[j].startsAt && (rows[i].id == rows[j].id || StringLess(rows[i].id, rows[j].id)))
    {
      rows := [];
      var rest := reservations.Keys;
      ghost var found: set<string> := {};
      while rest != {}
        invariant rest <= reservations.Keys
        invariant found == set k | k in reservations && k !in rest && reservations[k].tenantID == tenant &&
                                   reservations[k].voyageID == voyageID
        invariant |rows| == |found|
        invariant Rows(rows) == set k | k in found && k in reservations :: reservations[k]
        decreases rest
      {
        var k :| k in rest;
        ghost var before := rest;
        rest := rest - {k};
        assert forall x :: x in reservations && x !in rest <==> (x in reservations && x !in before) || x == k;
        if reservations[k].tenantID == tenant && reservations[k].voyageID == voyageID {
          RowsAppend(rows, reservations[k]);
          OneMore(found, found + {k}, k);
          rows, found := rows + [reservations[k]], found + {k};
        }
      }
      assert found == ReservationKeys(Contents(), tenant, voyageID);
      QueryOrders();
      var ordered := Sort(BeginsNoLater, rows);
      SortedRows(rows, ordered);
      rows := ordered;
    }

    /** In every state the workflow can reach, the whole report follows from the voyage's
        status; in particular it says eligible exactly when the voyage is cleared. */
    method PassageEligibility(actor: User, voyageID: string) returns (r: Result<E.PassageEligibility>)
      ensures voyageID == "" ==> r == Err(Invalid)
      ensures voyageID != "" && Authorize(actor, actor.tenantID, VoyageRead).Err? ==> r == Err(Forbidden)
      ensures voyageID != "" && Authorize(actor, actor.tenantID, VoyageRead).Ok? ==>
                && (r.Ok? <==> voyageID in voyages && voyages[voyageID].tenantID == actor.tenantID)
                && (r.Err? ==> r.error == NotFound)
      ensures r.Ok? && Reachable(digests, Contents()) ==>
                && ReportTells(Contents(), voyageID, r.value)
                && (r.value.eligible <==> voyages[voyageID].status.Cleared?)
    {
      if voyageID == "" {
        return Err(Invalid);
      }
      var authorized := Authorize(actor, actor.tenantID, VoyageRead);
      if authorized.Err? {
        return Err(authorized.error);
      }
      var voyage := GetVoyage(Contents(), actor.tenantID, voyageID);
      if voyage.Err? {
        return Err(voyage.error);
      }
      var inspectionRows := ListInspectionsTx(voyageID);
      var reservationRows := ListReservations(actor.tenantID, voyageID);
      var report := E.CheckEligibility(voyage.value, inspectionRows, reservationRows);
      if Reachable(digests, Contents()) {
        NamedReservations(digests, Contents(), actor.tenantID, voyageID, reservationRows);
        EligibleIffCleared(digests, Contents(), actor.tenantID, voyageID);
        ReportInReachableState(digests, Contents(), actor.tenantID, voyageID, inspectionRows, reservationRows, report);
      }
      return Ok(report);
    }
  }

  lemma NamedReservations(d: Digests, t: Tables, tenant: string, voyageID: string, rows: seq<Reservation>)
    requires Reachable(d, t) && Rows(rows) == ReservationsOf(t, tenant, voyageID)
    ensures forall r :: r in rows ==> r.id != ""
  {
    ReachableInv(d, t);
    forall r | r in rows
      ensures r.id != ""
    {
      assert r in Rows(rows);
      var k :| k in t.reservations && r == t.reservations[k];
      assert StatusTells(t, k);
    }
  }
}
