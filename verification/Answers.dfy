/** What each transaction answers in a reachable state, for every input: which refusal
    comes first, and nothing else stands in the way. */
module Answers {
  import opened Core
  import opened Passage
  import opened Operations
  import opened Manifests
  import opened AuditChain
  import opened Authorization
  import opened Workflow
  import opened Commits
  import opened Invariants
  import opened PassageInvariants
  import opened ReachableStates
  import opened Admission
  import C = Clearance

  /** The error of a result, if it is one. */
  function Refusal<R>(r: Result<R>): Option<Error> {
    if r.Err? then Some(r.error) else None
  }

  // ---- The audit clock -------------------------------------------------------------------

  /** No audit event of the tenant is later. */
  predicate NotPast(t: Tables, tenant: string, at: Instant) {
    forall e :: e in t.audits && e.tenantID == tenant ==> e.occurredAt <= at
  }

  lemma InOrderIff(d: Digests, t: Tables, tenant: string, at: Instant)
    requires LogOk(d.event, t.audits)
    ensures InOrder(t, tenant, at) <==> NotPast(t, tenant, at)
  {
    assert TenantLogOk(d.event, t.audits, tenant);
    var s := TenantLog(t.audits, tenant);
    LatestIsLast(d.event, t.audits, tenant);
    SelectMembers(t.audits, OfTenant(tenant));
    if s != [] {
      var last := s[|s| - 1];
      assert last in s && last.Complete();
      forall e | e in t.audits && e.tenantID == tenant
        ensures e.occurredAt <= last.occurredAt
      {
        assert e in s;
      }
    }
  }

  /** The audit append of a new change: an incomplete event is invalid, one in the past a
      conflict. */
  lemma AppendAnswers(d: Digests, t: Tables, k: AuditKey, c: Event)
    requires SeparatesIds(d.event) && LogOk(d.event, t.audits) && Explained(t)
    requires c.id == AuditID(k) && !Happened(t, k)
    ensures Refusal(AppendRow(d.event, t.audits, c)) ==
            if !c.Complete() then Some(Invalid) else if !NotPast(t, c.tenantID, c.occurredAt) then Some(Conflict) else None
  {
    InOrderIff(d, t, c.tenantID, c.occurredAt);
    if c.Complete() {
      AppendIff(d, t, k, c);
    }
  }

  // ---- Movements -------------------------------------------------------------------------

  /** Entered from fifteen minutes before the start until the end, exited no earlier than
      the start, cancelled before the start. */
  predicate InTime(r: Reservation, next: SlotStatus, at: Instant) {
    || (next == Entered && r.status == Confirmed && r.startsAt - 900_000_000_000 <= at && at < r.endsAt)
    || (next == Exited && r.status == Entered && r.startsAt <= at)
    || (next == Cancelled && (r.status == Reserved || r.status == Confirmed) && at < r.startsAt)
  }

  function MoveRefusal(t: Tables, actor: User, id: string, next: SlotStatus, at: Instant): Option<Error> {
    if actor.role != LockController then Some(Forbidden)
    else if id !in t.reservations || t.reservations[id].tenantID != actor.tenantID then Some(NotFound)
    else if actor.id == "" || at == 0 || next !in {Entered, Exited, Cancelled} then Some(Invalid)
    else if !InTime(t.reservations[id], next, at) then Some(BadState)
    else if !NotPast(t, actor.tenantID, at) then Some(Conflict)
    else None
  }

  lemma BuildAnswers(r: Reservation, next: SlotStatus, at: Instant, operatorID: string, note: string)
    ensures Refusal(BuildMovement(r, next, at, operatorID, note)) ==
            if operatorID == "" || at == 0 || next !in {Entered, Exited, Cancelled} then Some(Invalid)
            else if !InTime(r, next, at) then Some(BadState) else None
  {
  }

  lemma MoveAnswersAs(d: Digests, t: Tables, actor: User, id: string, next: SlotStatus, at: Instant, note: string)
    requires actor.role.LockController? && GetReservation(t, actor.tenantID, id).Ok? && t.reservations[id].id == id
    requires var built := BuildMovement(t.reservations[id], next, at, actor.id, note);
             built.Ok? ==> InsertMovement(t, built.value.0).Ok?
    ensures
      var built := BuildMovement(t.reservations[id], next, at, actor.id, note);
      Refusal(MoveTx(d, t, actor, id, next, at, note)) ==
      if built.Err? then Some(built.error) else Refusal(AppendRow(d.event, t.audits, MoveEvent(actor, id, next, at, note)))
  {
  }

  lemma MoveAnswers(d: Digests, t: Tables, actor: User, id: string, next: SlotStatus, at: Instant, note: string)
    requires Reachable(d, t) && SeparatesIds(d.event)
    ensures Refusal(MoveTx(d, t, actor, id, next, at, note)) == MoveRefusal(t, actor, id, next, at)
  {
    if actor.role.LockController? && GetReservation(t, actor.tenantID, id).Ok? {
      ReachableBasics(d, t);
      ReservationFacts(d, t, actor.tenantID, id);
      BuildAnswers(t.reservations[id], next, at, actor.id, note);
      var built := BuildMovement(t.reservations[id], next, at, actor.id, note);
      if built.Ok? {
        MovementAlwaysFits(d, t, id, next, at, actor.id, note);
        BuildsIff(t.reservations[id], next, at, actor.id, note);
        FitsMeansNew(t, built.value.0);
        AppendAnswers(d, t, OfMove(next, id), MoveEvent(actor, id, next, at, note));
      }
      MoveAnswersAs(d, t, actor, id, next, at, note);
    }
  }

  // ---- Inspections -----------------------------------------------------------------------

  function OpenRefusal(t: Tables, actor: User, id: string, voyageID: string, kind: string, at: Instant): Option<Error> {
    if actor.role != Customs then Some(Forbidden)
    else if voyageID !in t.voyages || t.voyages[voyageID].tenantID != actor.tenantID then Some(NotFound)
    else if id == "" || actor.id == "" || kind == "" || t.voyages[voyageID].status != C.Declared || at == 0 then Some(BadState)
    else if id in t.inspections then Some(Conflict)
    else if !NotPast(t, actor.tenantID, at) then Some(Conflict)
    else None
  }

  lemma OpenAnswersAs(d: Digests, t: Tables, actor: User, id: string, voyageID: string, kind: string, at: Instant)
    requires Keyed(t) && actor.role.Customs? && GetVoyage(t, actor.tenantID, voyageID).Ok?
    ensures
      Refusal(OpenInspectionTx(d, t, actor, id, voyageID, kind, at)) ==
      if id == "" || actor.id == "" || kind == "" || t.voyages[voyageID].status != C.Declared || at == 0 then Some(BadState)
      else if id in t.inspections then Some(Conflict)
      else Refusal(AppendRow(d.event, t.audits, OpeningEvent(actor, id, voyageID, kind, at)))
  {
  }

  lemma OpenAnswers(d: Digests, t: Tables, actor: User, id: string, voyageID: string, kind: string, at: Instant)
    requires Reachable(d, t) && SeparatesIds(d.event)
    ensures Refusal(OpenInspectionTx(d, t, actor, id, voyageID, kind, at)) == OpenRefusal(t, actor, id, voyageID, kind, at)
  {
    if actor.role.Customs? && GetVoyage(t, actor.tenantID, voyageID).Ok? {
      ReachableBasics(d, t);
      OpenAnswersAs(d, t, actor, id, voyageID, kind, at);
      if id !in t.inspections {
        AppendAnswers(d, t, OfOpening(id), OpeningEvent(actor, id, voyageID, kind, at));
      }
    }
  }

  function PassRefusal(t: Tables, actor: User, id: string, finding: string, at: Instant): Option<Error> {
    if actor.role != Customs then Some(Forbidden)
    else if id !in t.inspections then Some(NotFound)
    else
      var i := t.inspections[id];
      if i.voyageID !in t.voyages || t.voyages[i.voyageID].tenantID != actor.tenantID then Some(NotFound)
      else if i.status != C.Open || TrimSpace(finding) == "" || at < i.openedAt then Some(Conflict)
      else if actor.id == "" || at == 0 then Some(Invalid)
      else if !NotPast(t, actor.tenantID, at) then Some(Conflict)
      else None
  }

  lemma PassAnswersAs(d: Digests, t: Tables, actor: User, id: string, finding: string, at: Instant)
    requires Keyed(t) && actor.role.Customs? && CanPass(t, actor.tenantID, id, finding, at)
    requires InspectionIds(t, t.inspections[id].voyageID) == {id}
    requires t.voyages[t.inspections[id].voyageID].status.Held? && t.voyages[t.inspections[id].voyageID].manifestHash != ""
    requires JobID(ReleaseJob(t.inspections[id].voyageID)) !in t.outbox
    ensures Refusal(PassInspectionTx(d, t, actor, id, finding, at))
         == Refusal(AppendRow(d.event, t.audits, ReleaseEvent(actor, t.inspections[id].voyageID, id, at)))
  {
    var closed := C.CloseInspection(t.inspections[id], finding, true, at, t.inspections[id].version).value;
    ClosingReleases(t, id, closed, at);
  }

  lemma CannotPassAs(d: Digests, t: Tables, actor: User, id: string, finding: string, at: Instant)
    requires !actor.role.Customs? || !CanPass(t, actor.tenantID, id, finding, at)
    ensures Refusal(PassInspectionTx(d, t, actor, id, finding, at)) == PassRefusal(t, actor, id, finding, at)
  {
  }

  lemma PassAnswers(d: Digests, t: Tables, actor: User, id: string, finding: string, at: Instant)
    requires Reachable(d, t) && SeparatesIds(d.event)
    ensures Refusal(PassInspectionTx(d, t, actor, id, finding, at)) == PassRefusal(t, actor, id, finding, at)
  {
    if actor.role.Customs? && CanPass(t, actor.tenantID, id, finding, at) {
      PassingReleases(d, t, actor, id, finding, at);
      ReachableIsExplained(d, t);
      OpenMeansHeld(t, id);
      JobIsNew(t, ReleaseJob(t.inspections[id].voyageID));
      PassAnswersAs(d, t, actor, id, finding, at);
      AppendAnswers(d, t, OfRelease(t.inspections[id].voyageID), ReleaseEvent(actor, t.inspections[id].voyageID, id, at));
    } else {
      CannotPassAs(d, t, actor, id, finding, at);
    }
  }

  // ---- Reservations ----------------------------------------------------------------------

  ghost function ReserveRefusal(t: Tables, actor: User, q: ReserveRequest): Option<Error> {
    if actor.role != Dispatcher then Some(Forbidden)
    else if q.requestedAt == 0 then Some(Invalid)
    else if q.voyageID !in t.voyages || t.voyages[q.voyageID].tenantID != actor.tenantID then Some(NotFound)
    else if t.voyages[q.voyageID].status != C.Cleared then Some(BadState)
    else if SlotRefusal(t, actor, q).Some? then SlotRefusal(t, actor, q)
    else if q.id in t.reservations then Some(Conflict)
    else if q.slot.startsAt == 0 then Some(BadState)
    else if actor.id == "" then Some(Invalid)
    else if !NotPast(t, actor.tenantID, q.requestedAt) then Some(Conflict)
    else None
  }

  /** The slot must be named, at most three hours long, and fit vessel and chamber; and no
      maintenance and no live reservation of the chamber, of any tenant, may overlap it. */
  ghost function SlotRefusal(t: Tables, actor: User, q: ReserveRequest): Option<Error> {
    var from, to, c := q.slot.startsAt, q.slot.endsAt, q.chamber;
    if q.id == "" || q.voyageID == "" || actor.tenantID == "" || c.id == "" || to <= from || to - from > 10_800_000_000_000
    then Some(Invalid)
    else if || q.length <= 0.0 || q.beam <= 0.0 || q.draft <= 0.0
            || q.length > c.maxLength || q.beam > c.maxBeam || q.draft > c.maxDraft
            || (c.maintenanceFrom.Some? && c.maintenanceTo.Some? && c.maintenanceFrom.value < to && from < c.maintenanceTo.value)
            || (exists k :: k in t.reservations && t.reservations[k].chamberID == c.id && t.reservations[k].status != Cancelled
                            && t.reservations[k].startsAt < to && from < t.reservations[k].endsAt)
    then Some(Conflict)
    else None
  }

  lemma SlotAnswers(t: Tables, actor: User, q: ReserveRequest)
    ensures
      Refusal(Reserve(q.id, q.voyageID, actor.tenantID, q.chamber, q.slot, q.length, q.beam, q.draft, AllReservations(t)))
      == SlotRefusal(t, actor, q)
  {
    forall k | k in t.reservations
      ensures t.reservations[k] in AllReservations(t)
    {
    }
  }

  lemma ReserveAnswersAs(d: Digests, t: Tables, actor: User, q: ReserveRequest)
    requires Keyed(t) && actor.role.Dispatcher? && q.requestedAt != ZERO_INSTANT
    requires GetVoyage(t, actor.tenantID, q.voyageID).Ok? && t.voyages[q.voyageID].status.Cleared?
    ensures
      var reserved := Reserve(q.id, q.voyageID, actor.tenantID, q.chamber, q.slot, q.length, q.beam, q.draft,
                              CollidingReservations(t, q.chamber.id, q.slot));
      Refusal(ReserveTx(d, t, actor, q)) ==
      if reserved.Err? then Some(reserved.error)
      else if q.id in t.reservations then Some(Conflict)
      else if q.slot.startsAt == 0 then Some(BadState)
      else Refusal(AppendRow(d.event, t.audits, ReserveEvent(actor, q)))
  {
  }

  lemma ReserveAnswers(d: Digests, t: Tables, actor: User, q: ReserveRequest)
    requires Reachable(d, t) && SeparatesIds(d.event)
    ensures Refusal(ReserveTx(d, t, actor, q)) == ReserveRefusal(t, actor, q)
  {
    if actor.role.Dispatcher? && q.requestedAt != ZERO_INSTANT && GetVoyage(t, actor.tenantID, q.voyageID).Ok?
       && t.voyages[q.voyageID].status.Cleared? {
      ReachableBasics(d, t);
      ReserveAnswersAs(d, t, actor, q);
      CollidingRowsSuffice(t, q.id, q.voyageID, actor.tenantID, q.chamber, q.slot, q.length, q.beam, q.draft);
      SlotAnswers(t, actor, q);
      if q.id !in t.reservations {
        AppendAnswers(d, t, OfReserve(q.id), ReserveEvent(actor, q));
      }
    }
  }

  // ---- Declarations ----------------------------------------------------------------------

  /** Role, fields, items, hash, id, user and instant, in this order. */
  ghost function DeclareRefusal(d: Digests, t: Tables, actor: User, q: DeclareRequest): Option<Error> {
    if actor.role != Carrier && actor.role != Dispatcher then Some(Forbidden)
    else if || q.id == "" || actor.tenantID == "" || ByteLength(TrimSpace(q.vesselIMO)) < 7 || q.vesselName == ""
            || q.originPort == "" || q.destinationPort == "" || q.originPort == q.destinationPort || q.eta == 0 || q.items == []
    then Some(Invalid)
    else if Complaint(q.items).Some? then Complaint(q.items)
    else if ByteLength(d.items(Listing(Index(q.items)))) != 64 || q.at == 0 || q.id in t.voyages then Some(Conflict)
    else if actor.id == "" then Some(Invalid)
    else if !NotPast(t, actor.tenantID, q.at) then Some(Conflict)
    else None
  }

  lemma DeclareAnswersAs(d: Digests, t: Tables, actor: User, q: DeclareRequest, draft: C.Voyage, m: Manifest)
    requires actor.role.Carrier? || actor.role.Dispatcher?
    requires C.NewVoyage(q.id, actor.tenantID, q.vesselIMO, q.vesselName, q.originPort, q.destinationPort, q.eta) == Ok(draft)
    requires BuildManifest(d.items, q.id, q.items) == Ok(m)
    requires t.manifests.Keys == t.voyages.Keys
    requires q.id !in t.voyages ==> JobID(DeclareJob(q.id)) !in t.outbox
    ensures
      var voyage := draft.(status := C.Declared, manifestHash := m.hash, declaredAt := Some(q.at), version := 2);
      Refusal(DeclareTx(d, t, actor, q)) ==
      if ByteLength(m.hash) != 64 || q.at == 0 || q.id in t.voyages then Some(Conflict)
      else Refusal(AppendRow(d.event, t.audits, DeclareEvent(actor, voyage, m, q.at)))
  {
  }

  lemma DeclareAnswers(d: Digests, t: Tables, actor: User, q: DeclareRequest)
    requires Reachable(d, t) && SeparatesIds(d.event)
    ensures Refusal(DeclareTx(d, t, actor, q)) == DeclareRefusal(d, t, actor, q)
  {
    ReachableBasics(d, t);
    var draft := C.NewVoyage(q.id, actor.tenantID, q.vesselIMO, q.vesselName, q.originPort, q.destinationPort, q.eta);
    var built := BuildManifest(d.items, q.id, q.items);
    if (actor.role.Carrier? || actor.role.Dispatcher?) && draft.Ok? && built.Ok? {
      if q.id !in t.voyages {
        JobIsNew(t, DeclareJob(q.id));
        var voyage := draft.value.(status := C.Declared, manifestHash := built.value.hash, declaredAt := Some(q.at), version := 2);
        AppendAnswers(d, t, OfDeclaration(q.id), DeclareEvent(actor, voyage, built.value, q.at));
      }
      DeclareAnswersAs(d, t, actor, q, draft.value, built.value);
    }
  }
}
