/** The tables behind the clearance and passage workflow, and the five transactions
    on them as functions from tables to tables (internal/store/workflow.go and
    internal/store/passage_operations.go). */
module Workflow {
  import opened Core
  import opened TimeWindows
  import opened Passage
  import opened Operations
  import opened Manifests
  import opened AuditChain
  import opened Authorization
  import C = Clearance

  datatype OutboxRow = OutboxRow(tenantID: string, topic: string, voyageID: string, status: C.VoyageStatus, availableAt: Instant)

  datatype Tables = Tables(
    voyages: map<string, C.Voyage>,
    manifests: map<string, Manifest>,
    inspections: map<string, C.Inspection>,
    reservations: map<string, Reservation>,
    movements: seq<Movement>,
    audits: seq<Event>,
    outbox: map<string, OutboxRow>)

  const EMPTY := Tables(map[], map[], map[], map[], [], [], map[])

  /** The two hash functions. */
  datatype Digests = Digests(event: Digest, items: ItemsDigest)

  datatype DeclareRequest = DeclareRequest(
    id: string,
    vesselIMO: string,
    vesselName: string,
    originPort: string,
    destinationPort: string,
    eta: Instant,
    items: seq<CargoItem>,
    at: Instant)

  datatype ReserveRequest = ReserveRequest(
    id: string,
    voyageID: string,
    chamber: Chamber,
    slot: Window,
    length: real,
    beam: real,
    draft: real,
    requestedAt: Instant)

  // ---- Queries and single statements -------------------------------------------

  function GetVoyage(t: Tables, tenant: string, id: string): Result<C.Voyage> {
    if id in t.voyages && t.voyages[id].tenantID == tenant then Ok(t.voyages[id]) else Err(NotFound)
  }

  function GetReservation(t: Tables, tenant: string, id: string): Result<Reservation> {
    if id in t.reservations && t.reservations[id].tenantID == tenant then Ok(t.reservations[id]) else Err(NotFound)
  }

  function GetInspection(t: Tables, id: string): Result<C.Inspection> {
    if id in t.inspections then Ok(t.inspections[id]) else Err(NotFound)
  }

  ghost function InspectionsOf(t: Tables, voyageID: string): set<C.Inspection> {
    set id | id in t.inspections && t.inspections[id].voyageID == voyageID :: t.inspections[id]
  }

  predicate Colliding(r: Reservation, chamberID: string, slot: Window) {
    Occupies(r, chamberID) && r.startsAt < slot.endsAt && r.endsAt > slot.startsAt
  }

  /** The rows that listReservationsTx returns. */
  ghost function CollidingReservations(t: Tables, chamberID: string, slot: Window): set<Reservation> {
    set id | id in t.reservations && Colliding(t.reservations[id], chamberID, slot) :: t.reservations[id]
  }

  /** The version-guarded update of saveVoyageTx. */
  function SaveVoyage(t: Tables, v: C.Voyage, expected: int): Result<Tables> {
    if v.id in t.voyages && t.voyages[v.id].version == expected
    then Ok(t.(voyages := t.voyages[v.id := t.voyages[v.id].(status := v.status, manifestHash := v.manifestHash,
                                                             declaredAt := v.declaredAt, clearedAt := v.clearedAt,
                                                             version := v.version)]))
    else Err(Conflict)
  }

  function AppendTo(d: Digests, t: Tables, candidate: Event): Result<Tables> {
    var audits :- AppendRow(d.event, t.audits, candidate);
    Ok(t.(audits := audits))
  }

  function StatusText(s: SlotStatus): string {
    match s
    case Reserved => "reserved"
    case Confirmed => "confirmed"
    case Entered => "entered"
    case Exited => "exited"
    case Cancelled => "cancelled"
  }

  /** What an audit event is about, which fixes its id. */
  datatype AuditKey = OfDeclaration(id: string) | OfOpening(id: string) | OfRelease(id: string) | OfReserve(id: string)
                    | OfMove(status: SlotStatus, id: string)

  function AuditID(k: AuditKey): string {
    match k
    case OfDeclaration(id) => "audit-declare-" + id
    case OfOpening(id) => "audit-inspection-open-" + id
    case OfRelease(id) => "audit-release-" + id
    case OfReserve(id) => "audit-reserve-" + id
    case OfMove(status, id) => "audit-passage-" + StatusText(status) + "-" + id
  }

  datatype JobKey = DeclareJob(id: string) | ReleaseJob(id: string)

  function JobID(k: JobKey): string {
    match k
    case DeclareJob(id) => "outbox-declare-" + id
    case ReleaseJob(id) => "outbox-release-" + id
  }

  function Candidate(id: string, actor: User, action: string, objectType: string, objectID: string,
                     details: map<string, string>, at: Instant): Event
  {
    Event(id, actor.tenantID, actor.id, action, objectType, objectID, "ok", details, at, 0, "", "")
  }

  function DeclareEvent(actor: User, voyage: C.Voyage, manifest: Manifest, at: Instant): Event {
    Candidate(AuditID(OfDeclaration(voyage.id)), actor, "voyage.declared", "voyage", voyage.id,
              map["manifest_hash" := manifest.hash], at)
  }

  function OpeningEvent(actor: User, id: string, voyageID: string, kind: string, at: Instant): Event {
    Candidate(AuditID(OfOpening(id)), actor, "inspection.opened", "voyage", voyageID, map["kind" := kind], at)
  }

  function ReleaseEvent(actor: User, voyageID: string, inspectionID: string, at: Instant): Event {
    Candidate(AuditID(OfRelease(voyageID)), actor, "voyage.released", "voyage", voyageID, map["inspection" := inspectionID], at)
  }

  function ReserveEvent(actor: User, q: ReserveRequest): Event {
    Candidate(AuditID(OfReserve(q.id)), actor, "passage.reserved", "voyage", q.voyageID, map["chamber" := q.chamber.id],
              q.requestedAt)
  }

  function MoveEvent(actor: User, reservationID: string, next: SlotStatus, at: Instant, note: string): Event {
    Candidate(AuditID(OfMove(next, reservationID)), actor, "passage." + StatusText(next), "passage_reservation", reservationID,
              map["note" := note], at)
  }

  function Enqueue(t: Tables, id: string, row: OutboxRow): Result<Tables> {
    if id in t.outbox then Err(Database) else Ok(t.(outbox := t.outbox[id := row]))
  }

  predicate SameMove(a: Movement, b: Movement) { a.reservationID == b.reservationID && a.status == b.status }

  /** Movements are unique by reservation and status. */
  function InsertMovement(t: Tables, movement: Movement): Result<Tables> {
    if exists m :: m in t.movements && SameMove(m, movement) then Err(Database)
    else Ok(t.(movements := t.movements + [movement]))
  }

  // ---- The five transactions ---------------------------------------------------

  ghost function DeclareTx(d: Digests, t: Tables, actor: User, request: DeclareRequest): Result<(C.Voyage, Tables)> {
    if !actor.role.Carrier? && !actor.role.Dispatcher? then Err(Forbidden)
    else
      var draft :- C.NewVoyage(request.id, actor.tenantID, request.vesselIMO, request.vesselName, request.originPort,
                               request.destinationPort, request.eta);
      var manifest :- BuildManifest(d.items, draft.id, request.items);
      var voyage :- C.Declare(draft, manifest, request.at, draft.version);
      var t' :- InsertDeclared(d, t, actor, voyage, manifest, request.at);
      Ok((voyage, t'))
  }

  function DeclaredJob(voyage: C.Voyage, at: Instant): OutboxRow {
    OutboxRow(voyage.tenantID, "voyage.declared", voyage.id, voyage.status, at)
  }

  /** The inserts of a declaration. */
  function InsertDeclared(d: Digests, t: Tables, actor: User, voyage: C.Voyage, manifest: Manifest, at: Instant): Result<Tables> {
    if voyage.id in t.voyages then Err(Conflict)
    else if voyage.id in t.manifests then Err(Database)
    else
      var t1 := t.(voyages := t.voyages[voyage.id := voyage], manifests := t.manifests[voyage.id := manifest]);
      var t2 :- AppendTo(d, t1, DeclareEvent(actor, voyage, manifest, at));
      Enqueue(t2, JobID(DeclareJob(voyage.id)), DeclaredJob(voyage, at))
  }

  function OpenInspectionTx(d: Digests, t: Tables, actor: User, id: string, voyageID: string, kind: string, at: Instant)
    : Result<((C.Inspection, C.Voyage), Tables)>
  {
    if !actor.role.Customs? then Err(Forbidden)
    else
      var voyage :- GetVoyage(t, actor.tenantID, voyageID);
      var held :- C.OpenInspection(id, voyage, actor.id, kind, at);
      if held.0.id in t.inspections then Err(Conflict)
      else
        var t1 := t.(inspections := t.inspections[held.0.id := held.0]);
        var t2 :- SaveVoyage(t1, held.1, voyage.version);
        var t3 :- AppendTo(d, t2, OpeningEvent(actor, id, voyageID, kind, at));
        Ok((held, t3))
  }

  ghost function PassInspectionTx(d: Digests, t: Tables, actor: User, inspectionID: string, finding: string, at: Instant)
    : Result<(C.Voyage, Tables)>
  {
    if !actor.role.Customs? then Err(Forbidden)
    else
      var inspection :- GetInspection(t, inspectionID);
      var voyage :- GetVoyage(t, actor.tenantID, inspection.voyageID);
      var closed :- C.CloseInspection(inspection, finding, true, at, inspection.version);
      var t1 := t.(inspections := t.inspections[inspectionID := closed]);
      var released :- C.Release(voyage, InspectionsOf(t1, voyage.id), at, voyage.version);
      var t2 :- SaveVoyage(t1, released, voyage.version);
      var t3 :- AppendTo(d, t2, ReleaseEvent(actor, voyage.id, closed.id, at));
      var t4 :- Enqueue(t3, JobID(ReleaseJob(voyage.id)),
                        OutboxRow(voyage.tenantID, "voyage.released", voyage.id, released.status, at));
      Ok((released, t4))
  }

  ghost function ReserveTx(d: Digests, t: Tables, actor: User, q: ReserveRequest): Result<(Reservation, Tables)> {
    if !actor.role.Dispatcher? then Err(Forbidden)
    else if q.requestedAt == ZERO_INSTANT then Err(Invalid)
    else
      var voyage :- GetVoyage(t, actor.tenantID, q.voyageID);
      if !voyage.status.Cleared? then Err(BadState)
      else
        var existing := CollidingReservations(t, q.chamber.id, q.slot);
        var reserved :- Reserve(q.id, q.voyageID, actor.tenantID, q.chamber, q.slot, q.length, q.beam, q.draft, existing);
        var confirmed :- Confirm(reserved, true, reserved.version);
        if confirmed.id in t.reservations then Err(Conflict)
        else
          var t1 := t.(reservations := t.reservations[confirmed.id := confirmed]);
          var scheduled :- C.Transition(voyage, C.Scheduled, q.slot.startsAt);
          var t2 :- SaveVoyage(t1, scheduled, voyage.version);
          var t3 :- AppendTo(d, t2, ReserveEvent(actor, q));
          Ok((confirmed, t3))
  }

  function MoveTx(d: Digests, t: Tables, actor: User, reservationID: string, next: SlotStatus, at: Instant, note: string)
    : Result<(Reservation, Tables)>
  {
    if !actor.role.LockController? then Err(Forbidden)
    else
      var reservation :- GetReservation(t, actor.tenantID, reservationID);
      var moved :- BuildMovement(reservation, next, at, actor.id, note);
      if moved.1.id !in t.reservations || t.reservations[moved.1.id].version != reservation.version then Err(Conflict)
      else
        var row := t.reservations[moved.1.id].(status := moved.1.status, version := moved.1.version);
        var t1 := t.(reservations := t.reservations[moved.1.id := row]);
        var t2 :- InsertMovement(t1, moved.0);
        var t3 :- AppendTo(d, t2, MoveEvent(actor, reservation.id, next, at, note));
        Ok((moved.1, t3))
  }

  // ---- Runs --------------------------------------------------------------------

  datatype Command =
    | DeclareVoyage(actor: User, request: DeclareRequest)
    | OpenInspection(actor: User, id: string, voyageID: string, kind: string, at: Instant)
    | PassInspection(actor: User, inspectionID: string, finding: string, at: Instant)
    | ReservePassage(actor: User, reserve: ReserveRequest)
    | MovePassage(actor: User, reservationID: string, next: SlotStatus, at: Instant, note: string)

  /** A transaction either commits its tables or rolls back to the old ones. */
  ghost function Committed<R>(t: Tables, outcome: Result<(R, Tables)>): Tables {
    if outcome.Ok? then outcome.value.1 else t
  }

  ghost function Step(d: Digests, t: Tables, c: Command): Tables {
    match c
    case DeclareVoyage(actor, request) => Committed(t, DeclareTx(d, t, actor, request))
    case OpenInspection(actor, id, voyageID, kind, at) => Committed(t, OpenInspectionTx(d, t, actor, id, voyageID, kind, at))
    case PassInspection(actor, id, finding, at) => Committed(t, PassInspectionTx(d, t, actor, id, finding, at))
    case ReservePassage(actor, q) => Committed(t, ReserveTx(d, t, actor, q))
    case MovePassage(actor, id, next, at, note) => Committed(t, MoveTx(d, t, actor, id, next, at, note))
  }

  /** The tables after any sequence of commands by any users of any tenants. */
  ghost function Run(d: Digests, commands: seq<Command>): Tables {
    if commands == [] then EMPTY
    else Step(d, Run(d, commands[..|commands| - 1]), commands[|commands| - 1])
  }

  ghost predicate Reachable(d: Digests, t: Tables) {
    exists commands :: t == Run(d, commands)
  }
}
