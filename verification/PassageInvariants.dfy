/** Reservations in every reachable state: chambers are never double-booked, and the
    recorded movements of a reservation tell its status. */
module PassageInvariants {
  import opened Core
  import opened TimeWindows
  import opened Passage
  import opened Operations
  import opened AuditChain
  import opened Workflow
  import opened Commits
  import C = Clearance

  // ---- No double booking ---------------------------------------------------------

  ghost predicate NoDoubleBooking(t: Tables) {
    forall j, k :: j in t.reservations && k in t.reservations && j != k ==> Compatible(t.reservations[j], t.reservations[k])
  }

  predicate Compatible(a: Reservation, b: Reservation) {
    a.chamberID == b.chamberID && !a.status.Cancelled? && !b.status.Cancelled? ==> !a.Slot().Overlaps(b.Slot())
  }

  ghost function AllReservations(t: Tables): set<Reservation> {
    set k | k in t.reservations :: t.reservations[k]
  }

  /** Reading only the colliding rows gives Reserve the same answer as reading all. */
  lemma CollidingRowsSuffice(t: Tables, id: string, voyageID: string, tenant: string, chamber: Chamber, slot: Window,
                             length: real, beam: real, draft: real)
    ensures Reserve(id, voyageID, tenant, chamber, slot, length, beam, draft, CollidingReservations(t, chamber.id, slot))
         == Reserve(id, voyageID, tenant, chamber, slot, length, beam, draft, AllReservations(t))
  {
    CollidingRowsClear(t, chamber.id, slot);
  }

  lemma CollidingRowsClear(t: Tables, chamberID: string, slot: Window)
    ensures ClearOfReservations(chamberID, CollidingReservations(t, chamberID, slot), slot)
       <==> ClearOfReservations(chamberID, AllReservations(t), slot)
  {
    if ClearOfReservations(chamberID, CollidingReservations(t, chamberID, slot), slot) {
      forall r | r in AllReservations(t) && Occupies(r, chamberID)
        ensures !slot.Overlaps(r.Slot())
      {
        assert slot.Overlaps(r.Slot()) ==> r in CollidingReservations(t, chamberID, slot);
      }
    }
  }

  lemma ReserveKeepsBookings(t: Tables, t': Tables, v: C.Voyage, r: Reservation)
    requires NoDoubleBooking(t) && Reserves(t, t', v, r)
    ensures NoDoubleBooking(t')
  {
    CollidingRowsClear(t, r.chamberID, r.Slot());
    forall k | k in t.reservations
      ensures Compatible(r, t.reservations[k]) && Compatible(t.reservations[k], r)
    {
      assert t.reservations[k] in AllReservations(t);
    }
  }

  lemma MoveKeepsBookings(t: Tables, t': Tables, r: Reservation, m: Movement)
    requires NoDoubleBooking(t) && Moves(t, t', r, m)
    ensures NoDoubleBooking(t')
  {
    forall j, k | j in t'.reservations && k in t'.reservations && j != k
      ensures Compatible(t'.reservations[j], t'.reservations[k])
    {
      assert Compatible(t.reservations[j], t.reservations[k]);
    }
  }

  lemma CommitKeepsBookings(d: Digests, t: Tables, t': Tables)
    requires NoDoubleBooking(t) && Commit(d, t, t')
    ensures NoDoubleBooking(t')
  {
    if v, r, at :| ReserveCommit(d, t, t', v, r, at) {
      ReserveKeepsBookings(t, t', v, r);
    } else if r, m :| MoveCommit(d, t, t', r, m) {
      MoveKeepsBookings(t, t', r, m);
    } else {
      OthersKeepPassages(d, t, t');
    }
  }

  lemma OthersKeepPassages(d: Digests, t: Tables, t': Tables)
    requires Commit(d, t, t')
    requires !exists v, r, at :: ReserveCommit(d, t, t', v, r, at)
    requires !exists r, m :: MoveCommit(d, t, t', r, m)
    ensures t'.reservations == t.reservations && t'.movements == t.movements
  {
  }

  // ---- Movement histories --------------------------------------------------------

  function ForReservation(id: string): Movement -> bool {
    (m: Movement) => m.reservationID == id
  }

  function MovesOf(t: Tables, id: string): seq<Movement> {
    Select(t.movements, ForReservation(id))
  }

  /** The status of a reservation fixes its version and its recorded movements. */
  predicate Tells(r: Reservation, ms: seq<Movement>) {
    && r.startsAt < r.endsAt
    && (forall m :: m in ms ==> Attributable(r, m))
    && match r.status
       case Confirmed => r.version == 2 && ms == []
       case Entered => r.version == 3 && |ms| == 1 && ms[0].status.Entered? && EntersInTime(r, ms[0])
       case Exited => r.version == 4 && |ms| == 2 && InThenOut(ms[0], ms[1]) && EntersInTime(r, ms[0]) && r.startsAt <= ms[1].occurredAt
       case Cancelled => r.version == 3 && |ms| == 1 && ms[0].status.Cancelled? && ms[0].occurredAt < r.startsAt
       case Reserved => false
  }

  predicate EntersInTime(r: Reservation, m: Movement) { r.startsAt - EARLY_ENTRY <= m.occurredAt < r.endsAt }

  predicate StatusTells(t: Tables, k: string)
    requires k in t.reservations
  {
    k != "" && t.reservations[k].id == k && Tells(t.reservations[k], MovesOf(t, k))
  }

  lemma TellsAdvances(r: Reservation, ms: seq<Movement>, m: Movement)
    requires Tells(r, ms) && Attributable(r, m) && MayMove(r, m)
    requires m.status.Exited? ==> ms[0].occurredAt <= m.occurredAt
    ensures Tells(r.(status := m.status, version := r.version + 1), ms + [m])
  {
    assert forall x :: x in ms + [m] <==> x in ms || x == m;
  }

  /** The tenant's newest audit event is at least as late as the instant. */
  predicate AuditedUpTo(t: Tables, tenant: string, at: Instant) {
    Latest(t.audits, tenant).id != "" && at <= Latest(t.audits, tenant).occurredAt
  }

  /** Every movement belongs to a stored reservation, and its tenant's audit chain has
      reached its time. */
  ghost predicate MovementsAudited(t: Tables) {
    forall m :: m in t.movements ==>
      m.reservationID in t.reservations && AuditedUpTo(t, t.reservations[m.reservationID].tenantID, m.occurredAt)
  }

  ghost predicate HistoriesOk(t: Tables) {
    MovementsAudited(t) && forall k :: k in t.reservations ==> StatusTells(t, k)
  }

  lemma AuditTimeAdvances(d: Digests, t: Tables, t': Tables, tenant: string, at: Instant, k: AuditKey)
    requires AuditGrew(d, t, t', tenant, at, k)
    ensures AuditedUpTo(t', tenant, at)
    ensures Latest(t.audits, tenant).id != "" ==> Latest(t.audits, tenant).occurredAt <= at
    ensures forall other, x :: AuditedUpTo(t, other, x) ==> AuditedUpTo(t', other, x)
  {
    var c :| AppendsEvent(d, t, t', tenant, at, k, c);
    var row := t'.audits[|t.audits|];
    assert t'.audits == t.audits + [row];
    assert t'.audits[..|t'.audits| - 1] == t.audits;
  }

  lemma OthersKeepHistories(d: Digests, t: Tables, t': Tables, tenant: string, at: Instant, k: AuditKey)
    requires HistoriesOk(t) && AuditGrew(d, t, t', tenant, at, k)
    requires t'.reservations == t.reservations && t'.movements == t.movements
    ensures HistoriesOk(t')
  {
    AuditTimeAdvances(d, t, t', tenant, at, k);
    assert forall k :: k in t.reservations ==> StatusTells(t, k);
  }

  lemma ReserveKeepsHistories(d: Digests, t: Tables, t': Tables, v: C.Voyage, r: Reservation, at: Instant)
    requires HistoriesOk(t) && ReserveCommit(d, t, t', v, r, at)
    ensures HistoriesOk(t')
  {
    AuditTimeAdvances(d, t, t', v.tenantID, at, OfReserve(r.id));
    SelectNone(t.movements, ForReservation(r.id));
    assert MovesOf(t', r.id) == [];
    forall k | k in t'.reservations
      ensures StatusTells(t', k)
    {
      assert k != r.id ==> StatusTells(t, k);
    }
  }

  lemma MoveKeepsHistories(d: Digests, t: Tables, t': Tables, r: Reservation, m: Movement)
    requires HistoriesOk(t) && MoveCommit(d, t, t', r, m)
    ensures HistoriesOk(t')
  {
    AuditTimeAdvances(d, t, t', r.tenantID, m.occurredAt, OfMove(m.status, r.id));
    forall k | k in t'.reservations
      ensures StatusTells(t', k)
    {
      SelectAppend(t.movements, m, ForReservation(k));
      assert StatusTells(t, k);
      if k == r.id {
        MoveAdvances(d, t, t', r, m);
      }
    }
  }

  /** The exit is no earlier than the entry only because both went through the tenant's
      audit chain. */
  lemma MoveAdvances(d: Digests, t: Tables, t': Tables, r: Reservation, m: Movement)
    requires HistoriesOk(t) && MoveCommit(d, t, t', r, m)
    ensures StatusTells(t', r.id)
  {
    var before := MovesOf(t, r.id);
    SelectAppend(t.movements, m, ForReservation(r.id));
    assert StatusTells(t, r.id);
    if m.status.Exited? {
      EntryAudited(d, t, t', r, m);
    }
    TellsAdvances(r, before, m);
  }

  /** The audit append of an exit is refused unless it is no earlier than the entry. */
  lemma EntryAudited(d: Digests, t: Tables, t': Tables, r: Reservation, m: Movement)
    requires HistoriesOk(t) && MoveCommit(d, t, t', r, m) && m.status.Exited?
    ensures |MovesOf(t, r.id)| == 1 && MovesOf(t, r.id)[0].occurredAt <= m.occurredAt
  {
    SelectMembers(t.movements, ForReservation(r.id));
    AuditTimeAdvances(d, t, t', r.tenantID, m.occurredAt, OfMove(m.status, r.id));
    assert StatusTells(t, r.id);
    var entry := MovesOf(t, r.id)[0];
    assert entry in MovesOf(t, r.id) && entry in t.movements;
    assert AuditedUpTo(t, r.tenantID, entry.occurredAt);
  }

  lemma CommitKeepsHistories(d: Digests, t: Tables, t': Tables)
    requires HistoriesOk(t) && Commit(d, t, t')
    ensures HistoriesOk(t')
  {
    if v, r, at :| ReserveCommit(d, t, t', v, r, at) {
      ReserveKeepsHistories(d, t, t', v, r, at);
    } else if r, m :| MoveCommit(d, t, t', r, m) {
      MoveKeepsHistories(d, t, t', r, m);
    } else {
      OthersKeepPassages(d, t, t');
      var tenant, at, k := CommitAppends(d, t, t');
      OthersKeepHistories(d, t, t', tenant, at, k);
    }
  }

  /** The recorded movements pass ValidateMovementHistory, except that a cancellation
      more than fifteen minutes before the slot is refused. */
  lemma RecordedHistoryVerdict(t: Tables, k: string)
    requires HistoriesOk(t) && k in t.reservations
    ensures ConsistentHistory(t.reservations[k], MovesOf(t, k)) <==>
              var r := t.reservations[k];
              r.status.Cancelled? ==> MovesOf(t, k)[0].occurredAt >= r.startsAt - EARLY_ENTRY
  {
    assert StatusTells(t, k);
    var ms := MovesOf(t, k);
    assert |ms| == 1 ==> ms == [ms[0]];
    assert |ms| == 2 ==> ms == [ms[0], ms[1]];
  }

  /** A movement that the reservation's status allows has not been recorded before. */
  lemma MovementIsNew(t: Tables, k: string, next: SlotStatus, at: Instant, operator: string, note: string)
    requires k in t.reservations && StatusTells(t, k)
    requires BuildMovement(t.reservations[k], next, at, operator, note).Ok?
    ensures InsertMovement(t, BuildMovement(t.reservations[k], next, at, operator, note).value.0).Ok?
  {
    var r := t.reservations[k];
    SelectMembers(t.movements, ForReservation(k));
    assert r.status.Entered? ==> MovesOf(t, k) == [MovesOf(t, k)[0]];
    assert forall m :: m in MovesOf(t, k) ==> m.status != next;
    var movement := BuildMovement(r, next, at, operator, note).value.0;
    forall m | m in t.movements
      ensures !SameMove(m, movement)
    {
      assert m.reservationID == k ==> m in MovesOf(t, k);
    }
  }
}
