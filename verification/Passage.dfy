/** Lock chambers and their reservations: admission, life cycle, next free slot
    (internal/passage/model.go). */
module Passage {
  import opened Core
  import opened TimeWindows

  datatype SlotStatus = Reserved | Confirmed | Entered | Exited | Cancelled

  datatype Chamber = Chamber(
    id: string,
    maxLength: real,
    maxBeam: real,
    maxDraft: real,
    maintenanceFrom: Option<Instant>,
    maintenanceTo: Option<Instant>)
  {
    predicate HasMaintenance() { maintenanceFrom.Some? && maintenanceTo.Some? }

    function Maintenance(): Window
      requires HasMaintenance()
    {
      Window(maintenanceFrom.value, maintenanceTo.value)
    }

    predicate Fits(length: real, beam: real, draft: real) {
      length <= maxLength && beam <= maxBeam && draft <= maxDraft
    }
  }

  datatype Reservation = Reservation(
    id: string,
    voyageID: string,
    tenantID: string,
    chamberID: string,
    startsAt: Instant,
    endsAt: Instant,
    length: real,
    beam: real,
    draft: real,
    status: SlotStatus,
    version: int)
  {
    function Slot(): Window { Window(startsAt, endsAt) }
  }

  /** A reservation that keeps others out of the chamber. */
  predicate Occupies(r: Reservation, chamberID: string) {
    r.chamberID == chamberID && !r.status.Cancelled?
  }

  predicate ClearOfMaintenance(chamber: Chamber, slot: Window) {
    chamber.HasMaintenance() ==> !slot.Overlaps(chamber.Maintenance())
  }

  ghost predicate ClearOfReservations(chamberID: string, existing: set<Reservation>, slot: Window) {
    forall r :: r in existing && Occupies(r, chamberID) ==> !slot.Overlaps(r.Slot())
  }

  /** The verdict of Reserve, which depends on the existing rows only as a set. */
  ghost function Reserve(id: string, voyageID: string, tenant: string, chamber: Chamber, slot: Window,
                         length: real, beam: real, draft: real, existing: set<Reservation>): Result<Reservation>
  {
    if id == "" || voyageID == "" || tenant == "" || chamber.id == "" || slot.Duration() <= 0 || slot.Duration() > 3 * HOUR then
      Err(Invalid)
    else if length <= 0.0 || beam <= 0.0 || draft <= 0.0 || !chamber.Fits(length, beam, draft) then
      Err(Conflict)
    else if !ClearOfMaintenance(chamber, slot) then
      Err(Conflict)
    else if !ClearOfReservations(chamber.id, existing, slot) then
      Err(Conflict)
    else
      Ok(Reservation(id, voyageID, tenant, chamber.id, slot.startsAt, slot.endsAt, length, beam, draft, Reserved, 1))
  }

  method ReserveSlot(id: string, voyageID: string, tenant: string, chamber: Chamber, slot: Window,
                     length: real, beam: real, draft: real, existing: seq<Reservation>) returns (r: Result<Reservation>)
    ensures r == Reserve(id, voyageID, tenant, chamber, slot, length, beam, draft, Rows(existing))
  {
    if id == "" || voyageID == "" || tenant == "" || chamber.id == "" || slot.endsAt <= slot.startsAt || slot.Duration() > 3 * HOUR {
      return Err(Invalid);
    }
    if length <= 0.0 || beam <= 0.0 || draft <= 0.0 || !chamber.Fits(length, beam, draft) {
      return Err(Conflict);
    }
    if chamber.HasMaintenance() && slot.Overlaps(chamber.Maintenance()) {
      return Err(Conflict);
    }
    for i := 0 to |existing|
      invariant forall j :: 0 <= j < i && Occupies(existing[j], chamber.id) ==> !slot.Overlaps(existing[j].Slot())
    {
      if existing[i].chamberID == chamber.id && !existing[i].status.Cancelled? && slot.Overlaps(existing[i].Slot()) {
        assert existing[i] in Rows(existing);
        return Err(Conflict);
      }
    }
    return Ok(Reservation(id, voyageID, tenant, chamber.id, slot.startsAt, slot.endsAt, length, beam, draft, Reserved, 1));
  }

  // ---- Life cycle ----------------------------------------------------------

  const EARLY_ENTRY: Duration := 15 * MINUTE

  function Confirm(r: Reservation, voyageCleared: bool, expectedVersion: int): Result<Reservation> {
    if !r.status.Reserved? || r.version != expectedVersion || !voyageCleared then Err(BadState)
    else Ok(r.(status := Confirmed, version := r.version + 1))
  }

  function Enter(r: Reservation, at: Instant, expectedVersion: int): Result<Reservation> {
    if !r.status.Confirmed? || r.version != expectedVersion || at < r.startsAt - EARLY_ENTRY || at >= r.endsAt then Err(BadState)
    else Ok(r.(status := Entered, version := r.version + 1))
  }

  function Exit(r: Reservation, at: Instant, expectedVersion: int): Result<Reservation> {
    if !r.status.Entered? || r.version != expectedVersion || at < r.startsAt then Err(BadState)
    else Ok(r.(status := Exited, version := r.version + 1))
  }

  function Cancel(r: Reservation, at: Instant, expectedVersion: int): Result<Reservation> {
    if (!r.status.Reserved? && !r.status.Confirmed?) || r.version != expectedVersion || at >= r.startsAt then Err(BadState)
    else Ok(r.(status := Cancelled, version := r.version + 1))
  }

  // ---- Next available slot ---------------------------------------------------

  /** The start c is at or after earliest and the slot it opens collides with no
      live reservation of the chamber. */
  ghost predicate OpenAmong(chamber: Chamber, existing: seq<Reservation>, earliest: Instant, duration: Duration, c: Instant) {
    earliest <= c && ClearOfReservations(chamber.id, Rows(existing), Window(c, c + duration))
  }

  /** As OpenAmong, and clear of the maintenance window too. */
  ghost predicate Open(chamber: Chamber, existing: seq<Reservation>, earliest: Instant, duration: Duration, c: Instant) {
    OpenAmong(chamber, existing, earliest, duration, c) && ClearOfMaintenance(chamber, Window(c, c + duration))
  }

  ghost predicate IsLeastOpenAmong(chamber: Chamber, existing: seq<Reservation>, earliest: Instant, duration: Duration, c: Instant) {
    && OpenAmong(chamber, existing, earliest, duration, c)
    && forall x :: OpenAmong(chamber, existing, earliest, duration, x) ==> c <= x
  }

  ghost predicate IsLeastOpen(chamber: Chamber, existing: seq<Reservation>, earliest: Instant, duration: Duration, c: Instant) {
    && Open(chamber, existing, earliest, duration, c)
    && forall x :: Open(chamber, existing, earliest, duration, x) ==> c <= x
  }

  /** The answer of NextAvailable: the least instant that clears the reservations,
      moved to the end of maintenance if it runs into maintenance. The
      reservations are not looked at again after that move. */
  ghost predicate IsNextAvailable(chamber: Chamber, existing: seq<Reservation>, earliest: Instant, duration: Duration, c: Instant) {
    exists swept :: IsLeastOpenAmong(chamber, existing, earliest, duration, swept) &&
      c == if ClearOfMaintenance(chamber, Window(swept, swept + duration)) then swept else chamber.maintenanceTo.value
  }

  predicate StartsNoLater(a: Reservation, b: Reservation) { a.startsAt <= b.startsAt }

  method NextAvailable(chamber: Chamber, existing: seq<Reservation>, earliest: Instant, duration: Duration)
    returns (r: Result<Instant>)
    ensures r.Err? <==> chamber.id == "" || earliest == ZERO_INSTANT || duration <= 0 || duration > 3 * HOUR
    ensures r.Err? ==> r.error == Invalid
    ensures r.Ok? ==> IsNextAvailable(chamber, existing, earliest, duration, r.value)
  {
    if chamber.id == "" || earliest == ZERO_INSTANT || duration <= 0 || duration > 3 * HOUR {
      return Err(Invalid);
    }
    var active: seq<Reservation> := [];
    for i := 0 to |existing|
      invariant forall r :: r in active <==> r in existing[..i] && Occupies(r, chamber.id) && r.endsAt > earliest
    {
      assert existing[..i + 1] == existing[..i] + [existing[i]];
      if existing[i].chamberID == chamber.id && !existing[i].status.Cancelled? && existing[i].endsAt > earliest {
        active := active + [existing[i]];
      }
    }
    assert existing[..|existing|] == existing;
    active := Sort(StartsNoLater, active);
    var candidate := earliest;
    var i := 0;
    while i < |active| && candidate + duration > active[i].startsAt
      invariant 0 <= i <= |active|
      invariant earliest <= candidate
      invariant forall j :: 0 <= j < i ==> active[j].endsAt <= candidate
      invariant forall x :: OpenAmong(chamber, existing, earliest, duration, x) ==> candidate <= x
    {
      if active[i].endsAt > candidate {
        JumpSkipsNothing(chamber, existing, earliest, duration, candidate, active[i]);
        candidate := active[i].endsAt;
      }
      i := i + 1;
    }
    SweepEndsOpen(chamber, existing, active, earliest, duration, candidate, i);
    ghost var swept := candidate;
    assert IsLeastOpenAmong(chamber, existing, earliest, duration, swept);
    if chamber.HasMaintenance() && Window(candidate, candidate + duration).Overlaps(chamber.Maintenance()) {
      candidate := chamber.maintenanceTo.value;
    }
    return Ok(candidate);
  }

  lemma JumpSkipsNothing(chamber: Chamber, existing: seq<Reservation>, earliest: Instant, duration: Duration,
                         candidate: Instant, r: Reservation)
    requires r in existing && Occupies(r, chamber.id)
    requires r.startsAt < candidate + duration
    requires forall x :: OpenAmong(chamber, existing, earliest, duration, x) ==> candidate <= x
    ensures forall x :: OpenAmong(chamber, existing, earliest, duration, x) ==> r.endsAt <= x
  {
    forall x | OpenAmong(chamber, existing, earliest, duration, x)
      ensures r.endsAt <= x
    {
      assert !Window(x, x + duration).Overlaps(r.Slot());
    }
  }

  lemma SweepEndsOpen(chamber: Chamber, existing: seq<Reservation>, active: seq<Reservation>, earliest: Instant,
                      duration: Duration, candidate: Instant, i: nat)
    requires earliest <= candidate && i <= |active|
    requires SortedBy(StartsNoLater, active)
    requires forall r :: r in active <==> r in existing && Occupies(r, chamber.id) && r.endsAt > earliest
    requires forall j :: 0 <= j < i ==> active[j].endsAt <= candidate
    requires i < |active| ==> candidate + duration <= active[i].startsAt
    ensures OpenAmong(chamber, existing, earliest, duration, candidate)
  {
    forall r | r in existing && Occupies(r, chamber.id)
      ensures !Window(candidate, candidate + duration).Overlaps(r.Slot())
    {
      if r.endsAt > earliest {
        var j :| 0 <= j < |active| && active[j] == r;
        assert i < j ==> StartsNoLater(active[i], active[j]);
      }
    }
  }

  /** The answer is determined by the inputs although the sort is unstable. */
  lemma NextAvailableUnique(chamber: Chamber, existing: seq<Reservation>, earliest: Instant, duration: Duration, a: Instant, b: Instant)
    requires IsNextAvailable(chamber, existing, earliest, duration, a)
    requires IsNextAvailable(chamber, existing, earliest, duration, b)
    ensures a == b
  {
    var s :| IsLeastOpenAmong(chamber, existing, earliest, duration, s) &&
             a == if ClearOfMaintenance(chamber, Window(s, s + duration)) then s else chamber.maintenanceTo.value;
    var t :| IsLeastOpenAmong(chamber, existing, earliest, duration, t) &&
             b == if ClearOfMaintenance(chamber, Window(t, t + duration)) then t else chamber.maintenanceTo.value;
    assert s <= t && t <= s;
  }

  /** Exactly when NextAvailable finds the least slot that is really free: the swept
      candidate already clears maintenance, or nobody holds the chamber right after
      maintenance ends. */
  lemma NextAvailableIsLeastOpen(chamber: Chamber, existing: seq<Reservation>, earliest: Instant, duration: Duration,
                                 swept: Instant, answer: Instant)
    requires duration > 0
    requires IsLeastOpenAmong(chamber, existing, earliest, duration, swept)
    requires IsNextAvailable(chamber, existing, earliest, duration, answer)
    ensures IsLeastOpen(chamber, existing, earliest, duration, answer) <==>
            || ClearOfMaintenance(chamber, Window(swept, swept + duration))
            || ClearOfReservations(chamber.id, Rows(existing),
                                   Window(chamber.maintenanceTo.value, chamber.maintenanceTo.value + duration))
  {
    var s :| IsLeastOpenAmong(chamber, existing, earliest, duration, s) &&
             answer == if ClearOfMaintenance(chamber, Window(s, s + duration)) then s else chamber.maintenanceTo.value;
    assert s <= swept && swept <= s;
    forall x | Open(chamber, existing, earliest, duration, x)
      ensures answer <= x
    {
      assert OpenAmong(chamber, existing, earliest, duration, x);
      assert swept <= x;
      if !ClearOfMaintenance(chamber, Window(swept, swept + duration)) {
        assert !Window(x, x + duration).Overlaps(chamber.Maintenance());
      }
    }
  }

  /** Reserve takes the answer for a vessel that fits exactly when the answer is open. */
  lemma ReserveAcceptsOpenSlot(id: string, voyageID: string, tenant: string, chamber: Chamber, existing: seq<Reservation>,
                               earliest: Instant, duration: Duration, length: real, beam: real, draft: real, answer: Instant)
    requires id != "" && voyageID != "" && tenant != "" && chamber.id != "" && 0 < duration <= 3 * HOUR
    requires length > 0.0 && beam > 0.0 && draft > 0.0 && chamber.Fits(length, beam, draft)
    requires IsNextAvailable(chamber, existing, earliest, duration, answer)
    ensures Reserve(id, voyageID, tenant, chamber, Window(answer, answer + duration), length, beam, draft, Rows(existing)).Ok?
       <==> IsLeastOpen(chamber, existing, earliest, duration, answer)
  {
    var swept :| IsLeastOpenAmong(chamber, existing, earliest, duration, swept) &&
                 answer == if ClearOfMaintenance(chamber, Window(swept, swept + duration)) then swept else chamber.maintenanceTo.value;
    NextAvailableIsLeastOpen(chamber, existing, earliest, duration, swept, answer);
    assert answer + duration - answer == duration;
  }

  /** A reservation that starts as maintenance ends is missed: the answer given is
      the occupied instant 3, while the earliest open start is 5. */
  lemma NextAvailableCanBeOccupied()
    ensures
      var chamber := Chamber("c", 1.0, 1.0, 1.0, Some(1), Some(3));
      var taken := Reservation("r", "v", "t", "c", 3, 5, 1.0, 1.0, 1.0, Confirmed, 2);
      IsNextAvailable(chamber, [taken], 1, 2, 3) && !Open(chamber, [taken], 1, 2, 3) && IsLeastOpen(chamber, [taken], 1, 2, 5)
  {
    var chamber := Chamber("c", 1.0, 1.0, 1.0, Some(1), Some(3));
    var taken := Reservation("r", "v", "t", "c", 3, 5, 1.0, 1.0, 1.0, Confirmed, 2);
    assert taken in Rows([taken]) && Occupies(taken, "c");
    assert forall r :: r in Rows([taken]) ==> r == taken;
    assert IsLeastOpenAmong(chamber, [taken], 1, 2, 1);
    assert !ClearOfMaintenance(chamber, Window(1, 3));
    assert Window(3, 5).Overlaps(taken.Slot());
    forall x | Open(chamber, [taken], 1, 2, x)
      ensures 5 <= x
    {
      assert !Window(x, x + 2).Overlaps(taken.Slot());
      assert !Window(x, x + 2).Overlaps(chamber.Maintenance());
    }
  }
}
