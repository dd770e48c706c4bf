/** A concrete run of the workflow: a voyage is declared, inspected, released and given a
    passage, which is then cancelled early. */
module Scenarios {
  import opened Core
  import opened TimeWindows
  import opened Passage
  import opened Operations
  import opened Manifests
  import opened AuditChain
  import opened Authorization
  import opened Workflow
  import opened Commits
  import opened PassageInvariants
  import opened ReachableStates
  import opened Admission
  import opened Coordinator
  import Arrivals
  import C = Clearance

  const TENANT := "acme"
  const CARRIER := User("carl", TENANT, Carrier, false)
  const OFFICER := User("olga", TENANT, Customs, false)
  const DISPATCHER := User("dina", TENANT, Dispatcher, false)
  const CONTROLLER := User("luis", TENANT, LockController, false)

  const CARS := CargoItem("A", "8703", "cars", 1000, 1, false)
  const COMMAND := DeclareCommand("v", "9074729", "Emma", "AAR", "CPH", 20 * HOUR, [CARS], "key-0001")
  const REQUEST := Request(COMMAND)   // declared at eight hours
  const LOCK := Chamber("c", 300.0, 50.0, 15.0, None, None)
  const BOOKING := ReserveRequest("r", "v", LOCK, Window(20 * HOUR, 22 * HOUR), 200.0, 30.0, 10.0, 11 * HOUR)

  /** A digest of any items, sixty-four characters long like every real one. */
  function HexDigest(): string { seq(64, _ => '0') }

  /** Hashes that are as simple as the proofs allow: an event's own id will do. */
  function PlainDigests(): Digests { Digests((p: Payload) => p.id, (items: seq<CargoItem>) => HexDigest()) }

  lemma {:induction false} PlainBytes(s: string)
    requires forall i :: 0 <= i < |s| ==> s[i] < '\U{80}'
    ensures ByteLength(s) == |s|
  {
    if s != "" {
      PlainBytes(s[1..]);
    }
  }

  /** From the given instant on, every instant is in order for the tenant. */
  ghost predicate Until(t: Tables, at: Instant) {
    forall later :: at <= later ==> InOrder(t, TENANT, later)
  }

  lemma CommitSetsTime(d: Digests, t: Tables, t': Tables, at: Instant, k: AuditKey)
    requires AuditGrew(d, t, t', TENANT, at, k)
    ensures Until(t', at)
  {
    forall later | at <= later
      ensures InOrder(t', TENANT, later)
    {
      CommitSetsClock(d, t, t', TENANT, at, k, later);
    }
  }

  lemma RequestIsValid()
    ensures C.NewVoyage(REQUEST.id, TENANT, REQUEST.vesselIMO, REQUEST.vesselName, REQUEST.originPort, REQUEST.destinationPort, REQUEST.eta).Ok?
    ensures BuildManifest(PlainDigests().items, "v", [CARS]) == Ok(Manifest("v", [CARS], HexDigest()))
    ensures ByteLength(HexDigest()) == 64
  {
    assert TrimSpace("9074729") == "9074729";
    PlainBytes("9074729");
    PlainBytes(HexDigest());
    SingletonBuilds(PlainDigests().items, "v", CARS);
  }

  lemma Declared() returns (t: Tables)
    ensures Reachable(PlainDigests(), t) && Until(t, 8 * HOUR)
    ensures GetVoyage(t, TENANT, "v").Ok? && t.voyages["v"].status.Declared? && t.inspections == map[] && t.reservations == map[]
  {
    var d := PlainDigests();
    RequestIsValid();
    assert EMPTY == Run(d, []);
    DeclareSucceedsIff(d, EMPTY, CARRIER, REQUEST);
    t := DeclaredTables(d);
    StepsStayReachable(d, EMPTY, DeclareVoyage(CARRIER, REQUEST));
  }

  lemma DeclaredTables(d: Digests) returns (t: Tables)
    requires DeclareTx(d, EMPTY, CARRIER, REQUEST).Ok?
    ensures t == Step(d, EMPTY, DeclareVoyage(CARRIER, REQUEST)) && Until(t, 8 * HOUR)
    ensures GetVoyage(t, TENANT, "v").Ok? && t.voyages["v"].status.Declared? && t.inspections == map[] && t.reservations == map[]
  {
    t := DeclareTx(d, EMPTY, CARRIER, REQUEST).value.1;
    DeclareRows(d, EMPTY, CARRIER, REQUEST);
    DeclareCommits(d, EMPTY, CARRIER, REQUEST);
    CommitSetsTime(d, EMPTY, t, 8 * HOUR, OfDeclaration("v"));
  }

  lemma Inspected() returns (t: Tables)
    ensures Reachable(PlainDigests(), t) && Until(t, 9 * HOUR)
    ensures GetVoyage(t, TENANT, "v").Ok? && t.reservations == map[]
    ensures "i" in t.inspections && t.inspections["i"].status.Open? && t.inspections["i"].openedAt == 9 * HOUR
    ensures t.inspections["i"].voyageID == "v"
  {
    var d := PlainDigests();
    var before := Declared();
    ReachableInv(d, before);
    OpenSucceedsIff(d, before, OFFICER, "i", "v", "customs", 9 * HOUR);
    t := InspectedTables(d, before);
    StepsStayReachable(d, before, Command.OpenInspection(OFFICER, "i", "v", "customs", 9 * HOUR));
  }

  lemma InspectedTables(d: Digests, before: Tables) returns (t: Tables)
    requires Keyed(before) && OpenInspectionTx(d, before, OFFICER, "i", "v", "customs", 9 * HOUR).Ok?
    requires GetVoyage(before, TENANT, "v").Ok? && before.reservations == map[]
    ensures t == Step(d, before, Command.OpenInspection(OFFICER, "i", "v", "customs", 9 * HOUR)) && Until(t, 9 * HOUR)
    ensures GetVoyage(t, TENANT, "v").Ok? && t.reservations == map[]
    ensures "i" in t.inspections && t.inspections["i"].status.Open? && t.inspections["i"].openedAt == 9 * HOUR
    ensures t.inspections["i"].voyageID == "v"
  {
    t := OpenInspectionTx(d, before, OFFICER, "i", "v", "customs", 9 * HOUR).value.1;
    OpenCommits(d, before, OFFICER, "i", "v", "customs", 9 * HOUR);
    CommitSetsTime(d, before, t, 9 * HOUR, OfOpening("i"));
  }

  lemma Released() returns (t: Tables)
    ensures Reachable(PlainDigests(), t) && Until(t, 10 * HOUR)
    ensures GetVoyage(t, TENANT, "v").Ok? && t.voyages["v"].status.Cleared? && t.reservations == map[]
  {
    var d := PlainDigests();
    var before := Inspected();
    ReachableInv(d, before);
    ReleaseSucceeds(before);
    t := ReleasedTables(d, before);
    StepsStayReachable(d, before, PassInspection(OFFICER, "i", "ok", 10 * HOUR));
  }

  lemma ReleaseSucceeds(t: Tables)
    requires Reachable(PlainDigests(), t) && Until(t, 9 * HOUR)
    requires GetVoyage(t, TENANT, "v").Ok?
    requires "i" in t.inspections && t.inspections["i"].status.Open? && t.inspections["i"].openedAt == 9 * HOUR
    requires t.inspections["i"].voyageID == "v"
    ensures PassInspectionTx(PlainDigests(), t, OFFICER, "i", "ok", 10 * HOUR).Ok?
  {
    assert TrimSpace("ok") == "ok";
    PassSucceedsIff(PlainDigests(), t, OFFICER, "i", "ok", 10 * HOUR);
  }

  lemma ReleasedTables(d: Digests, before: Tables) returns (t: Tables)
    requires Keyed(before) && PassInspectionTx(d, before, OFFICER, "i", "ok", 10 * HOUR).Ok?
    requires GetVoyage(before, TENANT, "v").Ok? && before.reservations == map[]
    requires "i" in before.inspections && before.inspections["i"].voyageID == "v"
    ensures t == Step(d, before, PassInspection(OFFICER, "i", "ok", 10 * HOUR)) && Until(t, 10 * HOUR)
    ensures GetVoyage(t, TENANT, "v").Ok? && t.voyages["v"].status.Cleared? && t.reservations == map[]
  {
    PassCommits(d, before, OFFICER, "i", "ok", 10 * HOUR);
    t := Step(d, before, PassInspection(OFFICER, "i", "ok", 10 * HOUR));
    CommitSetsTime(d, before, t, 10 * HOUR, OfRelease("v"));
  }

  lemma BookingSucceeds(t: Tables)
    requires Reachable(PlainDigests(), t) && Until(t, 10 * HOUR)
    requires GetVoyage(t, TENANT, "v").Ok? && t.voyages["v"].status.Cleared? && t.reservations == map[]
    ensures ReserveTx(PlainDigests(), t, DISPATCHER, BOOKING).Ok?
  {
    SlotIsFree(AllReservations(t));
    ReserveSucceedsIff(PlainDigests(), t, DISPATCHER, BOOKING);
  }

  lemma SlotIsFree(existing: set<Reservation>)
    requires existing == {}
    ensures Reserve("r", "v", TENANT, LOCK, BOOKING.slot, BOOKING.length, BOOKING.beam, BOOKING.draft, existing).Ok?
  {
  }

  lemma Booked() returns (t: Tables)
    ensures Reachable(PlainDigests(), t) && Until(t, 11 * HOUR)
    ensures GetReservation(t, TENANT, "r").Ok? && t.reservations["r"].status.Confirmed? && t.reservations["r"].startsAt == 20 * HOUR
  {
    var d := PlainDigests();
    var before := Released();
    ReachableInv(d, before);
    BookingSucceeds(before);
    t := BookedTables(d, before);
    StepsStayReachable(d, before, Command.ReservePassage(DISPATCHER, BOOKING));
  }

  lemma BookedTables(d: Digests, before: Tables) returns (t: Tables)
    requires Keyed(before) && ReserveTx(d, before, DISPATCHER, BOOKING).Ok?
    ensures t == Step(d, before, Command.ReservePassage(DISPATCHER, BOOKING)) && Until(t, 11 * HOUR)
    ensures GetReservation(t, TENANT, "r").Ok? && t.reservations["r"].status.Confirmed? && t.reservations["r"].startsAt == 20 * HOUR
  {
    t := ReserveTx(d, before, DISPATCHER, BOOKING).value.1;
    ReserveRow(d, before, DISPATCHER, BOOKING);
    ReserveTables(d, before, DISPATCHER, BOOKING);
    ReserveCommits(d, before, DISPATCHER, BOOKING);
    CommitSetsTime(d, before, t, 11 * HOUR, OfReserve("r"));
  }

  /** There is a reachable state with a cancelled reservation whose recorded history
      ValidateMovementHistory refuses. */
  lemma RefusedHistoryIsReachable() returns (t: Tables)
    ensures Reachable(PlainDigests(), t)
    ensures "r" in t.reservations && t.reservations["r"].status.Cancelled?
    ensures !ConsistentHistory(t.reservations["r"], MovesOf(t, "r"))
  {
    var d := PlainDigests();
    var before := Booked();
    EarlyCancelCommits(d, before, CONTROLLER, "r", 12 * HOUR, "");
    t := Step(d, before, MovePassage(CONTROLLER, "r", Cancelled, 12 * HOUR, ""));
  }

  /** The voyage that arrives at twenty hours is on record as declared at eight, so that no
      inspection of it can open at seven. */
  lemma EarlyInspectionRefused() returns (t: Tables)
    ensures Reachable(PlainDigests(), t) && GetVoyage(t, TENANT, "v").Ok? && t.voyages["v"].status.Declared?
    ensures OpenInspectionTx(PlainDigests(), t, OFFICER, "i", "v", "customs", 7 * HOUR).Err?
  {
    var d := PlainDigests();
    RequestIsValid();
    assert EMPTY == Run(d, []);
    DeclareSucceedsIff(d, EMPTY, CARRIER, REQUEST);
    t := Arrivals.Declared(d, EMPTY, CARRIER, COMMAND);
    Arrivals.DeclarationSetsClock(d, EMPTY, CARRIER, COMMAND);
    Arrivals.InspectionAfterDeclareIff(d, EMPTY, CARRIER, COMMAND, OFFICER, "i", "customs", 7 * HOUR);
  }
}
