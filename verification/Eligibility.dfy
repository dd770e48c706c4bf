/** Whether a voyage may be given a lock passage (internal/service/eligibility.go). */
module Eligibility {
  import opened Core
  import opened Passage
  import C = Clearance

  datatype PassageEligibility = PassageEligibility(
    eligible: bool,
    voyageStatus: C.VoyageStatus,
    outstandingChecks: seq<string>,
    activeReservations: nat,
    blockingReservation: string)

  const VOYAGE := "voyage "
  const CLEARED_CHECK := VOYAGE + "must be cleared"
  const ACTIVE_CHECK := VOYAGE + "already has an active passage reservation"
  const CUSTOMS_CHECK := "customs inspection is required"

  predicate IsActive(r: Reservation) { r.status.Reserved? || r.status.Confirmed? || r.status.Entered? }

  ghost predicate MayPass(voyage: C.Voyage, inspections: set<C.Inspection>, reservations: set<Reservation>) {
    && voyage.status.Cleared?
    && inspections != {}
    && (forall i :: i in inspections ==> i.status.Passed?)
    && (forall r :: r in reservations ==> !IsActive(r))
  }

  function InspectionText(s: C.InspectionStatus): string {
    match s
    case Open => "open"
    case Passed => "passed"
    case Failed => "failed"
  }

  predicate Unresolved(i: C.Inspection) { !i.status.Passed? }

  function Complaint(i: C.Inspection): string { "inspection " + i.id + " is " + InspectionText(i.status) }

  function Complaints(inspections: seq<C.Inspection>): seq<string> {
    if inspections == [] then []
    else
      var front, last := inspections[..|inspections| - 1], inspections[|inspections| - 1];
      if Unresolved(last) then Complaints(front) + [Complaint(last)] else Complaints(front)
  }

  lemma {:induction false} NoComplaints(inspections: seq<C.Inspection>)
    ensures Complaints(inspections) == [] <==> forall i :: i in inspections ==> i.status.Passed?
  {
    if inspections != [] {
      var front, last := inspections[..|inspections| - 1], inspections[|inspections| - 1];
      assert inspections == front + [last];
      NoComplaints(front);
    }
  }

  lemma NoActive(reservations: seq<Reservation>)
    ensures |Select(reservations, IsActive)| == 0 <==> forall r :: r in reservations ==> !IsActive(r)
  {
    SelectMembers(reservations, IsActive);
    if forall r :: r in reservations ==> !IsActive(r) {
      SelectNone(reservations, IsActive);
    } else {
      var r :| r in reservations && IsActive(r);
      assert r in Select(reservations, IsActive);
    }
  }

  /** The checks that stand in the way, before sorting. */
  function Outstanding(voyage: C.Voyage, inspections: seq<C.Inspection>, reservations: seq<Reservation>): seq<string> {
    Checks(voyage, inspections, |Select(reservations, IsActive)|)
  }

  function Checks(voyage: C.Voyage, inspections: seq<C.Inspection>, active: nat): seq<string> {
    (if voyage.status.Cleared? then [] else [CLEARED_CHECK])
    + (if inspections == [] then [CUSTOMS_CHECK] else [])
    + Complaints(inspections)
    + (if active > 0 then [ACTIVE_CHECK] else [])
  }

  /** The complaints in words: on the voyage's status, the lack of an inspection, each
      inspection that has not passed, and the lack of a free slate of reservations. */
  ghost predicate Stands(x: string, voyage: C.Voyage, inspections: seq<C.Inspection>, reservations: seq<Reservation>) {
    || (x == "voyage " + "must be cleared" && voyage.status != C.Cleared)
    || (x == "customs inspection is required" && inspections == [])
    || (exists i :: i in inspections && Speaks(x, i))
    || (x == "voyage " + "already has an active passage reservation" &&
        exists r :: r in reservations && r.status in {Reserved, Confirmed, Entered})
  }

  ghost predicate Speaks(x: string, i: C.Inspection) {
    || (i.status == C.Open && x == "inspection " + i.id + " is " + "open")
    || (i.status == C.Failed && x == "inspection " + i.id + " is " + "failed")
  }

  lemma {:induction false} ComplaintsSpeak(inspections: seq<C.Inspection>)
    ensures forall x :: x in Complaints(inspections) <==> exists i :: i in inspections && Speaks(x, i)
  {
    if inspections != [] {
      var front, last := inspections[..|inspections| - 1], inspections[|inspections| - 1];
      ComplaintsSpeak(front);
      assert inspections == front + [last];
      assert forall x :: Speaks(x, last) <==> Unresolved(last) && x == Complaint(last);
      forall x
        ensures x in Complaints(inspections) <==> exists i :: i in inspections && Speaks(x, i)
      {
        assert x in Complaints(inspections) <==> x in Complaints(front) || Speaks(x, last);
        assert forall i :: i in inspections <==> i in front || i == last;
      }
    }
  }

  /** Exactly these complaints are outstanding. */
  lemma OutstandingTells(voyage: C.Voyage, inspections: seq<C.Inspection>, reservations: seq<Reservation>)
    ensures forall x :: x in Outstanding(voyage, inspections, reservations) <==> Stands(x, voyage, inspections, reservations)
  {
    ComplaintsSpeak(inspections);
    NoActive(reservations);
    assert (exists r :: r in reservations && r.status in {Reserved, Confirmed, Entered}) <==> |Select(reservations, IsActive)| > 0;
  }

  method CountActive(reservations: seq<Reservation>) returns (active: nat, blocking: string)
    ensures active == |Select(reservations, IsActive)|
    ensures (forall x :: x in reservations ==> x.id != "") ==>
              blocking == if active == 0 then "" else Select(reservations, IsActive)[0].id
  {
    ghost var named := forall x :: x in reservations ==> x.id != "";
    active, blocking := 0, "";
    for k := 0 to |reservations|
      invariant active == |Select(reservations[..k], IsActive)|
      invariant named && active == 0 ==> blocking == ""
      invariant named && active > 0 ==> blocking == Select(reservations[..k], IsActive)[0].id != ""
    {
      assert reservations[..k + 1][..k] == reservations[..k];
      assert reservations[k] in reservations;
      if reservations[k].status.Reserved? || reservations[k].status.Confirmed? || reservations[k].status.Entered? {
        active := active + 1;
        if blocking == "" {
          blocking := reservations[k].id;
        }
      }
    }
    assert reservations[..|reservations|] == reservations;
  }

  method CollectComplaints(inspections: seq<C.Inspection>) returns (checks: seq<string>)
    ensures checks == Complaints(inspections)
  {
    checks := [];
    for k := 0 to |inspections|
      invariant checks == Complaints(inspections[..k])
    {
      assert inspections[..k + 1][..k] == inspections[..k];
      if !inspections[k].status.Passed? {
        checks := checks + ["inspection " + inspections[k].id + " is " + InspectionText(inspections[k].status)];
      }
    }
    assert inspections[..|inspections|] == inspections;
  }

  method CollectChecks(voyage: C.Voyage, inspections: seq<C.Inspection>, active: nat) returns (checks: seq<string>)
    ensures checks == Checks(voyage, inspections, active)
  {
    checks := [];
    if !voyage.status.Cleared? {
      checks := checks + [CLEARED_CHECK];
    }
    if |inspections| == 0 {
      checks := checks + [CUSTOMS_CHECK];
    }
    var complaints := CollectComplaints(inspections);
    checks := checks + complaints;
    if active > 0 {
      checks := checks + [ACTIVE_CHECK];
    }
  }

  method CheckEligibility(voyage: C.Voyage, inspections: seq<C.Inspection>, reservations: seq<Reservation>)
    returns (r: PassageEligibility)
    ensures r.eligible <==> MayPass(voyage, Rows(inspections), Rows(reservations))
    ensures r.eligible <==> |r.outstandingChecks| == 0
    ensures r.voyageStatus == voyage.status
    ensures multiset(r.outstandingChecks) == multiset(Outstanding(voyage, inspections, reservations))
    ensures SortedBy(StringLeq, r.outstandingChecks)
    ensures forall x :: x in r.outstandingChecks <==> Stands(x, voyage, inspections, reservations)
    ensures r.activeReservations == |Select(reservations, IsActive)|
    ensures (forall x :: x in reservations ==> x.id != "") ==>
              r.blockingReservation == if r.activeReservations == 0 then "" else Select(reservations, IsActive)[0].id
  {
    var active, blocking := CountActive(reservations);
    var checks := CollectChecks(voyage, inspections, active);
    NoOutstanding(voyage, inspections, reservations);
    StringOrderIsPreorder();
    OutstandingTells(voyage, inspections, reservations);
    ghost var unsorted := checks;
    checks := Sort(StringLeq, checks);
    SameElements(unsorted, checks);
    r := PassageEligibility(|checks| == 0, voyage.status, checks, active, blocking);
  }

  lemma NoOutstanding(voyage: C.Voyage, inspections: seq<C.Inspection>, reservations: seq<Reservation>)
    ensures |Outstanding(voyage, inspections, reservations)| == 0
       <==> MayPass(voyage, Rows(inspections), Rows(reservations))
  {
    NoComplaints(inspections);
    NoActive(reservations);
    assert forall i :: i in Rows(inspections) <==> i in inspections;
    assert inspections == [] <==> Rows(inspections) == {} by {
      assert inspections != [] ==> inspections[0] in Rows(inspections);
    }
  }
}
