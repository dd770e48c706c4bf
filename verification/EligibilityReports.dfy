/** What an eligibility report says in the states the workflow can reach. */
module EligibilityReports {
  import opened Core
  import opened Passage
  import opened Workflow
  import opened Invariants
  import opened ReachableStates
  import opened Eligibility
  import C = Clearance

  /** The report on a voyage: what each status means for the complaints, and the one
      reservation that may stand in the way. */
  ghost predicate ReportTells(t: Tables, k: string, report: PassageEligibility)
    requires k in t.voyages
  {
    && report.voyageStatus == t.voyages[k].status
    && match t.voyages[k].status
       case Declared => Says(report, ["customs inspection is required", "voyage " + "must be cleared"], 0, "")
       case Held => exists i :: InspectionIds(t, k) == {i} && i in t.inspections && TellsOfHold(t.inspections[i], report)
       case Cleared => Says(report, [], 0, "")
       case Scheduled => exists x :: ReservationIds(t, k) == {x} && x in t.reservations && TellsOf(t.reservations[x], report)
       case _ => false
  }

  predicate TellsOfHold(i: C.Inspection, report: PassageEligibility) {
    Says(report, ["inspection " + i.id + " is " + "open", "voyage " + "must be cleared"], 0, "")
  }

  predicate TellsOf(r: Reservation, report: PassageEligibility) {
    if r.status in {Reserved, Confirmed, Entered}
    then Says(report, ["voyage " + "already has an active passage reservation", "voyage " + "must be cleared"], 1, r.id)
    else Says(report, ["voyage " + "must be cleared"], 0, "")
  }

  predicate Says(report: PassageEligibility, checks: seq<string>, active: nat, blocking: string) {
    && report.eligible == (checks == []) && report.outstandingChecks == checks
    && report.activeReservations == active && report.blockingReservation == blocking
  }

  /** The report that CheckEligibility computes from the rows of two queries. */
  ghost predicate ReportFrom(voyage: C.Voyage, ins: seq<C.Inspection>, res: seq<Reservation>, report: PassageEligibility) {
    && report.eligible == (|report.outstandingChecks| == 0) && report.voyageStatus == voyage.status
    && SortedBy(StringLeq, report.outstandingChecks)
    && multiset(report.outstandingChecks) == multiset(Outstanding(voyage, ins, res))
    && report.activeReservations == |Select(res, IsActive)|
    && report.blockingReservation == if report.activeReservations == 0 then "" else Select(res, IsActive)[0].id
  }

  /** The rows of the two queries for a voyage, each row once. */
  ghost predicate Queried(t: Tables, tenant: string, k: string, ins: seq<C.Inspection>, res: seq<Reservation>) {
    && Rows(ins) == InspectionsOf(t, k) && |ins| == |InspectionIds(t, k)|
    && Rows(res) == ReservationsOf(t, tenant, k) && |res| == |ReservationKeys(t, tenant, k)|
  }

  ghost function ReservationKeys(t: Tables, tenant: string, k: string): set<string> {
    set x | x in t.reservations && t.reservations[x].tenantID == tenant && t.reservations[x].voyageID == k
  }

  // ---- Ordered complaints --------------------------------------------------------------

  lemma {:induction false} CommonPrefix(prefix: string, a: string, b: string)
    ensures StringLess(prefix + a, prefix + b) <==> StringLess(a, b)
  {
    if prefix == "" {
      assert prefix + a == a && prefix + b == b;
    } else {
      assert (prefix + a)[1..] == prefix[1..] + a && (prefix + b)[1..] == prefix[1..] + b;
      CommonPrefix(prefix[1..], a, b);
    }
  }

  lemma FirstCharDecides(a: string, b: string)
    requires a != "" && b != "" && a[0] < b[0]
    ensures StringLess(a, b)
  {
  }

  lemma SortedPair(a: string, b: string, checks: seq<string>)
    requires StringLess(a, b)
    requires SortedBy(StringLeq, checks) && multiset(checks) == multiset([b, a])
    ensures checks == [a, b]
  {
    StringLessIsStrictOrder();
    assert multiset([a, b]) == multiset([b, a]);
    SortedPermutationUnique(StringLeq, checks, [a, b]);
  }

  lemma Single<T>(s: seq<T>, x: T)
    requires multiset(s) == multiset{x}
    ensures s == [x]
  {
    assert |s| == |multiset(s)| == 1;
    assert s[0] in multiset(s);
  }

  // ---- Reports by status -----------------------------------------------------------------

  lemma OneRow<T>(rows: seq<T>, x: T)
    requires Rows(rows) == {x} && |rows| == 1
    ensures rows == [x]
  {
    assert rows[0] in Rows(rows);
  }

  lemma NoRows<T>(rows: seq<T>)
    ensures Rows(rows) == {} ==> rows == []
  {
    if rows != [] {
      assert rows[0] in Rows(rows);
    }
  }

  lemma OneComplaint(i: C.Inspection)
    ensures Complaints([i]) == if Unresolved(i) then [Complaint(i)] else []
  {
    assert [i][..|[i]| - 1] == [];
  }

  lemma OneInspectionRow(t: Tables, k: string, i: string, ins: seq<C.Inspection>)
    requires InspectionIds(t, k) == {i} && Rows(ins) == InspectionsOf(t, k) && |ins| == 1
    ensures i in t.inspections && ins == [t.inspections[i]]
  {
    assert i in InspectionIds(t, k);
    assert InspectionsOf(t, k) == {t.inspections[i]} by {
      forall x | x in InspectionsOf(t, k)
        ensures x == t.inspections[i]
      {
        var j :| j in t.inspections && t.inspections[j].voyageID == k && x == t.inspections[j];
        assert j in InspectionIds(t, k);
      }
    }
    OneRow(ins, t.inspections[i]);
  }

  lemma OneReservationRow(t: Tables, tenant: string, k: string, x: string, res: seq<Reservation>)
    requires ReservationIds(t, k) == {x} && Rows(res) == ReservationsOf(t, tenant, k)
    requires |res| == |ReservationKeys(t, tenant, k)|
    requires x in t.reservations && t.reservations[x].tenantID == tenant
    ensures res == [t.reservations[x]]
  {
    assert x in ReservationIds(t, k);
    assert forall y :: y in t.reservations && t.reservations[y].voyageID == k ==> y in ReservationIds(t, k);
    assert ReservationKeys(t, tenant, k) == {x};
    assert ReservationsOf(t, tenant, k) == {t.reservations[x]};
    OneRow(res, t.reservations[x]);
  }

  lemma NoReservationRows(t: Tables, tenant: string, k: string, res: seq<Reservation>)
    requires ReservationIds(t, k) == {} && Rows(res) == ReservationsOf(t, tenant, k)
    ensures res == []
  {
    assert forall y :: y in t.reservations && t.reservations[y].voyageID == k ==> y in ReservationIds(t, k);
    assert ReservationsOf(t, tenant, k) == {};
    NoRows(res);
  }

  lemma NoInspectionRows(t: Tables, k: string, ins: seq<C.Inspection>)
    requires InspectionIds(t, k) == {} && Rows(ins) == InspectionsOf(t, k)
    ensures ins == []
  {
    assert forall y :: y in t.inspections && t.inspections[y].voyageID == k ==> y in InspectionIds(t, k);
    assert InspectionsOf(t, k) == {};
    NoRows(ins);
  }

  lemma CustomsBeforeCleared()
    ensures StringLess(CUSTOMS_CHECK, CLEARED_CHECK)
  {
    FirstCharDecides(CUSTOMS_CHECK, CLEARED_CHECK);
  }

  lemma ComplaintBeforeCleared(i: C.Inspection)
    ensures StringLess(Complaint(i), CLEARED_CHECK)
  {
    assert Complaint(i)[0] == 'i';
    FirstCharDecides(Complaint(i), CLEARED_CHECK);
  }

  lemma ReportOnDeclared(voyage: C.Voyage, report: PassageEligibility)
    requires voyage.status.Declared? && ReportFrom(voyage, [], [], report)
    ensures Says(report, [CUSTOMS_CHECK, CLEARED_CHECK], 0, "")
  {
    assert Outstanding(voyage, [], []) == [CLEARED_CHECK, CUSTOMS_CHECK];
    CustomsBeforeCleared();
    SortedPair(CUSTOMS_CHECK, CLEARED_CHECK, report.outstandingChecks);
  }

  lemma HeldChecks(voyage: C.Voyage, i: C.Inspection)
    requires voyage.status.Held? && i.status.Open?
    ensures Outstanding(voyage, [i], []) == [CLEARED_CHECK, Complaint(i)]
  {
    OneComplaint(i);
  }

  lemma ReportOnHeld(voyage: C.Voyage, i: C.Inspection, report: PassageEligibility)
    requires voyage.status.Held? && i.status.Open? && ReportFrom(voyage, [i], [], report)
    ensures Says(report, [Complaint(i), CLEARED_CHECK], 0, "")
  {
    HeldChecks(voyage, i);
    ComplaintBeforeCleared(i);
    SortedPair(Complaint(i), CLEARED_CHECK, report.outstandingChecks);
  }

  lemma ReportOnCleared(voyage: C.Voyage, i: C.Inspection, report: PassageEligibility)
    requires voyage.status.Cleared? && i.status.Passed? && ReportFrom(voyage, [i], [], report)
    ensures Says(report, [], 0, "")
  {
    OneComplaint(i);
    assert Outstanding(voyage, [i], []) == [];
    assert |report.outstandingChecks| == |multiset(report.outstandingChecks)|;
  }

  lemma AlreadyBeforeMust()
    ensures StringLess(ACTIVE_CHECK, CLEARED_CHECK)
  {
    FirstCharDecides("already has an active passage reservation", "must be cleared");
    CommonPrefix(VOYAGE, "already has an active passage reservation", "must be cleared");
  }

  lemma ReportOnScheduled(voyage: C.Voyage, i: C.Inspection, r: Reservation, report: PassageEligibility)
    requires voyage.status.Scheduled? && i.status.Passed? && ReportFrom(voyage, [i], [r], report)
    ensures TellsOf(r, report)
  {
    var active := ACTIVE_CHECK;
    OneComplaint(i);
    assert [r][..|[r]| - 1] == [];
    assert Select([r], IsActive) == if IsActive(r) then [r] else [];
    assert Outstanding(voyage, [i], [r]) == if IsActive(r) then [CLEARED_CHECK, active] else [CLEARED_CHECK];
    if IsActive(r) {
      AlreadyBeforeMust();
      SortedPair(active, CLEARED_CHECK, report.outstandingChecks);
    } else {
      Single(report.outstandingChecks, CLEARED_CHECK);
    }
  }

  /** In a reachable state the whole report is fixed by the voyage's status, its one
      inspection and its one reservation. */
  lemma ReportInReachableState(d: Digests, t: Tables, tenant: string, k: string, ins: seq<C.Inspection>, res: seq<Reservation>,
                               report: PassageEligibility)
    requires Reachable(d, t) && GetVoyage(t, tenant, k).Ok?
    requires Queried(t, tenant, k, ins, res) && ReportFrom(t.voyages[k], ins, res, report)
    ensures ReportTells(t, k, report)
  {
    ReachableInv(d, t);
    assert StatusFixes(t, k);
    match t.voyages[k].status {
      case Declared =>
        NoInspectionRows(t, k, ins);
        NoReservationRows(t, tenant, k, res);
        ReportOnDeclared(t.voyages[k], report);
      case Held =>
        var i :| InspectionIds(t, k) == {i} && i in t.inspections && t.inspections[i].status.Open?;
        OneInspectionRow(t, k, i, ins);
        NoReservationRows(t, tenant, k, res);
        ReportOnHeld(t.voyages[k], t.inspections[i], report);
        assert t.inspections[i].id == i;
      case Cleared =>
        var i :| InspectionIds(t, k) == {i} && i in t.inspections && t.inspections[i].status.Passed?;
        OneInspectionRow(t, k, i, ins);
        NoReservationRows(t, tenant, k, res);
        ReportOnCleared(t.voyages[k], t.inspections[i], report);
      case Scheduled =>
        ScheduledReport(t, tenant, k, ins, res, report);
    }
  }

  lemma ScheduledReport(t: Tables, tenant: string, k: string, ins: seq<C.Inspection>, res: seq<Reservation>,
                        report: PassageEligibility)
    requires RowsOk(t) && GetVoyage(t, tenant, k).Ok? && StatusFixes(t, k) && t.voyages[k].status.Scheduled?
    requires Queried(t, tenant, k, ins, res) && ReportFrom(t.voyages[k], ins, res, report)
    ensures ReportTells(t, k, report)
  {
    var i :| InspectionIds(t, k) == {i} && i in t.inspections && t.inspections[i].status.Passed?;
    OneInspectionRow(t, k, i, ins);
    var x :| x in ReservationIds(t, k);
    assert ReservationIds(t, k) == {x} by {
      OneElement(ReservationIds(t, k), x);
    }
    OneReservationRow(t, tenant, k, x, res);
    ReportOnScheduled(t.voyages[k], t.inspections[i], t.reservations[x], report);
    assert t.reservations[x].id == x;
  }

  lemma OneElement<T>(s: set<T>, x: T)
    requires |s| == 1 && x in s
    ensures s == {x}
  {
    assert |s - {x}| == 0;
  }
}
