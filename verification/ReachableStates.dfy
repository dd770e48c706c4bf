/** The main results about the workflow: what holds of the tables after any sequence
    of commands by any users of any tenants. */
module ReachableStates {
  import opened Core
  import opened Passage
  import opened Operations
  import opened AuditChain
  import opened Workflow
  import opened Commits
  import opened Invariants
  import opened PassageInvariants
  import opened Ledger
  import opened Eligibility

  ghost predicate Inv(d: Digests, t: Tables) {
    && RowsOk(t) && ManifestsOk(d, t) && VoyagesOk(t)
    && NoDoubleBooking(t) && HistoriesOk(t)
    && LogOk(d.event, t.audits)
    && forall tenant :: AuditsBalance(t, tenant) && JobsBalance(t, tenant)
  }

  lemma EmptyInv(d: Digests)
    ensures Inv(d, EMPTY)
  {
    forall tenant
      ensures AuditsBalance(EMPTY, tenant) && JobsBalance(EMPTY, tenant) && TenantLogOk(d.event, EMPTY.audits, tenant)
    {
    }
  }

  lemma CommitKeepsInv(d: Digests, t: Tables, t': Tables)
    requires Inv(d, t) && Commit(d, t, t')
    ensures Inv(d, t')
  {
    CommitKeepsRows(d, t, t');
    CommitKeepsManifests(d, t, t');
    CommitKeepsVoyages(d, t, t');
    CommitKeepsBookings(d, t, t');
    CommitKeepsHistories(d, t, t');
    forall tenant
      ensures AuditsBalance(t', tenant) && JobsBalance(t', tenant)
    {
      CommitBalances(d, t, t', tenant);
    }
    forall tenant
      ensures TenantLogOk(d.event, t'.audits, tenant)
    {
      CommitKeepsChain(d, t, t', tenant);
    }
  }

  lemma {:induction false} RunKeepsInv(d: Digests, commands: seq<Command>)
    ensures Inv(d, Run(d, commands))
  {
    if commands == [] {
      EmptyInv(d);
    } else {
      var t := Run(d, commands[..|commands| - 1]);
      RunKeepsInv(d, commands[..|commands| - 1]);
      StepCommitsOrNothing(d, t, commands[|commands| - 1]);
      if Run(d, commands) != t {
        CommitKeepsInv(d, t, Run(d, commands));
      }
    }
  }

  /** Every reachable state satisfies the invariant. */
  lemma ReachableInv(d: Digests, t: Tables)
    requires Reachable(d, t)
    ensures Inv(d, t)
  {
    var commands :| t == Run(d, commands);
    RunKeepsInv(d, commands);
  }

  /** The start is reachable, and so is whatever a command makes of a reachable state. */
  lemma StepsStayReachable(d: Digests, t: Tables, c: Command)
    requires Reachable(d, t)
    ensures Reachable(d, EMPTY) && Reachable(d, Step(d, t, c))
  {
    assert EMPTY == Run(d, []);
    var commands :| t == Run(d, commands);
    assert (commands + [c])[..|commands|] == commands;
    assert Step(d, t, c) == Run(d, commands + [c]);
  }

  // ---- Results ---------------------------------------------------------------------

  /** The voyage status fixes the version, the inspections and the reservations ever
      made; no other status than these four is ever stored. */
  lemma StatusFixesEverything(d: Digests, t: Tables, k: string)
    requires Reachable(d, t) && k in t.voyages
    ensures StatusFixes(t, k) && ManifestKept(d, t, k)
  {
    ReachableInv(d, t);
  }

  ghost function ReservationsOf(t: Tables, tenant: string, voyageID: string): set<Reservation> {
    set k | k in t.reservations && t.reservations[k].tenantID == tenant && t.reservations[k].voyageID == voyageID :: t.reservations[k]
  }

  /** A voyage is eligible for passage exactly when it is cleared. */
  lemma EligibleIffCleared(d: Digests, t: Tables, tenant: string, k: string)
    requires Reachable(d, t) && GetVoyage(t, tenant, k).Ok?
    ensures MayPass(t.voyages[k], InspectionsOf(t, k), ReservationsOf(t, tenant, k)) <==> t.voyages[k].status.Cleared?
  {
    ReachableInv(d, t);
    assert StatusFixes(t, k);
    if t.voyages[k].status.Cleared? {
      var i :| InspectionIds(t, k) == {i} && i in t.inspections && t.inspections[i].status.Passed?;
      assert i in InspectionIds(t, k);
      assert t.inspections[i] in InspectionsOf(t, k);
      forall x | x in InspectionsOf(t, k)
        ensures x.status.Passed?
      {
        var j :| j in t.inspections && t.inspections[j].voyageID == k && x == t.inspections[j];
        assert j in InspectionIds(t, k);
      }
      assert forall j :: j in t.reservations && t.reservations[j].voyageID == k ==> j in ReservationIds(t, k);
      assert ReservationsOf(t, tenant, k) == {};
    }
  }

  /** No chamber is double-booked, across all tenants. */
  lemma NeverDoubleBooked(d: Digests, t: Tables, j: string, k: string)
    requires Reachable(d, t) && j in t.reservations && k in t.reservations && j != k
    ensures Compatible(t.reservations[j], t.reservations[k])
  {
    ReachableInv(d, t);
  }

  /** The recorded movements of a live reservation always validate; those of a
      cancelled one exactly when it was cancelled at most fifteen minutes early. */
  lemma RecordedHistoriesValidate(d: Digests, t: Tables, k: string)
    requires Reachable(d, t) && k in t.reservations
    ensures t.reservations[k].status.Cancelled? ==> |MovesOf(t, k)| == 1 && MovesOf(t, k)[0].status.Cancelled?
    ensures ConsistentHistory(t.reservations[k], MovesOf(t, k)) <==>
              var r := t.reservations[k];
              r.status.Cancelled? ==> MovesOf(t, k)[0].occurredAt >= r.startsAt - EARLY_ENTRY
  {
    ReachableInv(d, t);
    assert StatusTells(t, k);
    RecordedHistoryVerdict(t, k);
  }

  /** Each tenant's audit events verify in whatever order they are read. */
  lemma AuditTrailVerifies(d: Digests, t: Tables, tenant: string, shown: seq<Event>)
    requires Reachable(d, t) && multiset(shown) == multiset(TenantLog(t.audits, tenant))
    ensures Verified(d.event, multiset(shown))
  {
    ReachableInv(d, t);
    assert TenantLogOk(d.event, t.audits, tenant);
  }

  /** The audit events of a tenant, its last sequence number and the version steps of
      its voyages and reservations are one and the same count; and the jobs enqueued
      count its declarations and clearances. */
  lemma VersionsCountAudits(d: Digests, t: Tables, tenant: string)
    requires Reachable(d, t)
    ensures |TenantLog(t.audits, tenant)| == Latest(t.audits, tenant).sequence
    ensures |TenantLog(t.audits, tenant)|
         == SumMap(t.voyages, VoyageSteps(tenant)) + SumMap(t.reservations, ReservationSteps(tenant))
    ensures SumMap(t.outbox, JobCount(tenant)) == SumMap(t.voyages, JobsDue(tenant))
  {
    ReachableInv(d, t);
    assert TenantLogOk(d.event, t.audits, tenant);
    assert AuditsBalance(t, tenant) && JobsBalance(t, tenant);
    LatestIsLast(d.event, t.audits, tenant);
    ChainNumbers(d.event, TenantLog(t.audits, tenant));
  }

  /** The unique index on movements never refuses a movement that the reservation's
      status allows. */
  lemma MovementAlwaysFits(d: Digests, t: Tables, k: string, next: SlotStatus, at: Instant, operator: string, note: string)
    requires Reachable(d, t) && k in t.reservations
    requires BuildMovement(t.reservations[k], next, at, operator, note).Ok?
    ensures InsertMovement(t, BuildMovement(t.reservations[k], next, at, operator, note).value.0).Ok?
  {
    ReachableInv(d, t);
    assert StatusTells(t, k);
    MovementIsNew(t, k, next, at, operator, note);
  }
}
