/** What holds of the tables in every reachable state. */
module Invariants {
  import opened Core
  import opened Passage
  import opened Operations
  import opened Manifests
  import opened Workflow
  import opened Commits
  import C = Clearance

  // ---- Voyages -----------------------------------------------------------------

  ghost function InspectionIds(t: Tables, voyageID: string): set<string> {
    set k | k in t.inspections && t.inspections[k].voyageID == voyageID
  }

  ghost function ReservationIds(t: Tables, voyageID: string): set<string> {
    set k | k in t.reservations && t.reservations[k].voyageID == voyageID
  }

  /** The status of a voyage fixes its version, its inspections and its reservations. */
  ghost predicate StatusFixes(t: Tables, k: string)
    requires k in t.voyages
  {
    var v, ins, res := t.voyages[k], InspectionIds(t, k), ReservationIds(t, k);
    match v.status
    case Declared => v.version == 2 && ins == {} && res == {} && v.clearedAt.None?
    case Held => v.version == 3 && OneInspection(t, ins, C.Open) && res == {} && v.clearedAt.None?
    case Cleared => v.version == 4 && OneInspection(t, ins, C.Passed) && res == {} && v.clearedAt.Some?
    case Scheduled => v.version == 5 && OneInspection(t, ins, C.Passed) && |res| == 1 && v.clearedAt.Some?
    case _ => false
  }

  ghost predicate OneInspection(t: Tables, ids: set<string>, status: C.InspectionStatus) {
    exists i :: ids == {i} && i in t.inspections && t.inspections[i].status == status
  }

  /** Every voyage is stored with the manifest whose hash it carries. */
  ghost predicate ManifestKept(d: Digests, t: Tables, k: string)
    requires k in t.voyages
  {
    && k in t.manifests && Built(d.items, t.manifests[k]) && t.manifests[k].voyageID == k
    && t.manifests[k].hash == t.voyages[k].manifestHash
  }

  ghost predicate VoyagesOk(t: Tables) {
    forall k :: k in t.voyages ==> StatusFixes(t, k)
  }

  /** Inspections and reservations refer to stored voyages of their own tenant. */
  ghost predicate References(t: Tables) {
    && (forall k :: k in t.inspections ==> t.inspections[k].voyageID in t.voyages)
    && (forall k :: k in t.reservations ==>
          t.reservations[k].voyageID in t.voyages && t.reservations[k].tenantID == t.voyages[t.reservations[k].voyageID].tenantID)
  }

  ghost predicate RowsOk(t: Tables) {
    Keyed(t) && References(t)
  }

  ghost predicate ManifestsOk(d: Digests, t: Tables) {
    forall k :: k in t.voyages ==> ManifestKept(d, t, k)
  }

  lemma ManifestCarried(d: Digests, t: Tables, t': Tables, k: string)
    requires k in t.voyages && k in t'.voyages && ManifestKept(d, t, k)
    requires k in t'.manifests && t'.manifests[k] == t.manifests[k] && t'.voyages[k].manifestHash == t.voyages[k].manifestHash
    ensures ManifestKept(d, t', k)
  {
  }

  lemma DeclareKeepsManifests(d: Digests, t: Tables, t': Tables, v: C.Voyage, m: Manifest)
    requires ManifestsOk(d, t) && Declares(d, t, t', v, m)
    ensures ManifestsOk(d, t')
  {
    forall k | k in t'.voyages
      ensures ManifestKept(d, t', k)
    {
      if k != v.id {
        ManifestCarried(d, t, t', k);
      }
    }
  }

  /** Only a declaration touches the manifests or a manifest hash. */
  lemma OthersKeepManifests(d: Digests, t: Tables, t': Tables)
    requires ManifestsOk(d, t) && t'.manifests == t.manifests && t'.voyages.Keys == t.voyages.Keys
    requires forall k :: k in t.voyages ==> t'.voyages[k].manifestHash == t.voyages[k].manifestHash
    ensures ManifestsOk(d, t')
  {
    forall k | k in t'.voyages
      ensures ManifestKept(d, t', k)
    {
      ManifestCarried(d, t, t', k);
    }
  }

  lemma OpenKeepsManifests(d: Digests, t: Tables, t': Tables, v: C.Voyage, i: C.Inspection)
    requires ManifestsOk(d, t) && Opens(t, t', v, i)
    ensures ManifestsOk(d, t')
  {
    OthersKeepManifests(d, t, t');
  }

  lemma PassKeepsManifests(d: Digests, t: Tables, t': Tables, v: C.Voyage, i: C.Inspection, at: Instant)
    requires ManifestsOk(d, t) && Passes(t, t', v, i, at)
    ensures ManifestsOk(d, t')
  {
    OthersKeepManifests(d, t, t');
  }

  lemma ReserveKeepsManifests(d: Digests, t: Tables, t': Tables, v: C.Voyage, r: Reservation)
    requires ManifestsOk(d, t) && Reserves(t, t', v, r)
    ensures ManifestsOk(d, t')
  {
    OthersKeepManifests(d, t, t');
  }

  lemma MoveKeepsManifests(d: Digests, t: Tables, t': Tables, r: Reservation, m: Movement)
    requires ManifestsOk(d, t) && Moves(t, t', r, m)
    ensures ManifestsOk(d, t')
  {
    OthersKeepManifests(d, t, t');
  }

  lemma CommitKeepsManifests(d: Digests, t: Tables, t': Tables)
    requires ManifestsOk(d, t) && Commit(d, t, t')
    ensures ManifestsOk(d, t')
  {
    if v, m, at :| DeclareCommit(d, t, t', v, m, at) {
      DeclareKeepsManifests(d, t, t', v, m);
    } else if v, i, at :| OpenCommit(d, t, t', v, i, at) {
      OpenKeepsManifests(d, t, t', v, i);
    } else if v, i, at :| PassCommit(d, t, t', v, i, at) {
      PassKeepsManifests(d, t, t', v, i, at);
    } else if v, r, at :| ReserveCommit(d, t, t', v, r, at) {
      ReserveKeepsManifests(d, t, t', v, r);
    } else {
      var r, m :| MoveCommit(d, t, t', r, m);
      MoveKeepsManifests(d, t, t', r, m);
    }
  }

  lemma DeclareKeepsRows(d: Digests, t: Tables, t': Tables, v: C.Voyage, m: Manifest)
    requires RowsOk(t) && Declares(d, t, t', v, m)
    ensures RowsOk(t')
  {
  }

  lemma OpenKeepsRows(t: Tables, t': Tables, v: C.Voyage, i: C.Inspection)
    requires RowsOk(t) && Opens(t, t', v, i)
    ensures RowsOk(t')
  {
  }

  lemma PassKeepsRows(t: Tables, t': Tables, v: C.Voyage, i: C.Inspection, at: Instant)
    requires RowsOk(t) && Passes(t, t', v, i, at)
    ensures RowsOk(t')
  {
  }

  lemma ReserveKeepsRows(t: Tables, t': Tables, v: C.Voyage, r: Reservation)
    requires RowsOk(t) && Reserves(t, t', v, r)
    ensures RowsOk(t')
  {
  }

  lemma MoveKeepsRows(t: Tables, t': Tables, r: Reservation, m: Movement)
    requires RowsOk(t) && Moves(t, t', r, m)
    ensures RowsOk(t')
  {
  }

  lemma CommitKeepsRows(d: Digests, t: Tables, t': Tables)
    requires RowsOk(t) && Commit(d, t, t')
    ensures RowsOk(t')
  {
    if v, m, at :| DeclareCommit(d, t, t', v, m, at) {
      DeclareKeepsRows(d, t, t', v, m);
    } else if v, i, at :| OpenCommit(d, t, t', v, i, at) {
      OpenKeepsRows(t, t', v, i);
    } else if v, i, at :| PassCommit(d, t, t', v, i, at) {
      PassKeepsRows(t, t', v, i, at);
    } else if v, r, at :| ReserveCommit(d, t, t', v, r, at) {
      ReserveKeepsRows(t, t', v, r);
    } else {
      var r, m :| MoveCommit(d, t, t', r, m);
      MoveKeepsRows(t, t', r, m);
    }
  }

  lemma DeclareKeepsVoyages(d: Digests, t: Tables, t': Tables, v: C.Voyage, m: Manifest)
    requires References(t) && VoyagesOk(t) && Declares(d, t, t', v, m)
    ensures VoyagesOk(t')
  {
    assert forall k :: InspectionIds(t', k) == InspectionIds(t, k) && ReservationIds(t', k) == ReservationIds(t, k);
    assert InspectionIds(t, v.id) == {} && ReservationIds(t, v.id) == {};
    forall k | k in t'.voyages
      ensures StatusFixes(t', k)
    {
      assert k in t.voyages ==> StatusFixes(t, k);
    }
  }

  lemma OpenKeepsVoyages(t: Tables, t': Tables, v: C.Voyage, i: C.Inspection)
    requires VoyagesOk(t) && Opens(t, t', v, i)
    ensures VoyagesOk(t')
  {
    forall k | k in t'.voyages
      ensures StatusFixes(t', k)
    {
      assert StatusFixes(t, k);
      assert ReservationIds(t', k) == ReservationIds(t, k);
      assert InspectionIds(t', k) == if k == v.id then InspectionIds(t, k) + {i.id} else InspectionIds(t, k);
      if k == v.id {
        assert InspectionIds(t', k) == {i.id};
      } else {
        SameInspection(t, t', k);
      }
    }
  }

  /** A voyage whose inspection rows are untouched keeps its one inspection. */
  lemma SameInspection(t: Tables, t': Tables, k: string)
    requires InspectionIds(t', k) == InspectionIds(t, k)
    requires forall x :: x in InspectionIds(t, k) ==> t'.inspections[x] == t.inspections[x]
    ensures forall s :: OneInspection(t, InspectionIds(t, k), s) ==> OneInspection(t', InspectionIds(t', k), s)
  {
    forall s | OneInspection(t, InspectionIds(t, k), s)
      ensures OneInspection(t', InspectionIds(t', k), s)
    {
      var i :| InspectionIds(t, k) == {i} && i in t.inspections && t.inspections[i].status == s;
      assert i in InspectionIds(t', k);
    }
  }

  lemma PassKeepsVoyages(t: Tables, t': Tables, v: C.Voyage, i: C.Inspection, at: Instant)
    requires VoyagesOk(t) && Passes(t, t', v, i, at)
    ensures VoyagesOk(t')
  {
    forall k | k in t'.voyages
      ensures StatusFixes(t', k)
    {
      assert StatusFixes(t, k);
      assert ReservationIds(t', k) == ReservationIds(t, k);
      assert InspectionIds(t', k) == InspectionIds(t, k);
      if k == v.id {
        assert i.id in InspectionIds(t, k);
        assert InspectionIds(t, k) == {i.id};
      } else {
        SameInspection(t, t', k);
      }
    }
  }

  lemma ReserveKeepsVoyages(t: Tables, t': Tables, v: C.Voyage, r: Reservation)
    requires VoyagesOk(t) && Reserves(t, t', v, r)
    ensures VoyagesOk(t')
  {
    forall k | k in t'.voyages
      ensures StatusFixes(t', k)
    {
      assert StatusFixes(t, k);
      assert InspectionIds(t', k) == InspectionIds(t, k);
      if k == v.id {
        assert ReservationIds(t', k) == {r.id};
      } else {
        assert ReservationIds(t', k) == ReservationIds(t, k);
      }
      SameInspection(t, t', k);
    }
  }

  lemma MoveKeepsVoyages(t: Tables, t': Tables, r: Reservation, m: Movement)
    requires VoyagesOk(t) && Moves(t, t', r, m)
    ensures VoyagesOk(t')
  {
    forall k | k in t'.voyages
      ensures StatusFixes(t', k)
    {
      assert StatusFixes(t, k);
      SameInspection(t, t', k);
      assert ReservationIds(t', k) == ReservationIds(t, k);
    }
  }

  lemma CommitKeepsVoyages(d: Digests, t: Tables, t': Tables)
    requires References(t) && VoyagesOk(t) && Commit(d, t, t')
    ensures VoyagesOk(t')
  {
    if v, m, at :| DeclareCommit(d, t, t', v, m, at) {
      DeclareKeepsVoyages(d, t, t', v, m);
    } else if v, i, at :| OpenCommit(d, t, t', v, i, at) {
      OpenKeepsVoyages(t, t', v, i);
    } else if v, i, at :| PassCommit(d, t, t', v, i, at) {
      PassKeepsVoyages(t, t', v, i, at);
    } else if v, r, at :| ReserveCommit(d, t, t', v, r, at) {
      ReserveKeepsVoyages(t, t', v, r);
    } else {
      var r, m :| MoveCommit(d, t, t', r, m);
      MoveKeepsVoyages(t, t', r, m);
    }
  }
}
