/** The operations on voyages, inspections and reservations side by side: each moves its
    row one step along its status graph under the next version, and refuses a row that
    somebody else has changed (internal/clearance/model.go, internal/passage/model.go). */
module LifeCycles {
  import opened Core
  import opened TimeWindows
  import opened Passage
  import opened Manifests
  import C = Clearance
  import T = Timelines

  /** The voyage went one edge on and counts one version more; who and where it is stays. */
  predicate VoyageStep(v: C.Voyage, v': C.Voyage, next: C.VoyageStatus) {
    && (v.status, next) in T.EDGES && v'.status == next && v'.version == v.version + 1
    && v'.id == v.id && v'.tenantID == v.tenantID && v'.vesselIMO == v.vesselIMO && v'.vesselName == v.vesselName
    && v'.originPort == v.originPort && v'.destinationPort == v.destinationPort && v'.eta == v.eta
  }

  lemma DeclareIff(v: C.Voyage, m: Manifest, at: Instant, expected: int)
    ensures
      var r := C.Declare(v, m, at, expected);
      if v.status == C.Draft && v.version == expected && m.voyageID == v.id && ByteLength(m.hash) == 64 && at != 0 then
        && r.Ok? && VoyageStep(v, r.value, C.Declared)
        && r.value.manifestHash == m.hash && r.value.declaredAt == Some(at) && r.value.clearedAt == v.clearedAt
      else r == Err(Conflict)
  {
  }

  lemma ReleaseIff(v: C.Voyage, inspections: set<C.Inspection>, at: Instant, expected: int)
    ensures
      var r := C.Release(v, inspections, at, expected);
      if v.status !in {C.Declared, C.Held} || v.version != expected || v.manifestHash == "" then r == Err(BadState)
      else if inspections != {} && forall i :: i in inspections ==> i.voyageID == v.id && i.status == C.Passed then
        && r.Ok? && VoyageStep(v, r.value, C.Cleared) && r.value.clearedAt == Some(at)
        && r.value.manifestHash == v.manifestHash && r.value.declaredAt == v.declaredAt
      else r == Err(Conflict)
  {
  }

  lemma OpenIff(id: string, v: C.Voyage, officer: string, kind: string, at: Instant)
    ensures
      var r := C.OpenInspection(id, v, officer, kind, at);
      if id != "" && officer != "" && kind != "" && v.status == C.Declared && at != 0 then
        && r.Ok? && r.value.0 == C.Inspection(id, v.id, officer, kind, C.Open, "", at, None, 1)
        && VoyageStep(v, r.value.1, C.Held) && r.value.1.manifestHash == v.manifestHash
        && r.value.1.declaredAt == v.declaredAt && r.value.1.clearedAt == v.clearedAt
      else r == Err(BadState)
  {
  }

  lemma CloseIff(i: C.Inspection, finding: string, passed: bool, at: Instant, expected: int)
    ensures
      C.CloseInspection(i, finding, passed, at, expected) ==
      if i.status == C.Open && i.version == expected && TrimSpace(finding) != "" && i.openedAt <= at then
        Ok(C.Inspection(i.id, i.voyageID, i.officerID, i.kind, if passed then C.Passed else C.Failed, TrimSpace(finding),
                        i.openedAt, Some(at), i.version + 1))
      else Err(Conflict)
  {
  }

  lemma TransitionIff(v: C.Voyage, next: C.VoyageStatus, at: Instant)
    ensures
      var r := C.Transition(v, next, at);
      if (v.status, next) in T.EDGES && at != 0 then
        && r.Ok? && VoyageStep(v, r.value, next) && r.value.manifestHash == v.manifestHash
        && r.value.declaredAt == v.declaredAt && r.value.clearedAt == v.clearedAt
      else r == Err(BadState)
  {
    T.AllowedIsEdge(v.status, next);
  }

  lemma NewVoyageIff(id: string, tenant: string, imo: string, name: string, origin: string, destination: string, eta: Instant)
    ensures
      C.NewVoyage(id, tenant, imo, name, origin, destination, eta) ==
      if && id != "" && tenant != "" && ByteLength(TrimSpace(imo)) >= 7 && name != "" && origin != "" && destination != ""
         && origin != destination && eta != 0
      then Ok(C.Voyage(id, tenant, TrimSpace(imo), TrimSpace(name), origin, destination, eta, C.Draft, "", None, None, 1))
      else Err(Invalid)
  {
  }

  /** The reservation took on the status and counts one version more; the rest stays. */
  predicate ReservationStep(r: Reservation, r': Reservation, next: SlotStatus) {
    r' == Reservation(r.id, r.voyageID, r.tenantID, r.chamberID, r.startsAt, r.endsAt, r.length, r.beam, r.draft, next, r.version + 1)
  }

  /** Each life cycle operation succeeds from its statuses, in its time, on the version
      expected, and then takes its step; else the state is bad. */
  lemma ReservationOperations(r: Reservation, cleared: bool, at: Instant, expected: int)
    ensures
      var confirmed := Confirm(r, cleared, expected);
      if r.status == Reserved && r.version == expected && cleared
      then confirmed.Ok? && ReservationStep(r, confirmed.value, Confirmed) else confirmed == Err(BadState)
    ensures
      var entered := Enter(r, at, expected);
      if r.status == Confirmed && r.version == expected && r.startsAt - 900_000_000_000 <= at && at < r.endsAt
      then entered.Ok? && ReservationStep(r, entered.value, Entered) else entered == Err(BadState)
    ensures
      var exited := Exit(r, at, expected);
      if r.status == Entered && r.version == expected && r.startsAt <= at
      then exited.Ok? && ReservationStep(r, exited.value, Exited) else exited == Err(BadState)
    ensures
      var cancelled := Cancel(r, at, expected);
      if r.status in {Reserved, Confirmed} && r.version == expected && at < r.startsAt
      then cancelled.Ok? && ReservationStep(r, cancelled.value, Cancelled) else cancelled == Err(BadState)
  {
  }

  /** Who acts on a row that has meanwhile been changed, so that its version differs from the
      one he has seen, is refused by every operation that takes a version. */
  lemma StaleVersionRefused(v: C.Voyage, i: C.Inspection, r: Reservation, m: Manifest, inspections: set<C.Inspection>,
                            finding: string, flag: bool, at: Instant, expected: int)
    ensures v.version != expected ==> C.Declare(v, m, at, expected).Err? && C.Release(v, inspections, at, expected).Err?
    ensures i.version != expected ==> C.CloseInspection(i, finding, flag, at, expected).Err?
    ensures r.version != expected ==>
              && Confirm(r, flag, expected).Err? && Enter(r, at, expected).Err? && Exit(r, at, expected).Err?
              && Cancel(r, at, expected).Err?
  {
  }
}
