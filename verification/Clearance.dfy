/** Voyages, customs inspections and their status changes (internal/clearance/model.go). */
module Clearance {
  import opened Core
  import opened Manifests

  datatype VoyageStatus = Draft | Declared | Held | Cleared | Scheduled | InTransit | Completed | VoyageCancelled

  datatype Voyage = Voyage(
    id: string,
    tenantID: string,
    vesselIMO: string,
    vesselName: string,
    originPort: string,
    destinationPort: string,
    eta: Instant,
    status: VoyageStatus,
    manifestHash: string,
    declaredAt: Option<Instant>,
    clearedAt: Option<Instant>,
    version: int)

  datatype InspectionStatus = Open | Passed | Failed

  datatype Inspection = Inspection(
    id: string,
    voyageID: string,
    officerID: string,
    kind: string,
    status: InspectionStatus,
    finding: string,
    openedAt: Instant,
    closedAt: Option<Instant>,
    version: int)

  function NewVoyage(id: string, tenant: string, imo: string, name: string, origin: string, destination: string,
                     eta: Instant): Result<Voyage>
  {
    if id == "" || tenant == "" || ByteLength(TrimSpace(imo)) < 7 || name == "" || origin == "" || destination == ""
       || origin == destination || eta == ZERO_INSTANT
    then Err(Invalid)
    else Ok(Voyage(id, tenant, TrimSpace(imo), TrimSpace(name), origin, destination, eta, Draft, "", None, None, 1))
  }

  function Declare(voyage: Voyage, manifest: Manifest, at: Instant, expectedVersion: int): Result<Voyage> {
    if !voyage.status.Draft? || voyage.version != expectedVersion || manifest.voyageID != voyage.id
       || ByteLength(manifest.hash) != 64 || at == ZERO_INSTANT
    then Err(Conflict)
    else Ok(voyage.(status := Declared, manifestHash := manifest.hash, declaredAt := Some(at), version := voyage.version + 1))
  }

  function OpenInspection(id: string, voyage: Voyage, officer: string, kind: string, at: Instant): Result<(Inspection, Voyage)> {
    if id == "" || officer == "" || kind == "" || !voyage.status.Declared? || at == ZERO_INSTANT then Err(BadState)
    else
      Ok((Inspection(id, voyage.id, officer, kind, Open, "", at, None, 1),
          voyage.(status := Held, version := voyage.version + 1)))
  }

  function CloseInspection(inspection: Inspection, finding: string, passed: bool, at: Instant, expectedVersion: int): Result<Inspection> {
    if !inspection.status.Open? || inspection.version != expectedVersion || TrimSpace(finding) == "" || at < inspection.openedAt
    then Err(Conflict)
    else
      Ok(inspection.(status := if passed then Passed else Failed, finding := TrimSpace(finding), closedAt := Some(at),
                     version := inspection.version + 1))
  }

  /** The verdict of Release, which depends on the inspections only as a set. */
  ghost function Release(voyage: Voyage, inspections: set<Inspection>, at: Instant, expectedVersion: int): Result<Voyage> {
    if !(voyage.status.Declared? || voyage.status.Held?) || voyage.version != expectedVersion || voyage.manifestHash == "" then
      Err(BadState)
    else if inspections == {} then Err(Conflict)
    else if exists i :: i in inspections && (i.voyageID != voyage.id || !i.status.Passed?) then Err(Conflict)
    else Ok(voyage.(status := Cleared, clearedAt := Some(at), version := voyage.version + 1))
  }

  method ReleaseVoyage(voyage: Voyage, inspections: seq<Inspection>, at: Instant, expectedVersion: int) returns (r: Result<Voyage>)
    ensures r == Release(voyage, Rows(inspections), at, expectedVersion)
  {
    if (!voyage.status.Declared? && !voyage.status.Held?) || voyage.version != expectedVersion || voyage.manifestHash == "" {
      return Err(BadState);
    }
    if |inspections| == 0 {
      return Err(Conflict);
    }
    assert inspections[0] in Rows(inspections);
    for k := 0 to |inspections|
      invariant forall j :: 0 <= j < k ==> inspections[j].voyageID == voyage.id && inspections[j].status.Passed?
    {
      if inspections[k].voyageID != voyage.id || !inspections[k].status.Passed? {
        assert inspections[k] in Rows(inspections);
        return Err(Conflict);
      }
    }
    return Ok(voyage.(status := Cleared, clearedAt := Some(at), version := voyage.version + 1));
  }

  predicate Allowed(from: VoyageStatus, to: VoyageStatus) {
    match from
    case Draft => to in {Declared, VoyageCancelled}
    case Declared => to in {Held, Cleared, VoyageCancelled}
    case Held => to in {Cleared, VoyageCancelled}
    case Cleared => to in {Scheduled, VoyageCancelled}
    case Scheduled => to in {InTransit, VoyageCancelled}
    case InTransit => to in {Completed}
    case _ => false
  }

  function Transition(voyage: Voyage, next: VoyageStatus, at: Instant): Result<Voyage> {
    if !Allowed(voyage.status, next) || at == ZERO_INSTANT then Err(BadState)
    else Ok(voyage.(status := next, version := voyage.version + 1))
  }
}
