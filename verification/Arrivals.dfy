/** Declarations through the service are dated twelve hours before the arrival they
    announce (internal/store/service_adapter.go), and audit time only moves forward: what
    that means for the commands that follow. */
module Arrivals {
  import opened Core
  import opened Authorization
  import opened Manifests
  import opened Workflow
  import opened Commits
  import opened ReachableStates
  import opened Admission
  import opened Coordinator
  import C = Clearance

  /** The tables after a declaration. */
  ghost function Declared(d: Digests, t: Tables, actor: User, command: DeclareCommand): Tables {
    Step(d, t, DeclareVoyage(actor, Request(command)))
  }

  /** A declaration sets the tenant's clock to twelve hours before the arrival, inserts the
      voyage under its id, and touches no other voyage and no inspection. */
  lemma DeclarationSetsClock(d: Digests, t: Tables, actor: User, command: DeclareCommand)
    requires Reachable(d, t) && DeclareTx(d, t, actor, Request(command)).Ok?
    ensures
      var t' := Declared(d, t, actor, command);
      && Reachable(d, t')
      && (forall later :: InOrder(t', actor.tenantID, later) <==> command.eta - 12 * HOUR <= later)
      && t'.voyages.Keys == t.voyages.Keys + {command.id} && t'.inspections == t.inspections
      && GetVoyage(t', actor.tenantID, command.id).Ok? && t'.voyages[command.id].status.Declared?
  {
    var request := Request(command);
    var t' := Declared(d, t, actor, command);
    StepsStayReachable(d, t, DeclareVoyage(actor, request));
    DeclareRows(d, t, actor, request);
    DeclareCommits(d, t, actor, request);
    forall later
      ensures InOrder(t', actor.tenantID, later) <==> command.eta - 12 * HOUR <= later
    {
      CommitSetsClock(d, t, t', actor.tenantID, request.at, OfDeclaration(command.id), later);
    }
  }

  /** An inspection of the voyage just declared opens exactly from twelve hours before its
      arrival on. */
  lemma InspectionAfterDeclareIff(d: Digests, t: Tables, actor: User, command: DeclareCommand, officer: User, id: string,
                                  kind: string, at: Instant)
    requires Reachable(d, t) && SeparatesIds(d.event) && DeclareTx(d, t, actor, Request(command)).Ok?
    requires officer.role.Customs? && officer.id != "" && officer.tenantID == actor.tenantID
    requires id != "" && id !in t.inspections && kind != "" && at != ZERO_INSTANT
    ensures OpenInspectionTx(d, Declared(d, t, actor, command), officer, id, command.id, kind, at).Ok?
       <==> command.eta - 12 * HOUR <= at
  {
    DeclarationSetsClock(d, t, actor, command);
    OpenSucceedsIff(d, Declared(d, t, actor, command), officer, id, command.id, kind, at);
  }

  /** What makes a declaration acceptable apart from the clock and the id. */
  ghost predicate WellFormed(d: Digests, actor: User, command: DeclareCommand) {
    var q := Request(command);
    && (actor.role.Carrier? || actor.role.Dispatcher?) && actor.id != ""
    && C.NewVoyage(q.id, actor.tenantID, q.vesselIMO, q.vesselName, q.originPort, q.destinationPort, q.eta).Ok?
    && BuildManifest(d.items, q.id, q.items).Ok? && ByteLength(BuildManifest(d.items, q.id, q.items).value.hash) == 64
    && q.at != ZERO_INSTANT
  }

  lemma DeclareIff(d: Digests, t: Tables, actor: User, command: DeclareCommand)
    requires Reachable(d, t) && SeparatesIds(d.event) && WellFormed(d, actor, command)
    ensures DeclareTx(d, t, actor, Request(command)).Ok?
       <==> command.id !in t.voyages && InOrder(t, actor.tenantID, command.eta - 12 * HOUR)
  {
    DeclareSucceedsIff(d, t, actor, Request(command));
  }

  /** After a declaration, another well-formed one of the tenant under an unused id goes
      through exactly if its arrival is no earlier. */
  lemma NextDeclarationIff(d: Digests, t: Tables, actor: User, command: DeclareCommand, other: User, next: DeclareCommand)
    requires Reachable(d, t) && SeparatesIds(d.event) && DeclareTx(d, t, actor, Request(command)).Ok?
    requires WellFormed(d, other, next) && other.tenantID == actor.tenantID
    requires next.id !in t.voyages && next.id != command.id
    ensures DeclareTx(d, Declared(d, t, actor, command), other, Request(next)).Ok? <==> command.eta <= next.eta
  {
    DeclarationSetsClock(d, t, actor, command);
    DeclareIff(d, Declared(d, t, actor, command), other, next);
  }
}
