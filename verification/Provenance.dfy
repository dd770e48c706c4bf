/** Where everything in a reachable state comes from: each stored row, audit event and job
    is what one command asked for, and no later command changed that. */
module Provenance {
  import opened Core
  import opened Passage
  import opened Operations
  import opened Manifests
  import opened AuditChain
  import opened Authorization
  import opened Workflow
  import opened Commits
  import opened Writing
  import opened Invariants
  import opened ReachableStates
  import C = Clearance

  // ---- What is never changed again -------------------------------------------------------

  /** Only status, clearance and version of a voyage change, and a clearance once made stays. */
  predicate VoyageLasts(v: C.Voyage, v': C.Voyage) {
    && v' == v.(status := v'.status, clearedAt := v'.clearedAt, version := v'.version)
    && (v.clearedAt.Some? ==> v'.clearedAt == v.clearedAt)
  }

  /** An inspection changes once, when it is closed, and then keeps what it was opened with. */
  predicate InspectionLasts(i: C.Inspection, i': C.Inspection) {
    && i' == i.(status := i'.status, finding := i'.finding, closedAt := i'.closedAt, version := i'.version)
    && (i.status != C.Open || i'.status == C.Open ==> i' == i)
  }

  ghost predicate ReservationLasts(r: Reservation, r': Reservation) {
    r' == r.(status := r'.status, version := r'.version)
  }

  ghost predicate Extends<T>(s: seq<T>, s': seq<T>) { |s| <= |s'| && s'[..|s|] == s }

  ghost predicate VoyagesLast(t: Tables, t': Tables) {
    forall k :: k in t.voyages ==> k in t'.voyages && VoyageLasts(t.voyages[k], t'.voyages[k])
  }

  ghost predicate InspectionsLast(t: Tables, t': Tables) {
    forall k :: k in t.inspections ==> k in t'.inspections && InspectionLasts(t.inspections[k], t'.inspections[k])
  }

  ghost predicate ReservationsLast(t: Tables, t': Tables) {
    forall k :: k in t.reservations ==> k in t'.reservations && ReservationLasts(t.reservations[k], t'.reservations[k])
  }

  ghost predicate Lasts(t: Tables, t': Tables) {
    && VoyagesLast(t, t') && InspectionsLast(t, t') && ReservationsLast(t, t')
    && (forall k :: k in t.manifests ==> k in t'.manifests && t'.manifests[k] == t.manifests[k])
    && (forall k :: k in t.outbox ==> k in t'.outbox && t'.outbox[k] == t.outbox[k])
    && Extends(t.movements, t'.movements) && Extends(t.audits, t'.audits)
  }

  lemma DeclareLasts(d: Digests, t: Tables, t': Tables, actor: User, q: DeclareRequest)
    requires DeclaresAs(d, t, t', actor, q)
    ensures Lasts(t, t')
  {
  }

  lemma PassLasts(t: Tables, t': Tables, actor: User, id: string, finding: string, at: Instant)
    requires PassesAs(t, t', actor, id, finding, at) && t.voyages[t.inspections[id].voyageID].clearedAt.None?
    ensures Lasts(t, t')
  {
    PassedVoyagesLast(t, t', actor, id, finding, at);
    PassedInspectionsLast(t, t', actor, id, finding, at);
  }

  lemma PassedVoyagesLast(t: Tables, t': Tables, actor: User, id: string, finding: string, at: Instant)
    requires PassesAs(t, t', actor, id, finding, at) && t.voyages[t.inspections[id].voyageID].clearedAt.None?
    ensures VoyagesLast(t, t')
  {
  }

  lemma PassedInspectionsLast(t: Tables, t': Tables, actor: User, id: string, finding: string, at: Instant)
    requires PassesAs(t, t', actor, id, finding, at)
    ensures InspectionsLast(t, t')
  {
  }

  lemma ReserveLasts(t: Tables, t': Tables, actor: User, q: ReserveRequest)
    requires ReservesAs(t, t', actor, q)
    ensures Lasts(t, t')
  {
  }

  lemma OpenLasts(t: Tables, t': Tables, actor: User, id: string, voyageID: string, kind: string, at: Instant)
    requires OpensAs(t, t', actor, id, voyageID, kind, at)
    ensures Lasts(t, t')
  {
  }

  lemma MoveLasts(t: Tables, t': Tables, actor: User, id: string, next: SlotStatus, at: Instant, note: string)
    requires MovesAs(t, t', actor, id, next, at, note)
    ensures Lasts(t, t')
  {
  }

  lemma WroteLasts(d: Digests, t: Tables, t': Tables, c: Command)
    requires RowsOk(t) && VoyagesOk(t) && Wrote(d, t, t', c)
    ensures Lasts(t, t')
  {
    match c
    case DeclareVoyage(actor, q) => DeclareLasts(d, t, t', actor, q);
    case PassInspection(actor, id, finding, at) =>
      assert StatusFixes(t, t.inspections[id].voyageID);
      PassLasts(t, t', actor, id, finding, at);
    case ReservePassage(actor, q) => ReserveLasts(t, t', actor, q);
    case OpenInspection(actor, id, voyageID, kind, at) => OpenLasts(t, t', actor, id, voyageID, kind, at);
    case MovePassage(actor, id, next, at, note) => MoveLasts(t, t', actor, id, next, at, note);
  }

  lemma LastsItself(t: Tables)
    ensures Lasts(t, t)
  {
  }

  lemma LastsOn(t: Tables, t': Tables, t'': Tables)
    requires Lasts(t, t') && Lasts(t', t'')
    ensures Lasts(t, t'')
  {
  }

  /** The n-th command of a run either wrote what it asked for or changed nothing. */
  lemma StepOf(d: Digests, commands: seq<Command>, n: nat)
    requires n < |commands|
    ensures var t, t' := Run(d, commands[..n]), Run(d, commands[..n + 1]);
            (t' == t || Wrote(d, t, t', commands[n])) && Lasts(t, t')
  {
    var t, t' := Run(d, commands[..n]), Run(d, commands[..n + 1]);
    assert commands[..n + 1][..n] == commands[..n];
    assert t' == Step(d, t, commands[n]);
    RunKeepsInv(d, commands[..n]);
    StepWrites(d, t, commands[n]);
    if t' != t {
      WroteLasts(d, t, t', commands[n]);
    } else {
      LastsItself(t);
    }
  }

  lemma StepLasts(d: Digests, commands: seq<Command>, n: nat)
    requires n < |commands|
    ensures Lasts(Run(d, commands[..n]), Run(d, commands[..n + 1]))
  {
    StepOf(d, commands, n);
  }

  lemma {:induction false} RunLasts(d: Digests, commands: seq<Command>, m: nat, n: nat)
    requires m <= n <= |commands|
    ensures Lasts(Run(d, commands[..m]), Run(d, commands[..n]))
    decreases n
  {
    if m == n {
      LastsItself(Run(d, commands[..m]));
    } else {
      RunLasts(d, commands, m, n - 1);
      StepLasts(d, commands, n - 1);
      LastsOn(Run(d, commands[..m]), Run(d, commands[..n - 1]), Run(d, commands[..n]));
    }
  }

  /** What holds in the end, not at the start, and never stops once it does, began with one
      command of the run: the n-th, which wrote what it asked for. */
  ghost predicate Began(d: Digests, commands: seq<Command>, p: Tables -> bool, n: nat) {
    && n < |commands|
    && (forall m :: 0 <= m <= |commands| ==> (p(Run(d, commands[..m])) <==> n < m))
    && Wrote(d, Run(d, commands[..n]), Run(d, commands[..n + 1]), commands[n])
    && Lasts(Run(d, commands[..n + 1]), Run(d, commands))
  }

  ghost predicate Stays(p: Tables -> bool) {
    !p(EMPTY) && forall t, t' :: p(t) && Lasts(t, t') ==> p(t')
  }

  lemma Beginning(d: Digests, commands: seq<Command>, p: Tables -> bool) returns (n: nat)
    requires Stays(p) && p(Run(d, commands))
    ensures Began(d, commands, p, n)
  {
    assert commands[..|commands|] == commands;
    n := FirstStep(d, commands, p, |commands|);
    StepOf(d, commands, n);
    RunLasts(d, commands, n + 1, |commands|);
    forall m | 0 <= m <= |commands|
      ensures p(Run(d, commands[..m])) <==> n < m
    {
      if m <= n {
        RunLasts(d, commands, m, n);
      } else {
        RunLasts(d, commands, n + 1, m);
      }
    }
  }

  lemma {:induction false} FirstStep(d: Digests, commands: seq<Command>, p: Tables -> bool, m: nat) returns (n: nat)
    requires m <= |commands| && !p(EMPTY) && p(Run(d, commands[..m]))
    ensures n < m && !p(Run(d, commands[..n])) && p(Run(d, commands[..n + 1]))
    decreases m
  {
    assert m != 0;
    if p(Run(d, commands[..m - 1])) {
      n := FirstStep(d, commands, p, m - 1);
    } else {
      n := m - 1;
    }
  }

  // ---- Rows ------------------------------------------------------------------------------

  function HasVoyage(k: string): Tables -> bool { (t: Tables) => k in t.voyages }

  /** The voyage and its manifest carry what the user of the tenant declared. */
  ghost predicate DeclaredBy(d: Digests, v: C.Voyage, m: Manifest, actor: User, q: DeclareRequest) {
    && v.id == q.id && v.tenantID == actor.tenantID
    && v.vesselIMO == TrimSpace(q.vesselIMO) && v.vesselName == TrimSpace(q.vesselName)
    && v.originPort == q.originPort && v.destinationPort == q.destinationPort && v.eta == q.eta
    && v.declaredAt == Some(q.at) && v.manifestHash == m.hash
    && ManifestOf(d, m, q)
  }

  /** Every stored voyage carries the fields of the one command that declared it. */
  lemma VoyageOrigin(d: Digests, commands: seq<Command>, k: string) returns (n: nat)
    requires k in Run(d, commands).voyages
    ensures n < |commands| && commands[n].DeclareVoyage? && commands[n].request.id == k
    ensures Began(d, commands, HasVoyage(k), n)
    ensures var t := Run(d, commands);
            k in t.manifests && DeclaredBy(d, t.voyages[k], t.manifests[k], commands[n].actor, commands[n].request)
  {
    var p := HasVoyage(k);
    n := Beginning(d, commands, p);
    assert p(Run(d, commands[..n + 1])) && !p(Run(d, commands[..n]));
  }

  function HasInspection(k: string): Tables -> bool { (t: Tables) => k in t.inspections }

  function HasClosed(k: string): Tables -> bool { (t: Tables) => k in t.inspections && t.inspections[k].status != C.Open }

  /** Every stored inspection carries the officer, kind and time of the one command that
      opened it. */
  lemma InspectionOrigin(d: Digests, commands: seq<Command>, k: string) returns (n: nat)
    requires k in Run(d, commands).inspections
    ensures n < |commands| && commands[n].OpenInspection? && commands[n].id == k
    ensures Began(d, commands, HasInspection(k), n)
    ensures var i, c := Run(d, commands).inspections[k], commands[n];
            && i.id == k && i.voyageID == c.voyageID && i.officerID == c.actor.id && i.kind == c.kind && i.openedAt == c.at
            && (i.status == C.Open ==> i.finding == "" && i.closedAt == None && i.version == 1)
  {
    var p := HasInspection(k);
    n := Beginning(d, commands, p);
    assert p(Run(d, commands[..n + 1])) && !p(Run(d, commands[..n]));
  }

  /** Inspection, voyage and command as after passing the inspection. */
  ghost predicate ClosedBy(t: Tables, k: string, c: Command) {
    && c.PassInspection? && c.inspectionID == k && k in t.inspections && var i := t.inspections[k];
    && i.status == C.Passed && i.finding == TrimSpace(c.finding) && i.closedAt == Some(c.at) && i.openedAt <= c.at
    && i.voyageID in t.voyages && t.voyages[i.voyageID].clearedAt == Some(c.at)
    && t.voyages[i.voyageID].tenantID == c.actor.tenantID
  }

  lemma NewlyClosed(d: Digests, t: Tables, t': Tables, last: Tables, c: Command, k: string)
    requires Wrote(d, t, t', c) && HasClosed(k)(t') && !HasClosed(k)(t) && Lasts(t', last)
    ensures ClosedBy(last, k, c)
  {
    assert ClosedBy(t', k, c);
  }

  /** A closed inspection carries the finding and the time of the one command that passed
      it, and its voyage was cleared then. */
  lemma ClosureOrigin(d: Digests, commands: seq<Command>, k: string) returns (n: nat)
    requires k in Run(d, commands).inspections && Run(d, commands).inspections[k].status != C.Open
    ensures n < |commands| && ClosedBy(Run(d, commands), k, commands[n])
    ensures Began(d, commands, HasClosed(k), n)
  {
    var p := HasClosed(k);
    n := Beginning(d, commands, p);
    NewlyClosed(d, Run(d, commands[..n]), Run(d, commands[..n + 1]), Run(d, commands), commands[n], k);
  }

  function HasReservation(k: string): Tables -> bool { (t: Tables) => k in t.reservations }

  /** Every stored reservation carries the voyage, chamber, slot and vessel size of the one
      command that reserved it. */
  lemma ReservationOrigin(d: Digests, commands: seq<Command>, k: string) returns (n: nat)
    requires k in Run(d, commands).reservations
    ensures n < |commands| && commands[n].ReservePassage? && commands[n].reserve.id == k
    ensures Began(d, commands, HasReservation(k), n)
    ensures var r, c := Run(d, commands).reservations[k], commands[n];
            && r.id == k && r.tenantID == c.actor.tenantID && r.voyageID == c.reserve.voyageID
            && r.chamberID == c.reserve.chamber.id && r.startsAt == c.reserve.slot.startsAt && r.endsAt == c.reserve.slot.endsAt
            && r.length == c.reserve.length && r.beam == c.reserve.beam && r.draft == c.reserve.draft
  {
    var p := HasReservation(k);
    n := Beginning(d, commands, p);
    assert p(Run(d, commands[..n + 1])) && !p(Run(d, commands[..n]));
  }

  function HasMovements(i: nat): Tables -> bool { (t: Tables) => i < |t.movements| }

  lemma NewlyMoved(d: Digests, t: Tables, t': Tables, last: Tables, c: Command, i: nat)
    requires Wrote(d, t, t', c) && |t.movements| <= i < |t'.movements| && Lasts(t', last)
    ensures c.MovePassage? && i < |last.movements|
    ensures last.movements[i] == Movement(c.reservationID, c.next, c.at, c.actor.id, c.note)
    ensures c.reservationID in last.reservations && last.reservations[c.reservationID].tenantID == c.actor.tenantID
  {
    SamePlace(t'.movements, last.movements, i);
  }

  /** Every recorded movement is the one a command asked for, by its user. */
  lemma MovementOrigin(d: Digests, commands: seq<Command>, i: nat) returns (n: nat)
    requires i < |Run(d, commands).movements|
    ensures n < |commands| && commands[n].MovePassage?
    ensures Began(d, commands, HasMovements(i), n)
    ensures var t, c := Run(d, commands), commands[n];
            && t.movements[i] == Movement(c.reservationID, c.next, c.at, c.actor.id, c.note)
            && c.reservationID in t.reservations && t.reservations[c.reservationID].tenantID == c.actor.tenantID
  {
    var p := HasMovements(i);
    n := Beginning(d, commands, p);
    var t, t' := Run(d, commands[..n]), Run(d, commands[..n + 1]);
    assert p(t') && !p(t);
    NewlyMoved(d, t, t', Run(d, commands), commands[n], i);
  }

  lemma SamePlace<T>(s: seq<T>, s': seq<T>, i: nat)
    requires i < |s| && Extends(s, s')
    ensures s'[i] == s[i]
  {
    assert s'[i] == s'[..|s|][i];
  }

  function HasJob(k: string): Tables -> bool { (t: Tables) => k in t.outbox }

  /** Every job is that of a declaration or of a release, written out. */
  ghost predicate JobOf(k: string, job: OutboxRow, t: Tables, c: Command) {
    match c
    case DeclareVoyage(actor, q) =>
      k == "outbox-declare-" + q.id && job == OutboxRow(actor.tenantID, "voyage.declared", q.id, C.Declared, q.at)
    case PassInspection(actor, id, _, at) =>
      && id in t.inspections && var voyageID := t.inspections[id].voyageID;
      && k == "outbox-release-" + voyageID && job == OutboxRow(actor.tenantID, "voyage.released", voyageID, C.Cleared, at)
    case _ => false
  }

  lemma NewJob(d: Digests, t: Tables, t': Tables, c: Command, k: string)
    requires Wrote(d, t, t', c) && k in t'.outbox && k !in t.outbox
    ensures JobOf(k, t'.outbox[k], t', c)
  {
  }

  lemma JobOrigin(d: Digests, commands: seq<Command>, k: string) returns (n: nat)
    requires k in Run(d, commands).outbox
    ensures n < |commands|
    ensures Began(d, commands, HasJob(k), n)
    ensures JobOf(k, Run(d, commands).outbox[k], Run(d, commands), commands[n])
  {
    var p := HasJob(k);
    n := Beginning(d, commands, p);
    assert p(Run(d, commands[..n + 1])) && !p(Run(d, commands[..n]));
    NewJob(d, Run(d, commands[..n]), Run(d, commands[..n + 1]), commands[n], k);
  }

  // ---- Audit events ------------------------------------------------------------------------

  /** The event tells of the command: who issued it, what it did to what, and when. */
  ghost predicate TellsOfCommand(e: Event, t: Tables, c: Command) {
    match c
    case DeclareVoyage(actor, q) =>
      && q.id in t.manifests
      && TellsOf(e, "audit-declare-" + q.id, actor, "voyage.declared", "voyage", q.id,
                 map["manifest_hash" := t.manifests[q.id].hash], q.at)
    case OpenInspection(actor, id, voyageID, kind, at) =>
      TellsOf(e, "audit-inspection-open-" + id, actor, "inspection.opened", "voyage", voyageID, map["kind" := kind], at)
    case PassInspection(actor, id, _, at) =>
      && id in t.inspections
      && TellsOf(e, "audit-release-" + t.inspections[id].voyageID, actor, "voyage.released", "voyage",
                 t.inspections[id].voyageID, map["inspection" := id], at)
    case ReservePassage(actor, q) =>
      TellsOf(e, "audit-reserve-" + q.id, actor, "passage.reserved", "voyage", q.voyageID, map["chamber" := q.chamber.id],
              q.requestedAt)
    case MovePassage(actor, id, next, at, note) =>
      && next in {Entered, Exited, Cancelled}
      && TellsOf(e, "audit-passage-" + Spelled(next) + "-" + id, actor, "passage." + Spelled(next), "passage_reservation", id,
                 map["note" := note], at)
  }

  lemma NewEventTells(d: Digests, t: Tables, t': Tables, c: Command)
    requires Wrote(d, t, t', c) && Lasts(t, t')
    ensures |t'.audits| == |t.audits| + 1 && TellsOfCommand(t'.audits[|t.audits|], t', c)
  {
    match c
    case MovePassage(_, _, _, _, _) =>
    case _ =>
  }

  lemma StillTells(e: Event, t: Tables, t': Tables, c: Command)
    requires TellsOfCommand(e, t, c) && Lasts(t, t')
    ensures TellsOfCommand(e, t', c)
  {
    match c
    case DeclareVoyage(_, q) => assert t'.manifests[q.id] == t.manifests[q.id];
    case PassInspection(_, id, _, _) => assert InspectionLasts(t.inspections[id], t'.inspections[id]);
    case _ =>
  }

  function HasEvents(i: nat): Tables -> bool { (t: Tables) => i < |t.audits| }

  /** Every audit event names the user who issued the command that made its change, with the
      action, the object, the details and the time of that command; and that command
      changed the tables exactly when the event came. */
  lemma EventOrigin(d: Digests, commands: seq<Command>, i: nat) returns (n: nat)
    requires i < |Run(d, commands).audits|
    ensures n < |commands| && |Run(d, commands[..n]).audits| == i
    ensures Began(d, commands, HasEvents(i), n)
    ensures Wrote(d, Run(d, commands[..n]), Run(d, commands[..n + 1]), commands[n])
    ensures TellsOfCommand(Run(d, commands).audits[i], Run(d, commands), commands[n])
  {
    var p := HasEvents(i);
    n := Beginning(d, commands, p);
    var t, t' := Run(d, commands[..n]), Run(d, commands[..n + 1]);
    assert p(t') && !p(t);
    StepOf(d, commands, n);
    EventLasts(d, t, t', Run(d, commands), commands[n]);
  }

  lemma EventLasts(d: Digests, t: Tables, t': Tables, last: Tables, c: Command)
    requires Wrote(d, t, t', c) && Lasts(t, t') && Lasts(t', last)
    ensures |t'.audits| == |t.audits| + 1 && |t.audits| < |last.audits|
    ensures TellsOfCommand(last.audits[|t.audits|], last, c)
  {
    NewEventTells(d, t, t', c);
    SamePlace(t'.audits, last.audits, |t.audits|);
    StillTells(t'.audits[|t.audits|], t', last, c);
  }

  /** No change goes without its event: a command that changed anything has the event that
      tells of it, in the place next to those before it. */
  lemma ChangeIsLogged(d: Digests, commands: seq<Command>, n: nat)
    requires n < |commands| && Run(d, commands[..n + 1]) != Run(d, commands[..n])
    ensures var t, i := Run(d, commands), |Run(d, commands[..n]).audits|;
            i < |t.audits| && TellsOfCommand(t.audits[i], t, commands[n])
  {
    var t, t' := Run(d, commands[..n]), Run(d, commands[..n + 1]);
    StepOf(d, commands, n);
    RunLasts(d, commands, n + 1, |commands|);
    assert commands[..|commands|] == commands;
    EventLasts(d, t, t', Run(d, commands), commands[n]);
  }
}
