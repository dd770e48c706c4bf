/** A concrete run that loses a reply: a client crashes after its voyage is committed and
    before its record is completed, and a rival is told to start in the same span. */
module LostReplies {
  import opened Core
  import opened Workflow
  import opened Coordinator
  import opened Declarations
  import opened Scenarios
  import Admission
  import C = Clearance
  import I = Idempotency
  import P = IdempotencyProtocol

  function TheWorld(): World {
    World(PlainDigests(), TENANT, "key-0001", (c: DeclareCommand) => HexDigest(), (v: C.Voyage) => v.id)
  }

  const FIRST := Declarations.Start("first", CARRIER, COMMAND, HOUR, DAY, MINUTE)
  const RIVAL := Declarations.Start("rival", CARRIER, COMMAND, HOUR + MINUTE, DAY, MINUTE)

  function NewRow(now: Instant): I.Record {
    I.Record(TENANT, "key-0001", OPERATION, HexDigest(), I.Processing, 0, "", "", now, now, now + DAY, 1)
  }

  lemma RecordIsValid(now: Instant)
    requires now != ZERO_INSTANT
    ensures I.NewRecord(TENANT, "key-0001", OPERATION, HexDigest(), now, DAY) == Ok(NewRow(now))
  {
    assert TrimSpace(TENANT) == TENANT && TrimSpace("key-0001") == "key-0001" && TrimSpace(OPERATION) == OPERATION;
    assert TrimSpace(HexDigest()) == HexDigest();
    PlainBytes("key-0001");
    PlainBytes(HexDigest());
  }

  /** The call that finds no record is told to start. */
  lemma CallOnVacant(tenant: string, key: string, a: P.Action, stored: I.Record)
    requires a.Call? && I.NewRecord(tenant, key, a.operation, a.requestHash, a.now, a.ttl) == Ok(stored)
    requires stored.responseCode == 0 && stored.responseBody == "" && stored.failureMessage == "" && stored.version == 1
    requires stored.updatedAt == stored.createdAt
    ensures P.Next(P.INITIAL, tenant, key, a) == P.System(Some(stored), map[a.client := stored], 1, [1], [], [])
  {
  }

  lemma FirstStarts()
    ensures
      var j := Declarations.Next(TheWorld(), Declarations.INITIAL, FIRST);
      && j.protocol.row == Some(NewRow(HOUR)) && j.protocol.span == 1 && j.protocol.completions == []
      && j.work == map["first" := Work(CARRIER, COMMAND, 1, None)]
      && j.tables == EMPTY && j.inserted == [] && j.asked == {COMMAND}
  {
    RecordIsValid(HOUR);
    CallOnVacant(TENANT, "key-0001", CallOf(TheWorld(), FIRST), NewRow(HOUR));
  }

  lemma FirstDeclareSucceeds()
    ensures DeclareTx(PlainDigests(), EMPTY, CARRIER, REQUEST).Ok?
  {
    RequestIsValid();
    assert EMPTY == Workflow.Run(PlainDigests(), []);
    Admission.DeclareSucceedsIff(PlainDigests(), EMPTY, CARRIER, REQUEST);
  }

  lemma RunInserts(w: World, j: Joint, c: string)
    requires c in j.work && j.work[c].outcome.None?
    requires DeclareTx(w.digests, j.tables, j.work[c].actor, Request(j.work[c].command)).Ok?
    ensures
      var j' := Declarations.Next(w, j, RunWorkflow(c));
      && j'.protocol == j.protocol && j'.work.Keys == j.work.Keys && j'.asked == j.asked
      && |j'.inserted| == |j.inserted| + 1
      && j'.inserted[|j.inserted|].span == j.work[c].span && j'.inserted[|j.inserted|].command == j.work[c].command
  {
  }

  lemma FirstDeclares(j: Joint)
    requires j.tables == EMPTY && j.inserted == [] && j.work == map["first" := Work(CARRIER, COMMAND, 1, None)]
    ensures
      var j' := Declarations.Next(TheWorld(), j, RunWorkflow("first"));
      && j'.protocol == j.protocol && j'.work.Keys == {"first"} && j'.asked == j.asked
      && |j'.inserted| == 1 && j'.inserted[0].span == 1 && j'.inserted[0].command == COMMAND
  {
    FirstDeclareSucceeds();
    RunInserts(TheWorld(), j, "first");
  }

  /** A call that finds a stale record of the same request is told to start again. */
  lemma CallOnStale(s: P.System, tenant: string, key: string, a: P.Action, candidate: I.Record)
    requires a.Call? && a.client !in s.holders && I.NewRecord(tenant, key, a.operation, a.requestHash, a.now, a.ttl) == Ok(candidate)
    requires s.row.Some? && s.row.value.status.Processing? && s.row.value.requestHash == candidate.requestHash
    requires s.row.value.expiresAt > a.now == candidate.createdAt && a.staleAfter > 0
    requires s.row.value.updatedAt + a.staleAfter <= a.now
    ensures
      var s' := P.Next(s, tenant, key, a);
      && s'.span == s.span && s'.completions == s.completions && s'.holders.Keys == s.holders.Keys + {a.client}
  {
  }

  lemma RivalStarts(j: Joint)
    requires j.protocol.row == Some(NewRow(HOUR)) && j.work == map[] && j.protocol.holders == map[]
    ensures
      var j' := Declarations.Next(TheWorld(), j, RIVAL);
      && j'.protocol.span == j.protocol.span && j'.protocol.completions == j.protocol.completions
      && j'.work == map["rival" := Work(CARRIER, COMMAND, j.protocol.span, None)] && j'.inserted == j.inserted
      && j'.asked == j.asked + {COMMAND}
  {
    RecordIsValid(HOUR + MINUTE);
    Restarts(TheWorld(), j, RIVAL, NewRow(HOUR + MINUTE));
  }

  lemma Restarts(w: World, j: Joint, a: Declarations.Action, candidate: I.Record)
    requires a.Start? && j.work == map[] && j.protocol.holders == map[]
    requires a.actor.tenantID == w.tenant && SameKey(w, a.command)
    requires I.NewRecord(w.tenant, a.command.idempotencyKey, OPERATION, w.fingerprint(a.command), a.now, a.ttl) == Ok(candidate)
    requires j.protocol.row.Some? && j.protocol.row.value.status.Processing?
    requires j.protocol.row.value.requestHash == candidate.requestHash
    requires j.protocol.row.value.expiresAt > a.now == candidate.createdAt && a.staleAfter > 0
    requires j.protocol.row.value.updatedAt + a.staleAfter <= a.now
    ensures
      var j' := Declarations.Next(w, j, a);
      && j'.protocol.span == j.protocol.span && j'.protocol.completions == j.protocol.completions
      && j'.work == map[a.client := Work(a.actor, a.command, j.protocol.span, None)] && j'.inserted == j.inserted
      && j'.asked == j.asked + {a.command}
  {
    CallOnStale(j.protocol, w.tenant, a.command.idempotencyKey, CallOf(w, a), candidate);
  }

  lemma RunAppend(w: World, actions: seq<Declarations.Action>, a: Declarations.Action)
    ensures Declarations.Run(w, actions + [a]) == Declarations.Next(w, Declarations.Run(w, actions), a)
  {
    assert (actions + [a])[..|actions|] == actions;
  }

  lemma AfterFirst() returns (actions: seq<Declarations.Action>)
    ensures
      var j := Declarations.Run(TheWorld(), actions);
      && j.protocol.row == Some(NewRow(HOUR)) && j.protocol.span == 1 && j.protocol.completions == []
      && j.work.Keys == {"first"} && j.asked == {COMMAND}
      && |j.inserted| == 1 && j.inserted[0].span == 1
  {
    FirstStarts();
    assert [FIRST] == [] + [FIRST];
    RunAppend(TheWorld(), [], FIRST);
    FirstDeclares(Declarations.Run(TheWorld(), [FIRST]));
    actions := [FIRST] + [RunWorkflow("first")];
    RunAppend(TheWorld(), [FIRST], RunWorkflow("first"));
  }

  lemma CrashKeepsRest(w: World, j: Joint, c: string)
    ensures
      var j' := Declarations.Next(w, j, Declarations.Crash(c));
      && j'.protocol.row == j.protocol.row && j'.protocol.span == j.protocol.span
      && j'.protocol.completions == j.protocol.completions && j'.inserted == j.inserted && j'.asked == j.asked
  {
  }

  lemma AfterCrash() returns (actions: seq<Declarations.Action>)
    ensures
      var j := Declarations.Run(TheWorld(), actions);
      && j.protocol.row == Some(NewRow(HOUR)) && j.protocol.span == 1 && j.protocol.completions == []
      && j.work == map[] && j.protocol.holders == map[] && j.asked == {COMMAND}
      && |j.inserted| == 1 && j.inserted[0].span == 1
  {
    var before := AfterFirst();
    actions := before + [Declarations.Crash("first")];
    RunAppend(TheWorld(), before, Declarations.Crash("first"));
    CrashKeepsRest(TheWorld(), Declarations.Run(TheWorld(), before), "first");
    NobodyLeft(TheWorld(), actions, "first", Declarations.Run(TheWorld(), before));
  }

  /** Start, the workflow, a crash, and the start of a rival: the span has its voyage and a
      client at work, and yet no continuation gives a successful reply. */
  lemma CrashLosesSpan() returns (actions: seq<Declarations.Action>, e: Insertion)
    ensures
      var j := Declarations.Run(TheWorld(), actions);
      && TheWorld().TellsApart(j.asked) && e in j.inserted
      && "rival" in j.work && j.work["rival"].span == e.span && j.work["rival"].outcome.None?
    ensures forall after :: TheWorld().TellsApart(Declarations.Run(TheWorld(), actions + after).asked) ==>
              !Answered(Declarations.Run(TheWorld(), actions + after), e.span)
  {
    var before := AfterCrash();
    e := Declarations.Run(TheWorld(), before).inserted[0];
    RivalStarts(Declarations.Run(TheWorld(), before));
    actions := before + [RIVAL];
    RunAppend(TheWorld(), before, RIVAL);
    RivalIsAlone(TheWorld(), actions, e);
  }

  lemma NobodyLeft(w: World, actions: seq<Declarations.Action>, c: string, j: Joint)
    requires Declarations.Run(w, actions) == Declarations.Next(w, j, Declarations.Crash(c)) && j.work.Keys == {c}
    ensures var j' := Declarations.Run(w, actions); j'.work == map[] && j'.protocol.holders == map[]
  {
    RunKeepsInv(w, actions);
  }

  lemma RivalIsAlone(w: World, actions: seq<Declarations.Action>, e: Insertion)
    requires var j := Declarations.Run(w, actions);
             && w.TellsApart(j.asked) && e in j.inserted && j.protocol.completions == []
             && forall c :: c in j.work ==> j.work[c].outcome.None?
    ensures forall after :: w.TellsApart(Declarations.Run(w, actions + after).asked) ==>
              !Answered(Declarations.Run(w, actions + after), e.span)
  {
    SpanSucceedsIff(w, actions, e);
  }
}
