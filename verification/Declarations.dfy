/** The two protocols together: clients that declare under one idempotency key, each
    running the workflow between its begin and its settle, while other commands act on
    the same tables (internal/service/coordinator.go over internal/store/workflow.go). */
module Declarations {
  import opened Core
  import opened Authorization
  import opened Coordinator
  import opened Workflow
  import opened Commits
  import opened Writing
  import opened Operations
  import opened Passage
  import P = IdempotencyProtocol
  import R = ReachableStates
  import C = Clearance
  import M = Manifests

  /** The client's key is this record's, as it is stored. */
  predicate SameKey(w: World, command: DeclareCommand) { TrimSpace(command.idempotencyKey) == TrimSpace(w.key) }

  /** What is fixed: the hash functions, the tenant and key, and the text form of commands
      and voyages. */
  datatype World = World(
    digests: Digests,
    tenant: string,
    key: string,
    fingerprint: DeclareCommand -> string,
    encode: C.Voyage -> string)
  {
    function Hash(c: DeclareCommand): string { TrimSpace(fingerprint(c)) }

    /** The commands, the spelling of their key included, have different fingerprints. */
    ghost predicate TellsApart(commands: set<DeclareCommand>) {
      forall a, b :: a in commands && b in commands && Hash(a) == Hash(b) ==> a == b
    }
  }

  /** A client that was told to start, the span it started in, and what its workflow
      answered once it has run. */
  datatype Work = Work(actor: User, command: DeclareCommand, span: nat, outcome: Option<Result<C.Voyage>>)

  datatype Insertion = Insertion(span: nat, command: DeclareCommand, voyage: C.Voyage)

  datatype Joint = Joint(
    protocol: P.System,
    tables: Tables,
    work: map<string, Work>,
    inserted: seq<Insertion>,        // voyages that the clients of this key inserted
    requests: map<nat, string>,      // the fingerprint that each span is about
    asked: set<DeclareCommand>)      // the commands that clients came with

  datatype Action =
    | Start(client: string, actor: User, command: DeclareCommand, now: Instant, ttl: Duration, staleAfter: Duration)
    | RunWorkflow(client: string)
    | Settle(client: string, message: string, now: Instant)
    | Crash(client: string)
    | Other(step: Workflow.Command)

  const INITIAL := Joint(P.INITIAL, EMPTY, map[], [], map[], {})

  function CallOf(w: World, a: Action): P.Action
    requires a.Start?
  {
    P.Call(a.client, OPERATION, w.fingerprint(a.command), a.now, a.ttl, a.staleAfter)
  }

  function DoStart(w: World, j: Joint, a: Action): Joint
    requires a.Start?
  {
    var p := P.Next(j.protocol, w.tenant, a.command.idempotencyKey, CallOf(w, a));
    if a.client !in p.holders then j.(protocol := p, asked := j.asked + {a.command})
    else
      j.(protocol := p, asked := j.asked + {a.command}, work := j.work[a.client := Work(a.actor, a.command, p.span, None)],
         requests := if p.span == j.protocol.span then j.requests else j.requests[p.span := w.Hash(a.command)])
  }

  ghost function DoRun(w: World, j: Joint, c: string): Joint
    requires c in j.work
  {
    var task := j.work[c];
    var outcome := DeclareTx(w.digests, j.tables, task.actor, Request(task.command));
    var answer := if outcome.Ok? then Ok(outcome.value.0) else Err(outcome.error);
    j.(tables := Committed(j.tables, outcome), work := j.work[c := task.(outcome := Some(answer))],
       inserted := if outcome.Ok? then j.inserted + [Insertion(task.span, task.command, outcome.value.0)] else j.inserted)
  }

  function SettleOf(w: World, c: string, outcome: Result<C.Voyage>, message: string, now: Instant): P.Action {
    if outcome.Ok? then P.Finish(c, w.encode(outcome.value), now) else P.Abort(c, message, now)
  }

  function DoSettle(w: World, j: Joint, c: string, message: string, now: Instant): Joint
    requires c in j.work && j.work[c].outcome.Some?
  {
    j.(protocol := P.Next(j.protocol, w.tenant, w.key, SettleOf(w, c, j.work[c].outcome.value, message, now)), work := j.work - {c})
  }

  ghost function Next(w: World, j: Joint, a: Action): Joint {
    match a
    case Start(c, actor, command, _, _, _) =>
      if c in j.work || actor.tenantID != w.tenant || !SameKey(w, command) then j else DoStart(w, j, a)
    case RunWorkflow(c) => if c in j.work && j.work[c].outcome.None? then DoRun(w, j, c) else j
    case Settle(c, message, now) => if c in j.work && j.work[c].outcome.Some? then DoSettle(w, j, c, message, now) else j
    case Crash(c) => j.(protocol := P.Next(j.protocol, w.tenant, w.key, P.Crash(c)), work := j.work - {c})
    case Other(step) => j.(tables := Step(w.digests, j.tables, step))
  }

  ghost function Run(w: World, actions: seq<Action>): Joint {
    if actions == [] then INITIAL else Next(w, Run(w, actions[..|actions| - 1]), actions[|actions| - 1])
  }

  // ---- Steps of the protocol, as far as they matter here ---------------------------------

  /** Every holder's version is at most the row's. */
  lemma HoldersBelowRow(s: P.System, c: string)
    requires P.Inv(s) && c in s.holders
    ensures s.row.Some? && s.holders[c].version <= s.row.value.version
  {
    P.StartsBounded(s);
  }

  /** A client is told to start under a new version, for the request that the span is
      about, or else nothing but the answers changes. */
  lemma CallFacts(s: P.System, tenant: string, key: string, a: P.Action)
    requires P.Inv(s) && a.Call? && a.client !in s.holders
    ensures
      var s' := P.Next(s, tenant, key, a);
      && s'.completions == s.completions
      && (a.client !in s'.holders ==> s'.row == s.row && s'.span == s.span && s'.holders == s.holders)
      && (a.client in s'.holders ==>
            && s'.holders == s.holders[a.client := s'.holders[a.client]]
            && s'.holders[a.client].requestHash == TrimSpace(a.requestHash)
            && s'.row.Some? && s'.row.value.requestHash == TrimSpace(a.requestHash)
            && (s.row.Some? ==> s.row.value.version < s'.row.value.version)
            && (s'.span == s.span + 1 || (s'.span == s.span && s.row.Some? && s.row.value.requestHash == TrimSpace(a.requestHash))))
  {
  }

  /** A settle keeps the request; it changes the row only under a new version, and stores a
      completion only for the holder whose record the row equals. */
  lemma SettleFacts(s: P.System, tenant: string, key: string, a: P.Action)
    requires P.Inv(s) && (a.Finish? || a.Abort?) && a.client in s.holders
    ensures
      var s' := P.Next(s, tenant, key, a);
      && s'.holders == s.holders - {a.client} && s'.span == s.span
      && s.row.Some? && s'.row.Some? && s'.row.value.requestHash == s.row.value.requestHash
      && (s'.row == s.row || s.row.value.version < s'.row.value.version)
      && (s'.completions == s.completions
          || (a.Finish? && s.row == Some(s.holders[a.client]) &&
              s'.completions == s.completions + [P.Answer(s.span, s.holders[a.client].requestHash, a.body)]))
  {
    HoldersBelowRow(s, a.client);
  }

  // ---- Voyages stay what they were declared as -------------------------------------------

  /** The stored voyage is the declared one, up to its progress. */
  predicate Kept(t: Tables, v: C.Voyage) {
    v.id in t.voyages &&
    var row := t.voyages[v.id];
    row == v.(status := row.status, clearedAt := row.clearedAt, version := row.version)
  }

  lemma DeclareKeeps(d: Digests, t: Tables, t': Tables, v: C.Voyage, m: M.Manifest, kept: C.Voyage)
    requires Declares(d, t, t', v, m) && Kept(t, kept)
    ensures Kept(t', kept)
  {
  }

  lemma ProgressKeeps(t: Tables, t': Tables, v: C.Voyage, v': C.Voyage, kept: C.Voyage)
    requires v.id in t.voyages && t.voyages[v.id] == v && t'.voyages == t.voyages[v.id := v']
    requires v' == v.(status := v'.status, clearedAt := v'.clearedAt, version := v'.version)
    requires Kept(t, kept)
    ensures Kept(t', kept)
  {
  }

  lemma OpenKeeps(t: Tables, t': Tables, v: C.Voyage, i: C.Inspection, kept: C.Voyage)
    requires Opens(t, t', v, i) && Kept(t, kept)
    ensures Kept(t', kept)
  {
    ProgressKeeps(t, t', v, t'.voyages[v.id], kept);
  }

  lemma PassKeeps(t: Tables, t': Tables, v: C.Voyage, i: C.Inspection, at: Instant, kept: C.Voyage)
    requires Passes(t, t', v, i, at) && Kept(t, kept)
    ensures Kept(t', kept)
  {
    ProgressKeeps(t, t', v, t'.voyages[v.id], kept);
  }

  lemma ReserveKeeps(t: Tables, t': Tables, v: C.Voyage, r: Reservation, kept: C.Voyage)
    requires Reserves(t, t', v, r) && Kept(t, kept)
    ensures Kept(t', kept)
  {
    ProgressKeeps(t, t', v, t'.voyages[v.id], kept);
  }

  lemma MoveKeeps(t: Tables, t': Tables, r: Reservation, m: Movement, kept: C.Voyage)
    requires Moves(t, t', r, m) && Kept(t, kept)
    ensures Kept(t', kept)
  {
  }

  lemma CommitKeeps(d: Digests, t: Tables, t': Tables, kept: C.Voyage)
    requires Commit(d, t, t') && Kept(t, kept)
    ensures Kept(t', kept)
  {
    if v, m, at :| DeclareCommit(d, t, t', v, m, at) {
      DeclareKeeps(d, t, t', v, m, kept);
    } else if v, i, at :| OpenCommit(d, t, t', v, i, at) {
      OpenKeeps(t, t', v, i, kept);
    } else if v, i, at :| PassCommit(d, t, t', v, i, at) {
      PassKeeps(t, t', v, i, at, kept);
    } else if v, r, at :| ReserveCommit(d, t, t', v, r, at) {
      ReserveKeeps(t, t', v, r, kept);
    } else {
      var r, m :| MoveCommit(d, t, t', r, m);
      MoveKeeps(t, t', r, m, kept);
    }
  }

  lemma StepKeeps(d: Digests, t: Tables, c: Workflow.Command, v: C.Voyage)
    requires Reachable(d, t) && Kept(t, v)
    ensures Kept(Step(d, t, c), v)
  {
    R.ReachableInv(d, t);
    StepCommitsOrNothing(d, t, c);
    if Step(d, t, c) != t {
      CommitKeeps(d, t, Step(d, t, c), v);
    }
  }

  // ---- Invariant -------------------------------------------------------------------------

  /** The fingerprints of spans, clients and insertions fit together, and only a client of
      the current span can hold the row's version. */
  ghost predicate RequestsFit(w: World, j: Joint) {
    && j.work.Keys == j.protocol.holders.Keys
    && (forall s :: s in j.requests ==> s <= j.protocol.span)
    && (j.protocol.row.Some? ==> j.protocol.span in j.requests && j.requests[j.protocol.span] == j.protocol.row.value.requestHash)
    && (forall c :: c in j.work ==> WorkFits(w, j, c))
    && (forall i :: 0 <= i < |j.inserted| ==>
          && j.inserted[i].span in j.requests && j.requests[j.inserted[i].span] == w.Hash(j.inserted[i].command)
          && j.inserted[i].command in j.asked)
  }

  predicate WorkFits(w: World, j: Joint, c: string)
    requires c in j.work && c in j.protocol.holders
  {
    var task, holder := j.work[c], j.protocol.holders[c];
    && task.span in j.requests && j.requests[task.span] == w.Hash(task.command)
    && holder.requestHash == w.Hash(task.command) && task.command in j.asked
    && (j.protocol.row.Some? && holder.version == j.protocol.row.value.version ==> task.span == j.protocol.span)
  }

  /** Insertions are of different voyages, all still stored as declared. */
  ghost predicate InsertionsKept(j: Joint) {
    && (forall i :: 0 <= i < |j.inserted| ==> j.inserted[i].voyage.id == j.inserted[i].command.id && Kept(j.tables, j.inserted[i].voyage))
    && (forall i, k :: 0 <= i < k < |j.inserted| ==> j.inserted[i].voyage.id != j.inserted[k].voyage.id)
  }

  /** Whoever answered well inserted the voyage, and every stored completion is the text of
      a voyage inserted in its span. */
  ghost predicate AnswersBacked(w: World, j: Joint) {
    && (forall c :: c in j.work && j.work[c].outcome.Some? && j.work[c].outcome.value.Ok? ==>
          Insertion(j.work[c].span, j.work[c].command, j.work[c].outcome.value.value) in j.inserted)
    && (forall a :: a in j.protocol.completions ==> Backed(w, j, a))
  }

  ghost predicate Backed(w: World, j: Joint, a: P.Answer) {
    exists e :: e in j.inserted && e.span == a.span && w.Hash(e.command) == a.requestHash && w.encode(e.voyage) == a.body
  }

  ghost predicate Inv(w: World, j: Joint) {
    && P.Inv(j.protocol) && Reachable(w.digests, j.tables)
    && RequestsFit(w, j) && InsertionsKept(j) && AnswersBacked(w, j)
  }

  lemma StartKeepsInv(w: World, j: Joint, a: Action)
    requires Inv(w, j) && a.Start? && a.client !in j.work
    ensures Inv(w, DoStart(w, j, a))
  {
    P.NextKeepsInv(j.protocol, w.tenant, a.command.idempotencyKey, CallOf(w, a));
    CallFacts(j.protocol, w.tenant, a.command.idempotencyKey, CallOf(w, a));
    StartKeepsRequests(w, j, a);
    StartIsBacked(w, j, a);
  }

  lemma StartIsBacked(w: World, j: Joint, a: Action)
    requires AnswersBacked(w, j) && a.Start? && a.client !in j.work
    requires P.Next(j.protocol, w.tenant, a.command.idempotencyKey, CallOf(w, a)).completions == j.protocol.completions
    ensures AnswersBacked(w, DoStart(w, j, a))
  {
    var j' := DoStart(w, j, a);
    forall x | x in j'.protocol.completions
      ensures Backed(w, j', x)
    {
      assert Backed(w, j, x);
    }
  }

  lemma StartKeepsRequests(w: World, j: Joint, a: Action)
    requires P.Inv(j.protocol) && RequestsFit(w, j) && a.Start? && a.client !in j.work
    ensures RequestsFit(w, DoStart(w, j, a))
  {
    StartKeepsKeys(w, j, a);
    StartKeepsSpans(w, j, a);
    var j' := DoStart(w, j, a);
    forall c | c in j'.work
      ensures WorkFits(w, j', c)
    {
      if c == a.client {
        StarterFits(w, j, a);
      } else {
        StartKeepsWork(w, j, a, c);
      }
    }
  }

  lemma StarterFits(w: World, j: Joint, a: Action)
    requires P.Inv(j.protocol) && RequestsFit(w, j) && a.Start? && a.client !in j.work
    ensures var j' := DoStart(w, j, a);
            a.client in j'.work ==> a.client in j'.protocol.holders && WorkFits(w, j', a.client)
  {
    CallFacts(j.protocol, w.tenant, a.command.idempotencyKey, CallOf(w, a));
  }

  lemma StartKeepsSpans(w: World, j: Joint, a: Action)
    requires P.Inv(j.protocol) && RequestsFit(w, j) && a.Start? && a.client !in j.work
    ensures
      var j' := DoStart(w, j, a);
      && (forall s :: s in j.requests ==> s in j'.requests && j'.requests[s] == j.requests[s])
      && (forall s :: s in j'.requests ==> s <= j'.protocol.span)
      && (j'.protocol.row.Some? ==>
            j'.protocol.span in j'.requests && j'.requests[j'.protocol.span] == j'.protocol.row.value.requestHash)
  {
    CallFacts(j.protocol, w.tenant, a.command.idempotencyKey, CallOf(w, a));
  }

  lemma StartKeepsKeys(w: World, j: Joint, a: Action)
    requires P.Inv(j.protocol) && RequestsFit(w, j) && a.Start? && a.client !in j.work
    ensures var j' := DoStart(w, j, a);
            j'.work.Keys == j'.protocol.holders.Keys
  {
    CallFacts(j.protocol, w.tenant, a.command.idempotencyKey, CallOf(w, a));
  }

  lemma StartKeepsWork(w: World, j: Joint, a: Action, c: string)
    requires P.Inv(j.protocol) && RequestsFit(w, j) && a.Start? && a.client !in j.work && c in j.work
    ensures var j' := DoStart(w, j, a);
            c in j'.work && c in j'.protocol.holders && WorkFits(w, j', c)
  {
    CallFacts(j.protocol, w.tenant, a.command.idempotencyKey, CallOf(w, a));
    assert WorkFits(w, j, c);
    HoldersBelowRow(j.protocol, c);
  }

  lemma SettleKeepsInv(w: World, j: Joint, c: string, message: string, now: Instant)
    requires Inv(w, j) && c in j.work && j.work[c].outcome.Some?
    ensures Inv(w, DoSettle(w, j, c, message, now))
  {
    var act := SettleOf(w, c, j.work[c].outcome.value, message, now);
    P.NextKeepsInv(j.protocol, w.tenant, w.key, act);
    SettleFacts(j.protocol, w.tenant, w.key, act);
    SettleKeepsRequests(w, j, c, message, now);
    SettleIsBacked(w, j, c, message, now);
  }

  lemma SettleKeepsRequests(w: World, j: Joint, c: string, message: string, now: Instant)
    requires P.Inv(j.protocol) && RequestsFit(w, j) && c in j.work && j.work[c].outcome.Some?
    ensures RequestsFit(w, DoSettle(w, j, c, message, now))
  {
    SettleFacts(j.protocol, w.tenant, w.key, SettleOf(w, c, j.work[c].outcome.value, message, now));
    var j' := DoSettle(w, j, c, message, now);
    forall x | x in j'.work
      ensures WorkFits(w, j', x)
    {
      assert WorkFits(w, j, x);
      HoldersBelowRow(j.protocol, x);
    }
  }

  lemma SettleIsBacked(w: World, j: Joint, c: string, message: string, now: Instant)
    requires P.Inv(j.protocol) && RequestsFit(w, j) && AnswersBacked(w, j) && c in j.work && j.work[c].outcome.Some?
    ensures AnswersBacked(w, DoSettle(w, j, c, message, now))
  {
    SettleFacts(j.protocol, w.tenant, w.key, SettleOf(w, c, j.work[c].outcome.value, message, now));
    var j' := DoSettle(w, j, c, message, now);
    assert WorkFits(w, j, c);
    forall x | x in j'.protocol.completions
      ensures Backed(w, j', x)
    {
      if x in j.protocol.completions {
        assert Backed(w, j, x);
      } else {
        var task := j.work[c];
        assert Insertion(task.span, task.command, task.outcome.value.value) in j'.inserted;
      }
    }
  }

  lemma CrashKeepsInv(w: World, j: Joint, c: string)
    requires Inv(w, j)
    ensures Inv(w, Next(w, j, Crash(c)))
  {
    P.NextKeepsInv(j.protocol, w.tenant, w.key, P.Crash(c));
    var j' := Next(w, j, Crash(c));
    forall x | x in j'.work
      ensures WorkFits(w, j', x)
    {
      assert WorkFits(w, j, x);
    }
    forall x | x in j'.protocol.completions
      ensures Backed(w, j', x)
    {
      assert Backed(w, j, x);
    }
  }

  lemma OtherKeepsInv(w: World, j: Joint, command: Workflow.Command)
    requires Inv(w, j)
    ensures Inv(w, Next(w, j, Other(command)))
  {
    var j' := Next(w, j, Other(command));
    R.StepsStayReachable(w.digests, j.tables, command);
    forall i | 0 <= i < |j.inserted|
      ensures Kept(j'.tables, j.inserted[i].voyage)
    {
      StepKeeps(w.digests, j.tables, command, j.inserted[i].voyage);
    }
    SameBacking(w, j, j');
  }

  lemma SameBacking(w: World, j: Joint, j': Joint)
    requires j'.protocol == j.protocol && (forall e :: e in j.inserted ==> e in j'.inserted)
    ensures forall a :: a in j.protocol.completions && Backed(w, j, a) ==> Backed(w, j', a)
    ensures RequestsFit(w, j) && j'.work == j.work && j'.requests == j.requests && j'.inserted == j.inserted && j'.asked == j.asked ==> RequestsFit(w, j')
  {
    forall a | Backed(w, j, a)
      ensures Backed(w, j', a)
    {
      var e :| e in j.inserted && e.span == a.span && w.Hash(e.command) == a.requestHash && w.encode(e.voyage) == a.body;
      assert e in j'.inserted;
    }
    if RequestsFit(w, j) && j'.work == j.work && j'.requests == j.requests && j'.inserted == j.inserted && j'.asked == j.asked {
      forall c | c in j'.work
        ensures WorkFits(w, j', c)
      {
        assert WorkFits(w, j, c);
      }
    }
  }

  /** What a workflow run does to the tables: a new voyage of the command's id, or nothing. */
  lemma RunFacts(d: Digests, t: Tables, actor: User, command: DeclareCommand)
    requires Reachable(d, t)
    ensures
      var outcome := DeclareTx(d, t, actor, Request(command));
      && Committed(t, outcome) == Step(d, t, DeclareVoyage(actor, Request(command)))
      && (outcome.Ok? ==> outcome.value.0.id == command.id && command.id !in t.voyages && Kept(outcome.value.1, outcome.value.0))
  {
    if DeclareTx(d, t, actor, Request(command)).Ok? {
      DeclareRows(d, t, actor, Request(command));
      DeclareCommits(d, t, actor, Request(command));
    }
  }

  lemma RunWorkflowKeepsInv(w: World, j: Joint, c: string)
    requires Inv(w, j) && c in j.work && j.work[c].outcome.None?
    ensures Inv(w, DoRun(w, j, c))
  {
    RunFacts(w.digests, j.tables, j.work[c].actor, j.work[c].command);
    R.StepsStayReachable(w.digests, j.tables, DeclareVoyage(j.work[c].actor, Request(j.work[c].command)));
    RunIsBacked(w, j, c);
    RunKeepsRequests(w, j, c);
    RunKeepsInsertions(w, j, c);
  }

  lemma RunIsBacked(w: World, j: Joint, c: string)
    requires AnswersBacked(w, j) && c in j.work
    ensures AnswersBacked(w, DoRun(w, j, c))
  {
    var j' := DoRun(w, j, c);
    forall e | e in j.inserted
      ensures e in j'.inserted
    {
    }
    SameBacking(w, j, j');
  }

  lemma RunKeepsRequests(w: World, j: Joint, c: string)
    requires RequestsFit(w, j) && c in j.work
    ensures RequestsFit(w, DoRun(w, j, c))
  {
    var j' := DoRun(w, j, c);
    assert WorkFits(w, j, c);
    forall x | x in j'.work
      ensures WorkFits(w, j', x)
    {
      assert WorkFits(w, j, x);
    }
  }

  lemma RunKeepsInsertions(w: World, j: Joint, c: string)
    requires Reachable(w.digests, j.tables) && InsertionsKept(j) && c in j.work
    ensures InsertionsKept(DoRun(w, j, c))
  {
    var task, j' := j.work[c], DoRun(w, j, c);
    RunFacts(w.digests, j.tables, task.actor, task.command);
    forall i | 0 <= i < |j.inserted|
      ensures Kept(j'.tables, j.inserted[i].voyage)
    {
      StepKeeps(w.digests, j.tables, DeclareVoyage(task.actor, Request(task.command)), j.inserted[i].voyage);
    }
  }

  lemma {:induction false} RunKeepsInv(w: World, actions: seq<Action>)
    ensures Inv(w, Run(w, actions))
  {
    if actions == [] {
      assert EMPTY == Workflow.Run(w.digests, []);
    } else {
      var j := Run(w, actions[..|actions| - 1]);
      RunKeepsInv(w, actions[..|actions| - 1]);
      if Run(w, actions) != j {
        match actions[|actions| - 1] {
          case Start(_, _, _, _, _, _) => StartKeepsInv(w, j, actions[|actions| - 1]);
          case RunWorkflow(c) => RunWorkflowKeepsInv(w, j, c);
          case Settle(c, message, now) => SettleKeepsInv(w, j, c, message, now);
          case Crash(c) => CrashKeepsInv(w, j, c);
          case Other(step) => OtherKeepsInv(w, j, step);
        }
      }
    }
  }

  // ---- Results ---------------------------------------------------------------------------

  /** The clients of a span insert at most one voyage between them. */
  lemma OneVoyagePerSpan(w: World, actions: seq<Action>)
    requires w.TellsApart(Run(w, actions).asked)
    ensures var inserted := Run(w, actions).inserted;
            forall i, k :: 0 <= i < k < |inserted| ==> inserted[i].span != inserted[k].span
  {
    RunKeepsInv(w, actions);
    var j := Run(w, actions);
    forall i, k | 0 <= i < k < |j.inserted|
      ensures j.inserted[i].span != j.inserted[k].span
    {
      DifferentRequests(w, j, j.inserted[i].command, j.inserted[k].command);
    }
  }

  lemma DifferentRequests(w: World, j: Joint, a: DeclareCommand, b: DeclareCommand)
    requires w.TellsApart(j.asked) && a in j.asked && b in j.asked && a != b
    ensures w.Hash(a) != w.Hash(b)
  {
  }

  /** The voyage inserted carries what its client's command says, declared twelve hours
      before the arrival, with the hash of a manifest of the command's items. */
  ghost predicate InsertedAs(w: World, e: Insertion) {
    var c, v := e.command, e.voyage;
    && v.id == c.id && v.tenantID == w.tenant
    && v.vesselIMO == TrimSpace(c.vesselIMO) && v.vesselName == TrimSpace(c.vesselName)
    && v.originPort == c.originPort && v.destinationPort == c.destinationPort && v.eta == c.eta
    && v.status == C.Declared && v.version == 2 && v.declaredAt == Some(c.eta - 43_200_000_000_000) && v.clearedAt == None
    && exists m: M.Manifest :: CarriesItems(w, m, c) && m.hash == v.manifestHash
  }

  ghost predicate CarriesItems(w: World, m: M.Manifest, c: DeclareCommand) {
    && m.voyageID == c.id && m.hash == w.digests.items(m.items)
    && (forall x :: x in m.items <==> x in c.items)
    && (forall i, j :: 0 <= i < j < |m.items| ==> StringLess(m.items[i].containerNo, m.items[j].containerNo))
  }

  lemma InsertionTells(w: World, t: Tables, e: Insertion, actor: User)
    requires DeclareTx(w.digests, t, actor, Request(e.command)).Ok? && actor.tenantID == w.tenant
    requires e.voyage == DeclareTx(w.digests, t, actor, Request(e.command)).value.0
    ensures InsertedAs(w, e)
  {
    DeclareWrites(w.digests, t, actor, Request(e.command));
    WrittenIsInserted(w, t, DeclareTx(w.digests, t, actor, Request(e.command)).value.1, e, actor);
  }

  lemma WrittenIsInserted(w: World, t: Tables, t': Tables, e: Insertion, actor: User)
    requires DeclaresAs(w.digests, t, t', actor, Request(e.command)) && actor.tenantID == w.tenant
    requires e.voyage == t'.voyages[e.command.id]
    ensures InsertedAs(w, e)
  {
    assert CarriesItems(w, t'.manifests[e.command.id], e.command);
  }

  ghost predicate AllInsertedAs(w: World, j: Joint) {
    && (forall c :: c in j.work ==> j.work[c].actor.tenantID == w.tenant)
    && (forall e :: e in j.inserted ==> InsertedAs(w, e))
  }

  /** Over every interleaving, the voyages inserted are those of the clients' commands. */
  lemma {:induction false} InsertionsTell(w: World, actions: seq<Action>)
    ensures AllInsertedAs(w, Run(w, actions))
  {
    if actions != [] {
      var j, a := Run(w, actions[..|actions| - 1]), actions[|actions| - 1];
      InsertionsTell(w, actions[..|actions| - 1]);
      if a.RunWorkflow? && a.client in j.work && j.work[a.client].outcome.None? {
        RunInsertsAs(w, j, a.client);
      }
    }
  }

  lemma RunInsertsAs(w: World, j: Joint, c: string)
    requires AllInsertedAs(w, j) && c in j.work
    ensures AllInsertedAs(w, DoRun(w, j, c))
  {
    var task := j.work[c];
    var outcome := DeclareTx(w.digests, j.tables, task.actor, Request(task.command));
    if outcome.Ok? {
      InsertionTells(w, j.tables, Insertion(task.span, task.command, outcome.value.0), task.actor);
    }
  }

  /** The reply is the text of this voyage, inserted for this very request in its span as
      the command says, and still stored. */
  ghost predicate TellsOfVoyage(w: World, j: Joint, a: P.Answer, e: Insertion) {
    && e in j.inserted && e.span == a.span && w.Hash(e.command) == a.requestHash && w.encode(e.voyage) == a.body
    && Kept(j.tables, e.voyage) && InsertedAs(w, e)
  }

  /** Every successful reply, started or replayed, is the text of the one voyage that was
      inserted for this very request in its span, as the command says, and that voyage is
      still stored. */
  lemma RepliesTellStoredVoyage(w: World, actions: seq<Action>, a: P.Answer)
    requires a in Run(w, actions).protocol.answers
    ensures exists e :: TellsOfVoyage(w, Run(w, actions), a, e)
  {
    RunKeepsInv(w, actions);
    InsertionsTell(w, actions);
    BackedIsTold(w, Run(w, actions), a);
  }

  lemma BackedIsTold(w: World, j: Joint, a: P.Answer)
    requires Inv(w, j) && AllInsertedAs(w, j) && a in j.protocol.answers
    ensures exists e :: TellsOfVoyage(w, j, a, e)
  {
    assert a in j.protocol.completions && Backed(w, j, a);
    var e :| e in j.inserted && e.span == a.span && w.Hash(e.command) == a.requestHash && w.encode(e.voyage) == a.body;
    var i :| 0 <= i < |j.inserted| && j.inserted[i] == e;
    assert TellsOfVoyage(w, j, a, e);
  }

  // ---- Lost spans ------------------------------------------------------------------------

  /** In a span that has its voyage, the workflow of any other client meets the id in use:
      it fails and changes nothing. */
  lemma RestartMeetsUsedId(w: World, j: Joint, c: string, e: Insertion)
    requires Inv(w, j) && w.TellsApart(j.asked)
    requires c in j.work && e in j.inserted && e.span == j.work[c].span
    ensures
      var j' := DoRun(w, j, c);
      j'.work[c].outcome.Some? && j'.work[c].outcome.value.Err? && j'.tables == j.tables && j'.inserted == j.inserted
  {
    var i :| 0 <= i < |j.inserted| && j.inserted[i] == e;
    assert WorkFits(w, j, c);
    assert e.command == j.work[c].command;
    assert Kept(j.tables, e.voyage);
    RunFacts(w.digests, j.tables, j.work[c].actor, j.work[c].command);
  }

  /** A completion of the span is stored. */
  ghost predicate Answered(j: Joint, span: nat) {
    exists a :: a in j.protocol.completions && a.span == span
  }

  /** A client of the span has its voyage, and its record is still the stored one. */
  ghost predicate CanSucceed(j: Joint, span: nat) {
    exists c :: MaySettle(j, span, c)
  }

  predicate MaySettle(j: Joint, span: nat, c: string) {
    && c in j.work && c in j.protocol.holders && j.work[c].span == span
    && j.work[c].outcome.Some? && j.work[c].outcome.value.Ok?
    && j.protocol.row == Some(j.protocol.holders[c])
  }

  /** The span has its voyage, but no completion, and nobody left who could store one. */
  ghost predicate Lost(j: Joint, e: Insertion) {
    e in j.inserted && !Answered(j, e.span) && !CanSucceed(j, e.span)
  }

  lemma StartKeepsLost(w: World, j: Joint, a: Action, e: Insertion)
    requires Inv(w, j) && a.Start? && a.client !in j.work && Lost(j, e)
    ensures Lost(DoStart(w, j, a), e)
  {
    CallFacts(j.protocol, w.tenant, a.command.idempotencyKey, CallOf(w, a));
    var j' := DoStart(w, j, a);
    forall c
      ensures !MaySettle(j', e.span, c)
    {
      StartLeavesWork(w, j, a, c, e.span);
    }
  }

  lemma StartLeavesWork(w: World, j: Joint, a: Action, c: string, span: nat)
    requires Inv(w, j) && a.Start? && a.client !in j.work
    ensures MaySettle(DoStart(w, j, a), span, c) ==> MaySettle(j, span, c)
  {
    CallFacts(j.protocol, w.tenant, a.command.idempotencyKey, CallOf(w, a));
    if c in j.protocol.holders {
      HoldersBelowRow(j.protocol, c);
    }
  }

  lemma RunKeepsLost(w: World, j: Joint, c: string, e: Insertion)
    requires Inv(w, j) && w.TellsApart(j.asked) && c in j.work && Lost(j, e)
    ensures Lost(DoRun(w, j, c), e)
  {
    var j' := DoRun(w, j, c);
    if j.work[c].span == e.span {
      RestartMeetsUsedId(w, j, c, e);
    }
    forall x
      ensures !MaySettle(j', e.span, x)
    {
      assert x != c ==> (MaySettle(j', e.span, x) <==> MaySettle(j, e.span, x));
    }
  }

  lemma SettleKeepsLost(w: World, j: Joint, c: string, message: string, now: Instant, e: Insertion)
    requires Inv(w, j) && c in j.work && j.work[c].outcome.Some? && Lost(j, e)
    ensures Lost(DoSettle(w, j, c, message, now), e)
  {
    var j' := DoSettle(w, j, c, message, now);
    SettleFacts(j.protocol, w.tenant, w.key, SettleOf(w, c, j.work[c].outcome.value, message, now));
    assert WorkFits(w, j, c);
    assert !MaySettle(j, e.span, c);
    forall x
      ensures !MaySettle(j', e.span, x)
    {
      SettleLeavesWork(w, j, c, message, now, x, e.span);
    }
  }

  lemma SettleLeavesWork(w: World, j: Joint, c: string, message: string, now: Instant, x: string, span: nat)
    requires Inv(w, j) && c in j.work && j.work[c].outcome.Some?
    ensures MaySettle(DoSettle(w, j, c, message, now), span, x) ==> MaySettle(j, span, x)
  {
    SettleFacts(j.protocol, w.tenant, w.key, SettleOf(w, c, j.work[c].outcome.value, message, now));
    if x in j.protocol.holders {
      HoldersBelowRow(j.protocol, x);
    }
  }

  lemma CrashKeepsLost(w: World, j: Joint, c: string, e: Insertion)
    requires Lost(j, e)
    ensures Lost(Next(w, j, Crash(c)), e)
  {
    var j' := Next(w, j, Crash(c));
    assert forall x :: MaySettle(j', e.span, x) ==> MaySettle(j, e.span, x);
  }

  lemma OtherKeepsLost(w: World, j: Joint, step: Workflow.Command, e: Insertion)
    requires Lost(j, e)
    ensures Lost(Next(w, j, Other(step)), e)
  {
    var j' := Next(w, j, Other(step));
    assert forall x :: MaySettle(j', e.span, x) <==> MaySettle(j, e.span, x);
  }

  lemma NextKeepsLost(w: World, j: Joint, a: Action, e: Insertion)
    requires Inv(w, j) && w.TellsApart(j.asked) && Lost(j, e)
    ensures Lost(Next(w, j, a), e)
  {
    if Next(w, j, a) != j {
      match a {
        case Start(_, _, _, _, _, _) => StartKeepsLost(w, j, a, e);
        case RunWorkflow(c) => RunKeepsLost(w, j, c, e);
        case Settle(c, message, now) => SettleKeepsLost(w, j, c, message, now, e);
        case Crash(c) => CrashKeepsLost(w, j, c, e);
        case Other(step) => OtherKeepsLost(w, j, step, e);
      }
    }
  }

  lemma NextAsks(w: World, j: Joint, a: Action)
    ensures j.asked <= Next(w, j, a).asked
  {
  }

  lemma {:induction false} AskedGrows(w: World, before: seq<Action>, after: seq<Action>)
    ensures Run(w, before).asked <= Run(w, before + after).asked
  {
    if after == [] {
      assert before + after == before;
    } else {
      var front := after[..|after| - 1];
      assert (before + after)[..|before + after| - 1] == before + front;
      AskedGrows(w, before, front);
      NextAsks(w, Run(w, before + front), after[|after| - 1]);
    }
  }

  lemma {:induction false} LostForGood(w: World, before: seq<Action>, after: seq<Action>, e: Insertion)
    requires w.TellsApart(Run(w, before + after).asked) && Lost(Run(w, before), e)
    ensures Lost(Run(w, before + after), e)
  {
    if after == [] {
      assert before + after == before;
    } else {
      var front, a := after[..|after| - 1], after[|after| - 1];
      assert (before + after)[..|before + after| - 1] == before + front;
      assert before + after == (before + front) + [a];
      AskedGrows(w, before + front, [a]);
      LostForGood(w, before, front, e);
      RunKeepsInv(w, before + front);
      NextKeepsLost(w, Run(w, before + front), a, e);
    }
  }

  /** A client that may settle does so by completing at once. */
  lemma SettlingSucceeds(w: World, j: Joint, span: nat, c: string)
    requires Inv(w, j) && MaySettle(j, span, c)
    ensures Answered(DoSettle(w, j, c, "", j.protocol.holders[c].updatedAt), span)
  {
    assert WorkFits(w, j, c);
    var holder, body := j.protocol.holders[c], w.encode(j.work[c].outcome.value.value);
    HolderCompletes(j.protocol, c, body);
    var j' := DoSettle(w, j, c, "", holder.updatedAt);
    assert P.Answer(j.protocol.span, holder.requestHash, body) in j'.protocol.completions;
  }

  lemma HolderCompletes(s: P.System, c: string, body: string)
    requires P.Inv(s) && c in s.holders && s.row == Some(s.holders[c])
    ensures P.DoFinish(s, P.Finish(c, body, s.holders[c].updatedAt)).completions
         == s.completions + [P.Answer(s.span, s.holders[c].requestHash, body)]
  {
    assert s.holders[c].version in s.starts;
  }

  /** Exactly when a span that has its voyage can still give a successful reply: one is
      stored already, or a client that has the voyage still holds the stored record. In
      particular nobody succeeds any more once that client has crashed, or has been
      superseded by a restart. */
  lemma SpanSucceedsIff(w: World, before: seq<Action>, e: Insertion)
    requires w.TellsApart(Run(w, before).asked) && e in Run(w, before).inserted
    ensures (exists after :: w.TellsApart(Run(w, before + after).asked) && Answered(Run(w, before + after), e.span))
       <==> Answered(Run(w, before), e.span) || CanSucceed(Run(w, before), e.span)
  {
    var j := Run(w, before);
    RunKeepsInv(w, before);
    if Answered(j, e.span) {
      assert before + [] == before;
      assert Answered(Run(w, before + []), e.span);
    } else if c :| MaySettle(j, e.span, c) {
      var settle := SettleAnswers(w, before, e.span, c);
      assert Answered(Run(w, before + [settle]), e.span);
    } else {
      LostIsNeverAnswered(w, before, e);
    }
  }

  lemma LostIsNeverAnswered(w: World, before: seq<Action>, e: Insertion)
    requires Lost(Run(w, before), e)
    ensures forall after :: w.TellsApart(Run(w, before + after).asked) ==> !Answered(Run(w, before + after), e.span)
  {
    forall after | w.TellsApart(Run(w, before + after).asked)
      ensures !Answered(Run(w, before + after), e.span)
    {
      LostForGood(w, before, after, e);
    }
  }

  lemma SettleAnswers(w: World, before: seq<Action>, span: nat, c: string) returns (settle: Action)
    requires MaySettle(Run(w, before), span, c)
    ensures Run(w, before + [settle]).asked == Run(w, before).asked
    ensures Answered(Run(w, before + [settle]), span)
  {
    var j := Run(w, before);
    RunKeepsInv(w, before);
    SettlingSucceeds(w, j, span, c);
    settle := Settle(c, "", j.protocol.holders[c].updatedAt);
    assert (before + [settle])[..|before|] == before;
    assert Run(w, before + [settle]) == Next(w, j, settle);
  }
}
