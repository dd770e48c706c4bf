# CanalClear, verified

CanalClear clears voyages through customs and gives them lock passages. It is a Go service over
PostgreSQL; this project models its domain logic and its three step-wise protocols in Dafny and proves
what they promise together. `dafny verify dfyconfig.toml` checks everything.

How the pieces fit:

- **Workflow.** `Workflow` holds the tables and the five transactions (declare, open inspection, pass and
  release, reserve, move) as functions from tables to tables; `Store.Database` is the object whose methods
  run them statement by statement and roll back on the first error. `Commits`, `Invariants`,
  `PassageInvariants` and `Ledger` show what each commit keeps; `ReachableStates` collects the results for
  every sequence of commands by any users of any tenants, and `Admission` says exactly when a command goes
  through in a reachable state. `Writing` spells out every field that a transaction writes, `Provenance` traces
  each stored row, audit event and job back to the command behind it, and `Answers` gives the refusal of every
  command. `LifeCycles` puts the operations on single rows side by side. `EligibilityReports` says what a report on a voyage then reads, and
  `Scenarios` runs one voyage from its declaration to an early cancellation. `Arrivals` says what the service's
  dating of declarations means for the commands that follow, and `Batches` what it means for a batch of
  declarations in the worker pool.
- **Idempotent declarations.** `Idempotency` is the record and its table, `IdempotencyProtocol` any number
  of clients under one key interleaved call by call, `Coordinator` one client's call as written, and
  `DeclareRefinement` the proof that the call is a stretch of the protocol. `Declarations` joins this protocol
  and the workflow: the clients' own transactions run on tables that other commands change as well. `LostReplies` is a run of it in which a
  crash loses a reply.
- **Outbox.** `RetryPolicies`, `OutboxProtocol` (the steps, one per SQL statement or publish call),
  `OutboxResults` (the accounting over every run with crashes, expired locks and deletions), `OutboxRows`
  (what each step writes, when a job is due again and how long a lock holds) and `OutboxWorker` (one pass of a
  worker, with rivals acting between any two of its steps).
- **Scheduling.** `TimeWindows`, `Passage`, `Operations`, `Schedule`.
- **Data.** `AuditChain`, `Manifests`, `Clearance`, `Timelines`, `Eligibility`, `Pagination`, `WorkerPool`,
  and `Core` for strings, sorting and filtering.

Conventions of the model. Instants and durations are integers counting nanoseconds, 0 is Go's zero time,
and the scheduling location is a fixed offset. The clock is a parameter. `sort.Slice` is a method that
promises a sorted permutation and nothing about ties; where that could show, uniqueness of the result is a
separate lemma. SHA-256, the JSON and base64 encodings and the trim-and-upper-case normaliser are function
parameters; collision-freedom, faithful decoding and idempotence are hypotheses where a result needs them.
A `WithTx` body is one atomic step, as is every other SQL statement.

## What the proofs found

The code is modelled as it is. Where the obvious law fails, the project states the exact law instead, and an
input on which the obvious one fails.

- `NextAvailable` sweeps the reservations, then jumps past maintenance, and does not sweep again. Its answer
  is the earliest free start exactly when the swept start already clears maintenance or nobody holds the
  chamber right after it; `Passage.NextAvailableCanBeOccupied` is an instance where it is not.
- `Exit` does not look at the time of the entry. The history of an entry and an exit that the domain functions
  admit is valid exactly when the exit is no earlier (`Operations.EntryExitValidIff`, with the instance
  `Operations.ExitAloneDoesNotOrder`). Recorded histories are in order only because both movements pass
  through the tenant's audit chain (`PassageInvariants.EntryAudited`).
- `Cancel` allows any instant before the slot, while `ValidateMovementHistory` refuses movements more than
  fifteen minutes early. The history of a cancelled reservation validates exactly when it was cancelled no
  earlier than that (`Operations.CancelValidIff`); an earlier cancellation commits and leaves a refused history
  (`Admission.EarlyCancelCommits`), and `Scenarios.RefusedHistoryIsReachable` reaches one.
- `AmendManifest` normalises container numbers and `CompareManifests` does not. The diff patches one
  manifest into another exactly when they differ and every changed container is already in normal form;
  `Manifests.LowerCaseSpoilsPatch` renames a container to lower case.
- `RankSlotCandidates` ends the day loop of a chamber as soon as the last candidate found carries its id. A
  chamber gets its earliest start of the 31 days exactly when that candidate carries another id before the
  search, or the start is on the first day (`Schedule.SearchCompleteIff`); `Schedule.RepeatedIdMissesStart` has
  two chambers of one id, the second under maintenance all the first day.
- The branch of lock recovery that gives a job up is never taken under one fixed policy
  (`OutboxResults.RecoveryAlwaysRetries`).
- The exclusion constraint on overlapping reservations and the unique indexes on movements, audit events and
  jobs never have to refuse a row the domain functions admitted, and no version guard of the workflow ever
  fails: under a hash that tells event ids apart a command fails only for a reason its caller could have checked.
- Audit time is per tenant, so a command is also refused when its instant lies before the tenant's newest
  event, whatever that event was about: after a commit exactly the instants from its own on are in order
  (`Admission.CommitSetsClock`). A declaration through the service is dated twelve hours before the arrival it
  announces. An inspection of the voyage opens exactly from then on (`Arrivals.InspectionAfterDeclareIff`, with
  the instance `Scenarios.EarlyInspectionRefused`), and the tenant's next declaration goes through exactly when
  its arrival is no earlier (`Arrivals.NextDeclarationIff`). A batch is therefore declared without a refusal
  under every schedule exactly when its arrivals never go back, for one worker, or are all equal, for several
  (`Batches.BatchNeverRefusedIff`).
- A span of an idempotency record that has its voyage can still give a successful reply exactly when one is
  stored already, or a client that has the voyage still holds the stored record (`Declarations.SpanSucceedsIff`).
  A crash of that client before the completion ends it, and so does a restart that supersedes the client;
  `LostReplies.CrashLosesSpan` is such a run.

## Model

| member | source | states |
|---|---|---|
| TimeWindows.MergeWindows | internal/domain/timewindow.go:36-64 | succeeds iff every input is well formed; the output has the inputs' coverage and at least one free tick between neighbours |
| TimeWindows.SeparatedIsCanonical | internal/domain/timewindow.go:53-62 | separated lists with equal coverage are equal, so the merge of inputs with equal coverage is the same |
| TimeWindows.SubtractWindows | internal/domain/timewindow.go:66-98 | results are ordered, disjoint, inside the base, long enough and clear; every such stretch of the base lies inside one of them; the exact success condition |
| TimeWindows.OverlapMeansShared | internal/domain/timewindow.go:27-34 | windows are half open: two proper ones overlap iff they share an instant |
| Passage.ReserveSlot | internal/passage/model.go:45-61 | the scan decides the order-free specification: valid, fitting, clear of maintenance and of every live reservation of the chamber |
| Passage.NextAvailable | internal/passage/model.go:103-127 | the least start clear of all live reservations, moved to the end of maintenance if it runs into it; errors exactly on bad input |
| Passage.NextAvailableUnique | internal/passage/model.go:113-122 | the unstable sort cannot change the answer |
| Passage.NextAvailableIsLeastOpen | internal/passage/model.go:123-126 | the answer is the least really open start iff the swept start clears maintenance or the slot after maintenance is free |
| Passage.ReserveAcceptsOpenSlot | internal/passage/model.go:45-61 | Reserve takes the answer of NextAvailable for a fitting vessel iff the answer is the least open start |
| Passage.NextAvailableCanBeOccupied | internal/passage/model.go:123-125 | a concrete chamber for which the answer is an occupied start |
| Operations.ValidateMovementHistory | internal/passage/operations.go:42-78 | accepts exactly: none while confirmed, one entry, an entry and a later exit, one cancellation, none more than fifteen minutes early |
| Operations.HistoryIgnoresOrder | internal/passage/operations.go:46-52 | the verdict depends on the movements as a multiset only |
| Operations.ExitAloneDoesNotOrder | internal/passage/model.go:83-91 | the domain functions admit an exit before the entry, and that history is refused |
| Operations.EntryExitValidIff | internal/passage/model.go:73-91 | for every entry and exit that BuildMovement admits in turn, the history of the two validates iff the exit is no earlier than the entry |
| Operations.CancelValidIff | internal/passage/model.go:93-101 | the history of a cancellation that Cancel admits validates iff it is at most fifteen minutes before the slot |
| Operations.EarlyCancelRefused | internal/passage/operations.go:53-56 | a slot at two hours cancelled at one: admitted, and its history refused |
| Operations.ClipActive | internal/passage/operations.go:84-102 | gathers the clipped window of every live overlapping reservation of the chamber and nothing else |
| Operations.ChamberUtilization | internal/passage/operations.go:80-112 | succeeds iff the inputs are well formed; the exact fraction of the window's ticks that some live reservation covers, within [0,1] |
| Operations.OccupiedIsBusy | internal/passage/operations.go:107-110 | the summed length of the merged windows counts the busy ticks |
| Operations.DurationCountsTicks | internal/passage/operations.go:107-110 | separated windows last as long as the number of ticks they cover |
| Schedule.MidnightNextDay | internal/passage/schedule.go:55-57 | midnight k days later is k days after midnight, at any fixed offset |
| Schedule.MidnightIsLocal | internal/passage/schedule.go:55-57 | midnight is the one instant at or before the given one, less than a day before it, whose local time is a whole number of days |
| Schedule.AvailableWindows | internal/passage/schedule.go:60-87 | the maximal stretches of the day's operating hours that keep the buffer from every live reservation and miss maintenance, each between the opening and closing time of one local day in plain offset arithmetic; the exact success condition |
| Schedule.FirstFit | internal/passage/schedule.go:106-115 | the least start at or after the earliest that fits into one of the free windows, or none if there is none |
| Schedule.FirstDayWins | internal/passage/schedule.go:104-119 | the first fit on the first day that has one is the earliest start of all 31 days |
| Schedule.SearchDay | internal/passage/schedule.go:104-116 | one round of the day loop finds the earliest start of the horizon, rules the day out, or fails exactly on unacceptable input |
| Schedule.SearchChamber | internal/passage/schedule.go:104-119 | appends the earliest start of the days searched, or nothing if there is none: all 31 days, or the first only when the last candidate carries the same chamber id |
| Schedule.RankSlotCandidates | internal/passage/schedule.go:89-130 | for any chambers the sorted candidates of the searches in turn, every one within the operating hours of its local day and in order of start, end and chamber, with the exact success condition; for distinct ids one candidate for each fitting chamber that has a start, at its earliest start of the 31 days |
| Schedule.DistinctFound | internal/passage/schedule.go:99-120 | chambers of distinct ids do not disturb each other: each is searched over the whole horizon, and the search succeeds iff it does for each |
| Schedule.EarliestExists | internal/passage/schedule.go:104-119 | a chamber that has a start at all within the days searched has an earliest one |
| Schedule.EarliestIsPlain | internal/passage/schedule.go:89-121 | the earliest start of a chamber in plain terms: the least instant from the earliest on whose slot lies in the local opening hours of one of 31 days, keeps the buffer from every live reservation and misses maintenance |
| Schedule.AfternoonInTheWest | internal/passage/schedule.go:55-57 | in a zone five hours behind, an empty chamber open from six to twenty-two starts a slot asked for at eight in the evening UTC at that instant |
| Schedule.SearchAddsNothingIff | internal/passage/schedule.go:104-119 | a chamber gets no candidate iff the days searched have no start for it |
| Schedule.SearchCompleteIff | internal/passage/schedule.go:117-119 | a chamber gets its earliest start of the whole horizon iff the candidate found last carries another id or the start is on the first day |
| Schedule.RepeatedIdMissesStart | internal/passage/schedule.go:117-119 | two chambers of one id for which the second's start is missed |
| Schedule.RankingUnique | internal/passage/schedule.go:122-128 | candidates that tie are equal, so the unstable sort determines the ranking for any chambers |
| Schedule.ReserveAcceptsCandidate | internal/passage/schedule.go:112 | Reserve accepts every proposed candidate against the same reservations |
| AuditChain.Verify | internal/audit/chain.go:43-54 | accepts iff some order of the events is a chain; the verdict is a function of the multiset |
| AuditChain.LastHashDeterminesChain | internal/audit/chain.go:56-69 | under a collision-free hash, chains with the same last hash are equal |
| AuditChain.SameHeadSameEvents | internal/audit/chain.go:43-54 | verified lists whose highest-sequence events have the same hash hold the same events field for field |
| AuditChain.AppendTells | internal/audit/chain.go:29-41 | which blank field is invalid, what is a conflict with the predecessor, and every field and the hash of the linked event |
| AuditChain.AppendAudit | internal/store/workflow.go:246-262 | the statement sequence of an append computes the table step, refusals by the primary key and both unique indexes included |
| AuditChain.LatestIsLast | internal/store/workflow.go:251 | the row with the highest sequence is the last of the tenant's chain |
| AuditChain.SequenceIsNew | internal/audit/chain.go:37 | the sequence of a new event is above all of its tenant, so that the unique index on tenant and sequence never refuses it |
| AuditChain.AppendRowKeepsTenant | internal/audit/chain.go:29-41 | an append to any tenant keeps every tenant's rows chained, chronological and complete |
| AuditChain.EveryTenantLogVerifies | internal/audit/chain.go:29-54 | after any interleaved run of appends each tenant's rows verify in any order, are numbered 1..n and never go back in time |
| Manifests.BuildManifestOf | internal/clearance/model.go:77-96 | the items sorted by container with their hash, or the first complaint about them |
| Manifests.BuildTells | internal/clearance/model.go:77-96 | a manifest can be built iff every item is in order and no container comes twice; it then holds the items given, each once, strictly by container |
| Manifests.ComplaintTells | internal/clearance/model.go:81-91 | the refusal is that of the first item that is not fine: invalid if a field is blank or not positive, a conflict if its container came before |
| Manifests.SortedIsListing | internal/clearance/model.go:92 | with distinct containers every sorted permutation is the one listing of the catalogue |
| Manifests.BuildIgnoresOrder | internal/clearance/manifest.go:96-100 | the outcome of a build does not depend on the map iteration order |
| Manifests.CompareManifestsOf | internal/clearance/manifest.go:103-143 | one change per differing container in ascending order |
| Manifests.AmendManifestOf | internal/clearance/manifest.go:60-101 | the patch step by step, with every refusal, rebuilt from whatever order the map yields |
| Manifests.DiffEmptyIffEqual | internal/clearance/manifest.go:103-143 | for built manifests of one voyage the diff is empty iff the items are equal |
| Manifests.PatchUndoesDiff | internal/clearance/manifest.go:60-143 | amending by the diff gives the other manifest, hash included, when the changed containers are in normal form |
| Manifests.PatchNeedsNormalForm | internal/clearance/manifest.go:70 | a changed container that is not in normal form spoils the patch |
| Manifests.PatchUndoesDiffExactly | internal/clearance/manifest.go:60-143 | the two together: patch undoes diff iff the items differ and the changed containers are in normal form |
| Manifests.LowerCaseSpoilsPatch | internal/clearance/manifest.go:70 | two built manifests of one voyage, one container renamed to lower case: the diff does not patch the first into the second |
| Clearance.ReleaseVoyage | internal/clearance/model.go:139-157 | the loop decides the order-free release rule: some inspection, and all of this voyage and passed |
| LifeCycles.ReservationOperations | internal/passage/model.go:63-101 | confirm, enter, exit and cancel succeed from exactly their statuses, in exactly their time, on exactly the version expected, and change only status and version |
| LifeCycles.TransitionIff | internal/clearance/model.go:159-167 | a voyage goes exactly along the edges of the status graph, under the next version, and keeps who and where it is |
| LifeCycles.CloseIff | internal/clearance/model.go:122-137 | an open inspection of the version expected closes with a finding, no earlier than it opened; every field of the closed one |
| Timelines.ReconstructTimeline | internal/clearance/timeline.go:61-85 | finds the one timeline that consists of the given events, in whatever order they come, or reports that there is none; there is one iff the events, in some order, start with a draft and follow the edges of the status graph one by one |
| Timelines.GenuineIff | internal/clearance/timeline.go:39-85 | a timeline is a replay iff its events start with a draft, are numbered 1..n, never go back in time, are each named and signed, and go along the edges of the status graph |
| Timelines.OrdinaryTimeline | internal/clearance/model.go:159-167 | the ordinary voyage from draft over inspection and passage to completed reconstructs |
| Timelines.AppendTells | internal/clearance/timeline.go:39-59 | which refusal each unsuitable event meets, and the timeline after a suitable one |
| Timelines.ReplayShape | internal/clearance/timeline.go:39-59 | a replayed timeline keeps its events, numbers them 1..n, never goes back in time and only climbs the status graph |
| Timelines.GrownIsGenuine | internal/clearance/timeline.go:39-59 | every append keeps a timeline the replay of its own events |
| Timelines.ReconstructionInverts | internal/clearance/timeline.go:28-85 | a timeline grown from a draft voyage is the only one with its events, so reconstruction gives it back from any permutation |
| Timelines.AtMostSevenEvents | internal/clearance/model.go:159-167 | no status occurs twice and there are at most seven events |
| Timelines.TimelineDuration | internal/clearance/timeline.go:87-99 | the time from the first starting milestone to the first later stopping one, if both exist; never negative on a replayed timeline |
| Commits.DeclareCommits | internal/store/workflow.go:29-61 | a committed declaration inserts a new voyage at version 2 with a built manifest of its hash, one audit event and one job, and changes nothing else |
| Commits.OpenCommits | internal/store/workflow.go:72-96 | a committed opening holds a declared voyage, inserts an open inspection of it and one audit event |
| Commits.PassCommits | internal/store/workflow.go:98-138 | a committed release closes an open inspection when all others of the voyage have passed, clears the voyage, and adds one audit event and one job |
| Commits.ReserveCommits | internal/store/workflow.go:140-181 | a committed reservation schedules a cleared voyage in a slot clear of the queried rows and adds one audit event |
| Commits.MoveCommits | internal/store/passage_operations.go:15-43 | a committed movement advances the reservation along its life cycle, records the movement and adds one audit event |
| Commits.StepCommitsOrNothing | internal/store/database.go:81-91 | every command commits in one of the five ways or leaves all tables as they were |
| Commits.CommitAppends | internal/store/workflow.go:246-262 | every commit appends exactly one audit event |
| Writing.DeclareWrites | internal/store/workflow.go:29-61 | the inserted voyage carries the request's trimmed IMO and name, ports, arrival and instant, its manifest the request's items, the event the user, action, object and hash, the job the voyage; nothing else changes |
| Writing.OpenWrites | internal/store/workflow.go:72-96 | the inspection carries its officer, kind and opening time, the voyage is held, and the event names the officer, the voyage and the kind; nothing else changes |
| Writing.PassWrites | internal/store/workflow.go:98-138 | the inspection carries the trimmed finding and its closing time, the voyage is cleared then, the event names the officer and the inspection, the job the voyage; nothing else changes |
| Writing.ReserveWrites | internal/store/workflow.go:140-181 | the reservation carries the request's chamber, slot, length, beam and draft, the voyage is scheduled, and the event names the dispatcher and the chamber; nothing else changes |
| Writing.MoveWrites | internal/store/passage_operations.go:15-43 | the reservation takes the status, the movement and the event carry operator, time and note; nothing else changes |
| Writing.StepWrites | internal/store/database.go:81-91 | every command writes in full what it asked for, or nothing |
| Invariants.CommitKeepsVoyages | internal/store/workflow.go:72-181 | every commit keeps the rule that a voyage's status fixes its version, inspections and reservations |
| Invariants.CommitKeepsManifests | internal/store/workflow.go:46-52 | every stored voyage keeps a built manifest of its own with the hash it carries |
| PassageInvariants.CollidingRowsSuffice | internal/store/workflow.go:229-244 | Reserve answers the same on the queried rows as on all reservations of all tenants |
| PassageInvariants.MoveAdvances | internal/passage/operations.go:19-40 | a movement keeps the tie between a reservation's status, version and recorded movements with their times |
| PassageInvariants.EntryAudited | internal/audit/chain.go:33-35 | an exit that commits is no earlier than the recorded entry, by the tenant's audit chain |
| PassageInvariants.CommitKeepsHistories | internal/store/passage_operations.go:20-41 | every commit keeps all recorded histories and their audit times |
| Ledger.CommitBalances | internal/store/workflow.go:29-181 | every commit keeps both ledgers of every tenant balanced |
| ReachableStates.StepsStayReachable | internal/store/database.go:81-91 | the empty tables are reachable and every command leads from reachable to reachable tables |
| ReachableStates.StatusFixesEverything | internal/store/workflow.go:72-181 | in every reachable state declared, held, cleared and scheduled mean versions 2 to 5, no, one open, one passed, one passed inspection, and 0, 0, 0, 1 reservations; no other status occurs |
| ReachableStates.EligibleIffCleared | internal/service/eligibility.go:41-65 | in every reachable state a voyage meets the eligibility rule iff it is cleared |
| ReachableStates.NeverDoubleBooked | internal/store/workflow.go:140-181 | in every reachable state no two live reservations of a chamber overlap, across tenants |
| ReachableStates.RecordedHistoriesValidate | internal/passage/operations.go:42-78 | in every reachable state the recorded movements of a reservation validate, for a cancelled one iff it was cancelled at most fifteen minutes early |
| ReachableStates.AuditTrailVerifies | internal/store/query.go:122-144 | in every reachable state each tenant's audit events verify in whatever order they are read |
| ReachableStates.VersionsCountAudits | internal/store/workflow.go:29-181 | audit events = last sequence = version steps of voyages and reservations, and jobs = declarations + clearances, for every tenant in every reachable state |
| ReachableStates.MovementAlwaysFits | internal/store/passage_operations.go:20-41 | in every reachable state the unique index never refuses a movement that the status allows |
| Provenance.VoyageOrigin | internal/store/workflow.go:29-61 | every stored voyage and its manifest carry the fields of the one command of the run that declared it, from that command on |
| Provenance.InspectionOrigin | internal/store/workflow.go:72-96 | every stored inspection carries the officer, kind and time of the one command that opened it, and is otherwise blank while open |
| Provenance.ClosureOrigin | internal/store/workflow.go:98-138 | a closed inspection carries finding and time of the one command that passed it, which cleared its voyage then |
| Provenance.ReservationOrigin | internal/store/workflow.go:140-181 | every stored reservation carries the voyage, chamber, slot and vessel size of the one command that reserved it |
| Provenance.MovementOrigin | internal/store/passage_operations.go:20-38 | every recorded movement is the one a command asked for, by its user, on a reservation of his tenant |
| Provenance.JobOrigin | internal/store/workflow.go:56-134 | every job is that of one declaration or release, field by field |
| Provenance.EventOrigin | internal/store/workflow.go:53-178 | every audit event names the user who issued the command that made its change, with action, object, details and time of that command, and came with that change |
| Provenance.ChangeIsLogged | internal/store/workflow.go:246-262 | every command that changed anything has the event that tells of it, next to those before it |
| Admission.DeclareSucceedsIff | internal/store/workflow.go:29-61 | in every reachable state a declaration goes through iff the role, the voyage fields, the manifest, the unused id and the order of the instant allow it; never a database error |
| Admission.OpenSucceedsIff | internal/store/workflow.go:72-96 | an inspection opens iff the role, its fields, a declared voyage of the tenant, an unused id and the order of the instant allow it |
| Admission.PassSucceedsIff | internal/store/workflow.go:98-138 | passing an open inspection always releases its voyage: role, tenant, finding and instant alone decide |
| Admission.ReserveSucceedsIff | internal/store/workflow.go:140-181 | a reservation goes through iff the role, a cleared voyage of the tenant, Reserve against all reservations of all tenants, an unused id and the order of the instant allow it |
| Admission.MoveSucceedsIff | internal/store/passage_operations.go:15-43 | a movement goes through iff the role, a reservation of the tenant, its life cycle and the order of the instant allow it |
| Admission.AppendIff | internal/store/workflow.go:246-262 | the audit append of a change that has not happened yet is refused only if it is out of order; its id, its hash and its sequence cannot clash |
| Admission.AuditIDUnique | internal/store/workflow.go:53 | the generated audit ids of different changes differ, whatever characters the given ids contain |
| Admission.AuditTrailIsExact | internal/store/workflow.go:246-262 | in every reachable state a change is on record, in exactly one event, iff it happened, and no event is about anything else |
| Admission.OutboxIsExact | internal/store/workflow.go:56-58 | in every reachable state there is a job for exactly each declaration and each release |
| Admission.CommitSetsClock | internal/audit/chain.go:33-35 | after a commit exactly the instants from its own on are in order for its tenant |
| Admission.EarlyCancelCommits | internal/passage/model.go:93-101 | from any reachable state an in-order cancellation more than fifteen minutes early commits and leaves a history that validation refuses |
| Answers.DeclareAnswers | internal/store/workflow.go:29-61 | in every reachable state, the refusal of every declaration: role, fields, items, hash, id in use, user and instant, in this order |
| Answers.OpenAnswers | internal/store/workflow.go:72-96 | likewise for the opening of an inspection |
| Answers.PassAnswers | internal/store/workflow.go:98-138 | likewise for passing an inspection |
| Answers.ReserveAnswers | internal/store/workflow.go:140-181 | likewise for a reservation, the slot rules written out against all reservations of all tenants |
| Answers.MoveAnswers | internal/store/passage_operations.go:15-43 | likewise for a movement, the times of the life cycle written out |
| Answers.InOrderIff | internal/audit/chain.go:33-35 | an instant is in order iff no audit event of the tenant is later |
| Scenarios.RefusedHistoryIsReachable | internal/passage/operations.go:54-56 | there is a reachable state with a cancelled reservation whose recorded history is refused |
| Arrivals.DeclarationSetsClock | internal/store/service_adapter.go:17-23 | after a declaration through the service exactly the instants from twelve hours before its arrival on are in order |
| Arrivals.InspectionAfterDeclareIff | internal/store/service_adapter.go:17-27 | a well-formed inspection of the voyage just declared opens iff it is no earlier than twelve hours before the arrival |
| Arrivals.NextDeclarationIff | internal/store/service_adapter.go:17-23 | another well-formed declaration of the tenant goes through iff its arrival is no earlier than the one before |
| Scenarios.EarlyInspectionRefused | internal/store/service_adapter.go:21 | a reachable state in which a voyage arriving at twenty hours is declared and an inspection at seven is refused |
| Batches.BatchNeverRefusedIff | internal/service/batch.go:46-82 | commands that would each go through alone are declared without a refusal under every schedule iff arrivals never go back for one worker, or are all equal for several |
| Batches.SuitedSuffices | internal/service/batch.go:51-65 | with suited arrivals every command that has not finished stays acceptable under every schedule |
| Authorization.PermissionsMatchStore | internal/auth/authorization.go:22-63 | for an account in order the permissions that the service checks are the roles that the transactions check |
| Authorization.AuthorizeIff | internal/auth/authorization.go:47-63 | only an enabled, named account may act, only for its own tenant, and only as the table by permission says |
| Store.Database.Rollback | internal/store/database.go:81-91 | restores the tables from before the transaction |
| Store.Database.SaveVoyageTx | internal/store/workflow.go:192-201 | the version-guarded update, or a conflict |
| Store.Database.AppendAuditTx | internal/store/workflow.go:246-262 | appends the linked event of the tenant, or the error |
| Store.Database.InsertJobTx | internal/store/workflow.go:56-58 | adds a job under a new id, or a database error |
| Store.Database.InsertMovementTx | internal/store/passage_operations.go:36-38 | adds a movement whose reservation and status are not recorded yet, or a database error |
| Store.Database.ListInspectionsTx | internal/store/workflow.go:212-227 | the inspections of the voyage, each once, by opening time and id |
| Store.Database.ListReservationsTx | internal/store/workflow.go:229-244 | exactly the live reservations of the chamber that collide with the slot |
| Store.Database.DeclareVoyage | internal/store/workflow.go:29-61 | takes the step of the workflow and answers with its outcome: the stored voyage with every field of the request, its event and job written out; the exact refusal on reachable tables; nothing stays behind on an error |
| Store.Database.OpenInspection | internal/store/workflow.go:72-96 | likewise, with inspection, held voyage and event |
| Store.Database.PassInspectionAndRelease | internal/store/workflow.go:98-138 | likewise, with closed inspection, cleared voyage, event and job |
| Store.Database.ReservePassage | internal/store/workflow.go:140-181 | likewise, with reservation, scheduled voyage and event |
| Store.Database.MovePassage | internal/store/passage_operations.go:15-43 | likewise, with moved reservation, movement and event |
| Store.Database.ListReservations | internal/store/query.go:105-120 | the reservations of the tenant's voyage, each once, by start and id |
| Store.Database.PassageEligibility | internal/service/eligibility.go:22-67 | who is refused; on reachable tables the whole report follows from the voyage's status, and says eligible iff the voyage is cleared |
| EligibilityReports.ReportInReachableState | internal/service/eligibility.go:41-66 | in every reachable state the complaints, the number of active reservations and the blocking one are fixed by the voyage's status, its one inspection and its one reservation |
| Eligibility.CheckEligibility | internal/service/eligibility.go:41-66 | eligible iff cleared, inspected, all passed and nothing active; the sorted complaints, the number of active reservations and the first of them |
| Eligibility.CountActive | internal/service/eligibility.go:53-60 | the number of active reservations and the id of the first |
| Eligibility.NoOutstanding | internal/service/eligibility.go:42-65 | there is no complaint iff the eligibility rule is met |
| Eligibility.OutstandingTells | internal/service/eligibility.go:41-65 | the complaints in words: exactly those on the status, a lacking inspection, each inspection that has not passed, and an active reservation |
| Idempotency.IdempotencyTable.BeginIdempotent | internal/store/idempotency.go:13-50 | written out for every row found: another request clashes, a completed one replays its body, a failed one or one stale for the given time starts again, any other is busy with the row unchanged, and a missing or expired row starts afresh; all other rows unchanged |
| Idempotency.IdempotencyTable.CompleteIdempotent | internal/store/idempotency.go:52-64 | the version-guarded completion, or the error and no change; all other rows unchanged |
| Idempotency.IdempotencyTable.FailIdempotent | internal/store/idempotency.go:66-78 | the version-guarded failure, or the error and no change; all other rows unchanged |
| Idempotency.NewRecordIff | internal/idempotency/record.go:51-64 | when a record can be made, and all its fields |
| Idempotency.DecideIff | internal/idempotency/record.go:66-86 | when a decision is to start, to clash or to replay; a live record that it starts always restarts |
| IdempotencyProtocol.StartsAreDistinct | internal/store/idempotency.go:13-50 | over every interleaving, Start decisions hand out pairwise distinct versions |
| IdempotencyProtocol.OnlyCurrentHolderSettles | internal/store/idempotency.go:52-78 | only the one client that holds the row's version changes it by completing or failing |
| IdempotencyProtocol.OneCompletionPerSpan | internal/idempotency/record.go:66-86 | at most one completion is stored between two resets of the record |
| IdempotencyProtocol.AnswersAgree | internal/service/coordinator.go:64-102 | all successful replies of a span, started or replayed, carry one response to one request |
| IdempotencyProtocol.CompletedIsFinal | internal/idempotency/record.go:117-120 | a completed row does not change before its next reset |
| IdempotencyProtocol.TakesOverIff | internal/idempotency/record.go:66-86 | a call takes a row over iff the row's time is up, or it is of the same request and failed or stale |
| IdempotencyProtocol.FreshHolderKeepsRecord | internal/idempotency/record.go:76-80 | whatever rivals do before the stale time of their calls has passed and before the row expires, nobody takes the record from its holder |
| IdempotencyProtocol.StarterHoldsRecord | internal/store/idempotency.go:13-50 | a client told to start holds the very record that the row then is |
| Coordinator.SameVersionSameRow | internal/store/idempotency.go:29-45 | whatever calls come between, a row that shows the same version again is unchanged, and versions never fall |
| Coordinator.Perform | internal/store/idempotency.go:13-78 | any run of repository calls acts on each row as the one-row steps in turn |
| Coordinator.DeclareOnce | internal/service/coordinator.go:60-103 | reply, own row and all other rows after one keyed call, for any calls of rivals while its workflow runs; who is told to start, and reply and row in each case, written out |
| Coordinator.Declare | internal/service/coordinator.go:35-103 | the refusals that touch nothing, the call without key, and the keyed call with its effect on every row, its reply and row written out |
| Coordinator.SettleOutcome | internal/service/coordinator.go:83-102 | reply and row after completing or failing the record, only a stored completion being answered with success; all other rows unchanged |
| Coordinator.ReplyIsStored | internal/service/coordinator.go:64-102 | a successful reply is the response the row then holds, completed, for this very request |
| Coordinator.SuccessMeansUndisturbed | internal/service/coordinator.go:94-101 | a started call succeeds only if no rival changed the row meanwhile |
| DeclareRefinement.RowFollowsCalls | internal/service/coordinator.go:64-102 | the row after any protocol run is the row after the repository calls that run makes |
| DeclareRefinement.DeclareRefinesProtocol | internal/service/coordinator.go:64-102 | a call told to start leaves the row of the protocol's begin, rivals and last step, and replies exactly when the protocol records an answer |
| DeclareRefinement.DeclareWithoutStart | internal/service/coordinator.go:68-77 | a call not told to start changes no row, and answers exactly the replay the protocol records |
| Declarations.RunKeepsInv | internal/service/coordinator.go:64-102 | every interleaving of clients and other commands keeps requests, insertions and completions in step |
| Declarations.OneVoyagePerSpan | internal/service/coordinator.go:83 | when the fingerprints tell the commands asked apart, the clients of a span insert at most one voyage between them |
| Declarations.InsertionsTell | internal/store/service_adapter.go:17-23 | over every interleaving, each voyage inserted carries the fields of its client's command, declared twelve hours before the arrival, with the hash of a manifest of the command's items |
| Declarations.RepliesTellStoredVoyage | internal/service/coordinator.go:69-102 | every successful reply is the text of the voyage inserted for this request in its span as the command says, which is still stored as declared |
| Declarations.RestartMeetsUsedId | internal/service/coordinator.go:83-90 | once a voyage is inserted in a span, the workflow of any other client of the span fails and changes nothing |
| Declarations.LostForGood | internal/service/coordinator.go:64-102 | a span with its voyage, no completion and nobody who could store one stays so in every continuation |
| Declarations.SpanSucceedsIff | internal/service/coordinator.go:83-102 | a span that has its voyage gets a successful reply in some continuation iff it has one already or a client with the voyage still holds the stored record |
| LostReplies.CrashLosesSpan | internal/service/coordinator.go:83-102 | a concrete run of a start, a commit, a crash and a rival's start after which no continuation replies with success |
| RetryPolicies.BaseMonotone | internal/worker/policy.go:47-57 | the delay before jitter grows with the attempt, between the initial and the maximum backoff |
| RetryPolicies.BaseDoubles | internal/worker/policy.go:47-57 | the first delay is the initial backoff, each further one up to the 31st twice the one before unless capped, and then they stay |
| RetryPolicies.EffectiveTells | internal/worker/policy.go:26-50 | which policies are used as given, and the one used instead of the others |
| RetryPolicies.WorkerBackoff | internal/worker/policy.go:43-67 | with the worker's entropy the jitter cancels: delays double up to the cap and never shrink |
| OutboxResults.ClaimsAreAccounted | internal/worker/outbox.go:64-98 | in every run claims = attempts + recoveries + one if running, and publish calls never exceed claims |
| OutboxResults.PublishesNeverExceedClaims | internal/worker/outbox.go:64-81 | publish calls never exceed claims for any job ever enqueued, deleted ones included |
| OutboxResults.AttemptsAreBounded | internal/worker/outbox.go:81-97 | attempts stay within the maximum, unfinished jobs have attempts left, and running means locked by somebody |
| OutboxResults.DeliveredWasPublished | internal/worker/outbox.go:81-98 | a delivered job was published successfully, under its last claim, by the worker that settled it |
| OutboxResults.SupersededSettleIsIdle | internal/worker/outbox.go:95-97 | the settle of a worker whose claim was recovered or taken over changes no job |
| OutboxResults.FinalStatesStay | internal/worker/recovery.go:37-49 | delivered and failed jobs stay as they are, except that delivered ones may be deleted |
| OutboxResults.RecoveryAlwaysRetries | internal/worker/recovery.go:30 | under one policy a recovered job always goes back to retry, unlocked |
| OutboxResults.RunKeepsInv | internal/worker/outbox.go:41-100 | every run of enqueues, claims, publishes, settles, recoveries, deletions and crashes keeps the job, worker and publish invariants |
| OutboxRows.SettleWrites | internal/worker/outbox.go:83-97 | a settle writes the row of the job at the head iff the worker still holds its lock: delivered, or retry or failed by attempts, due again at the batch instant plus the doubled and capped backoff, with the publish error and one attempt more; no other row |
| OutboxRows.ClaimWrites | internal/worker/outbox.go:64 | a claim takes only pending or retried jobs that are due, at most the limit, and locks exactly these for the worker at its instant |
| OutboxRows.RecoverWrites | internal/worker/recovery.go:30 | a recovery takes exactly the locks older than the lock timeout, and makes their jobs due at once without counting an attempt |
| OutboxRows.DeleteWrites | internal/worker/recovery.go:37-49 | a deletion removes delivered jobs not touched since the instant, at most the limit |
| OutboxRows.NeverClaimedEarly | internal/worker/outbox.go:64 | over every continuation, a job that waits keeps its row and its claim count as long as all claims of it come before it is due |
| OutboxRows.FailedPublishWaits | internal/worker/outbox.go:91-97 | a job whose publish failed is not claimed again before the batch instant plus the backoff for its attempts |
| OutboxRows.YoungLocksHold | internal/worker/recovery.go:22-30 | no lock younger than the lock timeout is ever taken from its holder |
| OutboxWorker.Outbox.PublishJob | internal/worker/outbox.go:82-94 | whatever rivals do in between, the worker keeps its place in the batch with the outcome of the publish call, or gives up after a failed publish because the job is no longer locked by it; rivals that keep apart leave the rows of the batch as they are |
| OutboxWorker.Outbox.SettleHead | internal/worker/outbox.go:95-97 | the row of the job is written out if the worker holds its lock, and no other row changes; afterwards neither this job nor an earlier one of the batch is locked by the worker |
| OutboxWorker.Outbox.RunOnce | internal/worker/outbox.go:41-100 | a finished pass leaves no job of the batch locked by the worker; an early stop follows a failed publish and leaves that job and those before it unlocked by the worker, the later ones possibly until recovery; when rivals keep apart the pass finishes and every row of the batch is what the outcome of its publish call makes of it |
| Pagination.QueryRows | internal/store/query.go:53-77 | the first n matching rows beyond the cursor in key order |
| Pagination.TrimPage | internal/domain/pagination.go:80-84 | one row beyond the limit is there iff the trimmed page leaves out rows |
| Pagination.BuildAnswers | internal/domain/pagination.go:76-93 | the page built from limit + 1 rows is the right page, says correctly whether there is more, and carries the encoded last key |
| Pagination.ListRows | internal/store/audit_query.go:13-82 | a listing answers with the right page for its request: at most the rows asked for, fifty by default, in order of time and id after the cursor, with what is left out announced; it refuses exactly bad requests and succeeds when all keys can be encoded |
| Pagination.NormalizeTells | internal/domain/pagination.go:32-46 | which requests are bad, and limit and start of the others |
| Pagination.FetchesWalk | internal/store/query.go:53-81 | calls chained by the cursor text form a walk over the keys |
| Pagination.WalkIsOrdered | internal/store/query.go:53-61 | a walk returns rows in strict key order while the table changes |
| Pagination.WalkMissesNothing | internal/store/query.go:53-61 | if some row has a key at every fetch, a row with that key is returned, whatever else changes in it or in the table |
| Pagination.WalkReturnsEachRowOnce | internal/store/query.go:53-81 | a full walk returns a row for each key that is present throughout, exactly once and in key order |
| Pagination.UnchangedRowOnce | internal/store/query.go:53-81 | a row that does not change throughout is itself returned exactly once |
| Pagination.FixedTableWalk | internal/store/query.go:53-81 | on a fixed table the pages concatenate to all rows in key order in max(1, ceil(n / limit)) fetches |
| Pagination.FetchingEnds | internal/domain/pagination.go:80-91 | on a fixed table the pages that promise more are full and leave rows over, so that fetching ends |
| WorkerPool.RunKeepsInv | internal/notification/dispatcher.go:38-72 | under every schedule each index is untouched, in one worker's hands, or called for once with the outcome in its slot |
| WorkerPool.ResultsAreComplete | internal/notification/dispatcher.go:60-73 | on return a prefix of the slots holds the outcome of the one call for each index, the rest say never started; all of them without cancellation |
| WorkerPool.ConcurrencyBounded | internal/notification/dispatcher.go:38-58 | no more calls run at once than the pool has workers |
| WorkerPool.LimitsHold | internal/service/batch.go:30-35 | four workers unless asked, else as many as asked up to the limit; never more calls at once than 32 notifications or 16 declarations, nor than asked for |
| WorkerPool.NeverStuck | internal/notification/dispatcher.go:38-74 | from whatever any schedule leads to, the pool can return, and unless it was cancelled with the outcome of every index |
| WorkerPool.CheckBatch | internal/service/batch.go:27-46 | accepts exactly 1 to 100 nonempty pairwise distinct voyage ids |

## Left out

- Int64 widths: instants, durations and versions are unbounded; the saturation of Go's time subtraction and the nanosecond range are not modelled.
- Daylight-saving days, and the microsecond precision at which the database stores instants that were hashed at clock precision.
- Floating point: dimensions, utilization and backoff are exact; rounding is not modelled.
- Isolation internals, advisory locks, row locks and connection failures; foreign keys; the exclusion constraint on reservations, which by NeverDoubleBooked never refuses a row; the email and token indexes.
- Store.Database: outbox payloads are kept as fields, not as JSON text; the rows that block a reservation come in an unspecified order, as the SQL leaves it open.
- Coordinator.Declare: the fingerprint, the encoded response and the workflow's outcome are inputs here; Declarations runs the workflow itself. Errors of encoding are left out.
- Batches.BatchNeverRefusedIff: the commands carry no idempotency keys, and the clients' permission checks are left out.
- Declarations.RunKeepsInv: one tenant and key are followed, and the clients' permission checks are left out; other keys' declarations are among the other commands.
- IdempotencyProtocol.AnswersAgree: the protocol follows one tenant and key; different keys do not interact, as the table's contracts show.
- OutboxResults.ClaimsAreAccounted: a claim may pick any eligible rows up to the limit, which covers ordering and skipping of locked rows; worker ids are nonempty and distinct among running workers; a job id is enqueued at most once, as its voyage is; one retry policy is fixed for a run.
- RetryPolicies.WorkerBackoff: jitter for other entropies than the worker's one half.
- WorkerPool.ResultsAreComplete: what a call does (sending, or declaring a voyage) is any value; the counting helpers on results are left out.
- Pagination.ListRows: the filter clauses are an arbitrary predicate on rows; filter validation and the tenant check are left out.
- Manifest totals and risk bands, standby queue and its promotion, sessions, compliance rules, notification routing, in-memory filters: finite tables and simple filters.
- Audit detail sanitising and redaction: no settled property, the code treats top-level keys only.
- The customs client and its retries, HTTP handlers, configuration, migrations and the migration runner, logging.
