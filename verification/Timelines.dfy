/** Voyage timelines: growth, reconstruction from unordered events, and milestone
    durations (internal/clearance/timeline.go). */
module Timelines {
  import opened Core
  import opened Clearance

  datatype VoyageEvent = VoyageEvent(
    id: string,
    voyageID: string,
    status: VoyageStatus,
    occurredAt: Instant,
    actorID: string,
    reason: string,
    version: int)

  datatype Timeline = Timeline(voyageID: string, events: seq<VoyageEvent>, current: VoyageStatus, version: int)

  function NewTimeline(voyage: Voyage, actorID: string, at: Instant): Result<Timeline> {
    if voyage.id == "" || actorID == "" || at == ZERO_INSTANT || voyage.version < 1 then Err(Invalid)
    else
      var event := VoyageEvent(voyage.id + "-1", voyage.id, voyage.status, at, actorID, "voyage created", 1);
      Ok(Timeline(voyage.id, [event], voyage.status, 1))
  }

  function AppendTimeline(t: Timeline, event: VoyageEvent, expectedVersion: int): Result<Timeline> {
    if t.voyageID == "" || t.version != expectedVersion || event.voyageID != t.voyageID || event.id == ""
       || event.actorID == "" || event.occurredAt == ZERO_INSTANT
    then Err(Conflict)
    else if t.events == [] then Err(BadState)
    else if event.occurredAt < t.events[|t.events| - 1].occurredAt || event.version != t.version + 1 then Err(Conflict)
    else if !Allowed(t.current, event.status) then Err(BadState)
    else Ok(t.(events := t.events + [event], current := event.status, version := t.version + 1))
  }

  lemma AppendTells(t: Timeline, event: VoyageEvent, expectedVersion: int)
    ensures
      var r := AppendTimeline(t, event, expectedVersion);
      if || t.voyageID == "" || t.version != expectedVersion || event.voyageID != t.voyageID || event.id == ""
         || event.actorID == "" || event.occurredAt == 0
      then r == Err(Conflict)
      else if t.events == [] then r == Err(BadState)
      else if event.occurredAt < t.events[|t.events| - 1].occurredAt || event.version != t.version + 1 then r == Err(Conflict)
      else if (t.current, event.status) !in EDGES then r == Err(BadState)
      else r == Ok(Timeline(t.voyageID, t.events + [event], event.status, t.version + 1))
  {
    AllowedIsEdge(t.current, event.status);
  }

  lemma AppendComplaints(t: Timeline, event: VoyageEvent, expectedVersion: int)
    ensures var r := AppendTimeline(t, event, expectedVersion); r.Err? ==> r.error == Conflict || r.error == BadState
  {
  }

  /** The status graph. */
  const EDGES := {(Draft, Declared), (Draft, VoyageCancelled),
                  (Declared, Held), (Declared, Cleared), (Declared, VoyageCancelled),
                  (Held, Cleared), (Held, VoyageCancelled),
                  (Cleared, Scheduled), (Cleared, VoyageCancelled),
                  (Scheduled, InTransit), (Scheduled, VoyageCancelled),
                  (InTransit, Completed)}

  lemma AllowedIsEdge(from: VoyageStatus, to: VoyageStatus)
    ensures Allowed(from, to) <==> (from, to) in EDGES
  {
  }

  // ---- Reconstruction --------------------------------------------------------

  /** Replays events that are already in order. */
  function Replay(voyageID: string, ordered: seq<VoyageEvent>): Result<Timeline> {
    if voyageID == "" || ordered == [] then Err(Invalid)
    else if |ordered| == 1 then
      var first := ordered[0];
      if first.voyageID != voyageID || first.version != 1 || !first.status.Draft? then Err(Conflict)
      else Ok(Timeline(voyageID, [first], first.status, 1))
    else
      var t :- Replay(voyageID, ordered[..|ordered| - 1]);
      AppendTimeline(t, ordered[|ordered| - 1], t.version)
  }

  /** The timeline is the replay of its own events. */
  predicate Genuine(t: Timeline) { Replay(t.voyageID, t.events) == Ok(t) }

  predicate VersionNoLater(a: VoyageEvent, b: VoyageEvent) {
    if a.version == b.version then StringLeq(a.id, b.id) else a.version < b.version
  }

  /** Reconstruction finds the timeline that consists of the given events, if there is
      one, whatever order they come in and however the sort breaks ties. */
  method ReconstructTimeline(voyageID: string, events: seq<VoyageEvent>) returns (r: Result<Timeline>)
    ensures r.Err? && r.error == Invalid <==> voyageID == "" || events == []
    ensures r.Ok? ==> r.value.voyageID == voyageID && Genuine(r.value) && multiset(r.value.events) == multiset(events)
    ensures forall t :: Genuine(t) && t.voyageID == voyageID && multiset(t.events) == multiset(events) ==> r == Ok(t)
    ensures r.Ok? <==> exists s: seq<VoyageEvent> :: Consecutive(voyageID, s) && multiset(s) == multiset(events)
  {
    ReconstructsIff(voyageID, events);
    if voyageID == "" || |events| == 0 {
      return Err(Invalid);
    }
    VersionOrderIsPreorder();
    var ordered := Sort(VersionNoLater, events);
    AnyTimelineIsSorted(voyageID, ordered);
    assert ordered != [];
    r := ReplayOrdered(voyageID, ordered);
    if r.Ok? {
      ReplayShape(voyageID, ordered);
    } else {
      NoTimelineOf(voyageID, ordered);
    }
  }

  /** The loop over the sorted events. */
  method ReplayOrdered(voyageID: string, ordered: seq<VoyageEvent>) returns (r: Result<Timeline>)
    requires voyageID != "" && ordered != []
    ensures r.Ok? ==> r == Replay(voyageID, ordered)
    ensures r.Err? ==> Replay(voyageID, ordered).Err? && (r.error == Conflict || r.error == BadState)
  {
    var first := ordered[0];
    if first.voyageID != voyageID || first.version != 1 || !first.status.Draft? {
      assert ordered[..1] == [first];
      ReplayFails(voyageID, ordered, 1);
      return Err(Conflict);
    }
    var timeline := Timeline(voyageID, [first], first.status, 1);
    assert ordered[..1] == [first];
    for i := 1 to |ordered|
      invariant Replay(voyageID, ordered[..i]) == Ok(timeline)
    {
      assert ordered[..i + 1][..i] == ordered[..i];
      var updated := AppendTimeline(timeline, ordered[i], timeline.version);
      if updated.Err? {
        AppendComplaints(timeline, ordered[i], timeline.version);
        ReplayFails(voyageID, ordered, i + 1);
        return Err(updated.error);
      }
      timeline := updated.value;
    }
    assert ordered[..|ordered|] == ordered;
    return Ok(timeline);
  }

  lemma NoTimelineOf(voyageID: string, ordered: seq<VoyageEvent>)
    requires Replay(voyageID, ordered).Err?
    ensures forall t :: Genuine(t) && t.voyageID == voyageID ==> t.events != ordered
  {
  }

  lemma VersionOrderIsPreorder()
    ensures TotalPreorder(VersionNoLater)
  {
    StringLessIsStrictOrder();
  }

  lemma {:induction false} ReplayFails(voyageID: string, ordered: seq<VoyageEvent>, n: nat)
    requires 1 <= n <= |ordered| && Replay(voyageID, ordered[..n]).Err?
    ensures Replay(voyageID, ordered).Err?
  {
    if n == |ordered| {
      assert ordered[..n] == ordered;
    } else {
      assert ordered[..|ordered| - 1][..n] == ordered[..n];
      ReplayFails(voyageID, ordered[..|ordered| - 1], n);
    }
  }

  function StatusRank(s: VoyageStatus): nat {
    match s
    case Draft => 0
    case Declared => 1
    case Held => 2
    case Cleared => 3
    case Scheduled => 4
    case InTransit => 5
    case Completed => 6
    case VoyageCancelled => 6
  }

  /** A replayed timeline keeps its events, numbers them 1, 2, ..., never goes back in
      time, and only climbs the ranks of the status graph. */
  ghost predicate WellShaped(voyageID: string, t: Timeline) {
    && t.voyageID == voyageID && t.events != [] && t.version == |t.events|
    && t.current == t.events[|t.events| - 1].status
    && (forall i :: 0 <= i < |t.events| ==> t.events[i].version == i + 1)
    && (forall i, j :: 0 <= i < j < |t.events| ==> t.events[i].occurredAt <= t.events[j].occurredAt)
    && (forall i, j :: 0 <= i < j < |t.events| ==> StatusRank(t.events[i].status) < StatusRank(t.events[j].status))
  }

  lemma {:induction false} ReplayShape(voyageID: string, ordered: seq<VoyageEvent>)
    requires Replay(voyageID, ordered).Ok?
    ensures Replay(voyageID, ordered).value.events == ordered
    ensures WellShaped(voyageID, Replay(voyageID, ordered).value)
  {
    if |ordered| == 1 {
      assert ordered == [ordered[0]];
    } else {
      var front := ordered[..|ordered| - 1];
      ReplayShape(voyageID, front);
      AppendShape(voyageID, Replay(voyageID, front).value, ordered[|ordered| - 1]);
    }
  }

  lemma AppendShape(voyageID: string, t: Timeline, event: VoyageEvent)
    requires WellShaped(voyageID, t) && AppendTimeline(t, event, t.version).Ok?
    ensures WellShaped(voyageID, AppendTimeline(t, event, t.version).value)
  {
    var n := |t.events|;
    assert forall i :: 0 <= i < n ==> StatusRank(t.events[i].status) <= StatusRank(t.events[n - 1].status);
    assert StatusRank(t.current) < StatusRank(event.status);
  }

  lemma AnyTimelineIsSorted(voyageID: string, ordered: seq<VoyageEvent>)
    requires SortedBy(VersionNoLater, ordered)
    ensures forall t :: Genuine(t) && t.voyageID == voyageID && multiset(t.events) == multiset(ordered) ==> t.events == ordered
  {
    forall t | Genuine(t) && t.voyageID == voyageID && multiset(t.events) == multiset(ordered)
      ensures t.events == ordered
    {
      ReplayShape(voyageID, t.events);
      VersionsDecide(t);
      SortedPermutationUnique(VersionNoLater, t.events, ordered);
    }
  }

  lemma VersionsDecide(t: Timeline)
    requires WellShaped(t.voyageID, t)
    ensures SortedBy(VersionNoLater, t.events)
    ensures forall x, y :: x in t.events && y in t.events && VersionNoLater(x, y) && VersionNoLater(y, x) ==> x == y
  {
  }

  /** The events, written out, that make a timeline: a draft first, then each a known step
      of the status graph by somebody at a later version and no earlier time. */
  ghost predicate Consecutive(voyageID: string, events: seq<VoyageEvent>) {
    && voyageID != "" && events != []
    && events[0].status == Draft
    && (forall i :: 0 <= i < |events| ==> events[i].voyageID == voyageID && events[i].version == i + 1)
    && (forall i :: 1 <= i < |events| ==> Follows(events, i))
  }

  ghost predicate Follows(events: seq<VoyageEvent>, i: nat)
    requires 1 <= i < |events|
  {
    && events[i].id != "" && events[i].actorID != "" && events[i].occurredAt != 0
    && events[i - 1].occurredAt <= events[i].occurredAt && (events[i - 1].status, events[i].status) in EDGES
  }

  lemma {:induction false} ReplaysIff(voyageID: string, events: seq<VoyageEvent>)
    ensures Replay(voyageID, events).Ok? <==> Consecutive(voyageID, events)
    ensures Replay(voyageID, events).Ok? ==>
              Replay(voyageID, events).value == Timeline(voyageID, events, events[|events| - 1].status, |events|)
  {
    if |events| == 1 {
      assert events == [events[0]];
    } else if |events| > 1 {
      var front, event := events[..|events| - 1], events[|events| - 1];
      assert events == front + [event];
      ReplaysIff(voyageID, front);
      OneMoreEvent(voyageID, front, event);
      if Replay(voyageID, front).Ok? {
        AppendedFollows(voyageID, front, event);
      }
    }
  }

  lemma AppendedFollows(voyageID: string, front: seq<VoyageEvent>, event: VoyageEvent)
    requires voyageID != "" && front != []
    ensures
      var t := Timeline(voyageID, front, front[|front| - 1].status, |front|);
      var r := AppendTimeline(t, event, |front|);
      && (r.Ok? <==> event.voyageID == voyageID && event.version == |front| + 1 && Follows(front + [event], |front|))
      && (r.Ok? ==> r.value == Timeline(voyageID, front + [event], event.status, |front| + 1))
  {
    AppendTells(Timeline(voyageID, front, front[|front| - 1].status, |front|), event, |front|);
  }

  lemma OneMoreEvent(voyageID: string, front: seq<VoyageEvent>, event: VoyageEvent)
    requires front != []
    ensures Consecutive(voyageID, front + [event]) <==>
              && Consecutive(voyageID, front)
              && event.voyageID == voyageID && event.version == |front| + 1 && Follows(front + [event], |front|)
  {
    var events := front + [event];
    assert forall i :: 0 <= i < |front| ==> events[i] == front[i];
    assert events[|front|] == event;
    forall i | 1 <= i < |front|
      ensures Follows(events, i) <==> Follows(front, i)
    {
    }
    if Consecutive(voyageID, events) {
      assert front[0] == events[0];
      forall i | 0 <= i < |front|
        ensures front[i].voyageID == voyageID && front[i].version == i + 1
      {
        assert events[i] == front[i];
      }
    }
  }

  /** A timeline reconstructs exactly if its events are consecutive. */
  lemma GenuineIff(t: Timeline)
    ensures Genuine(t) <==>
              && Consecutive(t.voyageID, t.events)
              && t.current == t.events[|t.events| - 1].status && t.version == |t.events|
  {
    ReplaysIff(t.voyageID, t.events);
  }

  /** There is a timeline of the events exactly if they are consecutive in some order. */
  lemma ReconstructsIff(voyageID: string, events: seq<VoyageEvent>)
    ensures (exists t :: Genuine(t) && t.voyageID == voyageID && multiset(t.events) == multiset(events))
       <==> (exists s: seq<VoyageEvent> :: Consecutive(voyageID, s) && multiset(s) == multiset(events))
  {
    if t :| Genuine(t) && t.voyageID == voyageID && multiset(t.events) == multiset(events) {
      GenuineIff(t);
      assert Consecutive(voyageID, t.events);
    }
    if s: seq<VoyageEvent> :| Consecutive(voyageID, s) && multiset(s) == multiset(events) {
      var t := Timeline(voyageID, s, s[|s| - 1].status, |s|);
      GenuineIff(t);
      assert t.events == s;
    }
  }

  /** The ordinary voyage, from draft to completed, reconstructs. */
  lemma OrdinaryTimeline(voyageID: string, actorID: string, at: Instant)
    requires voyageID != "" && actorID != "" && at > 0
    ensures
      var statuses := [Draft, Declared, Held, Cleared, Scheduled, InTransit, Completed];
      var events := seq(7, i requires 0 <= i < 7 => VoyageEvent("e", voyageID, statuses[i], at + i, actorID, "", i + 1));
      Genuine(Timeline(voyageID, events, Completed, 7))
  {
    var statuses := [Draft, Declared, Held, Cleared, Scheduled, InTransit, Completed];
    var events := seq(7, i requires 0 <= i < 7 => VoyageEvent("e", voyageID, statuses[i], at + i, actorID, "", i + 1));
    forall i | 1 <= i < 7
      ensures Follows(events, i)
    {
      assert i == 1 || i == 2 || i == 3 || i == 4 || i == 5 || i == 6;
    }
    GenuineIff(Timeline(voyageID, events, Completed, 7));
  }

  /** A new timeline has one event, by the user, with the status the voyage has. */
  lemma NewTimelineTells(voyage: Voyage, actorID: string, at: Instant)
    ensures
      NewTimeline(voyage, actorID, at) ==
      if voyage.id == "" || actorID == "" || at == 0 || voyage.version <= 0 then Err(Invalid)
      else Ok(Timeline(voyage.id, [VoyageEvent(voyage.id + "-1", voyage.id, voyage.status, at, actorID, "voyage created", 1)],
                       voyage.status, 1))
  {
  }

  // ---- Growth ----------------------------------------------------------------

  /** The timeline after a run of append calls with the version read just before; a
      refused event leaves it as it was. */
  function Grow(t: Timeline, events: seq<VoyageEvent>): Timeline {
    if events == [] then t
    else
      var before := Grow(t, events[..|events| - 1]);
      var attempt := AppendTimeline(before, events[|events| - 1], before.version);
      if attempt.Ok? then attempt.value else before
  }

  lemma {:induction false} GrownIsGenuine(t: Timeline, events: seq<VoyageEvent>)
    requires Genuine(t)
    ensures Genuine(Grow(t, events)) && Grow(t, events).voyageID == t.voyageID
  {
    ReplayShape(t.voyageID, t.events);
    if events != [] {
      var before := Grow(t, events[..|events| - 1]);
      GrownIsGenuine(t, events[..|events| - 1]);
      ReplayShape(before.voyageID, before.events);
      var attempt := AppendTimeline(before, events[|events| - 1], before.version);
      if attempt.Ok? {
        assert attempt.value.events[..|before.events|] == before.events;
      }
    }
  }

  /** Every timeline grown from a draft voyage is one that reconstruction, run on any
      permutation of its events, gives back unchanged. */
  lemma ReconstructionInverts(voyage: Voyage, actorID: string, at: Instant, events: seq<VoyageEvent>)
    requires voyage.status.Draft? && NewTimeline(voyage, actorID, at).Ok?
    ensures
      var t := Grow(NewTimeline(voyage, actorID, at).value, events);
      && Genuine(t) && t.voyageID == voyage.id
      && forall u :: Genuine(u) && u.voyageID == voyage.id && multiset(u.events) == multiset(t.events) ==> u == t
  {
    var t := Grow(NewTimeline(voyage, actorID, at).value, events);
    GrownIsGenuine(NewTimeline(voyage, actorID, at).value, events);
    ReplayShape(t.voyageID, t.events);
    VersionsDecide(t);
    AnyTimelineIsSorted(voyage.id, t.events);
  }

  /** No status comes twice, so there are at most seven events. */
  lemma AtMostSevenEvents(t: Timeline)
    requires Genuine(t)
    ensures forall i, j :: 0 <= i < j < |t.events| ==> t.events[i].status != t.events[j].status
    ensures |t.events| <= 7
  {
    ReplayShape(t.voyageID, t.events);
    RankAtLeastIndex(t.events, |t.events| - 1);
  }

  lemma {:induction false} RankAtLeastIndex(events: seq<VoyageEvent>, i: nat)
    requires i < |events|
    requires forall i, j :: 0 <= i < j < |events| ==> StatusRank(events[i].status) < StatusRank(events[j].status)
    ensures i <= StatusRank(events[i].status)
  {
    if i > 0 {
      RankAtLeastIndex(events, i - 1);
    }
  }

  // ---- Durations -------------------------------------------------------------

  /** Event i is the first that can start the clock, and j the first after it that
      stops it. */
  ghost predicate Milestones(events: seq<VoyageEvent>, from: VoyageStatus, to: VoyageStatus, i: nat, j: nat) {
    && i < j < |events|
    && Starts(events[i], from) && (forall k :: 0 <= k < i ==> !Starts(events[k], from))
    && events[j].status == to && (forall k :: i < k < j ==> events[k].status != to)
  }

  predicate Starts(event: VoyageEvent, from: VoyageStatus) {
    event.status == from && event.occurredAt != ZERO_INSTANT
  }

  method TimelineDuration(t: Timeline, from: VoyageStatus, to: VoyageStatus) returns (r: Result<Duration>)
    ensures r.Ok? <==> exists i: nat, j: nat :: Milestones(t.events, from, to, i, j)
    ensures forall i: nat, j: nat :: Milestones(t.events, from, to, i, j) ==>
              r == Ok(t.events[j].occurredAt - t.events[i].occurredAt)
    ensures r.Err? ==> r.error == NotFound
    ensures r.Ok? && Genuine(t) ==> r.value >= 0
  {
    if Genuine(t) {
      ReplayShape(t.voyageID, t.events);
    }
    var started := ZERO_INSTANT;
    ghost var origin: nat := 0;
    for k := 0 to |t.events|
      invariant started == ZERO_INSTANT ==> forall j :: 0 <= j < k ==> !Starts(t.events[j], from)
      invariant started != ZERO_INSTANT ==>
                  && origin < k && Starts(t.events[origin], from) && started == t.events[origin].occurredAt
                  && (forall j :: 0 <= j < origin ==> !Starts(t.events[j], from))
                  && (forall j :: origin < j < k ==> t.events[j].status != to)
    {
      var event := t.events[k];
      if event.status == from && started == ZERO_INSTANT {
        started := event.occurredAt;
        origin := k;
      } else if started != ZERO_INSTANT && event.status == to {
        assert Milestones(t.events, from, to, origin, k);
        return Ok(event.occurredAt - started);
      }
    }
    return Err(NotFound);
  }
}
