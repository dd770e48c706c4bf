/** Lock movements and chamber utilization (internal/passage/operations.go). */
module Operations {
  import opened Core
  import opened TimeWindows
  import opened Passage

  datatype Movement = Movement(
    reservationID: string,
    status: SlotStatus,
    occurredAt: Instant,
    operatorID: string,
    note: string)

  function BuildMovement(r: Reservation, next: SlotStatus, at: Instant, operatorID: string, note: string)
    : Result<(Movement, Reservation)>
  {
    if operatorID == "" || at == ZERO_INSTANT then Err(Invalid)
    else
      var updated :- match next
        case Entered => Enter(r, at, r.version)
        case Exited => Exit(r, at, r.version)
        case Cancelled => Cancel(r, at, r.version)
        case _ => Err(Invalid);
      Ok((Movement(r.id, next, at, operatorID, note), updated))
  }

  // ---- Movement histories ----------------------------------------------------

  /** The alphabetic order of the status strings. */
  function StatusRank(s: SlotStatus): nat {
    match s
    case Cancelled => 0
    case Confirmed => 1
    case Entered => 2
    case Exited => 3
    case Reserved => 4
  }

  predicate MovedNoLater(a: Movement, b: Movement) {
    if a.occurredAt == b.occurredAt then StatusRank(a.status) <= StatusRank(b.status)
    else a.occurredAt < b.occurredAt
  }

  predicate Attributable(r: Reservation, m: Movement) {
    m.reservationID == r.id && m.operatorID != ""
  }

  /** The only histories there are: none while confirmed, one entry, an entry with a
      later exit, or one cancellation; none of them more than fifteen minutes early. */
  ghost predicate ConsistentHistory(r: Reservation, ms: seq<Movement>) {
    && r.id != ""
    && (forall m :: m in ms ==> Attributable(r, m) && m.occurredAt >= r.startsAt - EARLY_ENTRY)
    && match |ms|
       case 0 => r.status.Confirmed?
       case 1 => ms[0].status == r.status && (r.status.Entered? || r.status.Cancelled?)
       case 2 => r.status.Exited? && (InThenOut(ms[0], ms[1]) || InThenOut(ms[1], ms[0]))
       case _ => false
  }

  predicate InThenOut(a: Movement, b: Movement) {
    a.status.Entered? && b.status.Exited? && a.occurredAt <= b.occurredAt
  }

  /** The state of the replay loop after the first i movements. */
  ghost predicate Replayed(r: Reservation, ordered: seq<Movement>, i: nat, status: SlotStatus, lastTime: Instant)
    requires i <= |ordered|
  {
    && (forall k :: 0 <= k < i ==> Attributable(r, ordered[k]))
    && match i
       case 0 => status.Confirmed? && lastTime == r.startsAt - EARLY_ENTRY
       case 1 =>
         && status == ordered[0].status && (status.Entered? || status.Cancelled?)
         && lastTime == ordered[0].occurredAt >= r.startsAt - EARLY_ENTRY
       case 2 =>
         && status.Exited? && InThenOut(ordered[0], ordered[1])
         && lastTime == ordered[1].occurredAt && ordered[0].occurredAt >= r.startsAt - EARLY_ENTRY
       case _ => false
  }

  method ValidateMovementHistory(r: Reservation, movements: seq<Movement>) returns (verdict: Result<()>)
    ensures verdict.Ok? <==> ConsistentHistory(r, movements)
    ensures verdict == Err(Invalid) <==> r.id == ""
  {
    if r.id == "" {
      return Err(Invalid);
    }
    var ordered := Sort(MovedNoLater, movements);
    HistoryIgnoresOrder(r, ordered, movements);
    var status := Confirmed;
    var lastTime := r.startsAt - EARLY_ENTRY;
    for i := 0 to |ordered|
      invariant Replayed(r, ordered, i, status, lastTime)
    {
      var m := ordered[i];
      assert m in ordered;
      assert i > 0 ==> MovedNoLater(ordered[i - 1], ordered[i]);
      assert i > 1 ==> MovedNoLater(ordered[i - 2], ordered[i]);
      if m.reservationID != r.id || m.operatorID == "" || m.occurredAt < lastTime {
        return Err(Conflict);
      }
      match status {
        case Confirmed =>
          if !m.status.Entered? && !m.status.Cancelled? {
            NoLateEntry(r, ordered, i);
            return Err(BadState);
          }
        case Entered =>
          if !m.status.Exited? {
            return Err(BadState);
          }
        case _ =>
          return Err(BadState);
      }
      status := m.status;
      lastTime := m.occurredAt;
    }
    if status != r.status {
      return Err(Conflict);
    }
    return Ok(());
  }

  lemma NoLateEntry(r: Reservation, ordered: seq<Movement>, i: nat)
    requires i == 0 < |ordered| && SortedBy(MovedNoLater, ordered)
    requires !ordered[0].status.Entered? && !ordered[0].status.Cancelled?
    ensures !ConsistentHistory(r, ordered)
  {
    assert |ordered| > 1 ==> MovedNoLater(ordered[0], ordered[1]);
  }

  lemma HistoryIgnoresOrder(r: Reservation, a: seq<Movement>, b: seq<Movement>)
    requires multiset(a) == multiset(b)
    ensures ConsistentHistory(r, a) <==> ConsistentHistory(r, b)
  {
    SameElements(a, b);
    if |a| == 1 {
      assert a[0] in b && b[0] in a;
    } else if |a| == 2 {
      TwoElements(a, b);
    }
  }

  /** The domain functions alone do not order the two movements: an exit may be accepted
      that lies before the entry, and the history is then refused. */
  lemma ExitAloneDoesNotOrder()
    ensures
      var r := Reservation("r", "v", "t", "c", HOUR, 3 * HOUR, 1.0, 1.0, 1.0, Confirmed, 2);
      var entry := BuildMovement(r, Entered, 2 * HOUR, "op", "");
      entry.Ok? &&
      var exit := BuildMovement(entry.value.1, Exited, HOUR, "op", "");
      exit.Ok? && !ConsistentHistory(exit.value.1, [entry.value.0, exit.value.0])
  {
    var r := Reservation("r", "v", "t", "c", HOUR, 3 * HOUR, 1.0, 1.0, 1.0, Confirmed, 2);
    EntryExitValidIff(r, 2 * HOUR, HOUR, "op", "op", "");
  }

  /** Exactly when the two movements that the domain functions admit make a valid history. */
  lemma EntryExitValidIff(r: Reservation, a: Instant, b: Instant, entrant: string, leaver: string, note: string)
    requires r.id != "" && BuildMovement(r, Entered, a, entrant, note).Ok?
    requires BuildMovement(BuildMovement(r, Entered, a, entrant, note).value.1, Exited, b, leaver, note).Ok?
    ensures
      var entry := BuildMovement(r, Entered, a, entrant, note).value;
      var exit := BuildMovement(entry.1, Exited, b, leaver, note).value;
      ConsistentHistory(exit.1, [entry.0, exit.0]) <==> a <= b
  {
    var entry := BuildMovement(r, Entered, a, entrant, note).value;
    var exit := BuildMovement(entry.1, Exited, b, leaver, note).value;
    var ms := [entry.0, exit.0];
    assert |ms| == 2 && ms[0] == entry.0 && ms[1] == exit.0;
    assert forall m :: m in ms ==> m == entry.0 || m == exit.0;
  }

  /** Exactly when the history of a cancellation that Cancel admits is valid. */
  lemma CancelValidIff(r: Reservation, at: Instant, operatorID: string, note: string)
    requires r.id != "" && BuildMovement(r, Cancelled, at, operatorID, note).Ok?
    ensures
      var cancelled := BuildMovement(r, Cancelled, at, operatorID, note).value;
      ConsistentHistory(cancelled.1, [cancelled.0]) <==> at >= r.startsAt - EARLY_ENTRY
  {
    var cancelled := BuildMovement(r, Cancelled, at, operatorID, note).value;
    var ms := [cancelled.0];
    assert |ms| == 1 && ms[0] == cancelled.0;
    assert forall m :: m in ms ==> m == cancelled.0;
  }

  /** A slot at two hours, cancelled at one: Cancel admits it, the history is refused. */
  lemma EarlyCancelRefused()
    ensures
      var r := Reservation("r", "v", "t", "c", 2 * HOUR, 3 * HOUR, 1.0, 1.0, 1.0, Confirmed, 2);
      var cancelled := BuildMovement(r, Cancelled, HOUR, "op", "");
      cancelled.Ok? && !ConsistentHistory(cancelled.value.1, [cancelled.value.0])
  {
    CancelValidIff(Reservation("r", "v", "t", "c", 2 * HOUR, 3 * HOUR, 1.0, 1.0, 1.0, Confirmed, 2), HOUR, "op", "");
  }

  lemma TwoElements<T>(a: seq<T>, b: seq<T>)
    requires multiset(a) == multiset(b) && |a| == |b| == 2
    ensures a == b || (a[0] == b[1] && a[1] == b[0])
  {
    assert a == [a[0], a[1]] && b == [b[0], b[1]];
    assert multiset(a) == multiset{a[0], a[1]} && multiset(b) == multiset{b[0], b[1]};
    assert a[0] in multiset(b);
    if a[0] == b[0] {
      assert multiset(a) - multiset{a[0]} == multiset{a[1]};
      assert multiset(b) - multiset{b[0]} == multiset{b[1]};
      assert a[1] in multiset{b[1]};
    } else {
      assert multiset(a) - multiset{a[0]} == multiset{a[1]};
      assert multiset(b) - multiset{b[1]} == multiset{b[0]};
      assert a[1] in multiset{b[0]};
    }
  }

  // ---- Utilization -----------------------------------------------------------

  /** A live reservation of the chamber covers the instant. */
  ghost predicate Busy(chamberID: string, rs: seq<Reservation>, t: Instant) {
    exists r :: r in rs && Occupies(r, chamberID) && r.Slot().Contains(t)
  }

  /** How many of the instants lo, lo+1, ..., hi-1 the windows cover. */
  ghost function CoveredTicks(ws: seq<Window>, lo: Instant, hi: Instant): nat
    decreases hi - lo
  {
    if hi <= lo then 0
    else CoveredTicks(ws, lo, hi - 1) + if Covered(ws, hi - 1) then 1 else 0
  }

  ghost function BusyTicks(chamberID: string, rs: seq<Reservation>, lo: Instant, hi: Instant): nat
    decreases hi - lo
  {
    if hi <= lo then 0
    else BusyTicks(chamberID, rs, lo, hi - 1) + if Busy(chamberID, rs, hi - 1) then 1 else 0
  }

  function TotalDuration(ws: seq<Window>): Duration {
    if ws == [] then 0 else TotalDuration(ws[..|ws| - 1]) + ws[|ws| - 1].Duration()
  }

  /** The clipped window of a live reservation starts at the zero instant. */
  predicate ClipsToZero(r: Reservation, window: Window) {
    r.Slot().Overlaps(window) && Max(r.startsAt, window.startsAt) == ZERO_INSTANT
  }

  ghost predicate UtilizationDefined(chamberID: string, rs: seq<Reservation>, window: Window) {
    && chamberID != "" && window.Duration() > 0
    && forall r :: r in rs && Occupies(r, chamberID) ==> Proper(r.Slot()) && !ClipsToZero(r, window)
  }

  function Clip(r: Reservation, window: Window): Window {
    Window(Max(r.startsAt, window.startsAt), Min(r.endsAt, window.endsAt))
  }

  ghost predicate ClippedFrom(chamberID: string, rs: seq<Reservation>, window: Window, w: Window) {
    exists r :: r in rs && Occupies(r, chamberID) && r.Slot().Overlaps(window) && w == Clip(r, window)
  }

  /** The clipped windows gathered from the reservations looked at so far. */
  ghost predicate Gathered(chamberID: string, rs: seq<Reservation>, window: Window, active: seq<Window>) {
    && (forall r :: r in rs && Occupies(r, chamberID) ==> Proper(r.Slot()))
    && (forall w :: w in active ==> ClippedFrom(chamberID, rs, window, w))
    && (forall r :: r in rs && Occupies(r, chamberID) && r.Slot().Overlaps(window) ==> Clip(r, window) in active)
  }

  lemma GatherStep(chamberID: string, rs: seq<Reservation>, current: Reservation, window: Window, active: seq<Window>)
    requires Gathered(chamberID, rs, window, active)
    requires Occupies(current, chamberID) ==> Proper(current.Slot())
    ensures Gathered(chamberID, rs + [current], window,
                     if Occupies(current, chamberID) && current.Slot().Overlaps(window)
                     then active + [Clip(current, window)] else active)
  {
    var seen := rs + [current];
    assert forall r :: r in seen <==> r in rs || r == current;
    forall w | ClippedFrom(chamberID, rs, window, w)
      ensures ClippedFrom(chamberID, seen, window, w)
    {
      var r :| r in rs && Occupies(r, chamberID) && r.Slot().Overlaps(window) && w == Clip(r, window);
      assert r in seen;
    }
  }

  method ClipActive(chamberID: string, reservations: seq<Reservation>, window: Window) returns (r: Result<seq<Window>>)
    ensures r.Ok? ==> Gathered(chamberID, reservations, window, r.value)
    ensures r.Err? ==> exists x :: x in reservations && Occupies(x, chamberID) && !Proper(x.Slot())
  {
    var active: seq<Window> := [];
    for i := 0 to |reservations|
      invariant Gathered(chamberID, reservations[..i], window, active)
    {
      var current := reservations[i];
      assert reservations[..i + 1] == reservations[..i] + [current];
      if current.chamberID == chamberID && !current.status.Cancelled? {
        var checked := NewTimeWindow(current.startsAt, current.endsAt, 0);
        if checked.Err? {
          assert current in reservations && Occupies(current, chamberID);
          return Err(Invalid);
        }
        GatherStep(chamberID, reservations[..i], current, window, active);
        var slot := checked.value;
        if slot.Overlaps(window) {
          if slot.startsAt < window.startsAt {
            slot := slot.(startsAt := window.startsAt);
          }
          if slot.endsAt > window.endsAt {
            slot := slot.(endsAt := window.endsAt);
          }
          active := active + [slot];
        }
      } else {
        GatherStep(chamberID, reservations[..i], current, window, active);
      }
    }
    assert reservations[..|reservations|] == reservations;
    return Ok(active);
  }

  /** x is the exact quotient, and lies between 0 and 1. */
  predicate IsFraction(x: real, part: Duration, whole: Duration) {
    0.0 <= x <= 1.0 && x * whole as real == part as real
  }

  method ChamberUtilization(chamberID: string, reservations: seq<Reservation>, window: Window) returns (r: Result<real>)
    ensures r.Ok? <==> UtilizationDefined(chamberID, reservations, window)
    ensures r.Err? ==> r.error == Invalid
    ensures r.Ok? ==>
              IsFraction(r.value, BusyTicks(chamberID, reservations, window.startsAt, window.endsAt), window.Duration())
  {
    if chamberID == "" || window.Duration() <= 0 {
      return Err(Invalid);
    }
    var active := ClipActive(chamberID, reservations, window);
    if active.Err? {
      return Err(Invalid);
    }
    ClippedProper(chamberID, reservations, window, active.value);
    var merged := MergeWindows(active.value);
    if merged.Err? {
      return Err(Invalid);
    }
    var occupied: Duration := 0;
    for i := 0 to |merged.value|
      invariant occupied == TotalDuration(merged.value[..i])
    {
      assert merged.value[..i + 1][..i] == merged.value[..i];
      occupied := occupied + merged.value[i].Duration();
    }
    assert merged.value[..|merged.value|] == merged.value;
    OccupiedIsBusy(chamberID, reservations, window, active.value, merged.value);
    var fraction := Divide(occupied, window.Duration());
    return Ok(fraction);
  }

  method Divide(part: Duration, whole: Duration) returns (x: real)
    requires 0 <= part <= whole && 0 < whole
    ensures IsFraction(x, part, whole)
  {
    x := part as real / whole as real;
  }

  lemma OccupiedIsBusy(chamberID: string, rs: seq<Reservation>, window: Window, active: seq<Window>, merged: seq<Window>)
    requires window.Duration() > 0
    requires Gathered(chamberID, rs, window, active)
    requires Separated(merged) && SameCoverage(merged, active)
    ensures TotalDuration(merged) == BusyTicks(chamberID, rs, window.startsAt, window.endsAt)
    ensures 0 <= TotalDuration(merged) <= window.Duration()
  {
    MergedInside(active, merged, window);
    DurationCountsTicks(merged, window.startsAt, window.endsAt);
    TicksAgree(chamberID, rs, window, active, merged, window.endsAt);
    TicksBounded(chamberID, rs, window.startsAt, window.endsAt);
  }

  lemma ClippedProper(chamberID: string, rs: seq<Reservation>, window: Window, active: seq<Window>)
    requires chamberID != "" && window.Duration() > 0
    requires Gathered(chamberID, rs, window, active)
    ensures (forall w :: w in active ==> Proper(w)) <==> UtilizationDefined(chamberID, rs, window)
  {
    if forall w :: w in active ==> Proper(w) {
      forall r | r in rs && Occupies(r, chamberID)
        ensures !ClipsToZero(r, window)
      {
        if r.Slot().Overlaps(window) {
          assert Proper(Clip(r, window));
        }
      }
    }
  }

  lemma MergedInside(active: seq<Window>, merged: seq<Window>, window: Window)
    requires Separated(merged) && SameCoverage(merged, active)
    requires forall w :: w in active ==> Inside(w, window)
    ensures forall i :: 0 <= i < |merged| ==> Inside(merged[i], window)
  {
    forall i | 0 <= i < |merged|
      ensures Inside(merged[i], window)
    {
      var m := merged[i];
      assert m.Contains(m.startsAt) && Covered(merged, m.startsAt);
      assert m.Contains(m.endsAt - 1) && Covered(merged, m.endsAt - 1);
      assert Covered(active, m.startsAt) && Covered(active, m.endsAt - 1);
    }
  }

  /** Separated windows inside [lo, hi) last exactly as many ticks as they cover. */
  lemma {:induction false} DurationCountsTicks(ws: seq<Window>, lo: Instant, hi: Instant)
    requires Separated(ws)
    requires forall i :: 0 <= i < |ws| ==> lo <= ws[i].startsAt && ws[i].endsAt <= hi
    ensures TotalDuration(ws) == CoveredTicks(ws, lo, hi)
  {
    if ws == [] {
      if lo <= hi {
        NothingCovered(ws, lo, lo, hi);
      }
    } else {
      var front := ws[..|ws| - 1];
      var last := ws[|ws| - 1];
      assert ws == front + [last];
      DurationCountsTicks(front, lo, last.startsAt);
      LastTicks(front, last, lo, hi);
    }
  }

  /** The last window adds as many ticks as it lasts. */
  lemma LastTicks(front: seq<Window>, last: Window, lo: Instant, hi: Instant)
    requires Separated(front + [last]) && lo <= last.startsAt && last.endsAt <= hi
    ensures CoveredTicks(front + [last], lo, hi) == CoveredTicks(front, lo, last.startsAt) + last.Duration()
  {
    var ws := front + [last];
    EarlierEnd(front, last);
    NothingCovered(ws, lo, last.endsAt, hi);
    AllCovered(ws, last, lo, last.endsAt);
    SameTicks(front, ws, last, lo, last.startsAt);
  }

  lemma EarlierEnd(front: seq<Window>, last: Window)
    requires Separated(front + [last])
    ensures last.startsAt < last.endsAt && forall w :: w in front + [last] ==> w.endsAt <= last.endsAt
  {
    var ws := front + [last];
    assert ws[|front|] == last;
    assert forall i :: 0 <= i < |front| ==> ws[i].endsAt < ws[|front|].startsAt;
  }

  lemma {:induction false} NothingCovered(ws: seq<Window>, lo: Instant, from: Instant, hi: Instant)
    requires lo <= from <= hi
    requires forall w :: w in ws ==> w.endsAt <= from
    ensures CoveredTicks(ws, lo, hi) == CoveredTicks(ws, lo, from)
    decreases hi - from
  {
    if from < hi {
      NothingCovered(ws, lo, from, hi - 1);
    }
  }

  lemma {:induction false} AllCovered(ws: seq<Window>, w: Window, lo: Instant, upTo: Instant)
    requires w in ws && lo <= w.startsAt <= upTo <= w.endsAt
    ensures CoveredTicks(ws, lo, upTo) == CoveredTicks(ws, lo, w.startsAt) + (upTo - w.startsAt)
    decreases upTo - w.startsAt
  {
    if w.startsAt < upTo {
      AllCovered(ws, w, lo, upTo - 1);
      assert w.Contains(upTo - 1);
    }
  }

  lemma {:induction false} SameTicks(front: seq<Window>, ws: seq<Window>, last: Window, lo: Instant, hi: Instant)
    requires ws == front + [last] && hi <= last.startsAt
    ensures CoveredTicks(front, lo, hi) == CoveredTicks(ws, lo, hi)
    decreases hi - lo
  {
    if lo < hi {
      SameTicks(front, ws, last, lo, hi - 1);
      CoveredAppend(front, last, hi - 1);
    }
  }

  lemma {:induction false} TicksAgree(chamberID: string, rs: seq<Reservation>, window: Window, active: seq<Window>,
                                      merged: seq<Window>, hi: Instant)
    requires hi <= window.endsAt && SameCoverage(merged, active)
    requires Gathered(chamberID, rs, window, active)
    ensures CoveredTicks(merged, window.startsAt, hi) == BusyTicks(chamberID, rs, window.startsAt, hi)
    decreases hi - window.startsAt
  {
    if window.startsAt < hi {
      TicksAgree(chamberID, rs, window, active, merged, hi - 1);
      CoveredMeansBusy(chamberID, rs, window, active, hi - 1);
      assert Covered(merged, hi - 1) <==> Covered(active, hi - 1);
    }
  }

  lemma CoveredMeansBusy(chamberID: string, rs: seq<Reservation>, window: Window, active: seq<Window>, t: Instant)
    requires Gathered(chamberID, rs, window, active) && window.Contains(t)
    ensures Covered(active, t) <==> Busy(chamberID, rs, t)
  {
    if Busy(chamberID, rs, t) {
      var r :| r in rs && Occupies(r, chamberID) && r.Slot().Contains(t);
      assert Clip(r, window) in active && Clip(r, window).Contains(t);
    }
    if Covered(active, t) {
      var w :| w in active && w.Contains(t);
      var r :| r in rs && Occupies(r, chamberID) && r.Slot().Overlaps(window) && w == Clip(r, window);
      assert r.Slot().Contains(t);
    }
  }

  lemma {:induction false} TicksBounded(chamberID: string, rs: seq<Reservation>, lo: Instant, hi: Instant)
    requires lo <= hi
    ensures BusyTicks(chamberID, rs, lo, hi) <= hi - lo
    decreases hi - lo
  {
    if lo < hi {
      TicksBounded(chamberID, rs, lo, hi - 1);
    }
  }
}
