/** Daily operating hours, free windows of a chamber and the ranking of candidate
    slots (internal/passage/schedule.go). The location is a fixed offset, so every
    day lasts twenty-four hours. */
module Schedule {
  import opened Core
  import opened TimeWindows
  import opened Passage

  datatype SchedulePolicy = SchedulePolicy(
    operatingFrom: Duration,
    operatingTo: Duration,
    buffer: Duration,
    minimumNotice: Duration,
    maximumAhead: Duration,
    location: Option<Duration>)
  {
    predicate Valid() {
      && location.Some?
      && 0 <= operatingFrom < operatingTo <= DAY
      && buffer >= 0 && minimumNotice >= 0 && minimumNotice < maximumAhead
    }
  }

  datatype SlotCandidate = SlotCandidate(chamberID: string, startsAt: Instant, endsAt: Instant, wait: Duration)

  const DAYS_AHEAD: nat := 31

  function Midnight(at: Instant, offset: Duration): Instant {
    (at + offset) / DAY * DAY - offset
  }

  /** The operating hours of the day that contains the instant. */
  function OperatingHours(day: Instant, policy: SchedulePolicy): Window
    requires policy.Valid()
  {
    var midnight := Midnight(day, policy.location.value);
    Window(midnight + policy.operatingFrom, midnight + policy.operatingTo)
  }

  function DailyOperatingWindow(day: Instant, policy: SchedulePolicy): Result<Window> {
    if !policy.Valid() then Err(Invalid)
    else
      var hours := OperatingHours(day, policy);
      NewTimeWindow(hours.startsAt, hours.endsAt, DAY)
  }

  lemma MidnightNextDay(at: Instant, k: nat, offset: Duration)
    ensures Midnight(at + k * DAY, offset) == Midnight(at, offset) + k * DAY
  {
    assert (at + k * DAY + offset) / DAY == (at + offset) / DAY + k;
  }

  /** Midnight is the one instant, at or before the given one and less than a day before it,
      at which the local clock shows the start of a day. */
  lemma MidnightIsLocal(at: Instant, offset: Duration, m: Instant)
    ensures m == Midnight(at, offset) <==> m <= at < m + 24 * HOUR && (m + offset) % (24 * HOUR) == 0
  {
    var local := at + offset;
    assert local == local / DAY * DAY + local % DAY;
    if m <= at < m + DAY && (m + offset) % DAY == 0 {
      var n := (m + offset) / DAY;
      assert m + offset == n * DAY;
      SameDay(local, n);
    } else if m == Midnight(at, offset) {
      DayMultiple(local / DAY);
    }
  }

  lemma SameDay(local: int, n: int)
    requires n * DAY <= local < n * DAY + DAY
    ensures local / DAY == n
  {
  }

  lemma DayMultiple(n: int)
    ensures n * DAY % DAY == 0
  {
  }

  /** The window lies within the operating hours of the local day of the given number,
      which counts from the local day of instant 0. */
  predicate WithinHours(policy: SchedulePolicy, day: int, w: Window)
    requires policy.location.Some?
  {
    var offset := policy.location.value;
    && day * (24 * HOUR) + policy.operatingFrom <= w.startsAt + offset
    && w.endsAt + offset <= day * (24 * HOUR) + policy.operatingTo
  }

  /** The number of the local day that contains the instant. */
  function LocalDay(policy: SchedulePolicy, at: Instant): int
    requires policy.location.Some?
  {
    (at + policy.location.value) / (24 * HOUR)
  }

  lemma HoursAreLocal(policy: SchedulePolicy, at: Instant, k: nat, w: Window)
    requires policy.Valid()
    ensures Inside(w, OperatingHours(at + k * DAY, policy)) <==> WithinHours(policy, LocalDay(policy, at) + k, w)
  {
    MidnightNextDay(at, k, policy.location.value);
    assert (LocalDay(policy, at) + k) * DAY == LocalDay(policy, at) * DAY + k * DAY;
  }

  /** A window within the hours of some day is within those of the day it starts on. */
  lemma OwnDay(policy: SchedulePolicy, day: int, w: Window)
    requires policy.Valid() && w.startsAt < w.endsAt && WithinHours(policy, day, w)
    ensures day == LocalDay(policy, w.startsAt)
  {
    SameDay(w.startsAt + policy.location.value, day);
  }

  function Buffered(r: Reservation, policy: SchedulePolicy): Window {
    Window(r.startsAt - policy.buffer, r.endsAt + policy.buffer)
  }

  /** The slot keeps the buffer from every live reservation and misses maintenance. */
  ghost predicate Available(chamber: Chamber, rs: seq<Reservation>, policy: SchedulePolicy, slot: Window) {
    && (forall r :: r in rs && Occupies(r, chamber.id) ==> !Buffered(r, policy).Overlaps(slot))
    && (chamber.HasMaintenance() ==> !chamber.Maintenance().Overlaps(slot))
  }

  /** Every window the chamber has to keep free is well formed. */
  ghost predicate BlocksWellFormed(chamber: Chamber, rs: seq<Reservation>, policy: SchedulePolicy) {
    && (forall r :: r in rs && Occupies(r, chamber.id) ==> Proper(Buffered(r, policy)))
    && (chamber.HasMaintenance() ==> Proper(chamber.Maintenance()))
  }

  /** A stretch of operating hours of at least the given length that is available. */
  ghost predicate FreeOn(chamber: Chamber, rs: seq<Reservation>, policy: SchedulePolicy, day: Instant,
                         duration: Duration, w: Window)
    requires policy.Valid()
  {
    && Inside(w, OperatingHours(day, policy))
    && w.Duration() >= duration
    && Available(chamber, rs, policy, w)
  }

  ghost predicate FreeList(chamber: Chamber, rs: seq<Reservation>, policy: SchedulePolicy, day: Instant,
                           duration: Duration, free: seq<Window>)
    requires policy.Valid()
  {
    && (forall k :: 0 <= k < |free| ==> FreeOn(chamber, rs, policy, day, duration, free[k]))
    && (forall i, j :: 0 <= i < j < |free| ==> free[i].endsAt < free[j].startsAt)
    && (forall w :: FreeOn(chamber, rs, policy, day, duration, w) ==> InsideSome(w, free))
  }

  /** Hours within a day of some location, and no negative margin. */
  predicate SoundPolicy(policy: SchedulePolicy) {
    && policy.location.Some?
    && 0 <= policy.operatingFrom < policy.operatingTo && policy.operatingTo <= 24 * HOUR
    && 0 <= policy.buffer && 0 <= policy.minimumNotice < policy.maximumAhead
  }

  ghost predicate DayAccepted(chamber: Chamber, rs: seq<Reservation>, policy: SchedulePolicy, day: Instant, duration: Duration) {
    && SoundPolicy(policy) && 0 < duration <= 180 * MINUTE
    && OperatingHours(day, policy).startsAt != ZERO_INSTANT
    && BlocksWellFormed(chamber, rs, policy)
  }

  method AvailableWindows(chamber: Chamber, reservations: seq<Reservation>, day: Instant, duration: Duration,
                          policy: SchedulePolicy) returns (r: Result<seq<Window>>)
    ensures r.Ok? <==> DayAccepted(chamber, reservations, policy, day, duration)
    ensures r.Err? ==> r.error == Invalid
    ensures r.Ok? ==> FreeList(chamber, reservations, policy, day, duration, r.value)
    ensures r.Ok? ==> forall w :: w in r.value ==> WithinHours(policy, LocalDay(policy, day), w) && w.endsAt - w.startsAt >= duration
  {
    r := FreeWindows(chamber, reservations, day, duration, policy);
    if r.Ok? {
      FreeKeepsHours(chamber, reservations, policy, day, duration, r.value);
    }
  }

  method FreeWindows(chamber: Chamber, reservations: seq<Reservation>, day: Instant, duration: Duration,
                     policy: SchedulePolicy) returns (r: Result<seq<Window>>)
    ensures r.Ok? <==> DayAccepted(chamber, reservations, policy, day, duration)
    ensures r.Err? ==> r.error == Invalid
    ensures r.Ok? ==> FreeList(chamber, reservations, policy, day, duration, r.value)
  {
    var base := DailyOperatingWindow(day, policy);
    if base.Err? {
      return Err(base.error);
    }
    if duration <= 0 || duration > 3 * HOUR {
      return Err(Invalid);
    }
    var blocked := CollectBlocked(chamber, reservations, policy);
    if blocked.Err? {
      return Err(blocked.error);
    }
    r := SubtractWindows(base.value, blocked.value, duration);
    SubtractionIsFree(chamber, reservations, policy, day, duration, base.value, blocked.value);
  }

  lemma SubtractionIsFree(chamber: Chamber, rs: seq<Reservation>, policy: SchedulePolicy, day: Instant, duration: Duration,
                          base: Window, blocked: seq<Window>)
    requires policy.Valid() && base == OperatingHours(day, policy)
    requires forall slot :: Clear(slot, blocked) <==> Available(chamber, rs, policy, slot)
    ensures forall w :: FreeStretch(base, blocked, duration, w) <==> FreeOn(chamber, rs, policy, day, duration, w)
  {
  }

  /** What the chamber has to keep free: its live reservations with the buffer around them,
      and its maintenance. */
  method CollectBlocked(chamber: Chamber, reservations: seq<Reservation>, policy: SchedulePolicy)
    returns (r: Result<seq<Window>>)
    ensures r.Ok? <==> BlocksWellFormed(chamber, reservations, policy)
    ensures r.Err? ==> r.error == Invalid
    ensures r.Ok? ==> forall w :: w in r.value ==> Proper(w)
    ensures r.Ok? ==> forall slot :: Clear(slot, r.value) <==> Available(chamber, reservations, policy, slot)
  {
    var blocked: seq<Window> := [];
    for i := 0 to |reservations|
      invariant forall r :: r in reservations[..i] && Occupies(r, chamber.id) ==> Proper(Buffered(r, policy))
      invariant forall w :: w in blocked ==> Proper(w)
      invariant forall slot :: Clear(slot, blocked) <==> ClearOfBuffered(chamber, reservations[..i], policy, slot)
    {
      var reservation := reservations[i];
      assert reservations[..i + 1] == reservations[..i] + [reservation];
      if reservation.chamberID == chamber.id && !reservation.status.Cancelled? {
        var window := NewTimeWindow(reservation.startsAt - policy.buffer, reservation.endsAt + policy.buffer, 0);
        if window.Err? {
          assert reservation in reservations && Occupies(reservation, chamber.id);
          return Err(window.error);
        }
        forall slot
          ensures Clear(slot, blocked + [window.value]) <==> ClearOfBuffered(chamber, reservations[..i + 1], policy, slot)
        {
          ClearAppend(slot, blocked, window.value);
          BufferedAppend(chamber, reservations[..i], reservation, policy, slot);
        }
        blocked := blocked + [window.value];
      } else {
        forall slot
          ensures Clear(slot, blocked) <==> ClearOfBuffered(chamber, reservations[..i + 1], policy, slot)
        {
          BufferedAppend(chamber, reservations[..i], reservation, policy, slot);
        }
      }
    }
    assert reservations[..|reservations|] == reservations;
    if chamber.HasMaintenance() {
      var window := NewTimeWindow(chamber.maintenanceFrom.value, chamber.maintenanceTo.value, 0);
      if window.Err? {
        return Err(Invalid);
      }
      forall slot
        ensures Clear(slot, blocked + [window.value]) <==> Clear(slot, blocked) && !window.value.Overlaps(slot)
      {
        ClearAppend(slot, blocked, window.value);
      }
      blocked := blocked + [window.value];
    }
    return Ok(blocked);
  }

  lemma FreeKeepsHours(chamber: Chamber, rs: seq<Reservation>, policy: SchedulePolicy, day: Instant, duration: Duration,
                       free: seq<Window>)
    requires policy.Valid() && FreeList(chamber, rs, policy, day, duration, free)
    ensures forall w :: w in free ==> WithinHours(policy, LocalDay(policy, day), w) && w.endsAt - w.startsAt >= duration
  {
    forall w | w in free
      ensures WithinHours(policy, LocalDay(policy, day), w) && w.endsAt - w.startsAt >= duration
    {
      FreeIsLocal(chamber, rs, policy, day, duration, w);
    }
  }

  lemma FreeIsLocal(chamber: Chamber, rs: seq<Reservation>, policy: SchedulePolicy, day: Instant, duration: Duration, w: Window)
    requires policy.Valid() && FreeOn(chamber, rs, policy, day, duration, w)
    ensures WithinHours(policy, LocalDay(policy, day), w) && w.endsAt - w.startsAt >= duration
  {
    HoursAreLocal(policy, day, 0, w);
  }

  /** A start, in plain arithmetic: on the local day k days after the one asked for, within
      hours, no earlier than asked for, more than the buffer away from every live
      reservation of the chamber, and outside maintenance. */
  ghost predicate PlainStart(chamber: Chamber, rs: seq<Reservation>, policy: SchedulePolicy, earliest: Instant,
                             duration: Duration, k: nat, s: Instant)
    requires policy.location.Some?
  {
    && earliest <= s && WithinHours(policy, LocalDay(policy, earliest) + k, Window(s, s + duration))
    && (forall r :: r in rs && r.chamberID == chamber.id && r.status != Cancelled ==>
          s + duration <= r.startsAt - policy.buffer || r.endsAt + policy.buffer <= s)
    && (chamber.maintenanceFrom.Some? && chamber.maintenanceTo.Some? ==>
          s + duration <= chamber.maintenanceFrom.value || chamber.maintenanceTo.value <= s)
  }

  lemma StartIsPlain(chamber: Chamber, rs: seq<Reservation>, policy: SchedulePolicy, earliest: Instant,
                     duration: Duration, k: nat, s: Instant)
    requires policy.Valid()
    ensures StartOn(chamber, rs, policy, earliest, duration, k, s) <==> PlainStart(chamber, rs, policy, earliest, duration, k, s)
  {
    HoursAreLocal(policy, earliest, k, Window(s, s + duration));
  }

  ghost predicate ClearOfBuffered(chamber: Chamber, rs: seq<Reservation>, policy: SchedulePolicy, slot: Window) {
    forall r :: r in rs && Occupies(r, chamber.id) ==> !Buffered(r, policy).Overlaps(slot)
  }

  lemma BufferedAppend(chamber: Chamber, rs: seq<Reservation>, r: Reservation, policy: SchedulePolicy, slot: Window)
    ensures ClearOfBuffered(chamber, rs + [r], policy, slot)
       <==> ClearOfBuffered(chamber, rs, policy, slot) && (Occupies(r, chamber.id) ==> !Buffered(r, policy).Overlaps(slot))
  {
    assert forall x :: x in rs + [r] <==> x in rs || x == r;
  }

  lemma ClearAppend(slot: Window, blocked: seq<Window>, w: Window)
    ensures Clear(slot, blocked + [w]) <==> Clear(slot, blocked) && !w.Overlaps(slot)
  {
    assert forall x :: x in blocked + [w] <==> x in blocked || x == w;
  }

  // ---- Candidate ranking -----------------------------------------------------

  function DayAt(earliest: Instant, k: nat): Instant { earliest + k * DAY }

  /** A vessel can start at s on the k-th day: the slot lies within operating hours,
      is available, and does not begin before the earliest start asked for. */
  ghost predicate StartOn(chamber: Chamber, rs: seq<Reservation>, policy: SchedulePolicy, earliest: Instant,
                          duration: Duration, k: nat, s: Instant)
    requires policy.Valid()
  {
    && earliest <= s
    && FreeOn(chamber, rs, policy, DayAt(earliest, k), duration, Window(s, s + duration))
  }

  ghost predicate StartWithin(chamber: Chamber, rs: seq<Reservation>, policy: SchedulePolicy, earliest: Instant,
                              duration: Duration, days: nat, s: Instant)
    requires policy.Valid()
  {
    exists k: nat :: k < days && StartOn(chamber, rs, policy, earliest, duration, k, s)
  }

  /** s is the earliest start of the first days. */
  ghost predicate IsEarliestStart(chamber: Chamber, rs: seq<Reservation>, policy: SchedulePolicy, earliest: Instant,
                                  duration: Duration, days: nat, s: Instant)
    requires policy.Valid()
  {
    && StartWithin(chamber, rs, policy, earliest, duration, days, s)
    && forall x :: StartWithin(chamber, rs, policy, earliest, duration, days, x) ==> s <= x
  }

  predicate FitsAt(w: Window, earliest: Instant, duration: Duration, s: Instant) {
    earliest <= s && Inside(Window(s, s + duration), w)
  }

  ghost predicate FitsSomewhere(windows: seq<Window>, earliest: Instant, duration: Duration, s: Instant) {
    exists k :: 0 <= k < |windows| && FitsAt(windows[k], earliest, duration, s)
  }

  /** The first start that fits among the free windows of a day. */
  method FirstFit(windows: seq<Window>, earliest: Instant, duration: Duration) returns (start: Option<Instant>)
    requires duration > 0
    requires forall i, j :: 0 <= i < j < |windows| ==> windows[i].endsAt < windows[j].startsAt
    ensures start.None? ==> forall s :: !FitsSomewhere(windows, earliest, duration, s)
    ensures start.Some? ==> FitsSomewhere(windows, earliest, duration, start.value)
    ensures start.Some? ==> forall s :: FitsSomewhere(windows, earliest, duration, s) ==> start.value <= s
  {
    for i := 0 to |windows|
      invariant forall j, s :: 0 <= j < i ==> !FitsAt(windows[j], earliest, duration, s)
    {
      var starts := windows[i].startsAt;
      if starts < earliest {
        starts := earliest;
      }
      if starts + duration <= windows[i].endsAt {
        assert FitsAt(windows[i], earliest, duration, starts);
        return Some(starts);
      }
    }
    return None;
  }

  lemma EarlierDayFirst(chamber: Chamber, rs: seq<Reservation>, policy: SchedulePolicy, earliest: Instant,
                        duration: Duration, j: nat, s: Instant, k: nat, x: Instant)
    requires policy.Valid() && duration > 0 && j < k
    requires StartOn(chamber, rs, policy, earliest, duration, j, s)
    requires StartOn(chamber, rs, policy, earliest, duration, k, x)
    ensures s < x
  {
    HoursOnDay(policy, earliest, j);
    HoursOnDay(policy, earliest, k);
    DaysApart(j, k);
  }

  lemma HoursOnDay(policy: SchedulePolicy, earliest: Instant, k: nat)
    requires policy.Valid()
    ensures var today, hours := OperatingHours(earliest, policy), OperatingHours(DayAt(earliest, k), policy);
            && hours.startsAt == today.startsAt + k * DAY && hours.endsAt == today.endsAt + k * DAY
            && today.endsAt - today.startsAt <= DAY
  {
    MidnightNextDay(earliest, k, policy.location.value);
  }

  lemma DaysApart(j: nat, k: nat)
    requires j < k
    ensures j * DAY + DAY <= k * DAY
  {
  }

  /** The search of one chamber over some days neither fails on its inputs nor reaches a day whose
      operating hours start at the zero instant. */
  ghost predicate ChamberAccepted(chamber: Chamber, rs: seq<Reservation>, policy: SchedulePolicy, earliest: Instant,
                                  duration: Duration, days: nat)
    requires policy.Valid()
  {
    && 0 < duration <= 3 * HOUR
    && BlocksWellFormed(chamber, rs, policy)
    && forall k: nat :: k < days && OperatingHours(DayAt(earliest, k), policy).startsAt == ZERO_INSTANT ==>
         exists s :: StartWithin(chamber, rs, policy, earliest, duration, k, s)
  }

  /** The free windows of a day answer exactly the starts of that day. */
  lemma FitsMeansStart(chamber: Chamber, rs: seq<Reservation>, policy: SchedulePolicy, earliest: Instant,
                       duration: Duration, k: nat, free: seq<Window>, s: Instant)
    requires policy.Valid()
    requires FreeList(chamber, rs, policy, DayAt(earliest, k), duration, free)
    ensures FitsSomewhere(free, earliest, duration, s) <==> StartOn(chamber, rs, policy, earliest, duration, k, s)
  {
    var day := DayAt(earliest, k);
    if FitsSomewhere(free, earliest, duration, s) {
      FitIsFree(chamber, rs, policy, day, earliest, duration, free, s);
    }
    if earliest <= s && FreeOn(chamber, rs, policy, day, duration, Window(s, s + duration)) {
      FreeFits(chamber, rs, policy, day, earliest, duration, free, s);
    }
  }

  lemma FitIsFree(chamber: Chamber, rs: seq<Reservation>, policy: SchedulePolicy, day: Instant, earliest: Instant,
                  duration: Duration, free: seq<Window>, s: Instant)
    requires policy.Valid() && FreeList(chamber, rs, policy, day, duration, free)
    requires FitsSomewhere(free, earliest, duration, s)
    ensures earliest <= s && FreeOn(chamber, rs, policy, day, duration, Window(s, s + duration))
  {
    var i :| 0 <= i < |free| && FitsAt(free[i], earliest, duration, s);
    PartOfFree(chamber, rs, policy, day, duration, free[i], Window(s, s + duration));
  }

  lemma FreeFits(chamber: Chamber, rs: seq<Reservation>, policy: SchedulePolicy, day: Instant, earliest: Instant,
                 duration: Duration, free: seq<Window>, s: Instant)
    requires policy.Valid() && FreeList(chamber, rs, policy, day, duration, free)
    requires earliest <= s && FreeOn(chamber, rs, policy, day, duration, Window(s, s + duration))
    ensures FitsSomewhere(free, earliest, duration, s)
  {
    assert InsideSome(Window(s, s + duration), free);
    var i :| 0 <= i < |free| && Inside(Window(s, s + duration), free[i]);
    assert FitsAt(free[i], earliest, duration, s);
  }

  lemma PartOfFree(chamber: Chamber, rs: seq<Reservation>, policy: SchedulePolicy, day: Instant, duration: Duration,
                   whole: Window, part: Window)
    requires policy.Valid() && FreeOn(chamber, rs, policy, day, duration, whole)
    requires Inside(part, whole) && part.Duration() >= duration
    ensures FreeOn(chamber, rs, policy, day, duration, part)
  {
  }

  ghost predicate NoStartBefore(chamber: Chamber, rs: seq<Reservation>, policy: SchedulePolicy, earliest: Instant,
                                duration: Duration, days: nat)
    requires policy.Valid()
  {
    forall s :: !StartWithin(chamber, rs, policy, earliest, duration, days, s)
  }

  lemma NotBefore(chamber: Chamber, rs: seq<Reservation>, policy: SchedulePolicy, earliest: Instant,
                  duration: Duration, k: nat, j: nat, s: Instant)
    requires policy.Valid()
    requires NoStartBefore(chamber, rs, policy, earliest, duration, k)
    requires StartOn(chamber, rs, policy, earliest, duration, j, s)
    ensures k <= j
  {
    assert !StartWithin(chamber, rs, policy, earliest, duration, k, s);
  }

  /** The first day with a start gives the earliest start of the whole horizon. */
  lemma FirstDayWins(chamber: Chamber, rs: seq<Reservation>, policy: SchedulePolicy, earliest: Instant,
                     duration: Duration, days: nat, k: nat, free: seq<Window>, s: Instant)
    requires policy.Valid() && duration > 0 && k < days
    requires NoStartBefore(chamber, rs, policy, earliest, duration, k)
    requires FreeList(chamber, rs, policy, DayAt(earliest, k), duration, free)
    requires FitsSomewhere(free, earliest, duration, s)
    requires forall x :: FitsSomewhere(free, earliest, duration, x) ==> s <= x
    ensures IsEarliestStart(chamber, rs, policy, earliest, duration, days, s)
  {
    FitsMeansStart(chamber, rs, policy, earliest, duration, k, free, s);
    forall x | StartWithin(chamber, rs, policy, earliest, duration, days, x)
      ensures s <= x
    {
      var j: nat :| j < days && StartOn(chamber, rs, policy, earliest, duration, j, x);
      NotBefore(chamber, rs, policy, earliest, duration, k, j, x);
      if j == k {
        FitsMeansStart(chamber, rs, policy, earliest, duration, k, free, x);
      } else {
        EarlierDayFirst(chamber, rs, policy, earliest, duration, k, s, j, x);
      }
    }
  }

  lemma EmptyDay(chamber: Chamber, rs: seq<Reservation>, policy: SchedulePolicy, earliest: Instant,
                 duration: Duration, k: nat, free: seq<Window>)
    requires policy.Valid() && duration > 0
    requires NoStartBefore(chamber, rs, policy, earliest, duration, k)
    requires FreeList(chamber, rs, policy, DayAt(earliest, k), duration, free)
    requires forall s :: !FitsSomewhere(free, earliest, duration, s)
    ensures NoStartBefore(chamber, rs, policy, earliest, duration, k + 1)
  {
    var days := k + 1;
    forall s | StartWithin(chamber, rs, policy, earliest, duration, days, s)
      ensures false
    {
      FitsMeansStart(chamber, rs, policy, earliest, duration, k, free, s);
      var j: nat :| j < k + 1 && StartOn(chamber, rs, policy, earliest, duration, j, s);
      NotBefore(chamber, rs, policy, earliest, duration, k, j, s);
    }
  }

  /** The first n days were searched without an error and without a start. */
  ghost predicate DaysPassed(chamber: Chamber, rs: seq<Reservation>, policy: SchedulePolicy, earliest: Instant,
                             duration: Duration, n: nat)
    requires policy.Valid()
  {
    && NoStartBefore(chamber, rs, policy, earliest, duration, n)
    && forall j: nat :: j < n ==> DayAccepted(chamber, rs, policy, DayAt(earliest, j), duration)
  }

  lemma DayRefused(chamber: Chamber, rs: seq<Reservation>, policy: SchedulePolicy, earliest: Instant,
                   duration: Duration, days: nat, k: nat)
    requires policy.Valid() && k < days
    requires DaysPassed(chamber, rs, policy, earliest, duration, k)
    requires !DayAccepted(chamber, rs, policy, DayAt(earliest, k), duration)
    ensures !ChamberAccepted(chamber, rs, policy, earliest, duration, days)
  {
  }

  lemma StartFound(chamber: Chamber, rs: seq<Reservation>, policy: SchedulePolicy, earliest: Instant,
                   duration: Duration, days: nat, k: nat, free: seq<Window>, s: Instant)
    requires policy.Valid() && k < days
    requires DaysPassed(chamber, rs, policy, earliest, duration, k)
    requires DayAccepted(chamber, rs, policy, DayAt(earliest, k), duration)
    requires FreeList(chamber, rs, policy, DayAt(earliest, k), duration, free)
    requires FitsSomewhere(free, earliest, duration, s)
    requires forall x :: FitsSomewhere(free, earliest, duration, x) ==> s <= x
    ensures IsEarliestStart(chamber, rs, policy, earliest, duration, days, s)
    ensures ChamberAccepted(chamber, rs, policy, earliest, duration, days)
  {
    FirstDayWins(chamber, rs, policy, earliest, duration, days, k, free, s);
    FitsMeansStart(chamber, rs, policy, earliest, duration, k, free, s);
    AcceptedUpTo(chamber, rs, policy, earliest, duration, days, k, s);
  }

  lemma AcceptedUpTo(chamber: Chamber, rs: seq<Reservation>, policy: SchedulePolicy, earliest: Instant,
                     duration: Duration, days: nat, k: nat, s: Instant)
    requires policy.Valid() && k < days
    requires DaysPassed(chamber, rs, policy, earliest, duration, k)
    requires DayAccepted(chamber, rs, policy, DayAt(earliest, k), duration)
    requires StartOn(chamber, rs, policy, earliest, duration, k, s)
    ensures ChamberAccepted(chamber, rs, policy, earliest, duration, days)
  {
    assert forall d: nat :: d <= k ==> OperatingHours(DayAt(earliest, d), policy).startsAt != ZERO_INSTANT;
    forall d: nat | d < days && OperatingHours(DayAt(earliest, d), policy).startsAt == ZERO_INSTANT
      ensures exists x :: StartWithin(chamber, rs, policy, earliest, duration, d, x)
    {
      assert k < d;
      assert StartWithin(chamber, rs, policy, earliest, duration, d, s);
    }
  }

  lemma DayWithoutStart(chamber: Chamber, rs: seq<Reservation>, policy: SchedulePolicy, earliest: Instant,
                        duration: Duration, k: nat, free: seq<Window>)
    requires policy.Valid() && duration > 0
    requires DaysPassed(chamber, rs, policy, earliest, duration, k)
    requires DayAccepted(chamber, rs, policy, DayAt(earliest, k), duration)
    requires FreeList(chamber, rs, policy, DayAt(earliest, k), duration, free)
    requires forall s :: !FitsSomewhere(free, earliest, duration, s)
    ensures DaysPassed(chamber, rs, policy, earliest, duration, k + 1)
  {
    EmptyDay(chamber, rs, policy, earliest, duration, k, free);
  }

  lemma AllDaysPassed(chamber: Chamber, rs: seq<Reservation>, policy: SchedulePolicy, earliest: Instant, duration: Duration,
                      days: nat)
    requires policy.Valid() && days > 0
    requires DaysPassed(chamber, rs, policy, earliest, duration, days)
    ensures ChamberAccepted(chamber, rs, policy, earliest, duration, days)
  {
    assert DayAccepted(chamber, rs, policy, DayAt(earliest, 0), duration);
    assert forall d: nat :: d < days ==> OperatingHours(DayAt(earliest, d), policy).startsAt != ZERO_INSTANT;
  }

  /** Whether the last candidate found so far belongs to a chamber id. */
  predicate LastIsFor(candidates: seq<SlotCandidate>, chamberID: string) {
    |candidates| > 0 && candidates[|candidates| - 1].chamberID == chamberID
  }

  /** The days that are searched: all of them, or only the first one when the candidate
      found last carries the same chamber id already. */
  function SearchDays(sofar: seq<SlotCandidate>, chamberID: string): nat {
    if LastIsFor(sofar, chamberID) then 1 else DAYS_AHEAD
  }

  /** The outcome of searching one chamber on top of the candidates found so far. */
  ghost function Searched(chamber: Chamber, rs: seq<Reservation>, policy: SchedulePolicy, earliest: Instant,
                          duration: Duration, sofar: seq<SlotCandidate>): Result<seq<SlotCandidate>>
    requires policy.Valid()
  {
    var days := SearchDays(sofar, chamber.id);
    if !ChamberAccepted(chamber, rs, policy, earliest, duration, days) then Err(Invalid)
    else if exists s :: IsEarliestStart(chamber, rs, policy, earliest, duration, days, s) then
      var s :| IsEarliestStart(chamber, rs, policy, earliest, duration, days, s);
      Ok(sofar + [CandidateAt(chamber, earliest, duration, s)])
    else Ok(sofar)
  }

  lemma EarliestStartFound(chamber: Chamber, rs: seq<Reservation>, policy: SchedulePolicy, earliest: Instant,
                           duration: Duration, sofar: seq<SlotCandidate>, s: Instant)
    requires policy.Valid()
    requires ChamberAccepted(chamber, rs, policy, earliest, duration, SearchDays(sofar, chamber.id))
    requires IsEarliestStart(chamber, rs, policy, earliest, duration, SearchDays(sofar, chamber.id), s)
    ensures Searched(chamber, rs, policy, earliest, duration, sofar) == Ok(sofar + [CandidateAt(chamber, earliest, duration, s)])
  {
    var days := SearchDays(sofar, chamber.id);
    forall x | IsEarliestStart(chamber, rs, policy, earliest, duration, days, x)
      ensures x == s
    {
      assert StartWithin(chamber, rs, policy, earliest, duration, days, x) && StartWithin(chamber, rs, policy, earliest, duration, days, s);
    }
  }

  lemma NoStartFound(chamber: Chamber, rs: seq<Reservation>, policy: SchedulePolicy, earliest: Instant,
                     duration: Duration, sofar: seq<SlotCandidate>)
    requires policy.Valid()
    requires DaysPassed(chamber, rs, policy, earliest, duration, SearchDays(sofar, chamber.id))
    ensures Searched(chamber, rs, policy, earliest, duration, sofar) == Ok(sofar)
  {
    var days := SearchDays(sofar, chamber.id);
    AllDaysPassed(chamber, rs, policy, earliest, duration, days);
    assert forall s :: !StartWithin(chamber, rs, policy, earliest, duration, days, s);
  }

  /** One round of the day loop: the earliest start, if this day has one. */
  method SearchDay(chamber: Chamber, reservations: seq<Reservation>, earliest: Instant, duration: Duration,
                   policy: SchedulePolicy, ghost days: nat, k: nat) returns (r: Result<Option<Instant>>)
    requires policy.Valid() && k < days
    requires DaysPassed(chamber, reservations, policy, earliest, duration, k)
    ensures r.Err? ==> r.error == Invalid && !ChamberAccepted(chamber, reservations, policy, earliest, duration, days)
    ensures r.Ok? && r.value.None? ==> DaysPassed(chamber, reservations, policy, earliest, duration, k + 1)
    ensures r.Ok? && r.value.Some? ==>
              && IsEarliestStart(chamber, reservations, policy, earliest, duration, days, r.value.value)
              && ChamberAccepted(chamber, reservations, policy, earliest, duration, days)
  {
    var windows := AvailableWindows(chamber, reservations, DayAt(earliest, k), duration, policy);
    if windows.Err? {
      DayRefused(chamber, reservations, policy, earliest, duration, days, k);
      return Err(windows.error);
    }
    var starts := FirstFit(windows.value, earliest, duration);
    if starts.Some? {
      StartFound(chamber, reservations, policy, earliest, duration, days, k, windows.value, starts.value);
    } else {
      DayWithoutStart(chamber, reservations, policy, earliest, duration, k, windows.value);
    }
    return Ok(starts);
  }

  method SearchChamber(chamber: Chamber, reservations: seq<Reservation>, earliest: Instant, duration: Duration,
                       policy: SchedulePolicy, sofar: seq<SlotCandidate>) returns (r: Result<seq<SlotCandidate>>)
    requires policy.Valid()
    ensures r == Searched(chamber, reservations, policy, earliest, duration, sofar)
  {
    ghost var days := SearchDays(sofar, chamber.id);
    var result := sofar;
    for dayOffset := 0 to DAYS_AHEAD
      invariant result == sofar && dayOffset <= days
      invariant dayOffset == 0 || !LastIsFor(sofar, chamber.id)
      invariant DaysPassed(chamber, reservations, policy, earliest, duration, dayOffset)
    {
      var found := SearchDay(chamber, reservations, earliest, duration, policy, days, dayOffset);
      if found.Err? {
        return Err(found.error);
      }
      if found.value.Some? {
        EarliestStartFound(chamber, reservations, policy, earliest, duration, sofar, found.value.value);
        result := result + [CandidateAt(chamber, earliest, duration, found.value.value)];
      } else if LastIsFor(sofar, chamber.id) {
        NoStartFound(chamber, reservations, policy, earliest, duration, sofar);
      }
      if LastIsFor(result, chamber.id) {
        return Ok(result);
      }
    }
    NoStartFound(chamber, reservations, policy, earliest, duration, sofar);
    return Ok(result);
  }

  /** The candidates of the first n chambers, in the order they are found. */
  ghost function Found(chambers: seq<Chamber>, n: nat, rs: seq<Reservation>, policy: SchedulePolicy, earliest: Instant,
                       duration: Duration, length: real, beam: real, draft: real): Result<seq<SlotCandidate>>
    requires policy.Valid() && n <= |chambers|
  {
    if n == 0 then Ok([])
    else
      var sofar :- Found(chambers, n - 1, rs, policy, earliest, duration, length, beam, draft);
      if chambers[n - 1].Fits(length, beam, draft) then Searched(chambers[n - 1], rs, policy, earliest, duration, sofar)
      else Ok(sofar)
  }

  lemma {:induction false} FailureStands(chambers: seq<Chamber>, n: nat, m: nat, rs: seq<Reservation>, policy: SchedulePolicy,
                                         earliest: Instant, duration: Duration, length: real, beam: real, draft: real)
    requires policy.Valid() && n <= m <= |chambers|
    requires Found(chambers, n, rs, policy, earliest, duration, length, beam, draft).Err?
    ensures Found(chambers, m, rs, policy, earliest, duration, length, beam, draft).Err?
  {
    if n < m {
      FailureStands(chambers, n, m - 1, rs, policy, earliest, duration, length, beam, draft);
    }
  }

  /** A candidate is determined by its chamber id and its start. */
  ghost predicate Shaped(earliest: Instant, duration: Duration, candidates: seq<SlotCandidate>) {
    forall c :: c in candidates ==> c.endsAt == c.startsAt + duration && c.wait == c.startsAt - earliest
  }

  /** Every candidate lies within the operating hours of its own local day, and starts no
      earlier than asked for. */
  ghost predicate KeepHours(policy: SchedulePolicy, earliest: Instant, candidates: seq<SlotCandidate>)
    requires policy.location.Some?
  {
    forall c :: c in candidates ==>
      earliest <= c.startsAt && WithinHours(policy, LocalDay(policy, c.startsAt), Window(c.startsAt, c.endsAt))
  }

  lemma EarliestKeepsHours(chamber: Chamber, rs: seq<Reservation>, policy: SchedulePolicy, earliest: Instant, duration: Duration,
                           days: nat, s: Instant)
    requires policy.Valid() && duration > 0 && IsEarliestStart(chamber, rs, policy, earliest, duration, days, s)
    ensures earliest <= s && WithinHours(policy, LocalDay(policy, s), Window(s, s + duration))
  {
    var k: nat :| k < days && StartOn(chamber, rs, policy, earliest, duration, k, s);
    StartIsPlain(chamber, rs, policy, earliest, duration, k, s);
    OwnDay(policy, LocalDay(policy, earliest) + k, Window(s, s + duration));
  }

  lemma SearchKeepsHours(chamber: Chamber, rs: seq<Reservation>, policy: SchedulePolicy, earliest: Instant, duration: Duration,
                         sofar: seq<SlotCandidate>)
    requires policy.Valid() && KeepHours(policy, earliest, sofar)
    ensures var searched := Searched(chamber, rs, policy, earliest, duration, sofar);
            searched.Ok? ==> KeepHours(policy, earliest, searched.value)
  {
    var searched := Searched(chamber, rs, policy, earliest, duration, sofar);
    var days := SearchDays(sofar, chamber.id);
    if searched.Ok? {
      if s :| IsEarliestStart(chamber, rs, policy, earliest, duration, days, s) {
        EarliestStartFound(chamber, rs, policy, earliest, duration, sofar, s);
        EarliestKeepsHours(chamber, rs, policy, earliest, duration, days, s);
      }
    }
  }

  lemma {:induction false} FoundKeepsHours(chambers: seq<Chamber>, n: nat, rs: seq<Reservation>, policy: SchedulePolicy,
                                           earliest: Instant, duration: Duration, length: real, beam: real, draft: real)
    requires policy.Valid() && n <= |chambers|
    ensures var found := Found(chambers, n, rs, policy, earliest, duration, length, beam, draft);
            found.Ok? ==> KeepHours(policy, earliest, found.value)
  {
    if n > 0 {
      FoundKeepsHours(chambers, n - 1, rs, policy, earliest, duration, length, beam, draft);
      var sofar := Found(chambers, n - 1, rs, policy, earliest, duration, length, beam, draft);
      if sofar.Ok? {
        SearchKeepsHours(chambers[n - 1], rs, policy, earliest, duration, sofar.value);
      }
    }
  }

  lemma {:induction false} FoundIsShaped(chambers: seq<Chamber>, n: nat, rs: seq<Reservation>, policy: SchedulePolicy,
                                         earliest: Instant, duration: Duration, length: real, beam: real, draft: real)
    requires policy.Valid() && n <= |chambers|
    ensures var found := Found(chambers, n, rs, policy, earliest, duration, length, beam, draft);
            found.Ok? ==> Shaped(earliest, duration, found.value)
  {
    if n > 0 {
      FoundIsShaped(chambers, n - 1, rs, policy, earliest, duration, length, beam, draft);
    }
  }

  ghost predicate DistinctIds(chambers: seq<Chamber>) {
    forall i, j :: 0 <= i < j < |chambers| ==> chambers[i].id != chambers[j].id
  }

  /** The candidates are those of the first n chambers: one for each that fits and has
      a start at all, carrying its earliest start. */
  ghost predicate CandidatesOf(chambers: seq<Chamber>, n: nat, rs: seq<Reservation>, policy: SchedulePolicy,
                               earliest: Instant, duration: Duration, length: real, beam: real, draft: real,
                               candidates: seq<SlotCandidate>)
    requires policy.Valid() && n <= |chambers|
  {
    && (forall c :: c in candidates ==>
          exists i :: 0 <= i < n && chambers[i].Fits(length, beam, draft) && Proposes(chambers[i], rs, policy, earliest, duration, DAYS_AHEAD, c))
    && (forall i :: 0 <= i < n && chambers[i].Fits(length, beam, draft) ==>
          forall s :: IsEarliestStart(chambers[i], rs, policy, earliest, duration, DAYS_AHEAD, s) ==>
            CandidateAt(chambers[i], earliest, duration, s) in candidates)
  }

  function CandidateAt(chamber: Chamber, earliest: Instant, duration: Duration, s: Instant): SlotCandidate {
    SlotCandidate(chamber.id, s, s + duration, s - earliest)
  }

  /** The candidate carries the earliest start of the days searched. */
  ghost predicate Proposes(chamber: Chamber, rs: seq<Reservation>, policy: SchedulePolicy, earliest: Instant,
                           duration: Duration, days: nat, c: SlotCandidate)
    requires policy.Valid()
  {
    IsEarliestStart(chamber, rs, policy, earliest, duration, days, c.startsAt)
    && c == CandidateAt(chamber, earliest, duration, c.startsAt)
  }

  predicate RankedNoLater(a: SlotCandidate, b: SlotCandidate) {
    if a.startsAt == b.startsAt then StringLeq(a.chamberID, b.chamberID) else a.startsAt < b.startsAt
  }

  predicate RankAllowed(earliest: Instant, policy: SchedulePolicy, now: Instant) {
    && SoundPolicy(policy)
    && now + policy.minimumNotice <= earliest <= now + policy.maximumAhead
  }

  ghost predicate AllAccepted(chambers: seq<Chamber>, n: nat, rs: seq<Reservation>, policy: SchedulePolicy, earliest: Instant,
                              duration: Duration, length: real, beam: real, draft: real)
    requires policy.Valid() && n <= |chambers|
  {
    forall i :: 0 <= i < n && chambers[i].Fits(length, beam, draft) ==>
      ChamberAccepted(chambers[i], rs, policy, earliest, duration, DAYS_AHEAD)
  }

  method RankSlotCandidates(chambers: seq<Chamber>, reservations: seq<Reservation>, earliest: Instant, duration: Duration,
                            length: real, beam: real, draft: real, policy: SchedulePolicy, now: Instant)
    returns (r: Result<seq<SlotCandidate>>)
    ensures r.Err? ==> r.error == Invalid
    ensures r.Ok? <==> RankAllowed(earliest, policy, now) &&
                       Found(chambers, |chambers|, reservations, policy, earliest, duration, length, beam, draft).Ok?
    ensures r.Ok? ==>
              && SortedBy(RankedNoLater, r.value) && Shaped(earliest, duration, r.value) && KeepHours(policy, earliest, r.value)
              && (forall i, j :: 0 <= i < j < |r.value| ==>
                    || r.value[i].startsAt < r.value[j].startsAt
                    || (r.value[i].startsAt == r.value[j].startsAt && StringLeq(r.value[i].chamberID, r.value[j].chamberID)))
              && multiset(r.value)
              == multiset(Found(chambers, |chambers|, reservations, policy, earliest, duration, length, beam, draft).value)
    ensures DistinctIds(chambers) ==>
              (r.Ok? <==> RankAllowed(earliest, policy, now) &&
                          AllAccepted(chambers, |chambers|, reservations, policy, earliest, duration, length, beam, draft))
    ensures r.Ok? && DistinctIds(chambers) ==>
              && CandidatesOf(chambers, |chambers|, reservations, policy, earliest, duration, length, beam, draft, r.value)
              && OnePerChamber(r.value)
  {
    if !policy.Valid() {
      return Err(Invalid);
    }
    if DistinctIds(chambers) {
      DistinctFound(chambers, |chambers|, reservations, policy, earliest, duration, length, beam, draft);
    }
    if earliest < now + policy.minimumNotice || earliest > now + policy.maximumAhead {
      return Err(Invalid);
    }
    var result: seq<SlotCandidate> := [];
    for i := 0 to |chambers|
      invariant Found(chambers, i, reservations, policy, earliest, duration, length, beam, draft) == Ok(result)
    {
      var chamber := chambers[i];
      if length > chamber.maxLength || beam > chamber.maxBeam || draft > chamber.maxDraft {
        continue;
      }
      var searched := SearchChamber(chamber, reservations, earliest, duration, policy, result);
      if searched.Err? {
        FailureStands(chambers, i + 1, |chambers|, reservations, policy, earliest, duration, length, beam, draft);
        return Err(searched.error);
      }
      result := searched.value;
    }
    RankedIsPreorder();
    var ranked := Sort(RankedNoLater, result);
    FoundIsShaped(chambers, |chambers|, reservations, policy, earliest, duration, length, beam, draft);
    FoundKeepsHours(chambers, |chambers|, reservations, policy, earliest, duration, length, beam, draft);
    ChronologicalRanking(ranked);
    if DistinctIds(chambers) {
      OnePerChamberIgnoresOrder(result, ranked);
    }
    return Ok(ranked);
  }

  /** No candidate is repeated and no chamber has two. */
  ghost predicate OnePerChamber(candidates: seq<SlotCandidate>) {
    && (forall c, d :: c in candidates && d in candidates && c.chamberID == d.chamberID ==> c == d)
    && (forall c :: multiset(candidates)[c] <= 1)
  }

  lemma OnePerChamberIgnoresOrder(a: seq<SlotCandidate>, b: seq<SlotCandidate>)
    requires multiset(a) == multiset(b) && OnePerChamber(a)
    ensures OnePerChamber(b)
  {
    SameElements(a, b);
  }

  lemma ChronologicalRanking(ranked: seq<SlotCandidate>)
    requires SortedBy(RankedNoLater, ranked)
    ensures forall i, j :: 0 <= i < j < |ranked| ==>
              || ranked[i].startsAt < ranked[j].startsAt
              || (ranked[i].startsAt == ranked[j].startsAt && StringLeq(ranked[i].chamberID, ranked[j].chamberID))
  {
  }

  lemma RankedIsPreorder()
    ensures TotalPreorder(RankedNoLater)
  {
    StringLessIsStrictOrder();
  }

  /** Candidates that tie are equal, so the unstable sort still determines the answer. */
  lemma RankingUnique(a: seq<SlotCandidate>, b: seq<SlotCandidate>, earliest: Instant, duration: Duration)
    requires SortedBy(RankedNoLater, a) && SortedBy(RankedNoLater, b)
    requires multiset(a) == multiset(b) && Shaped(earliest, duration, a)
    ensures a == b
  {
    StringLessIsStrictOrder();
    SortedPermutationUnique(RankedNoLater, a, b);
  }

  lemma IdsAreEarlier(chambers: seq<Chamber>, n: nat, rs: seq<Reservation>, policy: SchedulePolicy,
                      earliest: Instant, duration: Duration, length: real, beam: real, draft: real,
                      candidates: seq<SlotCandidate>)
    requires policy.Valid() && n < |chambers| && DistinctIds(chambers)
    requires CandidatesOf(chambers, n, rs, policy, earliest, duration, length, beam, draft, candidates)
    ensures forall c :: c in candidates ==> c.chamberID != chambers[n].id
    ensures !LastIsFor(candidates, chambers[n].id)
  {
  }

  lemma SearchExtends(chambers: seq<Chamber>, n: nat, rs: seq<Reservation>, policy: SchedulePolicy,
                      earliest: Instant, duration: Duration, length: real, beam: real, draft: real, sofar: seq<SlotCandidate>)
    requires policy.Valid() && n < |chambers| && DistinctIds(chambers)
    requires CandidatesOf(chambers, n, rs, policy, earliest, duration, length, beam, draft, sofar)
    requires OnePerChamber(sofar) && chambers[n].Fits(length, beam, draft)
    ensures
      var searched := Searched(chambers[n], rs, policy, earliest, duration, sofar);
      && (searched.Ok? <==> ChamberAccepted(chambers[n], rs, policy, earliest, duration, DAYS_AHEAD))
      && (searched.Ok? ==>
            && CandidatesOf(chambers, n + 1, rs, policy, earliest, duration, length, beam, draft, searched.value)
            && OnePerChamber(searched.value))
  {
    IdsAreEarlier(chambers, n, rs, policy, earliest, duration, length, beam, draft, sofar);
    var searched := Searched(chambers[n], rs, policy, earliest, duration, sofar);
    if searched.Ok? {
      if s :| IsEarliestStart(chambers[n], rs, policy, earliest, duration, DAYS_AHEAD, s) {
        EarliestStartFound(chambers[n], rs, policy, earliest, duration, sofar, s);
        CandidateAdded(chambers, n, rs, policy, earliest, duration, length, beam, draft, sofar, s);
      }
    }
  }

  /** A chamber that has a start at all has an earliest one. */
  lemma {:induction false} EarliestExists(chamber: Chamber, rs: seq<Reservation>, policy: SchedulePolicy, earliest: Instant,
                                          duration: Duration, days: nat, x: Instant)
    requires policy.Valid() && StartWithin(chamber, rs, policy, earliest, duration, days, x)
    ensures exists s :: IsEarliestStart(chamber, rs, policy, earliest, duration, days, s)
    decreases x - earliest
  {
    if y :| StartWithin(chamber, rs, policy, earliest, duration, days, y) && y < x {
      EarliestExists(chamber, rs, policy, earliest, duration, days, y);
    } else {
      assert IsEarliestStart(chamber, rs, policy, earliest, duration, days, x);
    }
  }

  /** The search leaves the candidates as they are exactly if the days searched have no
      start at all. */
  lemma SearchAddsNothingIff(chamber: Chamber, rs: seq<Reservation>, policy: SchedulePolicy, earliest: Instant,
                             duration: Duration, sofar: seq<SlotCandidate>)
    requires policy.Valid() && ChamberAccepted(chamber, rs, policy, earliest, duration, SearchDays(sofar, chamber.id))
    ensures Searched(chamber, rs, policy, earliest, duration, sofar) == Ok(sofar)
       <==> NoStartBefore(chamber, rs, policy, earliest, duration, SearchDays(sofar, chamber.id))
  {
    var days := SearchDays(sofar, chamber.id);
    if x :| StartWithin(chamber, rs, policy, earliest, duration, days, x) {
      EarliestExists(chamber, rs, policy, earliest, duration, days, x);
      var s :| IsEarliestStart(chamber, rs, policy, earliest, duration, days, s);
      EarliestStartFound(chamber, rs, policy, earliest, duration, sofar, s);
      assert |sofar + [CandidateAt(chamber, earliest, duration, s)]| == |sofar| + 1;
    }
  }

  // ---- Repeated chamber ids --------------------------------------------------------------

  lemma FewerDaysAccepted(chamber: Chamber, rs: seq<Reservation>, policy: SchedulePolicy, earliest: Instant, duration: Duration)
    requires policy.Valid() && ChamberAccepted(chamber, rs, policy, earliest, duration, DAYS_AHEAD)
    ensures ChamberAccepted(chamber, rs, policy, earliest, duration, 1)
  {
  }

  lemma FirstDayStart(chamber: Chamber, rs: seq<Reservation>, policy: SchedulePolicy, earliest: Instant, duration: Duration,
                      s: Instant)
    requires policy.Valid() && IsEarliestStart(chamber, rs, policy, earliest, duration, DAYS_AHEAD, s)
    ensures IsEarliestStart(chamber, rs, policy, earliest, duration, 1, s) <==> StartOn(chamber, rs, policy, earliest, duration, 0, s)
    ensures forall x :: StartWithin(chamber, rs, policy, earliest, duration, 1, x) ==>
              StartWithin(chamber, rs, policy, earliest, duration, DAYS_AHEAD, x)
  {
    forall x | StartWithin(chamber, rs, policy, earliest, duration, 1, x)
      ensures StartWithin(chamber, rs, policy, earliest, duration, DAYS_AHEAD, x)
    {
      assert StartOn(chamber, rs, policy, earliest, duration, 0, x);
    }
  }

  /** Exactly when a chamber gets its earliest start of the whole horizon: the candidate
      found last carries another id, or the start is on the first day. */
  lemma SearchCompleteIff(chamber: Chamber, rs: seq<Reservation>, policy: SchedulePolicy, earliest: Instant, duration: Duration,
                          sofar: seq<SlotCandidate>, s: Instant)
    requires policy.Valid() && ChamberAccepted(chamber, rs, policy, earliest, duration, DAYS_AHEAD)
    requires IsEarliestStart(chamber, rs, policy, earliest, duration, DAYS_AHEAD, s)
    ensures Searched(chamber, rs, policy, earliest, duration, sofar) == Ok(sofar + [CandidateAt(chamber, earliest, duration, s)])
       <==> !LastIsFor(sofar, chamber.id) || StartOn(chamber, rs, policy, earliest, duration, 0, s)
  {
    FewerDaysAccepted(chamber, rs, policy, earliest, duration);
    FirstDayStart(chamber, rs, policy, earliest, duration, s);
    var days := SearchDays(sofar, chamber.id);
    if IsEarliestStart(chamber, rs, policy, earliest, duration, days, s) {
      EarliestStartFound(chamber, rs, policy, earliest, duration, sofar, s);
    } else {
      NotTheEarliest(chamber, rs, policy, earliest, duration, sofar, s);
    }
  }

  lemma NotTheEarliest(chamber: Chamber, rs: seq<Reservation>, policy: SchedulePolicy, earliest: Instant, duration: Duration,
                       sofar: seq<SlotCandidate>, s: Instant)
    requires policy.Valid() && !IsEarliestStart(chamber, rs, policy, earliest, duration, SearchDays(sofar, chamber.id), s)
    ensures Searched(chamber, rs, policy, earliest, duration, sofar) != Ok(sofar + [CandidateAt(chamber, earliest, duration, s)])
  {
    var days := SearchDays(sofar, chamber.id);
    var wanted := sofar + [CandidateAt(chamber, earliest, duration, s)];
    assert |wanted| == |sofar| + 1 && wanted[|sofar|].startsAt == s;
    if exists x :: IsEarliestStart(chamber, rs, policy, earliest, duration, days, x) {
      if ChamberAccepted(chamber, rs, policy, earliest, duration, days) {
        var x :| IsEarliestStart(chamber, rs, policy, earliest, duration, days, x) &&
                 Searched(chamber, rs, policy, earliest, duration, sofar) == Ok(sofar + [CandidateAt(chamber, earliest, duration, x)]);
        assert (sofar + [CandidateAt(chamber, earliest, duration, x)])[|sofar|].startsAt == x;
      }
    }
  }

  const DAYTIME := SchedulePolicy(6 * HOUR, 18 * HOUR, 0, 0, 30 * DAY, Some(0))

  /** The second of two chambers with one id is under maintenance all the first day. It has
      a start on the second day, which the ranking misses. */
  lemma RepeatedIdMissesStart()
    ensures
      var first := Chamber("c", 1.0, 1.0, 1.0, None, None);
      var second := Chamber("c", 1.0, 1.0, 1.0, Some(DAY), Some(2 * DAY));
      var earliest := DAY + 6 * HOUR;
      && IsEarliestStart(second, [], DAYTIME, earliest, HOUR, DAYS_AHEAD, 2 * DAY + 6 * HOUR)
      && Found([first, second], 2, [], DAYTIME, earliest, HOUR, 1.0, 1.0, 1.0) == Ok([CandidateAt(first, earliest, HOUR, earliest)])
  {
    var first := Chamber("c", 1.0, 1.0, 1.0, None, None);
    var second := Chamber("c", 1.0, 1.0, 1.0, Some(DAY), Some(2 * DAY));
    var earliest := DAY + 6 * HOUR;
    var c := CandidateAt(first, earliest, HOUR, earliest);
    OnlyFirstFound(first, second, earliest);
    SecondIsLater(second, earliest);
    NoStartFound(second, [], DAYTIME, earliest, HOUR, [c]);
  }

  lemma OnlyFirstFound(first: Chamber, second: Chamber, earliest: Instant)
    requires first == Chamber("c", 1.0, 1.0, 1.0, None, None) && earliest == DAY + 6 * HOUR
    ensures Found([first, second], 1, [], DAYTIME, earliest, HOUR, 1.0, 1.0, 1.0) == Ok([CandidateAt(first, earliest, HOUR, earliest)])
  {
    var c := CandidateAt(first, earliest, HOUR, earliest);
    FirstIsFree(first, earliest);
    EarliestStartFound(first, [], DAYTIME, earliest, HOUR, [], earliest);
    assert [] + [c] == [c];
    assert Found([first, second], 0, [], DAYTIME, earliest, HOUR, 1.0, 1.0, 1.0) == Ok([]);
  }

  lemma DaytimeHours(k: nat)
    ensures OperatingHours(DayAt(DAY + 6 * HOUR, k), DAYTIME) == Window((k + 1) * DAY + 6 * HOUR, (k + 1) * DAY + 18 * HOUR)
  {
    MidnightNextDay(DAY + 6 * HOUR, k, 0);
  }

  lemma FirstIsFree(first: Chamber, earliest: Instant)
    requires !first.HasMaintenance() && earliest == DAY + 6 * HOUR
    ensures ChamberAccepted(first, [], DAYTIME, earliest, HOUR, DAYS_AHEAD)
    ensures IsEarliestStart(first, [], DAYTIME, earliest, HOUR, DAYS_AHEAD, earliest)
  {
    forall k: nat
      ensures OperatingHours(DayAt(earliest, k), DAYTIME).startsAt != ZERO_INSTANT
    {
      DaytimeHours(k);
    }
    DaytimeHours(0);
    assert StartOn(first, [], DAYTIME, earliest, HOUR, 0, earliest);
  }

  lemma SecondIsLater(second: Chamber, earliest: Instant)
    requires second.maintenanceFrom == Some(DAY) && second.maintenanceTo == Some(2 * DAY) && earliest == DAY + 6 * HOUR
    ensures DaysPassed(second, [], DAYTIME, earliest, HOUR, 1)
    ensures IsEarliestStart(second, [], DAYTIME, earliest, HOUR, DAYS_AHEAD, 2 * DAY + 6 * HOUR)
  {
    DaytimeHours(0);
    DaytimeHours(1);
    assert StartOn(second, [], DAYTIME, earliest, HOUR, 1, 2 * DAY + 6 * HOUR);
    forall k: nat, x | StartOn(second, [], DAYTIME, earliest, HOUR, k, x)
      ensures k > 0 && 2 * DAY + 6 * HOUR <= x
    {
      DaytimeHours(k);
      assert !second.Maintenance().Overlaps(Window(x, x + HOUR));
    }
  }

  /** The earliest start of the horizon in plain arithmetic, over thirty-one local days. */
  lemma EarliestIsPlain(chamber: Chamber, rs: seq<Reservation>, policy: SchedulePolicy, earliest: Instant, duration: Duration,
                        s: Instant)
    requires policy.Valid()
    ensures IsEarliestStart(chamber, rs, policy, earliest, duration, DAYS_AHEAD, s) <==>
              && (exists k: nat :: k < 31 && PlainStart(chamber, rs, policy, earliest, duration, k, s))
              && forall k: nat, x :: k < 31 && PlainStart(chamber, rs, policy, earliest, duration, k, x) ==> s <= x
  {
    forall k: nat, x
      ensures StartOn(chamber, rs, policy, earliest, duration, k, x) <==> PlainStart(chamber, rs, policy, earliest, duration, k, x)
    {
      StartIsPlain(chamber, rs, policy, earliest, duration, k, x);
    }
    if k: nat :| k < 31 && PlainStart(chamber, rs, policy, earliest, duration, k, s) {
      assert StartOn(chamber, rs, policy, earliest, duration, k, s);
    }
    forall k: nat, x | k < 31 && PlainStart(chamber, rs, policy, earliest, duration, k, x)
      ensures StartWithin(chamber, rs, policy, earliest, duration, DAYS_AHEAD, x)
    {
      assert StartOn(chamber, rs, policy, earliest, duration, k, x);
    }
  }

  const WESTERN := SchedulePolicy(6 * HOUR, 22 * HOUR, 0, 0, 30 * DAY, Some(-5 * HOUR))

  /** Five hours west, at three in the afternoon, which is twenty hours in universal time:
      an empty chamber is free at once. */
  lemma AfternoonInTheWest()
    ensures IsEarliestStart(Chamber("c", 1.0, 1.0, 1.0, None, None), [], WESTERN, DAY + 20 * HOUR, HOUR, DAYS_AHEAD, DAY + 20 * HOUR)
  {
    var chamber, earliest := Chamber("c", 1.0, 1.0, 1.0, None, None), DAY + 20 * HOUR;
    SameDay(earliest - 5 * HOUR, 1);
    assert PlainStart(chamber, [], WESTERN, earliest, HOUR, 0, earliest);
    EarliestIsPlain(chamber, [], WESTERN, earliest, HOUR, earliest);
  }

  lemma CandidateAdded(chambers: seq<Chamber>, n: nat, rs: seq<Reservation>, policy: SchedulePolicy,
                       earliest: Instant, duration: Duration, length: real, beam: real, draft: real,
                       sofar: seq<SlotCandidate>, s: Instant)
    requires policy.Valid() && n < |chambers| && DistinctIds(chambers)
    requires CandidatesOf(chambers, n, rs, policy, earliest, duration, length, beam, draft, sofar)
    requires OnePerChamber(sofar) && chambers[n].Fits(length, beam, draft)
    requires IsEarliestStart(chambers[n], rs, policy, earliest, duration, DAYS_AHEAD, s)
    ensures
      var result := sofar + [CandidateAt(chambers[n], earliest, duration, s)];
      && CandidatesOf(chambers, n + 1, rs, policy, earliest, duration, length, beam, draft, result)
      && OnePerChamber(result)
  {
    IdsAreEarlier(chambers, n, rs, policy, earliest, duration, length, beam, draft, sofar);
    var c := CandidateAt(chambers[n], earliest, duration, s);
    assert forall x :: x in sofar + [c] <==> x in sofar || x == c;
    assert c !in sofar;
    assert Proposes(chambers[n], rs, policy, earliest, duration, DAYS_AHEAD, c);
    forall x | IsEarliestStart(chambers[n], rs, policy, earliest, duration, DAYS_AHEAD, x)
      ensures x == s
    {
      assert StartWithin(chambers[n], rs, policy, earliest, duration, DAYS_AHEAD, x);
      assert StartWithin(chambers[n], rs, policy, earliest, duration, DAYS_AHEAD, s);
    }
  }

  lemma AllAcceptedStep(chambers: seq<Chamber>, n: nat, rs: seq<Reservation>, policy: SchedulePolicy, earliest: Instant,
                        duration: Duration, length: real, beam: real, draft: real)
    requires policy.Valid() && n < |chambers|
    ensures AllAccepted(chambers, n + 1, rs, policy, earliest, duration, length, beam, draft)
       <==> AllAccepted(chambers, n, rs, policy, earliest, duration, length, beam, draft) &&
            (chambers[n].Fits(length, beam, draft) ==> ChamberAccepted(chambers[n], rs, policy, earliest, duration, DAYS_AHEAD))
  {
  }

  /** Distinct chambers do not disturb each other's search. */
  lemma {:induction false} DistinctFound(chambers: seq<Chamber>, n: nat, rs: seq<Reservation>, policy: SchedulePolicy,
                                         earliest: Instant, duration: Duration, length: real, beam: real, draft: real)
    requires policy.Valid() && n <= |chambers| && DistinctIds(chambers)
    ensures
      var found := Found(chambers, n, rs, policy, earliest, duration, length, beam, draft);
      && (found.Ok? <==> AllAccepted(chambers, n, rs, policy, earliest, duration, length, beam, draft))
      && (found.Ok? ==>
            && CandidatesOf(chambers, n, rs, policy, earliest, duration, length, beam, draft, found.value)
            && OnePerChamber(found.value))
  {
    if n > 0 {
      DistinctFound(chambers, n - 1, rs, policy, earliest, duration, length, beam, draft);
      AllAcceptedStep(chambers, n - 1, rs, policy, earliest, duration, length, beam, draft);
      var sofar := Found(chambers, n - 1, rs, policy, earliest, duration, length, beam, draft);
      if sofar.Ok? {
        if chambers[n - 1].Fits(length, beam, draft) {
          SearchExtends(chambers, n - 1, rs, policy, earliest, duration, length, beam, draft, sofar.value);
        } else {
          MisfitAddsNothing(chambers, n - 1, rs, policy, earliest, duration, length, beam, draft, sofar.value);
        }
      }
    }
  }

  lemma MisfitAddsNothing(chambers: seq<Chamber>, n: nat, rs: seq<Reservation>, policy: SchedulePolicy, earliest: Instant,
                          duration: Duration, length: real, beam: real, draft: real, sofar: seq<SlotCandidate>)
    requires policy.Valid() && n < |chambers| && !chambers[n].Fits(length, beam, draft)
    requires CandidatesOf(chambers, n, rs, policy, earliest, duration, length, beam, draft, sofar)
    ensures CandidatesOf(chambers, n + 1, rs, policy, earliest, duration, length, beam, draft, sofar)
  {
  }

  /** Reserve accepts every candidate that the ranking proposes. */
  lemma ReserveAcceptsCandidate(id: string, voyageID: string, tenant: string, chamber: Chamber, rs: seq<Reservation>,
                                policy: SchedulePolicy, earliest: Instant, duration: Duration,
                                length: real, beam: real, draft: real, days: nat, c: SlotCandidate)
    requires id != "" && voyageID != "" && tenant != "" && chamber.id != ""
    requires length > 0.0 && beam > 0.0 && draft > 0.0 && chamber.Fits(length, beam, draft)
    requires policy.Valid() && 0 < duration <= 3 * HOUR
    requires Proposes(chamber, rs, policy, earliest, duration, days, c)
    ensures Reserve(id, voyageID, tenant, chamber, Window(c.startsAt, c.endsAt), length, beam, draft, Rows(rs)).Ok?
  {
    var slot := Window(c.startsAt, c.endsAt);
    var k: nat :| k < days && StartOn(chamber, rs, policy, earliest, duration, k, c.startsAt);
    assert Available(chamber, rs, policy, slot);
    forall r | r in Rows(rs) && Occupies(r, chamber.id)
      ensures !slot.Overlaps(r.Slot())
    {
      assert !Buffered(r, policy).Overlaps(slot);
    }
  }
}
