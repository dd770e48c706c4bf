/** Half-open time windows: merging and subtraction (internal/domain/timewindow.go). */
module TimeWindows {
  import opened Core

  datatype Window = Window(startsAt: Instant, endsAt: Instant) {
    function Duration(): Duration { endsAt - startsAt }

    predicate Contains(at: Instant) { startsAt <= at < endsAt }

    predicate Overlaps(other: Window) { startsAt < other.endsAt && other.startsAt < endsAt }
  }

  function NewTimeWindow(startsAt: Instant, endsAt: Instant, maximum: Duration): Result<Window> {
    if startsAt == ZERO_INSTANT || endsAt <= startsAt || (maximum > 0 && endsAt - startsAt > maximum)
    then Err(Invalid)
    else Ok(Window(startsAt, endsAt))
  }

  /** What NewTimeWindow accepts when no maximum is given. */
  predicate Proper(w: Window) { w.startsAt != ZERO_INSTANT && w.startsAt < w.endsAt }

  /** A window is half open: two proper windows overlap exactly if they share an instant. */
  lemma OverlapMeansShared(a: Window, b: Window)
    requires a.startsAt < a.endsAt && b.startsAt < b.endsAt
    ensures a.Overlaps(b) <==> exists at: Instant :: a.Contains(at) && b.Contains(at)
    ensures forall at: Instant :: a.Contains(at) <==> a.startsAt <= at && at < a.endsAt
  {
    if a.Overlaps(b) {
      var at := Max(a.startsAt, b.startsAt);
      assert a.Contains(at) && b.Contains(at);
    }
  }

  /** What NewTimeWindow accepts: a start, a later end, and no more than the maximum if one
      is given. */
  lemma NewTimeWindowTells(from: Instant, to: Instant, maximum: Duration)
    ensures NewTimeWindow(from, to, maximum) ==
            if from == 0 || to <= from || (maximum > 0 && to - from > maximum) then Err(Invalid) else Ok(Window(from, to))
  {
  }

  ghost predicate Covered(ws: seq<Window>, t: Instant) {
    exists w :: w in ws && w.Contains(t)
  }

  /** Nonempty, in order, and with a gap of at least one tick between neighbours. */
  ghost predicate Separated(ws: seq<Window>) {
    && (forall i :: 0 <= i < |ws| ==> ws[i].startsAt < ws[i].endsAt)
    && (forall i, j :: 0 <= i < j < |ws| ==> ws[i].endsAt < ws[j].startsAt)
  }

  ghost predicate SameCoverage(a: seq<Window>, b: seq<Window>) {
    forall t :: Covered(a, t) <==> Covered(b, t)
  }

  ghost predicate Clear(w: Window, blocked: seq<Window>) {
    forall b :: b in blocked ==> !b.Overlaps(w)
  }

  predicate Inside(inner: Window, outer: Window) {
    outer.startsAt <= inner.startsAt && inner.endsAt <= outer.endsAt
  }

  ghost predicate InsideSome(w: Window, ws: seq<Window>) {
    exists k :: 0 <= k < |ws| && Inside(w, ws[k])
  }

  /** Separated windows are a canonical form: equal coverage means equal lists. */
  lemma {:induction false} SeparatedIsCanonical(a: seq<Window>, b: seq<Window>)
    requires Separated(a) && Separated(b)
    requires SameCoverage(a, b)
    ensures a == b
  {
    BothEmpty(a, b);
    if a != [] && b != [] {
      HeadAgrees(a, b);
      HeadAgrees(b, a);
      TailsAgree(a, b);
      SeparatedIsCanonical(a[1..], b[1..]);
      assert a == [a[0]] + a[1..] && b == [b[0]] + b[1..];
    }
  }

  lemma BothEmpty(a: seq<Window>, b: seq<Window>)
    requires Separated(a) && Separated(b) && SameCoverage(a, b)
    ensures a == [] <==> b == []
  {
    HeadCovers(a);
    HeadCovers(b);
  }

  lemma TailsAgree(a: seq<Window>, b: seq<Window>)
    requires Separated(a) && Separated(b) && a != [] && b != [] && a[0] == b[0]
    requires SameCoverage(a, b)
    ensures Separated(a[1..]) && Separated(b[1..]) && SameCoverage(a[1..], b[1..])
  {
    forall t
      ensures Covered(a[1..], t) <==> Covered(b[1..], t)
    {
      CoveredTail(a, t);
      CoveredTail(b, t);
    }
  }

  lemma HeadCovers(a: seq<Window>)
    requires Separated(a)
    ensures a != [] ==> forall t :: a[0].Contains(t) ==> Covered(a, t)
    ensures a != [] ==> Covered(a, a[0].startsAt) && !Covered(a, a[0].endsAt)
    ensures a != [] ==> forall t :: Covered(a, t) ==> a[0].startsAt <= t
  {
    if a != [] {
      assert a[0] in a && a[0].Contains(a[0].startsAt);
    }
  }

  lemma CoveredTail(a: seq<Window>, t: Instant)
    requires Separated(a) && a != []
    ensures Covered(a[1..], t) <==> Covered(a, t) && !a[0].Contains(t)
  {
    assert forall w :: w in a <==> w == a[0] || w in a[1..];
    assert forall w :: w in a[1..] && w.Contains(t) ==> !a[0].Contains(t);
  }

  lemma HeadAgrees(a: seq<Window>, b: seq<Window>)
    requires Separated(a) && Separated(b) && a != [] && b != []
    requires SameCoverage(a, b)
    ensures b[0].startsAt <= a[0].startsAt
    ensures a[0].startsAt == b[0].startsAt ==> b[0].endsAt <= a[0].endsAt
  {
    HeadCovers(a);
    HeadCovers(b);
  }

  lemma OverlapSharesTick(a: Window, b: Window)
    requires a.startsAt < a.endsAt && b.startsAt < b.endsAt
    ensures a.Overlaps(b) <==> exists t :: a.Contains(t) && b.Contains(t)
  {
    if a.Overlaps(b) {
      var t := Max(a.startsAt, b.startsAt);
      assert a.Contains(t) && b.Contains(t);
    }
  }

  /** Being clear of a set of windows only depends on the instants they cover. */
  lemma ClearFollowsCoverage(w: Window, a: seq<Window>, b: seq<Window>)
    requires w.startsAt < w.endsAt
    requires forall x :: x in a ==> x.startsAt < x.endsAt
    requires forall x :: x in b ==> x.startsAt < x.endsAt
    requires SameCoverage(a, b)
    ensures Clear(w, a) <==> Clear(w, b)
  {
    if Clear(w, a) {
      ClearOneWay(w, a, b);
    }
    if Clear(w, b) {
      ClearOneWay(w, b, a);
    }
  }

  lemma ClearOneWay(w: Window, a: seq<Window>, b: seq<Window>)
    requires w.startsAt < w.endsAt
    requires forall x :: x in a ==> x.startsAt < x.endsAt
    requires forall x :: x in b ==> x.startsAt < x.endsAt
    requires SameCoverage(a, b) && Clear(w, a)
    ensures Clear(w, b)
  {
    forall x | x in b
      ensures !x.Overlaps(w)
    {
      if x.Overlaps(w) {
        OverlapSharesTick(x, w);
        var t :| x.Contains(t) && w.Contains(t);
        assert Covered(b, t);
        assert Covered(a, t);
        var y :| y in a && y.Contains(t);
        OverlapSharesTick(y, w);
        assert false;
      }
    }
  }

  predicate StartsBefore(a: Window, b: Window) {
    if a.startsAt == b.startsAt then a.endsAt <= b.endsAt else a.startsAt < b.startsAt
  }

  lemma AbsorbCoverage(ws: seq<Window>, last: Window, candidate: Window, t: Instant)
    requires candidate.startsAt <= last.endsAt && last.startsAt <= candidate.startsAt
    ensures Covered(ws + [Window(last.startsAt, Max(last.endsAt, candidate.endsAt))], t)
         <==> Covered(ws + [last] + [candidate], t)
  {
    var grown := Window(last.startsAt, Max(last.endsAt, candidate.endsAt));
    assert grown.Contains(t) <==> last.Contains(t) || candidate.Contains(t);
    CoveredAppend(ws, grown, t);
    CoveredAppend(ws, last, t);
    CoveredAppend(ws + [last], candidate, t);
  }

  lemma CoveredAppend(ws: seq<Window>, w: Window, t: Instant)
    ensures Covered(ws + [w], t) <==> Covered(ws, t) || w.Contains(t)
  {
    assert forall x :: x in ws + [w] <==> x in ws || x == w;
  }

  lemma SameAppended(a: seq<Window>, b: seq<Window>, w: Window)
    requires SameCoverage(a, b)
    ensures SameCoverage(a + [w], b + [w])
  {
    forall t
      ensures Covered(a + [w], t) <==> Covered(b + [w], t)
    {
      CoveredAppend(a, w, t);
      CoveredAppend(b, w, t);
    }
  }

  /** A window that starts before the last one ends only extends it, if anything. */
  lemma Absorbed(front: seq<Window>, last: Window, seen: seq<Window>, candidate: Window)
    requires SameCoverage(front + [last], seen)
    requires candidate.startsAt <= last.endsAt && last.startsAt <= candidate.startsAt
    ensures SameCoverage(front + [Window(last.startsAt, Max(last.endsAt, candidate.endsAt))], seen + [candidate])
  {
    SameAppended(front + [last], seen, candidate);
    forall t
      ensures Covered(front + [Window(last.startsAt, Max(last.endsAt, candidate.endsAt))], t) <==> Covered(seen + [candidate], t)
    {
      AbsorbCoverage(front, last, candidate, t);
    }
  }

  method MergeWindows(windows: seq<Window>) returns (r: Result<seq<Window>>)
    ensures r.Ok? <==> forall w :: w in windows ==> Proper(w)
    ensures r.Err? ==> r.error == Invalid
    ensures r.Ok? ==> Separated(r.value) && SameCoverage(r.value, windows)
  {
    if |windows| == 0 {
      return Ok([]);
    }
    for i := 0 to |windows|
      invariant forall j :: 0 <= j < i ==> Proper(windows[j])
    {
      if NewTimeWindow(windows[i].startsAt, windows[i].endsAt, 0).Err? {
        assert windows[i] in windows;
        return Err(Invalid);
      }
    }
    var ordered := Sort(StartsBefore, windows);
    assert forall i :: 0 <= i < |ordered| ==> ordered[i] in windows;
    var merged := [ordered[0]];
    for i := 1 to |ordered|
      invariant merged != [] && Separated(merged)
      invariant forall k :: i <= k < |ordered| ==> merged[|merged| - 1].startsAt <= ordered[k].startsAt
      invariant SameCoverage(merged, ordered[..i])
    {
      var candidate := ordered[i];
      var last := merged[|merged| - 1];
      var front := merged[..|merged| - 1];
      assert merged == front + [last];
      assert ordered[..i + 1] == ordered[..i] + [candidate];
      if candidate.startsAt > last.endsAt {
        SameAppended(merged, ordered[..i], candidate);
        merged := merged + [candidate];
      } else {
        Absorbed(front, last, ordered[..i], candidate);
        if candidate.endsAt > last.endsAt {
          merged := front + [Window(last.startsAt, candidate.endsAt)];
        }
      }
    }
    assert ordered[..|ordered|] == ordered;
    r := Ok(merged);
  }

  /** Every result is a free stretch; every free stretch of at least the minimum
      length lies inside one result. */
  ghost predicate FreeWindows(base: Window, blocked: seq<Window>, minimum: Duration, free: seq<Window>) {
    && (forall k :: 0 <= k < |free| ==> FreeStretch(base, blocked, minimum, free[k]))
    && (forall i, j :: 0 <= i < j < |free| ==> free[i].endsAt < free[j].startsAt)
    && (forall w :: FreeStretch(base, blocked, minimum, w) ==> InsideSome(w, free))
  }

  ghost predicate FreeStretch(base: Window, blocked: seq<Window>, minimum: Duration, w: Window) {
    Inside(w, base) && w.Duration() >= minimum && Clear(w, blocked)
  }

  /** What the sweep of SubtractWindows has established once the first i merged
      windows have been passed. */
  ghost predicate Swept(base: Window, merged: seq<Window>, i: nat, minimum: Duration,
                        cursor: Instant, free: seq<Window>)
    requires i <= |merged|
  {
    && base.startsAt <= cursor <= base.endsAt
    && GapsFound(base, merged, minimum, cursor, free)
    && Passed(base, merged, i, cursor)
    && NothingMissed(base, merged, minimum, cursor, free)
  }

  ghost predicate GapsFound(base: Window, merged: seq<Window>, minimum: Duration, cursor: Instant, free: seq<Window>) {
    && (forall k :: 0 <= k < |free| ==> free[k].endsAt < cursor && FreeStretch(base, merged, minimum, free[k]))
    && (forall j, k :: 0 <= j < k < |free| ==> free[j].endsAt < free[k].startsAt)
  }

  ghost predicate Passed(base: Window, merged: seq<Window>, i: nat, cursor: Instant)
    requires i <= |merged|
  {
    forall j :: 0 <= j < i ==> merged[j].endsAt <= cursor || cursor == base.endsAt || merged[j].startsAt >= base.endsAt
  }

  ghost predicate NothingMissed(base: Window, merged: seq<Window>, minimum: Duration, cursor: Instant, free: seq<Window>) {
    forall w :: FreeStretch(base, merged, minimum, w) ==> InsideSome(w, free) || cursor <= w.startsAt
  }

  method SubtractWindows(base: Window, blocked: seq<Window>, minimum: Duration)
    returns (r: Result<seq<Window>>)
    ensures r.Ok? <==> Proper(base) && minimum > 0 && forall w :: w in blocked ==> Proper(w)
    ensures r.Err? ==> r.error == Invalid
    ensures r.Ok? ==> FreeWindows(base, blocked, minimum, r.value)
  {
    if NewTimeWindow(base.startsAt, base.endsAt, 0).Err? || minimum <= 0 {
      return Err(Invalid);
    }
    var mergedResult := MergeWindows(blocked);
    if mergedResult.Err? {
      return Err(mergedResult.error);
    }
    var merged := mergedResult.value;
    var cursor := base.startsAt;
    var available: seq<Window> := [];
    for i := 0 to |merged|
      invariant Swept(base, merged, i, minimum, cursor, available)
    {
      var current := merged[i];
      ghost var oldCursor, oldAvailable := cursor, available;
      if current.Overlaps(base) {
        var start := current.startsAt;
        if start < base.startsAt {
          start := base.startsAt;
        }
        if start - cursor >= minimum {
          available := available + [Window(cursor, start)];
        }
        if current.endsAt > cursor {
          cursor := current.endsAt;
        }
        if cursor > base.endsAt {
          cursor := base.endsAt;
        }
        SweepStep(base, merged, i, minimum, oldCursor, oldAvailable, cursor, available);
      }
    }
    SweepEnd(base, merged, minimum, cursor, available);
    if base.endsAt - cursor >= minimum {
      available := available + [Window(cursor, base.endsAt)];
    }
    forall w: Window | w.startsAt < w.endsAt
      ensures Clear(w, merged) <==> Clear(w, blocked)
    {
      ClearFollowsCoverage(w, merged, blocked);
    }
    assert forall w :: FreeStretch(base, merged, minimum, w) <==> FreeStretch(base, blocked, minimum, w);
    r := Ok(available);
  }

  lemma SweepStep(base: Window, merged: seq<Window>, i: nat, minimum: Duration,
                  cursor: Instant, free: seq<Window>, cursor': Instant, free': seq<Window>)
    requires i < |merged| && minimum > 0 && Separated(merged) && merged[i].Overlaps(base)
    requires Swept(base, merged, i, minimum, cursor, free)
    requires var start := Max(merged[i].startsAt, base.startsAt);
             free' == if start - cursor >= minimum then free + [Window(cursor, start)] else free
    requires cursor' == Min(Max(cursor, merged[i].endsAt), base.endsAt)
    ensures Swept(base, merged, i + 1, minimum, cursor', free')
  {
    var start := Max(merged[i].startsAt, base.startsAt);
    if start - cursor >= minimum {
      GapIsFree(base, merged, i, minimum, cursor);
      GapAppended(base, merged, minimum, cursor, free, Window(cursor, start), cursor');
    } else {
      GapsKept(base, merged, minimum, cursor, free, cursor');
    }
    StepPasses(base, merged, i, cursor, cursor');
    StepMissesNothing(base, merged, i, minimum, cursor, free, cursor', free');
  }

  lemma GapsKept(base: Window, merged: seq<Window>, minimum: Duration, cursor: Instant, free: seq<Window>, cursor': Instant)
    requires GapsFound(base, merged, minimum, cursor, free) && cursor <= cursor'
    ensures GapsFound(base, merged, minimum, cursor', free)
  {
  }

  lemma StepPasses(base: Window, merged: seq<Window>, i: nat, cursor: Instant, cursor': Instant)
    requires i < |merged| && merged[i].Overlaps(base)
    requires base.startsAt <= cursor <= base.endsAt && Passed(base, merged, i, cursor)
    requires cursor' == Min(Max(cursor, merged[i].endsAt), base.endsAt)
    ensures Passed(base, merged, i + 1, cursor')
  {
  }

  lemma GapAppended(base: Window, merged: seq<Window>, minimum: Duration, cursor: Instant, free: seq<Window>,
                    gap: Window, cursor': Instant)
    requires GapsFound(base, merged, minimum, cursor, free)
    requires FreeStretch(base, merged, minimum, gap)
    requires cursor == gap.startsAt < gap.endsAt < cursor'
    ensures GapsFound(base, merged, minimum, cursor', free + [gap])
  {
  }

  lemma InsideAppended(w: Window, free: seq<Window>, last: Window)
    ensures InsideSome(w, free + [last]) <==> InsideSome(w, free) || Inside(w, last)
  {
    var all := free + [last];
    assert all[|free|] == last;
    assert forall k :: 0 <= k < |free| ==> all[k] == free[k];
  }

  lemma StepMissesNothing(base: Window, merged: seq<Window>, i: nat, minimum: Duration,
                          cursor: Instant, free: seq<Window>, cursor': Instant, free': seq<Window>)
    requires i < |merged| && minimum > 0 && merged[i].Overlaps(base)
    requires NothingMissed(base, merged, minimum, cursor, free)
    requires var start := Max(merged[i].startsAt, base.startsAt);
             free' == if start - cursor >= minimum then free + [Window(cursor, start)] else free
    requires cursor' == Min(Max(cursor, merged[i].endsAt), base.endsAt)
    ensures NothingMissed(base, merged, minimum, cursor', free')
  {
    forall w | FreeStretch(base, merged, minimum, w)
      ensures InsideSome(w, free') || cursor' <= w.startsAt
    {
      InsideAppended(w, free, Window(cursor, Max(merged[i].startsAt, base.startsAt)));
      assert merged[i] in merged && !merged[i].Overlaps(w);
    }
  }

  lemma GapIsFree(base: Window, merged: seq<Window>, i: nat, minimum: Duration, cursor: Instant)
    requires i < |merged| && minimum > 0 && Separated(merged) && merged[i].Overlaps(base)
    requires base.startsAt <= cursor <= base.endsAt
    requires Passed(base, merged, i, cursor)
    requires Max(merged[i].startsAt, base.startsAt) - cursor >= minimum
    ensures FreeStretch(base, merged, minimum, Window(cursor, Max(merged[i].startsAt, base.startsAt)))
  {
    var gap := Window(cursor, Max(merged[i].startsAt, base.startsAt));
    forall b | b in merged
      ensures !b.Overlaps(gap)
    {
      var j :| 0 <= j < |merged| && merged[j] == b;
    }
  }

  lemma SweepEnd(base: Window, merged: seq<Window>, minimum: Duration, cursor: Instant, swept: seq<Window>)
    requires minimum > 0 && Separated(merged)
    requires Swept(base, merged, |merged|, minimum, cursor, swept)
    ensures FreeWindows(base, merged, minimum,
                        if base.endsAt - cursor >= minimum then swept + [Window(cursor, base.endsAt)] else swept)
  {
    var last := Window(cursor, base.endsAt);
    if last.Duration() >= minimum {
      forall b | b in merged
        ensures !b.Overlaps(last)
      {
        var j :| 0 <= j < |merged| && merged[j] == b;
      }
      GapAppended(base, merged, minimum, cursor, swept, last, base.endsAt + 1);
    }
    forall w
      ensures InsideSome(w, swept + [last]) <==> InsideSome(w, swept) || Inside(w, last)
    {
      InsideAppended(w, swept, last);
    }
  }
}
