/** `OpsMonitor._database_storage_growth_alerts`: the retained window of size samples and the growth rates read off it.
    `StorageRecovery` follows the incident these rates open and close. */
module StorageGrowth {
  import opened Numerals
  import opened Sorting

  /** Times are ticks of one second; sizes are bytes. */
  datatype Growth = Growth(
    interval: int, window: int, minimum: int,
    warning: int, critical: int, relationWarning: int, relationCritical: int,
    fraction: real, recovery: int)

  /** What the monitor's constructor demands. */
  ghost predicate Accepted(g: Growth) {
    && g.interval > 0 && g.window > 0 && g.minimum > 0 && g.recovery > 0
    && 0.0 < g.fraction < 1.0
    && 0 < g.warning < g.critical && 0 < g.relationWarning < g.relationCritical
  }

  datatype Sample = Sample(at: int, bytes: int, relations: map<string, int>)

  // ---- The retained samples ----

  function InWindow(samples: seq<Sample>, cutoff: int, now: int): seq<Sample> {
    if samples == [] then []
    else
      var last := samples[|samples| - 1];
      InWindow(samples[..|samples| - 1], cutoff, now) + if cutoff <= last.at <= now then [last] else []
  }

  /** The latest sample just before the window, at most one interval older. */
  function Anchor(samples: seq<Sample>, g: Growth, now: int): Option<Sample> {
    if samples == [] then None
    else
      var best, last := Anchor(samples[..|samples| - 1], g, now), samples[|samples| - 1];
      if now - g.window - g.interval <= last.at < now - g.window && last.at <= now
        && (best.None? || last.at > best.value.at)
      then Some(last) else best
  }

  function TimeOf(s: Sample): int {
    s.at
  }

  function Recent(samples: seq<Sample>, g: Growth, now: int): seq<Sample> {
    SortBy(InWindow(samples, now - g.window, now) + Listed(Anchor(samples, g, now)), TimeOf)
  }

  function Listed<T>(x: Option<T>): seq<T> {
    if x.Some? then [x.value] else []
  }

  predicate Due(recent: seq<Sample>, g: Growth, now: int) {
    recent == [] || now - recent[|recent| - 1].at >= g.interval
  }

  function Kept(samples: seq<Sample>, g: Growth, taken: Sample): seq<Sample> {
    var recent := Recent(samples, g, taken.at);
    if Due(recent, g, taken.at) then recent + [taken] else recent
  }

  method Retain(samples: seq<Sample>, g: Growth, taken: Sample) returns (retained: seq<Sample>)
    ensures retained == Kept(samples, g, taken)
  {
    var now := taken.at;
    var cutoff := now - g.window;
    retained := [];
    var boundary: Option<Sample> := None;
    for i := 0 to |samples|
      invariant retained == InWindow(samples[..i], cutoff, now)
      invariant boundary == Anchor(samples[..i], g, now)
    {
      assert samples[..i + 1][..i] == samples[..i];
      var s := samples[i];
      if s.at <= now {
        if s.at >= cutoff {
          retained := retained + [s];
        } else if cutoff - g.interval <= s.at && (boundary.None? || s.at > boundary.value.at) {
          boundary := Some(s);
        }
      }
    }
    assert samples[..|samples|] == samples;
    if boundary.Some? {
      retained := retained + [boundary.value];
    }
    assert InWindow(samples, cutoff, now) + [] == InWindow(samples, cutoff, now);
    retained := SortBy(retained, TimeOf);
    if retained == [] || now - retained[|retained| - 1].at >= g.interval {
      retained := retained + [taken];
    }
  }

  /** Sorted, and neighbours at least an interval apart. */
  predicate Spaced(samples: seq<Sample>, interval: int) {
    forall i, j | 0 <= i < j < |samples| :: samples[i].at + interval <= samples[j].at
  }

  lemma {:induction false} InWindowMembers(samples: seq<Sample>, cutoff: int, now: int)
    ensures forall s :: s in InWindow(samples, cutoff, now) <==> s in samples && cutoff <= s.at <= now
  {
    if samples != [] {
      InWindowMembers(samples[..|samples| - 1], cutoff, now);
      assert samples == samples[..|samples| - 1] + [samples[|samples| - 1]];
    }
  }

  lemma {:induction false} InWindowSpaced(samples: seq<Sample>, cutoff: int, now: int, interval: int)
    requires Spaced(samples, interval)
    ensures Spaced(InWindow(samples, cutoff, now), interval)
  {
    if samples != [] {
      var front := samples[..|samples| - 1];
      InWindowSpaced(front, cutoff, now, interval);
      InWindowMembers(front, cutoff, now);
      var kept := InWindow(front, cutoff, now);
      forall i | 0 <= i < |kept| ensures kept[i].at + interval <= samples[|samples| - 1].at {
        assert kept[i] in front;
      }
    }
  }

  predicate BeforeWindow(s: Sample, g: Growth, now: int) {
    now - g.window - g.interval <= s.at < now - g.window && s.at <= now
  }

  lemma {:induction false} AnchorIsLatest(samples: seq<Sample>, g: Growth, now: int)
    ensures match Anchor(samples, g, now)
            case None => forall s | s in samples :: !BeforeWindow(s, g, now)
            case Some(a) => a in samples && BeforeWindow(a, g, now)
                            && forall s | s in samples && BeforeWindow(s, g, now) :: s.at <= a.at
  {
    if samples != [] {
      AnchorIsLatest(samples[..|samples| - 1], g, now);
      assert samples == samples[..|samples| - 1] + [samples[|samples| - 1]];
    }
  }

  /** What is kept from any stored list, in time order: the window, its anchor, which is a latest sample of the interval
      before it, and the newly taken sample if all of those are an interval old. */
  lemma KeptExactly(samples: seq<Sample>, g: Growth, taken: Sample)
    ensures SortedBy(Kept(samples, g, taken), TimeOf)
    ensures forall s :: s in Kept(samples, g, taken) <==>
              || (s in samples && taken.at - g.window <= s.at <= taken.at)
              || Anchor(samples, g, taken.at) == Some(s)
              || (s == taken && Due(Recent(samples, g, taken.at), g, taken.at))
    ensures match Anchor(samples, g, taken.at)
            case None => forall s | s in samples :: !BeforeWindow(s, g, taken.at)
            case Some(a) => a in samples && BeforeWindow(a, g, taken.at)
                            && forall s | s in samples && BeforeWindow(s, g, taken.at) :: s.at <= a.at
    ensures Due(Recent(samples, g, taken.at), g, taken.at) <==>
              forall s | (s in samples && taken.at - g.window <= s.at <= taken.at)
                         || Anchor(samples, g, taken.at) == Some(s) ::
                taken.at - s.at >= g.interval
  {
    hide Recent, Anchor, BeforeWindow, Due;
    RecentExactly(samples, g, taken.at);
    AnchorIsLatest(samples, g, taken.at);
    DueExactly(Recent(samples, g, taken.at), g, taken.at);
  }

  lemma RecentExactly(samples: seq<Sample>, g: Growth, now: int)
    ensures var recent := Recent(samples, g, now);
            && SortedBy(recent, TimeOf)
            && (forall s :: s in recent <==>
                  (s in samples && now - g.window <= s.at <= now) || Anchor(samples, g, now) == Some(s))
            && forall s | s in recent :: s.at <= now
  {
    hide SortBy, InWindow, Anchor, SortedBy;
    var window, anchor := InWindow(samples, now - g.window, now), Anchor(samples, g, now);
    InWindowMembers(samples, now - g.window, now);
    AnchorIsLatest(samples, g, now);
    SortSorts(window + Listed(anchor), TimeOf);
    var recent := Recent(samples, g, now);
    forall s ensures s in recent <==> s in window + Listed(anchor) {
      assert s in recent <==> s in multiset(recent);
    }
  }

  lemma DueExactly(recent: seq<Sample>, g: Growth, now: int)
    requires SortedBy(recent, TimeOf)
    ensures Due(recent, g, now) <==> forall s | s in recent :: now - s.at >= g.interval
  {
    LastIsLatest(recent);
  }

  lemma LastIsLatest(samples: seq<Sample>)
    requires SortedBy(samples, TimeOf)
    ensures samples != [] ==>
              samples[|samples| - 1] in samples && forall s | s in samples :: s.at <= samples[|samples| - 1].at
  {
  }

  /** On a spaced list the sort only moves the anchor to the front. */
  lemma RecentOfSpaced(samples: seq<Sample>, g: Growth, now: int)
    requires Spaced(samples, g.interval) && g.interval > 0
    ensures Recent(samples, g, now) == Listed(Anchor(samples, g, now)) + InWindow(samples, now - g.window, now)
    ensures Spaced(Recent(samples, g, now), g.interval)
  {
    hide InWindow, Anchor, SortBy, Spaced;
    var window, anchor := InWindow(samples, now - g.window, now), Anchor(samples, g, now);
    InWindowSpaced(samples, now - g.window, now, g.interval);
    SpacedIsSorted(window, g.interval);
    SortedIsFixed(window, TimeOf);
    if anchor.Some? {
      AnchorIsFirst(samples, g, now, anchor.value);
    } else {
      assert window + [] == window && [] + window == window;
    }
  }

  lemma SpacedIsSorted(samples: seq<Sample>, interval: int)
    requires Spaced(samples, interval) && interval > 0
    ensures SortedBy(samples, TimeOf)
  {
  }

  lemma AnchorIsFirst(samples: seq<Sample>, g: Growth, now: int, a: Sample)
    requires Spaced(samples, g.interval) && g.interval > 0 && Anchor(samples, g, now) == Some(a)
    ensures var window := InWindow(samples, now - g.window, now);
            SortBy(window + [a], TimeOf) == [a] + window && Spaced([a] + window, g.interval)
  {
    hide InWindow, Anchor, Insert, Spaced, SortedBy;
    var window := InWindow(samples, now - g.window, now);
    InWindowMembers(samples, now - g.window, now);
    InWindowSpaced(samples, now - g.window, now, g.interval);
    AnchorIsLatest(samples, g, now);
    forall i | 0 <= i < |window| ensures a.at < window[i].at && a.at + g.interval <= window[i].at {
      assert window[i] in window;
      ApartInSpaced(samples, g.interval, a, window[i]);
    }
    PrependSpaced(a, window, g.interval);
    SpacedIsSorted(window, g.interval);
    SortedIsFixed(window, TimeOf);
    InsertFirst(window, a, TimeOf);
    assert (window + [a])[..|window|] == window;
  }

  lemma PrependSpaced(a: Sample, samples: seq<Sample>, interval: int)
    requires Spaced(samples, interval) && forall i | 0 <= i < |samples| :: a.at + interval <= samples[i].at
    ensures Spaced([a] + samples, interval)
  {
  }

  lemma ApartInSpaced(samples: seq<Sample>, interval: int, a: Sample, b: Sample)
    requires Spaced(samples, interval) && interval > 0 && a in samples && b in samples && a.at < b.at
    ensures a.at + interval <= b.at
  {
    var i :| 0 <= i < |samples| && samples[i] == a;
    var j :| 0 <= j < |samples| && samples[j] == b;
    assert j < i ==> samples[j].at + interval <= samples[i].at;
  }

  /** Spacing survives every observation, whatever the clock does; at most the first sample kept is older than the
      window, and then by at most one interval. */
  lemma KeptStaysSpaced(samples: seq<Sample>, g: Growth, taken: Sample)
    requires Accepted(g) && Spaced(samples, g.interval)
    ensures var kept := Kept(samples, g, taken);
            && Spaced(kept, g.interval)
            && (forall i | 0 <= i < |kept| :: taken.at - g.window - g.interval <= kept[i].at <= taken.at)
            && (forall i | 1 <= i < |kept| :: taken.at - g.window <= kept[i].at)
  {
    hide InWindow, Anchor, Recent;
    var now := taken.at;
    InWindowMembers(samples, now - g.window, now);
    AnchorIsLatest(samples, g, now);
    RecentOfSpaced(samples, g, now);
    var window := InWindow(samples, now - g.window, now);
    assert forall i | 0 <= i < |window| :: window[i] in window;
    assert forall i | 0 <= i < |Recent(samples, g, now)| :: Recent(samples, g, now)[i].at <= now;
  }

  lemma {:induction false} SpacedSpan(samples: seq<Sample>, interval: int, lo: int, hi: int)
    requires interval > 0 && Spaced(samples, interval) && lo <= hi
    requires forall i | 0 <= i < |samples| :: lo <= samples[i].at <= hi
    ensures |samples| <= (hi - lo) / interval + 1
  {
    if |samples| > 1 {
      SpacedSpanFrom(samples, interval, |samples| - 1);
      FloorReaches(hi - lo, interval, |samples| - 1);
    }
  }

  lemma {:induction false} SpacedSpanFrom(samples: seq<Sample>, interval: int, k: nat)
    requires Spaced(samples, interval) && k < |samples|
    ensures samples[0].at + k * interval <= samples[k].at
  {
    if k > 0 {
      SpacedSpanFrom(samples, interval, k - 1);
      assert k * interval == (k - 1) * interval + interval;
    }
  }

  /** So never more than window / interval + 2 samples are stored. */
  lemma KeptIsBounded(samples: seq<Sample>, g: Growth, taken: Sample)
    requires Accepted(g) && Spaced(samples, g.interval)
    ensures |Kept(samples, g, taken)| <= g.window / g.interval + 2
  {
    hide Kept, Spaced;
    KeptStaysSpaced(samples, g, taken);
    var kept := Kept(samples, g, taken);
    if kept != [] {
      assert Spaced(kept[1..], g.interval) by {
        SpacedTail(kept, g.interval);
      }
      SpacedSpan(kept[1..], g.interval, taken.at - g.window, taken.at);
    }
  }

  lemma SpacedTail(samples: seq<Sample>, interval: int)
    requires Spaced(samples, interval) && samples != []
    ensures Spaced(samples[1..], interval)
  {
  }

  /** The stored list after a run of observations from an empty one. */
  function Stored(g: Growth, observations: seq<Sample>): seq<Sample> {
    if observations == [] then []
    else Kept(Stored(g, observations[..|observations| - 1]), g, observations[|observations| - 1])
  }

  lemma {:induction false} RunKeepsWindow(g: Growth, observations: seq<Sample>)
    requires Accepted(g)
    ensures Spaced(Stored(g, observations), g.interval)
    ensures |Stored(g, observations)| <= g.window / g.interval + 2
  {
    hide Kept;
    if observations != [] {
      var front, taken := observations[..|observations| - 1], observations[|observations| - 1];
      RunKeepsWindow(g, front);
      KeptStaysSpaced(Stored(g, front), g, taken);
      KeptIsBounded(Stored(g, front), g, taken);
    } else {
      assert g.window / g.interval >= 0;
    }
  }

  /** A full window is measurable just when some stored sample is that old, give or take the one interval: this is what
      the anchor is kept for. */
  lemma FullWindowIsMeasurable(samples: seq<Sample>, g: Growth, taken: Sample)
    requires Accepted(g)
    ensures var kept := Kept(samples, g, taken);
            (kept != [] && taken.at - kept[0].at >= g.window)
            <==> exists s :: s in samples && 0 <= taken.at - g.window - s.at <= g.interval
  {
    hide Kept, Anchor, Recent, SortedBy;
    var kept, now := Kept(samples, g, taken), taken.at;
    KeptExactly(samples, g, taken);
    AnchorIsLatest(samples, g, now);
    if s :| s in samples && 0 <= now - g.window - s.at <= g.interval {
      if s.at < now - g.window {
        assert BeforeWindow(s, g, now);
        assert Anchor(samples, g, now).value in kept;
        FirstIsEarliest(kept, Anchor(samples, g, now).value);
      } else {
        FirstIsEarliest(kept, s);
      }
    }
    if kept != [] && now - kept[0].at >= g.window {
      assert kept[0] in kept;
    }
  }

  lemma FirstIsEarliest(samples: seq<Sample>, s: Sample)
    requires SortedBy(samples, TimeOf) && s in samples
    ensures samples != [] && samples[0].at <= s.at
  {
  }

  // ---- Growth rates ----

  const DAY := 86400

  /** Python's `int` of a quotient with positive divisor: toward zero. */
  function Truncated(a: int, b: int): int
    requires b > 0
  {
    if a >= 0 then a / b else -(-a / b)
  }

  function PerDay(delta: int, elapsed: int): int
    requires elapsed > 0
  {
    var rate := Truncated(delta * DAY, elapsed);
    if rate > 0 then rate else 0
  }

  datatype Footprint = Footprint(bytes: int, relations: map<string, int>)

  /** What one observation says about growth. */
  datatype Reading = Missing | Unmeasured | Stale | Over(isCritical: bool) | InBand | Below

  predicate Reaches(now: Sample, base: Sample, threshold: int)
    requires base.at < now.at
  {
    PerDay(now.bytes - base.bytes, now.at - base.at) >= threshold
  }

  /** Some relation measured in both samples grows at the threshold or faster. */
  predicate RelationReaches(now: Sample, base: Sample, threshold: int)
    requires base.at < now.at
  {
    exists n | n in now.relations && n in base.relations ::
      PerDay(now.relations[n] - base.relations[n], now.at - base.at) >= threshold
  }

  function Lower(threshold: int, fraction: real): (lower: int)
    ensures lower as real <= threshold as real * fraction < lower as real + 1.0
  {
    (threshold as real * fraction).Floor
  }

  /** The latest sample old enough to measure against. */
  function Baseline(samples: seq<Sample>, g: Growth, now: int): Option<Sample> {
    if samples == [] then None
    else if now - samples[|samples| - 1].at >= g.minimum then Some(samples[|samples| - 1])
    else Baseline(samples[..|samples| - 1], g, now)
  }

  function Measure(g: Growth, now: Sample, base: Sample): Reading
    requires base.at < now.at
  {
    if Reaches(now, base, g.warning) || RelationReaches(now, base, g.relationWarning) then
      Over(Reaches(now, base, g.critical) || RelationReaches(now, base, g.relationCritical))
    else if Reaches(now, base, Lower(g.warning, g.fraction))
      || RelationReaches(now, base, Lower(g.relationWarning, g.fraction))
    then InBand
    else Below
  }

  function Classify(g: Growth, kept: seq<Sample>, now: Sample): Reading
    requires g.minimum > 0
  {
    match Baseline(kept, g, now.at)
    case None => Unmeasured
    case Some(base) =>
      BaselineIsOld(kept, g, now.at);
      if now.at - base.at > g.minimum + 2 * g.interval then Stale else Measure(g, now, base)
  }

  lemma {:induction false} BaselineIsOld(samples: seq<Sample>, g: Growth, now: int)
    ensures match Baseline(samples, g, now)
            case None => forall s | s in samples :: now - s.at < g.minimum
            case Some(b) => b in samples && now - b.at >= g.minimum
  {
    if samples != [] {
      BaselineIsOld(samples[..|samples| - 1], g, now);
      assert samples == samples[..|samples| - 1] + [samples[|samples| - 1]];
    }
  }

  /** Old enough to measure against. */
  predicate OldEnough(s: Sample, g: Growth, now: int) {
    now - s.at >= g.minimum
  }

  /** Old enough, and by at most two intervals more. */
  predicate Usable(s: Sample, g: Growth, now: int) {
    g.minimum <= now - s.at <= g.minimum + 2 * g.interval
  }

  lemma {:induction false} BaselineIsLatest(samples: seq<Sample>, g: Growth, now: int)
    requires SortedBy(samples, TimeOf)
    ensures match Baseline(samples, g, now)
            case None => forall s | s in samples :: !OldEnough(s, g, now)
            case Some(b) => b in samples && OldEnough(b, g, now)
                            && forall s | s in samples && OldEnough(s, g, now) :: s.at <= b.at
  {
    if samples != [] {
      var front, last := samples[..|samples| - 1], samples[|samples| - 1];
      BaselineIsLatest(front, g, now);
      assert samples == front + [last];
      assert forall i | 0 <= i < |samples| :: samples[i].at <= last.at;
    }
  }

  /** What an observation reads, in terms of the samples kept: nothing without one old enough, `Stale` if the old ones
      are all too old, and otherwise the growth over the latest one old enough. */
  lemma ReadingIsExact(g: Growth, samples: seq<Sample>, taken: Sample)
    requires Accepted(g)
    ensures var (kept, now) := (Kept(samples, g, taken), taken.at);
            var reading := Classify(g, kept, taken);
            && (reading == Unmeasured <==> forall s | s in kept :: !OldEnough(s, g, now))
            && (reading == Stale <==> (exists s :: s in kept && OldEnough(s, g, now))
                                      && forall s | s in kept :: !Usable(s, g, now))
            && (reading != Unmeasured && reading != Stale ==>
                  exists b :: b in kept && IsBaseline(g, kept, taken, b) && reading == Measure(g, taken, b))
  {
    hide Kept, Measure, SortedBy, Anchor;
    KeptExactly(samples, g, taken);
    var kept, now := Kept(samples, g, taken), taken.at;
    BaselineIsLatest(kept, g, now);
    BaselineIsOld(kept, g, now);
    if b :| Baseline(kept, g, now) == Some(b) {
      MeasureIsBand(g, taken, b);
      if Usable(b, g, now) {
        assert IsBaseline(g, kept, taken, b);
      } else {
        forall s | s in kept ensures !Usable(s, g, now) {
          assert Usable(s, g, now) ==> OldEnough(s, g, now);
        }
      }
    }
  }

  lemma MeasureIsBand(g: Growth, now: Sample, base: Sample)
    requires base.at < now.at
    ensures var reading := Measure(g, now, base); reading.Over? || reading.InBand? || reading.Below?
  {
  }

  /** The latest of the usable samples. */
  ghost predicate IsBaseline(g: Growth, kept: seq<Sample>, taken: Sample, b: Sample) {
    g.minimum > 0 && Usable(b, g, taken.at) && forall s | s in kept && Usable(s, g, taken.at) :: s.at <= b.at
  }

  /** The truncated rate reaches a positive threshold just when the exact one does. */
  lemma RateIsExact(delta: int, elapsed: int, threshold: int)
    requires elapsed > 0
    ensures PerDay(delta, elapsed) >= threshold <==> threshold <= 0 || delta * DAY >= threshold * elapsed
  {
    var a := delta * DAY;
    if a >= 0 {
      FloorReaches(a, elapsed, threshold);
    } else if threshold > 0 {
      assert threshold * elapsed > 0;
      FloorReaches(-a, elapsed, 0);
    }
  }

  lemma LowerIsLower(threshold: int, fraction: real)
    requires threshold > 0 && 0.0 < fraction < 1.0
    ensures 0 <= Lower(threshold, fraction) < threshold
  {
    assert 0.0 <= threshold as real * fraction < threshold as real;
  }

  /** Growth slower than the threshold, in exact arithmetic. */
  predicate Slower(delta: int, elapsed: int, threshold: int) {
    delta * DAY < threshold * elapsed
  }

  /** The three bands, free of rounding.  A lower threshold of zero can never be undercut: growth that shrinks counts as
      zero growth, so such an incident does not recover. */
  lemma BandsAreExact(g: Growth, now: Sample, base: Sample)
    requires Accepted(g) && base.at < now.at
    ensures var (elapsed, delta) := (now.at - base.at, now.bytes - base.bytes);
            var (lower, lowerRelation) := (Lower(g.warning, g.fraction), Lower(g.relationWarning, g.fraction));
            && (Measure(g, now, base).Over? || Measure(g, now, base).InBand? || Measure(g, now, base).Below?)
            && (Measure(g, now, base).Over? <==>
                  !Slower(delta, elapsed, g.warning)
                  || exists n | n in now.relations && n in base.relations ::
                       !Slower(now.relations[n] - base.relations[n], elapsed, g.relationWarning))
            && (Measure(g, now, base).Over? ==>
                  (Measure(g, now, base).isCritical <==>
                     !Slower(delta, elapsed, g.critical)
                     || exists n | n in now.relations && n in base.relations ::
                          !Slower(now.relations[n] - base.relations[n], elapsed, g.relationCritical)))
            && (Measure(g, now, base).Below? <==>
                  && lower > 0 && Slower(delta, elapsed, lower)
                  && forall n | n in now.relations && n in base.relations ::
                       lowerRelation > 0 && Slower(now.relations[n] - base.relations[n], elapsed, lowerRelation))
  {
    hide PerDay, Lower;
    var elapsed, delta := now.at - base.at, now.bytes - base.bytes;
    var lower, lowerRelation := Lower(g.warning, g.fraction), Lower(g.relationWarning, g.fraction);
    LowerIsLower(g.warning, g.fraction);
    LowerIsLower(g.relationWarning, g.fraction);
    RateIsExact(delta, elapsed, g.warning);
    RateIsExact(delta, elapsed, lower);
    RateIsExact(delta, elapsed, g.critical);
    forall n | n in now.relations && n in base.relations
      ensures var change := now.relations[n] - base.relations[n];
              && (PerDay(change, elapsed) >= g.relationWarning <==> !Slower(change, elapsed, g.relationWarning))
              && (PerDay(change, elapsed) >= g.relationCritical <==> !Slower(change, elapsed, g.relationCritical))
              && (PerDay(change, elapsed) >= lowerRelation
                  <==> lowerRelation <= 0 || !Slower(change, elapsed, lowerRelation)) {
      RateIsExact(now.relations[n] - base.relations[n], elapsed, g.relationWarning);
      RateIsExact(now.relations[n] - base.relations[n], elapsed, lowerRelation);
      RateIsExact(now.relations[n] - base.relations[n], elapsed, g.relationCritical);
    }
  }
}
