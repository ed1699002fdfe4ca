/** `equity_stats` of `scripts/research_archive/analyze_candle_entry_boundary.py`: drawdown of the closed trades and the
    sweep over their openings and closings. */
module CapitalSweep {
  import opened Sorting

  /** Times are ticks; `closed` trades only. */
  datatype Position = Position(openedAt: int, closedAt: int, notional: real, pnl: real)

  datatype Change = Change(at: int, amount: real)

  /** The sort key `(time, change < 0)`: at one instant openings come before closings. */
  function Rank(c: Change): int {
    2 * c.at + if c.amount < 0.0 then 1 else 0
  }

  function Usage(positions: seq<Position>): seq<Change> {
    if positions == [] then []
    else
      var last := positions[|positions| - 1];
      Usage(positions[..|positions| - 1])
      + [Change(last.openedAt, last.notional), Change(last.closedAt, -last.notional)]
  }

  function Sum(events: seq<Change>): real {
    if events == [] then 0.0 else Sum(events[..|events| - 1]) + events[|events| - 1].amount
  }

  /** What is open before each event, times how long it was. */
  function Area(events: seq<Change>): real {
    if |events| < 2 then 0.0
    else
      var n := |events| - 1;
      Area(events[..n]) + Sum(events[..n]) * ((events[n].at - events[n - 1].at) as real)
  }

  function Larger(a: real, b: real): real {
    if a >= b then a else b
  }

  function Highest(events: seq<Change>): real {
    if events == [] then 0.0 else Larger(Highest(events[..|events| - 1]), Sum(events))
  }

  /** Notional times holding time, over all positions. */
  function Held(positions: seq<Position>): real {
    if positions == [] then 0.0
    else
      var last := positions[|positions| - 1];
      Held(positions[..|positions| - 1]) + last.notional * ((last.closedAt - last.openedAt) as real)
  }

  /** The notional of the positions open at an instant, both ends included. */
  function OpenAt(positions: seq<Position>, t: int): real {
    if positions == [] then 0.0
    else
      var last := positions[|positions| - 1];
      OpenAt(positions[..|positions| - 1], t) + if last.openedAt <= t <= last.closedAt then last.notional else 0.0
  }

  predicate Proper(positions: seq<Position>) {
    forall i | 0 <= i < |positions| :: positions[i].notional >= 0.0 && positions[i].openedAt <= positions[i].closedAt
  }

  method Sweep(positions: seq<Position>) returns (peak: real, area: real, openAtEnd: real)
    ensures area == Held(positions) && openAtEnd == 0.0
    ensures (forall p | p in positions :: p.notional >= 0.0 && p.openedAt <= p.closedAt) ==>
              (forall t :: OpenAt(positions, t) <= peak) && exists t :: OpenAt(positions, t) == peak
  {
    hide Held, OpenAt, Rank, SortBy;
    var events: seq<Change> := [];
    for i := 0 to |positions|
      invariant events == Usage(positions[..i])
    {
      assert positions[..i + 1][..i] == positions[..i];
      events := events + [Change(positions[i].openedAt, positions[i].notional),
                          Change(positions[i].closedAt, -positions[i].notional)];
    }
    assert positions[..|positions|] == positions;
    events := SortBy(events, Rank);
    openAtEnd, peak, area := 0.0, 0.0, 0.0;
    var lastAt := if events == [] then 0 else events[0].at;
    for k := 0 to |events|
      invariant openAtEnd == Sum(events[..k]) && peak == Highest(events[..k]) && area == Area(events[..k])
      invariant events != [] ==> lastAt == events[if k == 0 then 0 else k - 1].at
    {
      assert events[..k + 1][..k] == events[..k];
      area := area + openAtEnd * ((events[k].at - lastAt) as real);
      openAtEnd := openAtEnd + events[k].amount;
      peak := Larger(peak, openAtEnd);
      lastAt := events[k].at;
    }
    assert events[..|events|] == events;
    AreaIsHeld(positions);
    if Proper(positions) {
      PeakIsHighestOpen(positions);
    }
  }

  /** What the two sums mean: they add up over the positions, one by one. */
  lemma {:induction false} PositionsJoin(a: seq<Position>, b: seq<Position>, t: int)
    ensures Held(a + b) == Held(a) + Held(b) && OpenAt(a + b, t) == OpenAt(a, t) + OpenAt(b, t)
    decreases |b|
  {
    if b == [] {
      assert a + b == a;
    } else {
      assert (a + b)[..|a + b| - 1] == a + b[..|b| - 1];
      PositionsJoin(a, b[..|b| - 1], t);
    }
  }

  lemma OnePosition(p: Position, t: int)
    ensures Held([p]) == p.notional * ((p.closedAt - p.openedAt) as real)
    ensures OpenAt([p], t) == if p.openedAt <= t <= p.closedAt then p.notional else 0.0
  {
    assert [p][..0] == [];
  }

  // ---- The area ----

  function Weight(c: Change, end: int): real {
    c.amount * ((end - c.at) as real)
  }

  /** The sum of all changes, each times what is left of the time up to `end`. */
  function Moment(events: seq<Change>, end: int): real {
    if events == [] then 0.0
    else Moment(events[..|events| - 1], end) + Weight(events[|events| - 1], end)
  }

  lemma {:induction false} MomentShifts(events: seq<Change>, end: int, later: int)
    ensures Moment(events, later) == Moment(events, end) + Sum(events) * ((later - end) as real)
  {
    if events != [] {
      var last := events[|events| - 1];
      MomentShifts(events[..|events| - 1], end, later);
      assert last.amount * ((later - last.at) as real)
             == last.amount * ((end - last.at) as real) + last.amount * ((later - end) as real);
    }
  }

  lemma {:induction false} AreaIsMoment(events: seq<Change>)
    requires events != []
    ensures Area(events) == Moment(events, events[|events| - 1].at)
  {
    if |events| >= 2 {
      var n := |events| - 1;
      AreaIsMoment(events[..n]);
      MomentShifts(events[..n], events[n - 1].at, events[n].at);
    }
  }

  lemma {:induction false} InsertAdds(events: seq<Change>, c: Change, end: int)
    ensures Moment(Insert(events, c, Rank), end) == Moment(events, end) + Weight(c, end)
    ensures Sum(Insert(events, c, Rank)) == Sum(events) + c.amount
  {
    hide Rank, Weight;
    if events != [] {
      InsertAdds(events[..|events| - 1], c, end);
    }
  }

  lemma {:induction false} SortAdds(events: seq<Change>, end: int)
    ensures Moment(SortBy(events, Rank), end) == Moment(events, end) && Sum(SortBy(events, Rank)) == Sum(events)
  {
    hide Rank, Insert, Weight;
    if events != [] {
      SortAdds(events[..|events| - 1], end);
      InsertAdds(SortBy(events[..|events| - 1], Rank), events[|events| - 1], end);
    }
  }

  lemma {:induction false} UsageAdds(positions: seq<Position>, end: int)
    ensures Moment(Usage(positions), end) == Held(positions) && Sum(Usage(positions)) == 0.0
  {
    if positions != [] {
      var front, last := positions[..|positions| - 1], positions[|positions| - 1];
      UsageAdds(front, end);
      TwoMore(Usage(front), Change(last.openedAt, last.notional), Change(last.closedAt, -last.notional), end);
      assert last.notional * ((end - last.openedAt) as real) + (-last.notional) * ((end - last.closedAt) as real)
             == last.notional * ((last.closedAt - last.openedAt) as real);
    }
  }

  lemma TwoMore(events: seq<Change>, a: Change, b: Change, end: int)
    ensures var more := events + [a, b];
            && Sum(more) == Sum(events) + a.amount + b.amount
            && Moment(more, end) == Moment(events, end) + Weight(a, end) + Weight(b, end)
  {
    hide Weight;
    var more := events + [a, b];
    assert more[..|more| - 1] == events + [a] && (events + [a])[..|events|] == events;
  }

  /** The swept area is the capital held over time, and everything opened is closed: for all inputs, in whatever order
      the events come. */
  lemma AreaIsHeld(positions: seq<Position>)
    ensures Area(SortBy(Usage(positions), Rank)) == Held(positions) && Sum(SortBy(Usage(positions), Rank)) == 0.0
  {
    hide Rank, SortBy, Insert;
    var events := SortBy(Usage(positions), Rank);
    SortSorts(Usage(positions), Rank);
    var end := if events == [] then 0 else events[|events| - 1].at;
    UsageAdds(positions, end);
    SortAdds(Usage(positions), end);
    if events != [] {
      AreaIsMoment(events);
    }
  }

  // ---- The peak ----

  /** The changes that rank at most `c`. */
  function SumUpTo(events: seq<Change>, c: int): real {
    if events == [] then 0.0
    else
      var last := events[|events| - 1];
      SumUpTo(events[..|events| - 1], c) + if Rank(last) <= c then last.amount else 0.0
  }

  lemma {:induction false} SumUpToConcat(a: seq<Change>, b: seq<Change>, c: int)
    ensures SumUpTo(a + b, c) == SumUpTo(a, c) + SumUpTo(b, c)
  {
    hide Rank;
    if b == [] {
      assert a + b == a;
    } else {
      assert (a + b)[..|a + b| - 1] == a + b[..|b| - 1];
      SumUpToConcat(a, b[..|b| - 1], c);
    }
  }

  lemma {:induction false} SortKeepsSumUpTo(events: seq<Change>, c: int)
    ensures SumUpTo(SortBy(events, Rank), c) == SumUpTo(events, c)
  {
    hide Rank, Insert;
    if events != [] {
      SortKeepsSumUpTo(events[..|events| - 1], c);
      InsertAddsUpTo(SortBy(events[..|events| - 1], Rank), events[|events| - 1], c);
    }
  }

  lemma {:induction false} InsertAddsUpTo(events: seq<Change>, x: Change, c: int)
    ensures SumUpTo(Insert(events, x, Rank), c) == SumUpTo(events, c) + if Rank(x) <= c then x.amount else 0.0
  {
    hide Rank;
    if events != [] {
      InsertAddsUpTo(events[..|events| - 1], x, c);
    }
  }

  /** What is open at an instant is the sum of the changes ranked up to that instant's openings. */
  lemma {:induction false} OpenIsSumUpTo(positions: seq<Position>, t: int)
    requires Proper(positions)
    ensures OpenAt(positions, t) == SumUpTo(Usage(positions), 2 * t) && OpenAt(positions, t) >= 0.0
  {
    if positions != [] {
      var front, last := positions[..|positions| - 1], positions[|positions| - 1];
      OpenIsSumUpTo(front, t);
      var two := [Change(last.openedAt, last.notional), Change(last.closedAt, -last.notional)];
      SumUpToConcat(Usage(front), two, 2 * t);
      assert two[..1] == [two[0]] && two[..1][..0] == [];
      assert SumUpTo(two[..1], 2 * t) == if last.openedAt <= t then last.notional else 0.0;
    }
  }

  lemma {:induction false} SumUpToIsPrefix(events: seq<Change>, c: int) returns (k: nat)
    requires SortedBy(events, Rank)
    ensures k <= |events| && SumUpTo(events, c) == Sum(events[..k])
  {
    hide Rank;
    if events == [] {
      k := 0;
    } else if Rank(events[|events| - 1]) <= c {
      AllUpTo(events, c);
      k := |events|;
      assert events[..k] == events;
    } else {
      var front := events[..|events| - 1];
      k := SumUpToIsPrefix(front, c);
      assert front[..k] == events[..k];
    }
  }

  lemma {:induction false} AllUpTo(events: seq<Change>, c: int)
    requires forall i | 0 <= i < |events| :: Rank(events[i]) <= c
    ensures SumUpTo(events, c) == Sum(events)
  {
    hide Rank;
    if events != [] {
      AllUpTo(events[..|events| - 1], c);
    }
  }

  /** Leaving out closings of the same instant can only add. */
  lemma {:induction false} ClosingsLower(events: seq<Change>, t: int)
    requires forall i | 0 <= i < |events| :: Rank(events[i]) <= 2 * t + 1
    ensures Sum(events) <= SumUpTo(events, 2 * t)
  {
    if events != [] {
      ClosingsLower(events[..|events| - 1], t);
    }
  }

  /** Openings of the same instant still to come can only add. */
  lemma {:induction false} OpeningsRaise(events: seq<Change>, t: int)
    requires forall i | 0 <= i < |events| :: Rank(events[i]) >= 2 * t
    ensures SumUpTo(events, 2 * t) >= 0.0
  {
    if events != [] {
      OpeningsRaise(events[..|events| - 1], t);
    }
  }

  lemma PrefixIsBelowOpen(events: seq<Change>, k: nat)
    requires SortedBy(events, Rank) && 0 < k <= |events|
    ensures Sum(events[..k]) <= SumUpTo(events, 2 * events[k - 1].at)
  {
    hide Rank, Sum, SumUpTo;
    var t, front, back := events[k - 1].at, events[..k], events[k..];
    RankBounds(events[k - 1]);
    forall i | 0 <= i < |front| ensures Rank(front[i]) <= 2 * t + 1 {
      assert front[i] == events[i];
    }
    forall i | 0 <= i < |back| ensures Rank(back[i]) >= 2 * t {
      assert back[i] == events[k + i];
    }
    ClosingsLower(front, t);
    OpeningsRaise(back, t);
    SumUpToConcat(front, back, 2 * t);
    assert front + back == events;
  }

  lemma RankBounds(c: Change)
    ensures 2 * c.at <= Rank(c) <= 2 * c.at + 1
  {
  }

  lemma {:induction false} HighestIsSum(events: seq<Change>) returns (k: nat)
    ensures k <= |events| && Highest(events) == Sum(events[..k])
    ensures forall i | 0 <= i <= |events| :: Sum(events[..i]) <= Highest(events)
  {
    assert events[..|events|] == events;
    if events == [] {
      k := 0;
    } else {
      var front := events[..|events| - 1];
      k := HighestIsSum(front);
      assert front[..k] == events[..k];
      forall i | 0 <= i < |events| ensures Sum(events[..i]) <= Highest(front) {
        assert front[..i] == events[..i];
      }
      if Highest(front) < Sum(events) {
        k := |events|;
      }
    }
  }

  /** The swept peak is the maximum, over all instants, of what is open then. */
  lemma PeakIsHighestOpen(positions: seq<Position>)
    requires Proper(positions)
    ensures var peak := Highest(SortBy(Usage(positions), Rank));
            (forall t :: OpenAt(positions, t) <= peak) && exists t :: OpenAt(positions, t) == peak
  {
    hide Rank, SortBy, Highest, Sum, SumUpTo, OpenAt, Proper, SortedBy;
    var events := SortBy(Usage(positions), Rank);
    SortSorts(Usage(positions), Rank);
    var k := HighestIsSum(events);
    forall t ensures OpenAt(positions, t) <= Highest(events) && OpenAt(positions, t) == SumUpTo(events, 2 * t) >= 0.0 {
      OpenIsSumUpTo(positions, t);
      SortKeepsSumUpTo(Usage(positions), 2 * t);
      var i := SumUpToIsPrefix(events, 2 * t);
    }
    if k > 0 {
      PrefixIsBelowOpen(events, k);
      assert OpenAt(positions, events[k - 1].at) == Highest(events);
    } else {
      NothingSums(events);
      assert OpenAt(positions, 0) == Highest(events);
    }
  }

  lemma NothingSums(events: seq<Change>)
    ensures Sum(events[..0]) == 0.0
  {
  }

  // ---- Drawdown ----

  function Gained(values: seq<real>): real {
    if values == [] then 0.0 else Gained(values[..|values| - 1]) + values[|values| - 1]
  }

  /** The equity after the first `n` trades. */
  function Equity(values: seq<real>, n: nat): real
    requires n <= |values|
  {
    Gained(values[..n])
  }

  lemma EquityGrows(values: seq<real>, n: nat)
    requires n < |values|
    ensures Equity(values, n + 1) == Equity(values, n) + values[n] && Equity(values, 0) == 0.0
  {
    assert values[..n + 1][..n] == values[..n];
  }

  /** How the equity changes from after `i` trades to after `k`. */
  function Move(values: seq<real>, i: nat, k: nat): real
    requires i <= k <= |values|
  {
    Equity(values, k) - Equity(values, i)
  }

  ghost predicate IsCrest(values: seq<real>, n: nat, peak: real)
    requires n <= |values|
  {
    (exists i: nat :: i <= n && Equity(values, i) == peak) && forall i: nat | i <= n :: Equity(values, i) <= peak
  }

  ghost predicate IsDeepest(values: seq<real>, n: nat, fall: real)
    requires n <= |values|
  {
    && (exists i: nat, k: nat :: i <= k <= n && Move(values, i, k) == fall)
    && forall i: nat, k: nat | i <= k <= n :: fall <= Move(values, i, k)
  }

  lemma Start(values: seq<real>)
    ensures IsCrest(values, 0, 0.0) && IsDeepest(values, 0, 0.0)
  {
    assert Equity(values, 0) == 0.0;
    assert Move(values, 0, 0) == 0.0;
  }

  lemma CrestGrows(values: seq<real>, n: nat, peak: real)
    requires n < |values| && IsCrest(values, n, peak)
    ensures IsCrest(values, n + 1, Larger(peak, Equity(values, n + 1)))
  {
    hide Equity;
    var i: nat :| i <= n && Equity(values, i) == peak;
    assert i <= n + 1;
  }

  lemma DeepestGrows(values: seq<real>, n: nat, peak: real, fall: real)
    requires n < |values| && IsCrest(values, n + 1, peak) && IsDeepest(values, n, fall)
    ensures IsDeepest(values, n + 1, -Larger(-fall, peak - Equity(values, n + 1)))
  {
    hide Equity;
    var now := Equity(values, n + 1) - peak;
    if fall <= now {
      var i: nat, k: nat :| i <= k <= n && Move(values, i, k) == fall;
      assert k <= n + 1;
    } else {
      var i: nat :| i <= n + 1 && Equity(values, i) == peak;
      assert Move(values, i, n + 1) == now;
    }
  }

  /** The maximum drawdown is the deepest fall of the equity curve from any earlier point, the start included. */
  method MaxDrawdown(values: seq<real>) returns (drawdown: real)
    ensures IsDeepest(values, |values|, drawdown)
    ensures exists i: nat, k: nat :: i <= k <= |values| && Equity(values, k) - Equity(values, i) == drawdown
    ensures forall i: nat, k: nat | i <= k <= |values| :: drawdown <= Equity(values, k) - Equity(values, i)
  {
    hide Equity, IsCrest, IsDeepest;
    var cumulative, peak := 0.0, 0.0;
    drawdown := 0.0;
    Start(values);
    for n := 0 to |values|
      invariant n > 0 ==> cumulative == Equity(values, n)
      invariant n == 0 ==> cumulative == 0.0
      invariant IsCrest(values, n, peak) && IsDeepest(values, n, drawdown)
    {
      EquityGrows(values, n);
      CrestGrows(values, n, peak);
      cumulative := cumulative + values[n];
      peak := Larger(peak, cumulative);
      DeepestGrows(values, n, peak, drawdown);
      drawdown := -Larger(-drawdown, peak - cumulative);
    }
    DeepestIs(values, |values|, drawdown);
  }

  lemma DeepestIs(values: seq<real>, n: nat, fall: real)
    requires n <= |values| && IsDeepest(values, n, fall)
    ensures exists i: nat, k: nat :: i <= k <= n && Equity(values, k) - Equity(values, i) == fall
    ensures forall i: nat, k: nat | i <= k <= n :: fall <= Equity(values, k) - Equity(values, i)
  {
    hide Equity;
    var i: nat, k: nat :| i <= k <= n && Move(values, i, k) == fall;
    assert Equity(values, k) - Equity(values, i) == fall;
    forall i: nat, k: nat | i <= k <= n ensures fall <= Equity(values, k) - Equity(values, i) {
      assert fall <= Move(values, i, k);
    }
  }
}
