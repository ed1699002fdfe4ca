/** `Series` searches and `run_same_exit` without overlapping positions, of
    `scripts/research_archive/analyze_breakout_acceptance.py`.  How one position exits is a parameter. */
module Replay {
  import opened Numerals

  // ---- Series ----

  predicate Ascending(times: seq<int>) {
    forall i, j | 0 <= i < j < |times| :: times[i] <= times[j]
  }

  /** `Series._left`. */
  method Left(times: seq<int>, value: int) returns (lo: nat)
    requires Ascending(times)
    ensures lo <= |times| && forall i | 0 <= i < |times| :: i < lo <==> times[i] < value
  {
    lo := 0;
    var hi := |times|;
    while lo < hi
      invariant lo <= hi <= |times|
      invariant forall i | 0 <= i < lo :: times[i] < value
      invariant forall i | hi <= i < |times| :: times[i] >= value
    {
      var mid := (lo + hi) / 2;
      if times[mid] < value {
        lo := mid + 1;
      } else {
        hi := mid;
      }
    }
  }

  /** `Series.at_or_before`: a latest time that is not after `value`. */
  method AtOrBefore(times: seq<int>, value: int) returns (index: Option<nat>)
    requires Ascending(times)
    ensures match index
            case None => forall i | 0 <= i < |times| :: times[i] > value
            case Some(k) => k < |times| && times[k] <= value
                            && forall i | 0 <= i < |times| && times[i] <= value :: times[i] <= times[k]
  {
    var left := Left(times, value);
    if left < |times| && times[left] == value {
      return Some(left);
    }
    index := if left > 0 then Some(left - 1) else None;
  }

  // ---- Positions that do not overlap ----

  /** What the simulation of one position reads of its event. */
  datatype Event = Event(symbol: string, signal: string, entry: int, price: real)

  predicate InOrder(events: seq<Event>) {
    forall i, j | 0 <= i < j < |events| :: events[i].entry <= events[j].entry
  }

  /** The position opened by `e` is open at time `t`; one without exit stays open. */
  predicate Running(exit: Event -> Option<int>, e: Event, t: int) {
    exit(e).None? || t < exit(e).value
  }

  /** Trade `i` stands in the way of event `j`. */
  predicate Blocks(events: seq<Event>, exit: Event -> Option<int>, i: nat, j: nat) {
    i < j < |events| && events[i].symbol == events[j].symbol && Running(exit, events[i], events[j].entry)
  }

  ghost predicate Blocked(events: seq<Event>, exit: Event -> Option<int>, trades: seq<nat>, j: nat) {
    exists i :: i in trades && Blocks(events, exit, i, j)
  }

  /** `trades` are the events up to `n` with known states that no earlier trade of the symbol blocks: this leaves no
      choice. */
  ghost predicate Greedy(events: seq<Event>, known: string -> bool, exit: Event -> Option<int>, trades: seq<nat>,
                         n: nat) {
    && (forall i | i in trades :: i < n <= |events|)
    && forall j: nat | j < n <= |events| ::
         j in trades <==> known(events[j].symbol) && !Blocked(events, exit, trades, j)
  }

  /** `active_until` knows the exit of each symbol's latest trade. */
  ghost predicate Tracks(events: seq<Event>, exit: Event -> Option<int>, trades: seq<nat>,
                         active: map<string, Option<int>>) {
    && (forall i | i in trades :: i < |events| && events[i].symbol in active)
    && forall s | s in active :: exists l: nat :: LatestOf(events, trades, s, l) && active[s] == exit(events[l])
  }

  ghost predicate LatestOf(events: seq<Event>, trades: seq<nat>, s: string, l: nat) {
    l in trades && l < |events| && events[l].symbol == s
    && forall i | i in trades && i < |events| && events[i].symbol == s :: i <= l
  }

  predicate StillActive(active: map<string, Option<int>>, e: Event) {
    e.symbol in active && (active[e.symbol].None? || e.entry < active[e.symbol].value)
  }

  /** Only the latest trade of a symbol can still block: the ones before ended when it began. */
  lemma LatestBlocks(events: seq<Event>, known: string -> bool, exit: Event -> Option<int>, trades: seq<nat>,
                     active: map<string, Option<int>>, j: nat)
    requires InOrder(events) && j < |events|
    requires Greedy(events, known, exit, trades, j) && Tracks(events, exit, trades, active)
    ensures StillActive(active, events[j]) <==> Blocked(events, exit, trades, j)
  {
    var s := events[j].symbol;
    if s in active {
      var l: nat :| LatestOf(events, trades, s, l) && active[s] == exit(events[l]);
      assert StillActive(active, events[j]) <==> Blocks(events, exit, l, j);
      forall i | i in trades && Blocks(events, exit, i, j) ensures i == l {
        assert events[l].entry <= events[j].entry;
        assert !Blocked(events, exit, trades, l);
        assert !Blocks(events, exit, i, l);
      }
    }
  }

  /** The replay of `run_same_exit` with `enforce_no_overlap`. */
  method RunSameExit(events: seq<Event>, known: string -> bool, exit: Event -> Option<int>)
    returns (trades: seq<nat>, skipped: nat, missing: nat)
    requires InOrder(events)
    ensures Greedy(events, known, exit, trades, |events|)
    ensures forall j: nat | j < |events| ::
              j in trades <==>
                && known(events[j].symbol)
                && forall i | i in trades && i < j && events[i].symbol == events[j].symbol ::
                     exit(events[i]).Some? && exit(events[i]).value <= events[j].entry
    ensures forall i | i in trades :: i < |events|
    ensures |trades| + skipped + missing == |events|
    ensures skipped == BlockedCount(events, exit, trades, |events|)
    ensures missing == UnknownCount(events, known, exit, trades, |events|)
  {
    hide Greedy, Tracks, Blocked, InOrder;
    trades, skipped, missing := [], 0, 0;
    var active: map<string, Option<int>> := map[];
    Begin(events, known, exit);
    for j := 0 to |events|
      invariant Greedy(events, known, exit, trades, j) && Tracks(events, exit, trades, active)
      invariant |trades| + skipped + missing == j
      invariant skipped == BlockedCount(events, exit, trades, j)
      invariant missing == UnknownCount(events, known, exit, trades, j)
    {
      var e := events[j];
      LatestBlocks(events, known, exit, trades, active, j);
      LaterTradesCountNothing(events, known, exit, trades, j, j);
      Extends(events, known, exit, trades, active, j);
      if StillActive(active, e) {
        skipped := skipped + 1;
        continue;
      }
      if !known(e.symbol) {
        missing := missing + 1;
        continue;
      }
      trades := trades + [j];
      active := active[e.symbol := exit(e)];
    }
    GreedyIs(events, known, exit, trades);
  }

  lemma GreedyIs(events: seq<Event>, known: string -> bool, exit: Event -> Option<int>, trades: seq<nat>)
    requires Greedy(events, known, exit, trades, |events|)
    ensures forall i | i in trades :: i < |events|
    ensures forall j: nat | j < |events| ::
              j in trades <==>
                && known(events[j].symbol)
                && forall i | i in trades && i < j && events[i].symbol == events[j].symbol ::
                     exit(events[i]).Some? && exit(events[i]).value <= events[j].entry
  {
    forall j: nat | j < |events|
      ensures !Blocked(events, exit, trades, j) <==>
                forall i | i in trades && i < j && events[i].symbol == events[j].symbol ::
                  exit(events[i]).Some? && exit(events[i]).value <= events[j].entry {
      if !Blocked(events, exit, trades, j) {
        forall i | i in trades && i < j && events[i].symbol == events[j].symbol
          ensures exit(events[i]).Some? && exit(events[i]).value <= events[j].entry {
          assert !Blocks(events, exit, i, j);
        }
      }
    }
  }

  /** An event is blocked just if an earlier trade of its symbol is still open at its entry. */
  lemma WhatBlocks(events: seq<Event>, exit: Event -> Option<int>, trades: seq<nat>, j: nat)
    requires j < |events|
    ensures Blocked(events, exit, trades, j) <==>
              exists i :: i in trades && i < j && events[i].symbol == events[j].symbol
                          && (exit(events[i]).None? || events[j].entry < exit(events[i]).value)
  {
    forall i | i in trades && i < j && events[i].symbol == events[j].symbol
      ensures Blocks(events, exit, i, j) <==> (exit(events[i]).None? || events[j].entry < exit(events[i]).value) {
    }
  }

  /** How many of the first `n` events an earlier trade of their symbol blocks. */
  ghost function BlockedCount(events: seq<Event>, exit: Event -> Option<int>, trades: seq<nat>, n: nat): nat {
    if n == 0 then 0
    else BlockedCount(events, exit, trades, n - 1) + if Blocked(events, exit, trades, n - 1) then 1 else 0
  }

  /** How many of them are not blocked but have no known states. */
  ghost function UnknownCount(events: seq<Event>, known: string -> bool, exit: Event -> Option<int>, trades: seq<nat>,
                              n: nat): nat
    requires n <= |events|
  {
    if n == 0 then 0
    else UnknownCount(events, known, exit, trades, n - 1)
         + if !Blocked(events, exit, trades, n - 1) && !known(events[n - 1].symbol) then 1 else 0
  }

  lemma {:induction false} LaterTradesCountNothing(events: seq<Event>, known: string -> bool,
                                                   exit: Event -> Option<int>, trades: seq<nat>, j: nat, n: nat)
    requires n <= j < |events|
    ensures BlockedCount(events, exit, trades + [j], n) == BlockedCount(events, exit, trades, n)
    ensures UnknownCount(events, known, exit, trades + [j], n) == UnknownCount(events, known, exit, trades, n)
    ensures Blocked(events, exit, trades + [j], j) == Blocked(events, exit, trades, j)
    decreases n
  {
    assert Blocked(events, exit, trades + [j], j) == Blocked(events, exit, trades, j) by {
      LaterTradeBlocksNothing(events, exit, trades, j, j);
    }
    if n > 0 {
      LaterTradesCountNothing(events, known, exit, trades, j, n - 1);
      LaterTradeBlocksNothing(events, exit, trades, j, n - 1);
    }
  }

  lemma LaterTradeBlocksNothing(events: seq<Event>, exit: Event -> Option<int>, trades: seq<nat>, j: nat, k: nat)
    requires k <= j
    ensures Blocked(events, exit, trades + [j], k) == Blocked(events, exit, trades, k)
  {
    if Blocked(events, exit, trades, k) {
      var i :| i in trades && Blocks(events, exit, i, k);
      assert i in trades + [j];
    }
  }

  lemma Begin(events: seq<Event>, known: string -> bool, exit: Event -> Option<int>)
    ensures Greedy(events, known, exit, [], 0) && Tracks(events, exit, [], map[])
  {
  }

  lemma Extends(events: seq<Event>, known: string -> bool, exit: Event -> Option<int>, trades: seq<nat>,
                active: map<string, Option<int>>, j: nat)
    requires j < |events| && Greedy(events, known, exit, trades, j) && Tracks(events, exit, trades, active)
    ensures if known(events[j].symbol) && !Blocked(events, exit, trades, j)
            then Greedy(events, known, exit, trades + [j], j + 1)
                 && Tracks(events, exit, trades + [j], active[events[j].symbol := exit(events[j])])
            else Greedy(events, known, exit, trades, j + 1)
  {
    if known(events[j].symbol) && !Blocked(events, exit, trades, j) {
      ExtendsGreedy(events, known, exit, trades, j);
      ExtendsTracks(events, exit, trades, active, j);
    }
  }

  lemma ExtendsGreedy(events: seq<Event>, known: string -> bool, exit: Event -> Option<int>, trades: seq<nat>, j: nat)
    requires j < |events| && Greedy(events, known, exit, trades, j)
    requires known(events[j].symbol) && !Blocked(events, exit, trades, j)
    ensures Greedy(events, known, exit, trades + [j], j + 1)
  {
    forall k: nat | k <= j ensures Blocked(events, exit, trades + [j], k) <==> Blocked(events, exit, trades, k) {
      if Blocked(events, exit, trades, k) {
        var i :| i in trades && Blocks(events, exit, i, k);
        assert i in trades + [j];
      }
    }
  }

  lemma ExtendsTracks(events: seq<Event>, exit: Event -> Option<int>, trades: seq<nat>,
                      active: map<string, Option<int>>, j: nat)
    requires j < |events| && (forall i | i in trades :: i < j) && Tracks(events, exit, trades, active)
    ensures Tracks(events, exit, trades + [j], active[events[j].symbol := exit(events[j])])
  {
    var active' := active[events[j].symbol := exit(events[j])];
    forall s | s in active'
      ensures exists l: nat :: LatestOf(events, trades + [j], s, l) && active'[s] == exit(events[l]) {
      if s == events[j].symbol {
        assert LatestOf(events, trades + [j], s, j);
      } else {
        var l: nat :| LatestOf(events, trades, s, l) && active[s] == exit(events[l]);
        assert LatestOf(events, trades + [j], s, l);
      }
    }
  }

  /** So no two trades of a symbol overlap. */
  lemma TradesDoNotOverlap(events: seq<Event>, known: string -> bool, exit: Event -> Option<int>, trades: seq<nat>,
                           i: nat, j: nat)
    requires Greedy(events, known, exit, trades, |events|) && i in trades && j in trades && i < j
    requires events[i].symbol == events[j].symbol
    ensures exit(events[i]).Some? && exit(events[i]).value <= events[j].entry
  {
    assert !Blocks(events, exit, i, j);
  }
}
