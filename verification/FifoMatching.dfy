/** `pair_trades` of `scripts/research_archive/analyze_live_orderflow_winner_features.py` for one symbol: sells close
    the open lots first in, first out. */
module FifoMatching {
  import opened Numerals

  /** `side` is upper case; `fills` come in trade order. */
  datatype Fill = Fill(side: string, quantity: real, price: real, fee: real, pnl: real, at: int)

  datatype Lot = Lot(openedAt: int, quantity: real, price: real, fee: real, signal: Option<int>)

  datatype Totals = Totals(notional: real, entryFee: real, gross: real, exitFee: real) {
    function Plus(other: Totals): Totals {
      Totals(notional + other.notional, entryFee + other.entryFee, gross + other.gross, exitFee + other.exitFee)
    }
  }

  const NOTHING := Totals(0.0, 0.0, 0.0, 0.0)

  /** `key` is the time of the lot's signal, or of the lot itself without one. */
  datatype Trade = Trade(key: int, openedAt: int, sums: Totals, net: real, closedAt: int)

  /** What one sell takes from one lot, seen as it was then. */
  datatype Slice = Slice(lot: Lot, consumed: real)

  function KeyOf(lot: Lot): int {
    if lot.signal.Some? then lot.signal.value else lot.openedAt
  }

  predicate Proper(fill: Fill) {
    fill.quantity > 0.0
  }

  predicate Open(lots: seq<Lot>) {
    forall i | 0 <= i < |lots| :: lots[i].quantity > 0.0
  }

  /** `part / whole` of an amount. */
  function Share(amount: real, part: real, whole: real): real
    requires whole > 0.0
  {
    amount * (part / whole)
  }

  function Contribution(slice: Slice, fill: Fill): Totals
    requires slice.lot.quantity > 0.0 && Proper(fill)
  {
    Totals(slice.lot.price * slice.consumed, Share(slice.lot.fee, slice.consumed, slice.lot.quantity),
           Share(fill.pnl, slice.consumed, fill.quantity), Share(fill.fee, slice.consumed, fill.quantity))
  }

  function Closing(key: int, openedAt: int, sums: Totals, at: int): Trade {
    Trade(key, openedAt, sums, sums.gross - sums.entryFee - sums.exitFee, at)
  }

  /** Adds a slice to the trade with its key, which is opened if need be; trades keep their order of opening. */
  function Credit(trades: seq<Trade>, slice: Slice, fill: Fill): seq<Trade>
    requires slice.lot.quantity > 0.0 && Proper(fill)
  {
    if trades == [] then [Closing(KeyOf(slice.lot), slice.lot.openedAt, Contribution(slice, fill), fill.at)]
    else if trades[0].key == KeyOf(slice.lot) then
      [Closing(trades[0].key, trades[0].openedAt, trades[0].sums.Plus(Contribution(slice, fill)), fill.at)]
          + trades[1..]
    else [trades[0]] + Credit(trades[1..], slice, fill)
  }

  datatype Book = Book(lots: seq<Lot>, trades: seq<Trade>, matchedLots: nat, unmatchedSells: nat)

  const EMPTY := Book([], [], 0, 0)

  function CreditSince(book: Book, slice: Slice, fill: Fill, cohort: int): Book
    requires slice.lot.quantity > 0.0 && Proper(fill)
  {
    if slice.lot.openedAt >= cohort
    then book.(trades := Credit(book.trades, slice, fill), matchedLots := book.matchedLots + 1)
    else book
  }

  /** The lots after `m` units have been taken from the front. */
  function Drop(lots: seq<Lot>, m: real): (rest: seq<Lot>)
    requires Open(lots)
    ensures Open(rest)
  {
    if lots == [] || m <= 0.0 then lots
    else if m >= lots[0].quantity then Drop(lots[1..], m - lots[0].quantity)
    else [lots[0].(quantity := lots[0].quantity - m)] + lots[1..]
  }

  function Quantity(lots: seq<Lot>): real {
    if lots == [] then 0.0 else lots[0].quantity + Quantity(lots[1..])
  }

  function Least(a: real, b: real): real {
    if a <= b then a else b
  }

  /** One sell against the book: the front lot gives what it has, until nothing remains or no lot is left. */
  function Sell(book: Book, remaining: real, fill: Fill, cohort: int): (Book, real)
    requires Open(book.lots) && Proper(fill)
    decreases |book.lots|, if remaining > 0.0 then 1 else 0
  {
    if remaining <= 0.0 || book.lots == [] then (book, remaining)
    else
      var lot := book.lots[0];
      var consumed := Least(remaining, lot.quantity);
      var credited := CreditSince(book, Slice(lot, consumed), fill, cohort);
      var left := lot.quantity - consumed;
      Sell(credited.(lots := if left <= 0.0 then book.lots[1..] else [lot.(quantity := left)] + book.lots[1..]),
           remaining - consumed, fill, cohort)
  }

  function LotOf(fill: Fill, signal: int -> Option<int>): Lot {
    Lot(fill.at, fill.quantity, fill.price, fill.fee, signal(fill.at))
  }

  predicate IsBuy(fill: Fill) {
    Proper(fill) && fill.side == "BUY"
  }

  predicate IsSell(fill: Fill) {
    Proper(fill) && fill.side == "SELL"
  }

  function Take(book: Book, fill: Fill, cohort: int, signal: int -> Option<int>): Book
    requires Open(book.lots)
  {
    if IsBuy(fill) then book.(lots := book.lots + [LotOf(fill, signal)])
    else if IsSell(fill) then
      var (sold, remaining) := Sell(book, fill.quantity, fill, cohort);
      if remaining > 0.0 then sold.(unmatchedSells := sold.unmatchedSells + 1) else sold
    else book
  }

  function Paired(fills: seq<Fill>, cohort: int, signal: int -> Option<int>): (book: Book)
    ensures Open(book.lots)
  {
    if fills == [] then EMPTY
    else
      var book, fill := Paired(fills[..|fills| - 1], cohort, signal), fills[|fills| - 1];
      SellIsDrop(book, fill.quantity, fill, cohort);
      Take(book, fill, cohort, signal)
  }

  method PairTrades(fills: seq<Fill>, cohort: int, signal: int -> Option<int>)
    returns (lots: seq<Lot>, trades: seq<Trade>, matchedLots: nat, unmatchedSells: nat)
    ensures Book(lots, trades, matchedLots, unmatchedSells) == Paired(fills, cohort, signal)
  {
    hide Sell, CreditSince, Credit, Drop;
    lots, trades, matchedLots, unmatchedSells := [], [], 0, 0;
    for i := 0 to |fills|
      invariant Book(lots, trades, matchedLots, unmatchedSells) == Paired(fills[..i], cohort, signal)
    {
      assert fills[..i + 1][..i] == fills[..i];
      var fill := fills[i];
      ghost var before := Book(lots, trades, matchedLots, unmatchedSells);
      if fill.quantity <= 0.0 {
        continue;
      }
      if fill.side == "BUY" {
        lots := lots + [LotOf(fill, signal)];
        continue;
      }
      if fill.side != "SELL" {
        continue;
      }
      var remaining;
      lots, trades, matchedLots, remaining := MatchSell(before, lots, trades, matchedLots, fill, cohort);
      if remaining > 0.0 {
        unmatchedSells := unmatchedSells + 1;
      }
    }
    assert fills[..|fills|] == fills;
  }

  method MatchSell(ghost book: Book, lots0: seq<Lot>, trades0: seq<Trade>, matched0: nat, fill: Fill, cohort: int)
    returns (lots: seq<Lot>, trades: seq<Trade>, matchedLots: nat, remaining: real)
    requires book.lots == lots0 && book.trades == trades0 && book.matchedLots == matched0 && Open(lots0) && Proper(fill)
    ensures Sell(book, fill.quantity, fill, cohort) == (Book(lots, trades, matchedLots, book.unmatchedSells), remaining)
  {
    hide Credit, Open;
    lots, trades, matchedLots, remaining := lots0, trades0, matched0, fill.quantity;
    while remaining > 0.0 && lots != []
      invariant Open(lots)
      invariant Sell(Book(lots, trades, matchedLots, book.unmatchedSells), remaining, fill, cohort)
                == Sell(book, fill.quantity, fill, cohort)
      decreases |lots|, if remaining > 0.0 then 1 else 0
    {
      var lot := lots[0];
      OpenShrinks(lots);
      var consumed := Least(remaining, lot.quantity);
      if lot.openedAt >= cohort {
        trades, matchedLots := Credit(trades, Slice(lot, consumed), fill), matchedLots + 1;
      }
      lots := if lot.quantity - consumed <= 0.0 then lots[1..]
              else [lot.(quantity := lot.quantity - consumed)] + lots[1..];
      remaining := remaining - consumed;
    }
  }

  lemma OpenShrinks(lots: seq<Lot>)
    requires Open(lots) && lots != []
    ensures lots[0].quantity > 0.0 && Open(lots[1..])
    ensures forall lot: Lot | lot.quantity > 0.0 :: Open([lot] + lots[1..])
  {
  }

  // ---- The queue ----

  /** A sell leaves the lots behind its quantity, and what exceeds them stays unmatched. */
  lemma {:induction false} SellIsDrop(book: Book, remaining: real, fill: Fill, cohort: int)
    requires Open(book.lots)
    ensures Proper(fill) ==>
              var (sold, left) := Sell(book, remaining, fill, cohort);
              && sold.lots == Drop(book.lots, remaining) && sold.unmatchedSells == book.unmatchedSells
              && (remaining >= 0.0 ==> left == remaining - Least(remaining, Quantity(book.lots)))
    decreases |book.lots|, if remaining > 0.0 then 1 else 0
  {
    hide Credit;
    QuantityIsPositive(book.lots);
    if Proper(fill) && remaining > 0.0 && book.lots != [] {
      var lot := book.lots[0];
      var consumed := Least(remaining, lot.quantity);
      var left := lot.quantity - consumed;
      var rest := if left <= 0.0 then book.lots[1..] else [lot.(quantity := left)] + book.lots[1..];
      OpenShrinks(book.lots);
      SellIsDrop(CreditSince(book, Slice(lot, consumed), fill, cohort).(lots := rest), remaining - consumed, fill,
                 cohort);
      assert left > 0.0 ==> rest[1..] == book.lots[1..];
    }
  }

  lemma {:induction false} QuantityIsPositive(lots: seq<Lot>)
    requires Open(lots)
    ensures Quantity(lots) >= 0.0 && (lots != [] ==> Quantity(lots) > 0.0)
  {
    if lots != [] {
      QuantityIsPositive(lots[1..]);
    }
  }

  lemma {:induction false} DropTwice(lots: seq<Lot>, a: real, b: real)
    requires Open(lots) && a >= 0.0 && b >= 0.0
    ensures Drop(Drop(lots, a), b) == Drop(lots, a + b)
  {
    if lots != [] && a > 0.0 {
      if a >= lots[0].quantity {
        DropTwice(lots[1..], a - lots[0].quantity, b);
      } else {
        assert Drop(lots, a)[1..] == lots[1..];
      }
    }
  }

  lemma {:induction false} DropQuantity(lots: seq<Lot>, m: real)
    requires Open(lots) && 0.0 <= m
    ensures Quantity(Drop(lots, m)) == Quantity(lots) - Least(m, Quantity(lots))
  {
    QuantityIsPositive(lots);
    if lots != [] && m > 0.0 {
      QuantityIsPositive(lots[1..]);
      if m >= lots[0].quantity {
        DropQuantity(lots[1..], m - lots[0].quantity);
      } else {
        assert Drop(lots, m)[1..] == lots[1..];
      }
    }
  }

  lemma {:induction false} QuantityAppend(lots: seq<Lot>, lot: Lot)
    ensures Quantity(lots + [lot]) == Quantity(lots) + lot.quantity
  {
    if lots == [] {
      assert [] + [lot] == [lot] && [lot][1..] == [];
    } else {
      assert (lots + [lot])[1..] == lots[1..] + [lot];
      QuantityAppend(lots[1..], lot);
    }
  }

  lemma {:induction false} DropAppend(lots: seq<Lot>, m: real, lot: Lot)
    requires Open(lots) && Open(lots + [lot]) && m <= Quantity(lots)
    ensures Drop(lots + [lot], m) == Drop(lots, m) + [lot]
  {
    hide Open;
    if lots != [] {
      assert (lots + [lot])[1..] == lots[1..] + [lot];
      OpenShrinks(lots);
      OpenShrinks(lots + [lot]);
      if m > 0.0 && m >= lots[0].quantity {
        DropAppend(lots[1..], m - lots[0].quantity, lot);
      }
    }
  }

  function Buys(fills: seq<Fill>, signal: int -> Option<int>): (lots: seq<Lot>)
    ensures Open(lots)
  {
    if fills == [] then []
    else
      var last := fills[|fills| - 1];
      Buys(fills[..|fills| - 1], signal) + if IsBuy(last) then [LotOf(last, signal)] else []
  }

  function Bought(fills: seq<Fill>): real {
    if fills == [] then 0.0
    else Bought(fills[..|fills| - 1]) + if IsBuy(fills[|fills| - 1]) then fills[|fills| - 1].quantity else 0.0
  }

  function Sold(fills: seq<Fill>): real {
    if fills == [] then 0.0
    else Sold(fills[..|fills| - 1]) + if IsSell(fills[|fills| - 1]) then fills[|fills| - 1].quantity else 0.0
  }

  /** The deepest that sales have ever exceeded purchases. */
  function Shortfall(fills: seq<Fill>): real {
    if fills == [] then 0.0
    else
      var before, now := Shortfall(fills[..|fills| - 1]), Sold(fills) - Bought(fills);
      if now > before then now else before
  }

  ghost predicate IsQueue(lots: seq<Lot>, buys: seq<Lot>, matched: real) {
    && Open(buys) && 0.0 <= matched <= Quantity(buys)
    && lots == Drop(buys, matched) && Quantity(lots) == Quantity(buys) - matched
  }

  lemma BuyKeepsQueue(lots: seq<Lot>, buys: seq<Lot>, matched: real, lot: Lot)
    requires IsQueue(lots, buys, matched) && lot.quantity > 0.0
    ensures IsQueue(lots + [lot], buys + [lot], matched) && Quantity(buys + [lot]) == Quantity(buys) + lot.quantity
  {
    hide Drop, Quantity;
    OpenGrows(buys, lot);
    QuantityAppend(buys, lot);
    DropAppend(buys, matched, lot);
    DropQuantity(buys + [lot], matched);
  }

  lemma OpenGrows(lots: seq<Lot>, lot: Lot)
    requires Open(lots) && lot.quantity > 0.0
    ensures Open(lots + [lot])
  {
  }

  lemma SellKeepsQueue(lots: seq<Lot>, buys: seq<Lot>, matched: real, quantity: real)
    requires IsQueue(lots, buys, matched) && quantity > 0.0
    ensures IsQueue(Drop(lots, quantity), buys, Least(matched + quantity, Quantity(buys)))
  {
    hide Drop, Quantity, Open;
    DropTwice(buys, matched, quantity);
    DropQuantity(lots, quantity);
    DropBeyond(buys, matched + quantity);
  }

  /** Sales match purchases except for the deepest shortfall; the queue is what is left of the purchases behind the
      matched quantity, so it is their latest part with at most its first lot partly used. */
  lemma {:induction false} QueueIsFifo(fills: seq<Fill>, cohort: int, signal: int -> Option<int>)
    ensures IsQueue(Paired(fills, cohort, signal).lots, Buys(fills, signal), Sold(fills) - Shortfall(fills))
    ensures Quantity(Buys(fills, signal)) == Bought(fills) && Shortfall(fills) >= 0.0
  {
    hide Sell, Drop, Quantity, IsQueue, Open;
    if fills == [] {
      NothingIsQueued();
    } else {
      var front, fill := fills[..|fills| - 1], fills[|fills| - 1];
      QueueIsFifo(front, cohort, signal);
      var book, buys, matched := Paired(front, cohort, signal), Buys(front, signal), Sold(front) - Shortfall(front);
      if IsBuy(fill) {
        BuyKeepsQueue(book.lots, buys, matched, LotOf(fill, signal));
      } else {
        assert buys + [] == buys;
        if IsSell(fill) {
          SellIsDrop(book, fill.quantity, fill, cohort);
          SellKeepsQueue(book.lots, buys, matched, fill.quantity);
        } else {
          MatchedWithin(book.lots, buys, matched);
        }
      }
    }
  }

  lemma NothingIsQueued()
    ensures IsQueue([], [], 0.0) && Quantity([]) == 0.0
  {
  }

  lemma MatchedWithin(lots: seq<Lot>, buys: seq<Lot>, matched: real)
    requires IsQueue(lots, buys, matched)
    ensures matched <= Quantity(buys)
  {
  }

  lemma {:induction false} DropBeyond(lots: seq<Lot>, m: real)
    requires Open(lots) && m >= 0.0
    ensures Drop(lots, m) == Drop(lots, Least(m, Quantity(lots)))
  {
    QuantityIsPositive(lots);
    if lots != [] && m > 0.0 {
      QuantityIsPositive(lots[1..]);
      if m >= lots[0].quantity {
        DropBeyond(lots[1..], m - lots[0].quantity);
      }
    }
  }

  // ---- What the trades add up to ----

  /** The lots of a cohort: all of them, or those that go into the trade with one key. */
  datatype Scope = Scope(cohort: int, key: Option<int>)

  predicate Covers(scope: Scope, lot: Lot) {
    lot.openedAt >= scope.cohort && CoversKey(scope, KeyOf(lot))
  }

  predicate CoversKey(scope: Scope, key: int) {
    scope.key.None? || scope.key.value == key
  }

  function Counted(t: Trade, scope: Scope): Totals {
    if CoversKey(scope, t.key) then t.sums else NOTHING
  }

  function Sums(trades: seq<Trade>, scope: Scope): Totals {
    if trades == [] then NOTHING else Counted(trades[0], scope).Plus(Sums(trades[1..], scope))
  }

  lemma PlusSwaps(a: Totals, b: Totals, c: Totals)
    ensures a.Plus(c).Plus(b) == a.Plus(b).Plus(c) && a.Plus(b.Plus(c)) == a.Plus(b).Plus(c)
    ensures a.Plus(NOTHING) == a && NOTHING.Plus(a) == a
  {
  }

  function Gained(slice: Slice, fill: Fill, scope: Scope): Totals
    requires slice.lot.quantity > 0.0 && Proper(fill)
  {
    if CoversKey(scope, KeyOf(slice.lot)) then Contribution(slice, fill) else NOTHING
  }

  lemma CreditFirst(t: Trade, slice: Slice, fill: Fill, scope: Scope)
    requires slice.lot.quantity > 0.0 && Proper(fill) && t.key == KeyOf(slice.lot)
    ensures Counted(Closing(t.key, t.openedAt, t.sums.Plus(Contribution(slice, fill)), fill.at), scope)
            == Counted(t, scope).Plus(Gained(slice, fill, scope))
  {
    hide Contribution;
  }

  lemma {:induction false} CreditAdds(trades: seq<Trade>, slice: Slice, fill: Fill, scope: Scope)
    requires slice.lot.quantity > 0.0 && Proper(fill)
    ensures Sums(Credit(trades, slice, fill), scope) == Sums(trades, scope).Plus(Gained(slice, fill, scope))
  {
    hide Contribution, Totals.Plus;
    var gained := Gained(slice, fill, scope);
    if trades == [] {
      PlusSwaps(gained, NOTHING, NOTHING);
    } else {
      var rest := Sums(trades[1..], scope);
      PlusSwaps(Counted(trades[0], scope), rest, gained);
      if trades[0].key == KeyOf(slice.lot) {
        CreditFirst(trades[0], slice, fill, scope);
      } else {
        CreditAdds(trades[1..], slice, fill, scope);
      }
    }
  }

  /** What is still in the queue for lots in scope: cost, fees and quantity. */
  function CostIn(lots: seq<Lot>, scope: Scope): real {
    if lots == [] then 0.0
    else (if Covers(scope, lots[0]) then lots[0].price * lots[0].quantity else 0.0) + CostIn(lots[1..], scope)
  }

  function FeesIn(lots: seq<Lot>, scope: Scope): real {
    if lots == [] then 0.0
    else (if Covers(scope, lots[0]) then lots[0].fee else 0.0) + FeesIn(lots[1..], scope)
  }

  function QuantityIn(lots: seq<Lot>, scope: Scope): real {
    if lots == [] then 0.0
    else (if Covers(scope, lots[0]) then lots[0].quantity else 0.0) + QuantityIn(lots[1..], scope)
  }

  /** The lot that a sell of `m` units leaves partly used, with what it took from it. */
  function SplitBy(lots: seq<Lot>, m: real): Option<Slice> {
    if lots == [] || m <= 0.0 then None
    else if m >= lots[0].quantity then SplitBy(lots[1..], m - lots[0].quantity)
    else Some(Slice(lots[0], m))
  }

  /** The entry fee charged on top, because the split lot keeps its whole fee. */
  function SplitFee(lots: seq<Lot>, m: real, scope: Scope): real
    requires Open(lots)
  {
    var split := SplitBy(lots, m);
    if split.None? || !Covers(scope, split.value.lot) then 0.0
    else
      SplitIsOpen(lots, m);
      Share(split.value.lot.fee, split.value.consumed, split.value.lot.quantity)
  }

  lemma {:induction false} SplitIsOpen(lots: seq<Lot>, m: real)
    requires Open(lots) && SplitBy(lots, m).Some?
    ensures 0.0 < SplitBy(lots, m).value.consumed < SplitBy(lots, m).value.lot.quantity
    ensures SplitBy(lots, m).value.lot in lots
  {
    if m >= lots[0].quantity {
      SplitIsOpen(lots[1..], m - lots[0].quantity);
    }
  }

  /** What a sell of `m` units adds to the trades in scope. */
  function Taken(lots: seq<Lot>, m: real, fill: Fill, scope: Scope): Totals
    requires Open(lots) && Proper(fill)
  {
    var rest := Drop(lots, m);
    var units := QuantityIn(lots, scope) - QuantityIn(rest, scope);
    Totals(CostIn(lots, scope) - CostIn(rest, scope),
           FeesIn(lots, scope) - FeesIn(rest, scope) + SplitFee(lots, m, scope),
           Share(fill.pnl, units, fill.quantity), Share(fill.fee, units, fill.quantity))
  }

  function TakenFrom(lot: Lot, consumed: real, fill: Fill, scope: Scope): Totals
    requires lot.quantity > 0.0 && Proper(fill)
  {
    if Covers(scope, lot) then Contribution(Slice(lot, consumed), fill) else NOTHING
  }

  lemma ShareAdds(amount: real, a: real, b: real, whole: real)
    requires whole > 0.0
    ensures Share(amount, a + b, whole) == Share(amount, a, whole) + Share(amount, b, whole)
  {
    assert (a + b) / whole == a / whole + b / whole;
  }

  lemma ShareOfAll(amount: real, whole: real)
    requires whole > 0.0
    ensures Share(amount, whole, whole) == amount && Share(amount, 0.0, whole) == 0.0
  {
    assert whole / whole == 1.0 && 0.0 / whole == 0.0;
  }

  lemma TakenStep(lots: seq<Lot>, m: real, fill: Fill, scope: Scope)
    requires Open(lots) && Proper(fill) && lots != [] && m >= lots[0].quantity
    ensures Taken(lots, m, fill, scope) ==
              TakenFrom(lots[0], lots[0].quantity, fill, scope)
              .Plus(Taken(lots[1..], m - lots[0].quantity, fill, scope))
  {
    hide Share;
    var lot, rest := lots[0], Drop(lots, m);
    ShareOfAll(lot.fee, lot.quantity);
    var units := QuantityIn(lots[1..], scope) - QuantityIn(rest, scope);
    if Covers(scope, lot) {
      ShareAdds(fill.pnl, lot.quantity, units, fill.quantity);
      ShareAdds(fill.fee, lot.quantity, units, fill.quantity);
    }
  }

  lemma TakenLast(lots: seq<Lot>, m: real, fill: Fill, scope: Scope)
    requires Open(lots) && Proper(fill) && lots != [] && 0.0 < m < lots[0].quantity
    ensures Taken(lots, m, fill, scope) == TakenFrom(lots[0], m, fill, scope)
  {
    hide Share;
    var rest := Drop(lots, m);
    assert rest[0] == lots[0].(quantity := lots[0].quantity - m) && rest[1..] == lots[1..];
    ShareOfAll(fill.pnl, fill.quantity);
    ShareOfAll(fill.fee, fill.quantity);
    assert lots[0].price * (lots[0].quantity - m) == lots[0].price * lots[0].quantity - lots[0].price * m;
  }

  lemma TakenNothing(lots: seq<Lot>, m: real, fill: Fill, scope: Scope)
    requires Open(lots) && Proper(fill) && (lots == [] || m <= 0.0)
    ensures Taken(lots, m, fill, scope) == NOTHING
  {
    hide Share;
    ShareOfAll(fill.pnl, fill.quantity);
    ShareOfAll(fill.fee, fill.quantity);
  }

  lemma CreditSinceAdds(book: Book, lot: Lot, consumed: real, fill: Fill, scope: Scope)
    requires lot.quantity > 0.0 && Proper(fill)
    ensures Sums(CreditSince(book, Slice(lot, consumed), fill, scope.cohort).trades, scope)
            == Sums(book.trades, scope).Plus(TakenFrom(lot, consumed, fill, scope))
  {
    hide Contribution, Credit, Sums;
    CreditAdds(book.trades, Slice(lot, consumed), fill, scope);
  }

  lemma PlusAssociates(a: Totals, b: Totals, c: Totals)
    ensures a.Plus(b).Plus(c) == a.Plus(b.Plus(c)) && a.Plus(NOTHING) == a
  {
  }

  /** Cost and fees leave the queue for the trades; of the fill's own fee and profit the matched units' share goes
      in. */
  lemma {:induction false} SellAdds(book: Book, m: real, fill: Fill, scope: Scope)
    requires Open(book.lots) && Proper(fill)
    ensures Sums(Sell(book, m, fill, scope.cohort).0.trades, scope)
            == Sums(book.trades, scope).Plus(Taken(book.lots, m, fill, scope))
    decreases |book.lots|, if m > 0.0 then 1 else 0
  {
    hide Taken, TakenFrom, Sums, CreditSince, Drop;
    if m <= 0.0 || book.lots == [] {
      TakenNothing(book.lots, m, fill, scope);
      PlusAssociates(Sums(book.trades, scope), NOTHING, NOTHING);
    } else {
      var lot := book.lots[0];
      var consumed := Least(m, lot.quantity);
      var left := lot.quantity - consumed;
      var rest := if left <= 0.0 then book.lots[1..] else [lot.(quantity := left)] + book.lots[1..];
      var next := CreditSince(book, Slice(lot, consumed), fill, scope.cohort).(lots := rest);
      CreditSinceAdds(book, lot, consumed, fill, scope);
      SellAdds(next, m - consumed, fill, scope);
      if m >= lot.quantity {
        TakenStep(book.lots, m, fill, scope);
        PlusAssociates(Sums(book.trades, scope), TakenFrom(lot, consumed, fill, scope),
                       Taken(rest, m - consumed, fill, scope));
      } else {
        TakenLast(book.lots, m, fill, scope);
        TakenNothing(rest, m - consumed, fill, scope);
        PlusAssociates(Sums(next.trades, scope), NOTHING, NOTHING);
      }
    }
  }

  // ---- Whole runs ----

  /** All entry fees charged on top, over a run. */
  function Surcharges(fills: seq<Fill>, scope: Scope, signal: int -> Option<int>): real {
    if fills == [] then 0.0
    else
      var front, fill := fills[..|fills| - 1], fills[|fills| - 1];
      Surcharges(front, scope, signal)
      + if IsSell(fill) then SplitFee(Paired(front, scope.cohort, signal).lots, fill.quantity, scope) else 0.0
  }

  lemma {:induction false} InAppend(lots: seq<Lot>, lot: Lot, scope: Scope)
    ensures CostIn(lots + [lot], scope) == CostIn(lots, scope) + CostIn([lot], scope)
    ensures FeesIn(lots + [lot], scope) == FeesIn(lots, scope) + FeesIn([lot], scope)
  {
    if lots == [] {
      assert [] + [lot] == [lot];
    } else {
      assert (lots + [lot])[1..] == lots[1..] + [lot];
      InAppend(lots[1..], lot, scope);
    }
  }

  /** The cost of all lots bought in scope is in the trades or still open.  So are their fees, except that every sell
      that splits a lot charges a share of its fee once more. */
  lemma {:induction false} CostsAreConserved(fills: seq<Fill>, scope: Scope, signal: int -> Option<int>)
    ensures var (book, buys) := (Paired(fills, scope.cohort, signal), Buys(fills, signal));
            && Sums(book.trades, scope).notional + CostIn(book.lots, scope) == CostIn(buys, scope)
            && Sums(book.trades, scope).entryFee + FeesIn(book.lots, scope)
               == FeesIn(buys, scope) + Surcharges(fills, scope, signal)
  {
    hide Sell, Drop, CostIn, FeesIn, SplitFee, Open;
    if fills == [] {
      NothingCosts(scope);
    } else {
      var front, fill := fills[..|fills| - 1], fills[|fills| - 1];
      CostsAreConserved(front, scope, signal);
      var book, buys := Paired(front, scope.cohort, signal), Buys(front, signal);
      if IsBuy(fill) {
        InAppend(book.lots, LotOf(fill, signal), scope);
        InAppend(buys, LotOf(fill, signal), scope);
      } else {
        assert buys + [] == buys;
        if IsSell(fill) {
          SellIsDrop(book, fill.quantity, fill, scope.cohort);
          SellAdds(book, fill.quantity, fill, scope);
        }
      }
    }
  }

  lemma NothingCosts(scope: Scope)
    ensures CostIn([], scope) == 0.0 && FeesIn([], scope) == 0.0
  {
  }

  predicate FeesNonNegative(lots: seq<Lot>) {
    forall i | 0 <= i < |lots| :: lots[i].fee >= 0.0
  }

  /** The `k`-th fill sells part of a lot in scope that bears a fee and leaves the rest: a lot of the purchases behind
      the units already matched. */
  predicate SplitsAt(fills: seq<Fill>, k: nat, scope: Scope, signal: int -> Option<int>) {
    && k < |fills| && IsSell(fills[k])
    && var front := fills[..k];
       var split := SplitBy(Drop(Buys(front, signal), Sold(front) - Shortfall(front)), fills[k].quantity);
       split.Some? && Covers(scope, split.value.lot) && split.value.lot.fee != 0.0
  }

  lemma SplitFeeSign(lots: seq<Lot>, m: real, scope: Scope)
    requires Open(lots) && FeesNonNegative(lots)
    ensures SplitFee(lots, m, scope) >= 0.0
    ensures var split := SplitBy(lots, m);
            SplitFee(lots, m, scope) > 0.0
            <==> split.Some? && Covers(scope, split.value.lot) && split.value.lot.fee != 0.0
  {
    if SplitBy(lots, m).Some? {
      SplitIsOpen(lots, m);
      var split := SplitBy(lots, m).value;
      assert split.consumed / split.lot.quantity > 0.0;
    }
  }

  lemma {:induction false} DropFees(lots: seq<Lot>, m: real)
    requires Open(lots) && FeesNonNegative(lots)
    ensures FeesNonNegative(Drop(lots, m))
  {
    if lots != [] && m >= lots[0].quantity {
      DropFees(lots[1..], m - lots[0].quantity);
    }
  }

  lemma {:induction false} PairedFees(fills: seq<Fill>, scope: Scope, signal: int -> Option<int>)
    requires forall i | 0 <= i < |fills| :: fills[i].fee >= 0.0
    ensures FeesNonNegative(Paired(fills, scope.cohort, signal).lots)
  {
    hide Sell, Drop;
    if fills != [] {
      var front, fill := fills[..|fills| - 1], fills[|fills| - 1];
      PairedFees(front, scope, signal);
      if IsSell(fill) {
        SellIsDrop(Paired(front, scope.cohort, signal), fill.quantity, fill, scope.cohort);
        DropFees(Paired(front, scope.cohort, signal).lots, fill.quantity);
      }
    }
  }

  /** Entry fees are conserved just when no sell ever splits a lot that bears a fee. */
  lemma {:induction false} SurchargesAreSplits(fills: seq<Fill>, scope: Scope, signal: int -> Option<int>)
    requires forall i | 0 <= i < |fills| :: fills[i].fee >= 0.0
    ensures Surcharges(fills, scope, signal) >= 0.0
    ensures Surcharges(fills, scope, signal) == 0.0 <==> forall k: nat :: !SplitsAt(fills, k, scope, signal)
  {
    hide Paired, SplitFee, SplitBy, Drop, Buys, Sold, Shortfall, Quantity, Open;
    if fills != [] {
      var front, fill := fills[..|fills| - 1], fills[|fills| - 1];
      SurchargesAreSplits(front, scope, signal);
      PairedFees(front, scope, signal);
      SplitFeeSign(Paired(front, scope.cohort, signal).lots, fill.quantity, scope);
      forall k: nat | k < |front| ensures SplitsAt(fills, k, scope, signal) <==> SplitsAt(front, k, scope, signal) {
        assert fills[..k] == front[..k];
      }
      var lots := Paired(front, scope.cohort, signal).lots;
      QueueIsFifo(front, scope.cohort, signal);
      assert fills[..|front|] == front;
      assert SplitsAt(fills, |front|, scope, signal) <==> IsSell(fill) && SplitFee(lots, fill.quantity, scope) > 0.0;
    }
  }

  /** Two sells of one unit close a lot of two units that cost a fee of one: the trade is charged one and a half. */
  lemma SplitLotOvercharges()
    ensures var sell := Fill("SELL", 1.0, 10.0, 0.0, 0.0, 1);
            var fills := [Fill("BUY", 2.0, 10.0, 1.0, 0.0, 0), sell, sell];
            var book := Paired(fills, 0, _ => None);
            book.lots == [] && Sums(book.trades, Scope(0, None)).entryFee == 1.5
  {
    hide *;
    var buy, sell := Fill("BUY", 2.0, 10.0, 1.0, 0.0, 0), Fill("SELL", 1.0, 10.0, 0.0, 0.0, 1);
    var signal: int -> Option<int> := _ => None;
    var fills := [buy, sell, sell];
    var scope := Scope(0, None);
    TwoHalves(signal);
    PairedGrows([], buy, scope, signal);
    PairedGrows([buy], sell, scope, signal);
    PairedGrows([buy, sell], sell, scope, signal);
    assert [] + [buy] == [buy] && [buy] + [sell] == [buy, sell] && [buy, sell] + [sell] == fills;
    CostsAreConserved(fills, scope, signal);
  }

  lemma TwoHalves(signal: int -> Option<int>)
    requires signal(0).None?
    ensures var scope := Scope(0, None);
            var (two, one) := (Lot(0, 2.0, 10.0, 1.0, None), Lot(0, 1.0, 10.0, 1.0, None));
            && Paired([], 0, signal).lots == [] && Buys([], signal) == [] && Surcharges([], scope, signal) == 0.0
            && [] + [two] == [two] && [two] + [] == [two]
            && LotOf(Fill("BUY", 2.0, 10.0, 1.0, 0.0, 0), signal) == two
            && IsBuy(Fill("BUY", 2.0, 10.0, 1.0, 0.0, 0)) && !IsSell(Fill("BUY", 2.0, 10.0, 1.0, 0.0, 0))
            && IsSell(Fill("SELL", 1.0, 10.0, 0.0, 0.0, 1)) && !IsBuy(Fill("SELL", 1.0, 10.0, 0.0, 0.0, 1))
            && Open([two]) && Open([one])
            && Drop([two], 1.0) == [one] && Drop([one], 1.0) == []
            && FeesIn([two], scope) == 1.0 && FeesIn([], scope) == 0.0
            && SplitFee([two], 1.0, scope) == 0.5 && SplitFee([one], 1.0, scope) == 0.0
  {
    assert [Lot(0, 1.0, 10.0, 1.0, None)][1..] == [] && [Lot(0, 2.0, 10.0, 1.0, None)][1..] == [];
  }

  lemma PairedGrows(fills: seq<Fill>, fill: Fill, scope: Scope, signal: int -> Option<int>)
    ensures Open(Paired(fills, scope.cohort, signal).lots)
    ensures var (before, after) := (Paired(fills, scope.cohort, signal), Paired(fills + [fill], scope.cohort, signal));
            && (IsBuy(fill) ==> after.lots == before.lots + [LotOf(fill, signal)]
                                && Surcharges(fills + [fill], scope, signal) == Surcharges(fills, scope, signal))
            && (IsSell(fill) ==> after.lots == Drop(before.lots, fill.quantity)
                                 && Surcharges(fills + [fill], scope, signal)
                                    == Surcharges(fills, scope, signal) + SplitFee(before.lots, fill.quantity, scope))
    ensures Buys(fills + [fill], signal) == Buys(fills, signal) + if IsBuy(fill) then [LotOf(fill, signal)] else []
  {
    hide Sell, Drop, SplitFee;
    assert (fills + [fill])[..|fills|] == fills;
    if IsSell(fill) {
      SellIsDrop(Paired(fills, scope.cohort, signal), fill.quantity, fill, scope.cohort);
    }
  }

  function SellFees(fills: seq<Fill>): real {
    if fills == [] then 0.0
    else SellFees(fills[..|fills| - 1]) + if IsSell(fills[|fills| - 1]) then fills[|fills| - 1].fee else 0.0
  }

  function SellProfits(fills: seq<Fill>): real {
    if fills == [] then 0.0
    else SellProfits(fills[..|fills| - 1]) + if IsSell(fills[|fills| - 1]) then fills[|fills| - 1].pnl else 0.0
  }

  predicate AllCovered(lots: seq<Lot>, scope: Scope) {
    forall i | 0 <= i < |lots| :: Covers(scope, lots[i])
  }

  lemma {:induction false} AllCount(lots: seq<Lot>, scope: Scope)
    requires AllCovered(lots, scope)
    ensures QuantityIn(lots, scope) == Quantity(lots)
  {
    if lots != [] {
      AllCount(lots[1..], scope);
    }
  }

  lemma {:induction false} DropCovered(lots: seq<Lot>, m: real, scope: Scope)
    requires Open(lots) && AllCovered(lots, scope)
    ensures AllCovered(Drop(lots, m), scope)
  {
    if lots != [] && m >= lots[0].quantity {
      DropCovered(lots[1..], m - lots[0].quantity, scope);
    }
  }

  lemma {:induction false} ShortfallGrows(fills: seq<Fill>)
    ensures Shortfall(fills) >= 0.0
    ensures fills != [] ==> Shortfall(fills[..|fills| - 1]) <= Shortfall(fills)
  {
    if fills != [] {
      ShortfallGrows(fills[..|fills| - 1]);
    }
  }

  /** Where sales never exceed purchases and all lots count, the exit fees and profits of the fills are in the trades to
      the last. */
  lemma {:induction false} ExitsAreConserved(fills: seq<Fill>, scope: Scope, signal: int -> Option<int>)
    requires Shortfall(fills) == 0.0
    requires forall i | 0 <= i < |fills| && IsBuy(fills[i]) :: Covers(scope, LotOf(fills[i], signal))
    ensures var book := Paired(fills, scope.cohort, signal);
            && AllCovered(book.lots, scope)
            && Sums(book.trades, scope).exitFee == SellFees(fills)
            && Sums(book.trades, scope).gross == SellProfits(fills)
  {
    hide Sell, Drop, Share, Quantity, IsQueue, Open;
    if fills != [] {
      var front, fill := fills[..|fills| - 1], fills[|fills| - 1];
      ShortfallGrows(fills);
      ShortfallGrows(front);
      ExitsAreConserved(front, scope, signal);
      if IsSell(fill) {
        FullyMatched(fills, scope, signal);
      }
    }
  }

  lemma FullyMatched(fills: seq<Fill>, scope: Scope, signal: int -> Option<int>)
    requires fills != [] && IsSell(fills[|fills| - 1]) && Shortfall(fills) == 0.0
    requires AllCovered(Paired(fills[..|fills| - 1], scope.cohort, signal).lots, scope)
    ensures var (before, after) := (Paired(fills[..|fills| - 1], scope.cohort, signal),
                                    Paired(fills, scope.cohort, signal));
            var fill := fills[|fills| - 1];
            && AllCovered(after.lots, scope)
            && Sums(after.trades, scope).exitFee == Sums(before.trades, scope).exitFee + fill.fee
            && Sums(after.trades, scope).gross == Sums(before.trades, scope).gross + fill.pnl
  {
    hide Sell, Drop, Quantity, QuantityIn, AllCovered, Buys, Sums, Open, Taken;
    var front, fill := fills[..|fills| - 1], fills[|fills| - 1];
    var book := Paired(front, scope.cohort, signal);
    ShortfallGrows(fills);
    ShortfallGrows(front);
    QueueIsFifo(front, scope.cohort, signal);
    SellIsDrop(book, fill.quantity, fill, scope.cohort);
    SellAdds(book, fill.quantity, fill, scope);
    DropCovered(book.lots, fill.quantity, scope);
    AllCount(book.lots, scope);
    AllCount(Drop(book.lots, fill.quantity), scope);
    DropQuantity(book.lots, fill.quantity);
    TakenInFull(book.lots, fill, scope);
  }

  lemma TakenInFull(lots: seq<Lot>, fill: Fill, scope: Scope)
    requires Open(lots) && Proper(fill)
    requires QuantityIn(lots, scope) - QuantityIn(Drop(lots, fill.quantity), scope) == fill.quantity
    ensures Taken(lots, fill.quantity, fill, scope).exitFee == fill.fee
    ensures Taken(lots, fill.quantity, fill, scope).gross == fill.pnl
  {
    hide Share, Drop, QuantityIn, CostIn, FeesIn, SplitFee;
    ShareOfAll(fill.fee, fill.quantity);
    ShareOfAll(fill.pnl, fill.quantity);
  }

  // ---- One trade per key ----

  predicate DistinctKeys(trades: seq<Trade>) {
    forall i, j | 0 <= i < j < |trades| :: trades[i].key != trades[j].key
  }

  lemma {:induction false} CreditKeepsKeys(trades: seq<Trade>, slice: Slice, fill: Fill)
    requires slice.lot.quantity > 0.0 && Proper(fill) && DistinctKeys(trades)
    ensures var credited := Credit(trades, slice, fill);
            && DistinctKeys(credited)
            && (forall t | t in credited :: t.key == KeyOf(slice.lot) || exists u :: u in trades && u.key == t.key)
            && (forall t | t in credited :: t in trades || t.net == t.sums.gross - t.sums.entryFee - t.sums.exitFee)
  {
    hide Contribution;
    if trades != [] && trades[0].key != KeyOf(slice.lot) {
      CreditKeepsKeys(trades[1..], slice, fill);
      assert forall u | u in trades[1..] :: u.key != trades[0].key;
    }
  }

  predicate Netted(trades: seq<Trade>) {
    forall t | t in trades :: t.net == t.sums.gross - t.sums.entryFee - t.sums.exitFee
  }

  lemma {:induction false} SellKeepsKeys(book: Book, m: real, fill: Fill, cohort: int)
    requires Open(book.lots) && Proper(fill) && DistinctKeys(book.trades) && Netted(book.trades)
    ensures DistinctKeys(Sell(book, m, fill, cohort).0.trades) && Netted(Sell(book, m, fill, cohort).0.trades)
    decreases |book.lots|, if m > 0.0 then 1 else 0
  {
    hide Credit, DistinctKeys, Open;
    if m > 0.0 && book.lots != [] {
      var lot := book.lots[0];
      OpenShrinks(book.lots);
      var consumed := Least(m, lot.quantity);
      var left := lot.quantity - consumed;
      var rest := if left <= 0.0 then book.lots[1..] else [lot.(quantity := left)] + book.lots[1..];
      CreditKeepsKeys(book.trades, Slice(lot, consumed), fill);
      SellKeepsKeys(CreditSince(book, Slice(lot, consumed), fill, cohort).(lots := rest), m - consumed, fill, cohort);
    }
  }

  /** Slices with one key end in one trade, and every trade's net result is its gross result less both fees. */
  lemma {:induction false} TradesAreKeyed(fills: seq<Fill>, cohort: int, signal: int -> Option<int>)
    ensures var trades := Paired(fills, cohort, signal).trades;
            DistinctKeys(trades) && Netted(trades)
  {
    hide Sell, DistinctKeys, Netted;
    if fills == [] {
      NoTradesYet();
    } else {
      var front, fill := fills[..|fills| - 1], fills[|fills| - 1];
      TradesAreKeyed(front, cohort, signal);
      if IsSell(fill) {
        SellKeepsKeys(Paired(front, cohort, signal), fill.quantity, fill, cohort);
      }
    }
  }

  lemma NoTradesYet()
    ensures DistinctKeys([]) && Netted([])
  {
  }

  // ---- Keys, times and counters, told from the fills alone ----

  /** One slice and the sell that took it. */
  datatype Match = Match(slice: Slice, fill: Fill)

  /** What a sell of `m` units takes, lot by lot from the front. */
  function SlicesOf(lots: seq<Lot>, m: real): (slices: seq<Slice>)
    requires Open(lots)
    ensures forall i | 0 <= i < |slices| :: slices[i].lot.quantity > 0.0
  {
    if lots == [] || m <= 0.0 then []
    else if m >= lots[0].quantity
    then [Slice(lots[0], lots[0].quantity)] + SlicesOf(lots[1..], m - lots[0].quantity)
    else [Slice(lots[0], m)]
  }

  predicate OpenMatches(matches: seq<Match>) {
    forall i | 0 <= i < |matches| :: matches[i].slice.lot.quantity > 0.0 && Proper(matches[i].fill)
  }

  /** Those slices whose lot belongs to the cohort. */
  function MatchesOf(slices: seq<Slice>, fill: Fill, cohort: int): (matches: seq<Match>)
    requires Proper(fill) && forall i | 0 <= i < |slices| :: slices[i].lot.quantity > 0.0
    ensures OpenMatches(matches)
  {
    if slices == [] then []
    else (if slices[0].lot.openedAt >= cohort then [Match(slices[0], fill)] else [])
         + MatchesOf(slices[1..], fill, cohort)
  }

  /** The lots open after some fills: the purchases behind the units matched. */
  function Queue(fills: seq<Fill>, signal: int -> Option<int>): (lots: seq<Lot>)
    ensures Open(lots)
  {
    Drop(Buys(fills, signal), Sold(fills) - Shortfall(fills))
  }

  /** All matches of a run, in order. */
  function Matches(fills: seq<Fill>, cohort: int, signal: int -> Option<int>): (matches: seq<Match>)
    ensures OpenMatches(matches)
  {
    if fills == [] then []
    else
      var front, fill := fills[..|fills| - 1], fills[|fills| - 1];
      Matches(front, cohort, signal)
      + if IsSell(fill) then MatchesOf(SlicesOf(Queue(front, signal), fill.quantity), fill, cohort) else []
  }

  function Credited(trades: seq<Trade>, matches: seq<Match>): seq<Trade>
    requires OpenMatches(matches)
    decreases |matches|
  {
    if matches == [] then trades
    else Credited(Credit(trades, matches[0].slice, matches[0].fill), matches[1..])
  }

  lemma {:induction false} CreditedJoins(trades: seq<Trade>, a: seq<Match>, b: seq<Match>)
    requires OpenMatches(a) && OpenMatches(b) && OpenMatches(a + b)
    ensures Credited(trades, a + b) == Credited(Credited(trades, a), b)
    decreases |a|
  {
    hide Credit;
    if a == [] {
      assert a + b == b;
    } else {
      assert (a + b)[1..] == a[1..] + b;
      CreditedJoins(Credit(trades, a[0].slice, a[0].fill), a[1..], b);
    }
  }

  /** One round of a sell, and what it leaves to do. */
  lemma SellRound(book: Book, m: real, fill: Fill, cohort: int)
    requires Open(book.lots) && Proper(fill) && m > 0.0 && book.lots != []
    ensures var lot := book.lots[0];
            var next := CreditSince(book, Slice(lot, Least(m, lot.quantity)), fill, cohort);
            if m >= lot.quantity
            then Open(book.lots[1..])
                 && Sell(book, m, fill, cohort)
                    == Sell(next.(lots := book.lots[1..]), m - lot.quantity, fill, cohort)
                 && SlicesOf(book.lots, m) == [Slice(lot, lot.quantity)] + SlicesOf(book.lots[1..], m - lot.quantity)
            else Sell(book, m, fill, cohort).0.trades == next.trades
                 && Sell(book, m, fill, cohort).0.matchedLots == next.matchedLots
                 && SlicesOf(book.lots, m) == [Slice(lot, m)] + []
  {
    hide Credit;
    OpenShrinks(book.lots);
  }

  /** A sell credits exactly its slices of the cohort, and counts them. */
  lemma {:induction false} SellCredits(book: Book, m: real, fill: Fill, cohort: int)
    requires Open(book.lots) && Proper(fill)
    ensures var (sold, matches) := (Sell(book, m, fill, cohort).0, MatchesOf(SlicesOf(book.lots, m), fill, cohort));
            sold.trades == Credited(book.trades, matches) && sold.matchedLots == book.matchedLots + |matches|
    decreases |book.lots|
  {
    hide Credit, Open, SlicesOf, Sell, MatchesOf;
    if m <= 0.0 || book.lots == [] {
      NothingSold(book, m, fill, cohort);
    } else {
      var lot := book.lots[0];
      OpenShrinks(book.lots);
      var slice := Slice(lot, Least(m, lot.quantity));
      SellRound(book, m, fill, cohort);
      if m >= lot.quantity {
        var next := CreditSince(book, slice, fill, cohort).(lots := book.lots[1..]);
        SellCredits(next, m - lot.quantity, fill, cohort);
        FirstMatch(slice, SlicesOf(book.lots[1..], m - lot.quantity), fill, cohort);
      } else {
        FirstMatch(slice, [], fill, cohort);
        NothingMatched(fill, cohort);
      }
    }
  }

  lemma NothingSold(book: Book, m: real, fill: Fill, cohort: int)
    requires Open(book.lots) && Proper(fill) && (m <= 0.0 || book.lots == [])
    ensures Sell(book, m, fill, cohort).0 == book && MatchesOf(SlicesOf(book.lots, m), fill, cohort) == []
  {
  }

  lemma NothingMatched(fill: Fill, cohort: int)
    requires Proper(fill)
    ensures MatchesOf([], fill, cohort) == []
  {
  }

  lemma FirstMatch(slice: Slice, slices: seq<Slice>, fill: Fill, cohort: int)
    requires Proper(fill) && slice.lot.quantity > 0.0
    requires forall i | 0 <= i < |slices| :: slices[i].lot.quantity > 0.0
    ensures var matches := MatchesOf([slice] + slices, fill, cohort);
            && matches == (if slice.lot.openedAt >= cohort then [Match(slice, fill)] else [])
                          + MatchesOf(slices, fill, cohort)
            && (slice.lot.openedAt >= cohort ==>
                  matches != [] && matches[0] == Match(slice, fill) && matches[1..] == MatchesOf(slices, fill, cohort))
            && (slice.lot.openedAt < cohort ==> matches == MatchesOf(slices, fill, cohort))
  {
    assert ([slice] + slices)[1..] == slices;
  }

  /** How many sells found less open than they sold. */
  function ShortSells(fills: seq<Fill>, signal: int -> Option<int>): nat {
    if fills == [] then 0
    else
      var front, fill := fills[..|fills| - 1], fills[|fills| - 1];
      ShortSells(front, signal)
      + if IsSell(fill) && fill.quantity > Quantity(Queue(front, signal)) then 1 else 0
  }

  /** What one fill does: a purchase queues a lot of its own, a sale within the front lot takes from that one alone, and
      anything else does nothing. */
  lemma OneFill(book: Book, fill: Fill, cohort: int, signal: int -> Option<int>)
    requires Open(book.lots)
    ensures var (after, lots) := (Take(book, fill, cohort, signal), book.lots);
            && (fill.quantity <= 0.0 || (fill.side != "BUY" && fill.side != "SELL") ==> after == book)
            && (fill.quantity > 0.0 && fill.side == "BUY" ==>
                  after == Book(lots + [Lot(fill.at, fill.quantity, fill.price, fill.fee, signal(fill.at))],
                                book.trades, book.matchedLots, book.unmatchedSells))
            && (fill.quantity > 0.0 && fill.side == "SELL" && lots != [] && fill.quantity < lots[0].quantity ==>
                  && after.lots == [lots[0].(quantity := lots[0].quantity - fill.quantity)] + lots[1..]
                  && after.matchedLots == book.matchedLots + (if lots[0].openedAt >= cohort then 1 else 0)
                  && after.unmatchedSells == book.unmatchedSells)
  {
    hide Credit;
    if IsSell(fill) && book.lots != [] && fill.quantity < book.lots[0].quantity {
      OpenShrinks(book.lots);
      SellIsDrop(book, fill.quantity, fill, cohort);
      SellWithin(book, fill, cohort);
    }
  }

  lemma SellWithin(book: Book, fill: Fill, cohort: int)
    requires Open(book.lots) && Proper(fill) && book.lots != [] && fill.quantity < book.lots[0].quantity
    ensures var (sold, left) := Sell(book, fill.quantity, fill, cohort);
            && left <= 0.0 && sold.unmatchedSells == book.unmatchedSells
            && sold.matchedLots == book.matchedLots + if book.lots[0].openedAt >= cohort then 1 else 0
  {
    hide Credit;
    OpenShrinks(book.lots);
  }

  /** The whole book, told from the fills alone: the lots are the purchases behind the matched units, the trades are the
      credited matches, one counter counts these and the other the sells that found too little. */
  lemma {:induction false} BookIsExact(fills: seq<Fill>, cohort: int, signal: int -> Option<int>)
    ensures var book := Paired(fills, cohort, signal);
            && book.lots == Queue(fills, signal)
            && book.trades == Credited([], Matches(fills, cohort, signal))
            && book.matchedLots == |Matches(fills, cohort, signal)|
            && book.unmatchedSells == ShortSells(fills, signal)
  {
    hide Sell, Credit, Drop, Buys, Sold, Shortfall, Open, Quantity, SlicesOf, MatchesOf;
    QueueIsFifo(fills, cohort, signal);
    if fills != [] {
      var front, fill := fills[..|fills| - 1], fills[|fills| - 1];
      BookIsExact(front, cohort, signal);
      var book := Paired(front, cohort, signal);
      if IsSell(fill) {
        SellCredits(book, fill.quantity, fill, cohort);
        SellIsDrop(book, fill.quantity, fill, cohort);
        CreditedJoins([], Matches(front, cohort, signal),
                      MatchesOf(SlicesOf(book.lots, fill.quantity), fill, cohort));
      } else {
        assert Matches(front, cohort, signal) + [] == Matches(front, cohort, signal);
      }
    }
  }

  predicate IsFirstOf(matches: seq<Match>, i: nat, key: int) {
    i < |matches| && KeyOf(matches[i].slice.lot) == key && forall j | 0 <= j < i :: KeyOf(matches[j].slice.lot) != key
  }

  predicate IsLastOf(matches: seq<Match>, i: nat, key: int) {
    && i < |matches| && KeyOf(matches[i].slice.lot) == key
    && forall j | i < j < |matches| :: KeyOf(matches[j].slice.lot) != key
  }

  /** A trade stands for the matches of its key: it opened with the lot of the first and closed with the sell of the
      last. */
  ghost predicate StandsFor(t: Trade, matches: seq<Match>) {
    && (exists i: nat :: IsFirstOf(matches, i, t.key) && t.openedAt == matches[i].slice.lot.openedAt)
    && (exists i: nat :: IsLastOf(matches, i, t.key) && t.closedAt == matches[i].fill.at)
  }

  ghost predicate AllStand(trades: seq<Trade>, matches: seq<Match>) {
    && DistinctKeys(trades)
    && (forall t | t in trades :: StandsFor(t, matches))
    && forall i | 0 <= i < |matches| :: HasTrade(trades, KeyOf(matches[i].slice.lot))
  }

  predicate HasTrade(trades: seq<Trade>, key: int) {
    exists t :: t in trades && t.key == key
  }

  lemma OtherKeyStands(t: Trade, matches: seq<Match>, m: Match)
    requires StandsFor(t, matches) && KeyOf(m.slice.lot) != t.key
    ensures StandsFor(t, matches + [m])
  {
    var more := matches + [m];
    var i: nat :| IsFirstOf(matches, i, t.key) && t.openedAt == matches[i].slice.lot.openedAt;
    assert IsFirstOf(more, i, t.key) && more[i] == matches[i];
    var k: nat :| IsLastOf(matches, k, t.key) && t.closedAt == matches[k].fill.at;
    assert IsLastOf(more, k, t.key) && more[k] == matches[k];
  }

  lemma SameKeyStands(t: Trade, t': Trade, matches: seq<Match>, m: Match)
    requires StandsFor(t, matches) && KeyOf(m.slice.lot) == t.key == t'.key
    requires t'.openedAt == t.openedAt && t'.closedAt == m.fill.at
    ensures StandsFor(t', matches + [m])
  {
    var more := matches + [m];
    var i: nat :| IsFirstOf(matches, i, t.key) && t.openedAt == matches[i].slice.lot.openedAt;
    assert IsFirstOf(more, i, t.key) && more[i] == matches[i];
    assert IsLastOf(more, |matches|, t.key);
  }

  lemma NewKeyStands(t: Trade, matches: seq<Match>, m: Match)
    requires forall i | 0 <= i < |matches| :: KeyOf(matches[i].slice.lot) != KeyOf(m.slice.lot)
    requires t.key == KeyOf(m.slice.lot) && t.openedAt == m.slice.lot.openedAt && t.closedAt == m.fill.at
    ensures StandsFor(t, matches + [m])
  {
    var more := matches + [m];
    assert IsFirstOf(more, |matches|, t.key) && IsLastOf(more, |matches|, t.key);
  }

  /** What crediting one slice does to the list of trades. */
  lemma {:induction false} CreditMoves(trades: seq<Trade>, slice: Slice, fill: Fill)
    requires slice.lot.quantity > 0.0 && Proper(fill) && DistinctKeys(trades)
    ensures var (more, key) := (Credit(trades, slice, fill), KeyOf(slice.lot));
            && HasTrade(more, key)
            && (forall t | t in trades :: HasTrade(more, t.key))
            && forall t | t in more ::
                 || (t in trades && t.key != key)
                 || (t.key == key && t.closedAt == fill.at
                     && if HasTrade(trades, key)
                        then exists u :: u in trades && u.key == key && t.openedAt == u.openedAt
                        else t.openedAt == slice.lot.openedAt)
  {
    hide Contribution, DistinctKeys;
    var more, key := Credit(trades, slice, fill), KeyOf(slice.lot);
    if trades == [] {
      assert more[0] in more;
    } else if trades[0].key == key {
      assert more[0] in more && more[1..] == trades[1..];
      DistinctTail(trades);
      forall t | t in trades ensures HasTrade(more, t.key) {
        if t != trades[0] {
          assert t in trades[1..] && t in more;
        }
      }
    } else {
      DistinctTail(trades);
      CreditMoves(trades[1..], slice, fill);
      var rest := Credit(trades[1..], slice, fill);
      assert more == [trades[0]] + rest;
      assert HasTrade(trades, key) <==> HasTrade(trades[1..], key) by {
        assert forall t | t in trades :: t == trades[0] || t in trades[1..];
      }
      forall t | t in trades ensures HasTrade(more, t.key) {
        if t == trades[0] {
          assert t in more;
        } else {
          assert HasTrade(rest, t.key);
          var u :| u in rest && u.key == t.key;
          assert u in more;
        }
      }
      var u :| u in rest && u.key == key;
      assert u in more;
    }
  }

  lemma DistinctTail(trades: seq<Trade>)
    requires DistinctKeys(trades) && trades != []
    ensures DistinctKeys(trades[1..]) && forall t | t in trades[1..] :: t.key != trades[0].key
  {
  }

  lemma CreditStands(trades: seq<Trade>, matches: seq<Match>, m: Match)
    requires m.slice.lot.quantity > 0.0 && Proper(m.fill) && AllStand(trades, matches)
    ensures AllStand(Credit(trades, m.slice, m.fill), matches + [m])
  {
    hide Credit, DistinctKeys, StandsFor, KeyOf, HasTrade;
    var more, key := Credit(trades, m.slice, m.fill), KeyOf(m.slice.lot);
    CreditMoves(trades, m.slice, m.fill);
    CreditKeepsKeys(trades, m.slice, m.fill);
    forall t | t in more ensures StandsFor(t, matches + [m]) {
      if t in trades && t.key != key {
        OtherKeyStands(t, matches, m);
      } else if HasTrade(trades, key) {
        var u :| u in trades && u.key == key && t.openedAt == u.openedAt;
        SameKeyStands(u, t, matches, m);
      } else {
        NewKeyStands(t, matches, m);
      }
    }
    forall i | 0 <= i < |matches + [m]| ensures HasTrade(more, KeyOf((matches + [m])[i].slice.lot)) {
      if i < |matches| {
        TradeOfKey(trades, KeyOf(matches[i].slice.lot));
      }
    }
  }

  lemma TradeOfKey(trades: seq<Trade>, key: int)
    requires HasTrade(trades, key)
    ensures exists t :: t in trades && t.key == key
  {
  }

  lemma {:induction false} CreditedStand(matches: seq<Match>)
    requires OpenMatches(matches)
    ensures AllStand(Credited([], matches), matches)
  {
    hide Credit, AllStand;
    if matches == [] {
      NothingStands();
    } else {
      var front, m := matches[..|matches| - 1], matches[|matches| - 1];
      CreditedStand(front);
      assert matches == front + [m];
      CreditedJoins([], front, [m]);
      assert [m][1..] == [];
      CreditStands(Credited([], front), front, m);
    }
  }

  lemma NothingStands()
    ensures AllStand([], [])
  {
  }

  /** There is exactly one trade for each signal time, or lot time without a signal, that a match of the cohort has; it
      opened when the lot of its first match was bought and closed when its last match was sold. */
  lemma TradesStandForMatches(fills: seq<Fill>, cohort: int, signal: int -> Option<int>)
    ensures AllStand(Paired(fills, cohort, signal).trades, Matches(fills, cohort, signal))
  {
    hide Credited, AllStand, Paired, Matches;
    BookIsExact(fills, cohort, signal);
    CreditedStand(Matches(fills, cohort, signal));
  }

  /** The signal time of a purchase, or its own. */
  function SignalTime(fill: Fill, signal: int -> Option<int>): int {
    match signal(fill.at)
    case Some(detected) => detected
    case None => fill.at
  }

  /** The cost of the cohort's purchases with this signal time. */
  function CostOfSignal(fills: seq<Fill>, cohort: int, key: int, signal: int -> Option<int>): real {
    if fills == [] then 0.0
    else
      var front, fill := fills[..|fills| - 1], fills[|fills| - 1];
      CostOfSignal(front, cohort, key, signal)
      + if IsBuy(fill) && fill.at >= cohort && SignalTime(fill, signal) == key then fill.price * fill.quantity else 0.0
  }

  lemma {:induction false} CostIsOfSignal(fills: seq<Fill>, cohort: int, key: int, signal: int -> Option<int>)
    ensures CostIn(Buys(fills, signal), Scope(cohort, Some(key))) == CostOfSignal(fills, cohort, key, signal)
  {
    hide CostIn;
    if fills == [] {
      NothingCosts(Scope(cohort, Some(key)));
    } else {
      var front, fill := fills[..|fills| - 1], fills[|fills| - 1];
      CostIsOfSignal(front, cohort, key, signal);
      if IsBuy(fill) {
        InAppend(Buys(front, signal), LotOf(fill, signal), Scope(cohort, Some(key)));
        OneCost(LotOf(fill, signal), Scope(cohort, Some(key)));
      } else {
        assert Buys(front, signal) + [] == Buys(front, signal);
      }
    }
  }

  lemma OneCost(lot: Lot, scope: Scope)
    ensures CostIn([lot], scope) == if Covers(scope, lot) then lot.price * lot.quantity else 0.0
  {
    assert [lot][1..] == [];
  }

  /** Each trade's notional, with what is still open, is the cost of the purchases of its signal time. */
  lemma TradesGatherTheirSignal(fills: seq<Fill>, cohort: int, key: int, signal: int -> Option<int>)
    ensures var book := Paired(fills, cohort, signal);
            Sums(book.trades, Scope(cohort, Some(key))).notional + CostIn(book.lots, Scope(cohort, Some(key)))
            == CostOfSignal(fills, cohort, key, signal)
  {
    hide Paired, CostIn, Sums, CostOfSignal;
    CostsAreConserved(fills, Scope(cohort, Some(key)), signal);
    CostIsOfSignal(fills, cohort, key, signal);
  }

  /** The entry fees of the cohort's purchases with this signal time. */
  function FeesOfSignal(fills: seq<Fill>, cohort: int, key: int, signal: int -> Option<int>): real {
    if fills == [] then 0.0
    else
      var front, fill := fills[..|fills| - 1], fills[|fills| - 1];
      FeesOfSignal(front, cohort, key, signal)
      + if IsBuy(fill) && fill.at >= cohort && SignalTime(fill, signal) == key then fill.fee else 0.0
  }

  lemma {:induction false} FeesAreOfSignal(fills: seq<Fill>, cohort: int, key: int, signal: int -> Option<int>)
    ensures FeesIn(Buys(fills, signal), Scope(cohort, Some(key))) == FeesOfSignal(fills, cohort, key, signal)
  {
    hide FeesIn;
    if fills == [] {
      NothingCosts(Scope(cohort, Some(key)));
    } else {
      var front, fill := fills[..|fills| - 1], fills[|fills| - 1];
      FeesAreOfSignal(front, cohort, key, signal);
      if IsBuy(fill) {
        InAppend(Buys(front, signal), LotOf(fill, signal), Scope(cohort, Some(key)));
        OneFee(LotOf(fill, signal), Scope(cohort, Some(key)));
      } else {
        assert Buys(front, signal) + [] == Buys(front, signal);
      }
    }
  }

  lemma OneFee(lot: Lot, scope: Scope)
    ensures FeesIn([lot], scope) == if Covers(scope, lot) then lot.fee else 0.0
  {
    assert [lot][1..] == [];
  }

  /** So are its entry fees those purchases' fees, but for one further share for each split. */
  lemma TradesBearTheirFees(fills: seq<Fill>, cohort: int, key: int, signal: int -> Option<int>)
    ensures var (book, scope) := (Paired(fills, cohort, signal), Scope(cohort, Some(key)));
            Sums(book.trades, scope).entryFee + FeesIn(book.lots, scope)
            == FeesOfSignal(fills, cohort, key, signal) + Surcharges(fills, scope, signal)
  {
    hide Paired, FeesIn, Sums, FeesOfSignal, Surcharges;
    CostsAreConserved(fills, Scope(cohort, Some(key)), signal);
    FeesAreOfSignal(fills, cohort, key, signal);
  }
}
