/** `Bucket.add` and `aggregate_symbol` of `scripts/backfill_binance_15s_from_aggtrades.py`: trades into 15-second
    bars. */
module Buckets {
  import opened Numerals

  const BUCKET_MS := 15000

  /** One row of the trade files, in reading order; rows that do not parse are left out before. */
  datatype Trade = Trade(at: int, price: real, quantity: real, buyerMaker: bool)

  datatype Tally = Tally(
    first: int, last: int, open: real, high: real, low: real, close: real,
    count: nat, notional: real, buys: real, sells: real)

  const NOTHING := Tally(0, 0, 0.0, 0.0, 0.0, 0.0, 0, 0.0, 0.0, 0.0)

  function Notional(t: Trade): real {
    t.price * t.quantity
  }

  function Added(b: Tally, t: Trade): Tally {
    Tally(if b.count == 0 then t.at else b.first, t.at,
          if b.count == 0 then t.price else b.open,
          if b.count == 0 || t.price > b.high then t.price else b.high,
          if b.count == 0 || t.price < b.low then t.price else b.low,
          t.price, b.count + 1, b.notional + Notional(t),
          b.buys + (if t.buyerMaker then 0.0 else Notional(t)), b.sells + (if t.buyerMaker then Notional(t) else 0.0))
  }

  class Bucket {
    var first: int
    var last: int
    var open: real
    var high: real
    var low: real
    var close: real
    var count: nat
    var notional: real
    var buys: real
    var sells: real

    function Contents(): Tally
      reads this
    {
      Tally(first, last, open, high, low, close, count, notional, buys, sells)
    }

    constructor ()
      ensures Contents() == NOTHING
    {
      first, last, count := 0, 0, 0;
      open, high, low, close, notional, buys, sells := 0.0, 0.0, 0.0, 0.0, 0.0, 0.0, 0.0;
    }

    method Add(t: Trade)
      modifies this
      ensures Contents() == Added(old(Contents()), t)
    {
      var value := t.price * t.quantity;
      if count == 0 {
        first, open, high, low := t.at, t.price, t.price, t.price;
      } else {
        high := if t.price > high then t.price else high;
        low := if t.price < low then t.price else low;
      }
      last, close, count, notional := t.at, t.price, count + 1, notional + value;
      if t.buyerMaker {
        sells := sells + value;
      } else {
        buys := buys + value;
      }
    }
  }

  // ---- What a bucket holds ----

  function Folded(trades: seq<Trade>): Tally {
    if trades == [] then NOTHING else Added(Folded(trades[..|trades| - 1]), trades[|trades| - 1])
  }

  function Sum(trades: seq<Trade>, weight: Trade -> real): real {
    if trades == [] then 0.0 else Sum(trades[..|trades| - 1], weight) + weight(trades[|trades| - 1])
  }

  /** What was bought actively, the seller being the maker. */
  function BuyNotional(t: Trade): real {
    if t.buyerMaker then 0.0 else Notional(t)
  }

  function SellNotional(t: Trade): real {
    if t.buyerMaker then Notional(t) else 0.0
  }

  function One(t: Trade): real {
    1.0
  }

  lemma {:induction false} FoldedSums(trades: seq<Trade>)
    ensures var b := Folded(trades);
            && b.count == |trades| && b.notional == Sum(trades, Notional) && b.buys + b.sells == b.notional
            && b.buys == Sum(trades, BuyNotional) && b.sells == Sum(trades, SellNotional)
            && (trades != [] ==>
                  && b.open == trades[0].price && b.close == trades[|trades| - 1].price
                  && b.first == trades[0].at && b.last == trades[|trades| - 1].at)
  {
    hide Notional;
    if trades != [] {
      FoldedSums(trades[..|trades| - 1]);
    }
  }

  ghost predicate Spans(low: real, high: real, trades: seq<Trade>) {
    && (forall i | 0 <= i < |trades| :: low <= trades[i].price <= high)
    && (exists i :: 0 <= i < |trades| && trades[i].price == low)
    && exists i :: 0 <= i < |trades| && trades[i].price == high
  }

  lemma SpanGrows(low: real, high: real, trades: seq<Trade>, t: Trade)
    requires Spans(low, high, trades)
    ensures Spans(if t.price < low then t.price else low, if t.price > high then t.price else high, trades + [t])
  {
    var i :| 0 <= i < |trades| && trades[i].price == low;
    var j :| 0 <= j < |trades| && trades[j].price == high;
    var more := trades + [t];
    assert more[|trades|] == t && more[i] == trades[i] && more[j] == trades[j];
  }

  lemma {:induction false} FoldedSpan(trades: seq<Trade>)
    requires trades != []
    ensures Spans(Folded(trades).low, Folded(trades).high, trades)
  {
    hide Notional, Spans;
    var front, last := trades[..|trades| - 1], trades[|trades| - 1];
    FoldedSums(front);
    assert trades == front + [last];
    if front == [] {
      SpanOfOne(last);
    } else {
      FoldedSpan(front);
      SpanGrows(Folded(front).low, Folded(front).high, front, last);
    }
  }

  lemma SpanOfOne(t: Trade)
    ensures Spans(t.price, t.price, [t])
  {
    assert [t][0] == t;
  }

  /** First and last price, the extremes, and sums that split into buys and sells by who was the maker. */
  lemma FoldedMeans(trades: seq<Trade>)
    ensures var b := Folded(trades);
            && b.count == |trades| && b.notional == Sum(trades, Notional) && b.buys + b.sells == b.notional
            && b.buys == Sum(trades, BuyNotional) && b.sells == Sum(trades, SellNotional)
            && (trades != [] ==>
                  && b.open == trades[0].price && b.close == trades[|trades| - 1].price
                  && b.first == trades[0].at && b.last == trades[|trades| - 1].at
                  && Spans(b.low, b.high, trades))
  {
    hide Folded, Spans;
    FoldedSums(trades);
    if trades != [] {
      FoldedSpan(trades);
    }
  }

  // ---- Reading ----

  predicate Usable(t: Trade) {
    t.price > 0.0 && t.quantity >= 0.0
  }

  predicate Within(t: Trade, start: int, end: int) {
    Usable(t) && start <= t.at < end
  }

  /** Python's `//` rounds down, as Dafny's division by a positive number does. */
  function BucketOf(at: int): int {
    at / BUCKET_MS * BUCKET_MS
  }

  function TradesIn(rows: seq<Trade>, start: int, end: int, bucket: int): seq<Trade> {
    if rows == [] then []
    else
      var last := rows[|rows| - 1];
      TradesIn(rows[..|rows| - 1], start, end, bucket)
      + if Within(last, start, end) && BucketOf(last.at) == bucket then [last] else []
  }

  function InRange(rows: seq<Trade>, start: int, end: int): seq<Trade> {
    if rows == [] then []
    else
      var last := rows[|rows| - 1];
      InRange(rows[..|rows| - 1], start, end) + if Within(last, start, end) then [last] else []
  }

  /** The price of the last usable row read that is not behind the range: the carried price to begin with. */
  function LastRead(rows: seq<Trade>, start: int, end: int): Option<real> {
    if rows == [] then None
    else
      var last := rows[|rows| - 1];
      if Usable(last) && (last.at < start || last.at < end) then Some(last.price)
      else LastRead(rows[..|rows| - 1], start, end)
  }

  function TallyAt(buckets: map<int, Tally>, bucket: int): Tally {
    if bucket in buckets then buckets[bucket] else NOTHING
  }

  method ReadRows(rows: seq<Trade>, start: int, end: int)
    returns (buckets: map<int, Tally>, prior: Option<real>, inRange: nat)
    ensures Tallied(buckets, rows, start, end)
    ensures prior == LastRead(rows, start, end) && inRange == |InRange(rows, start, end)|
  {
    hide Added, BucketOf, TradesIn, Folded, InRange, LastRead;
    buckets, prior, inRange := map[], None, 0;
    NothingRead(rows, start, end);
    for k := 0 to |rows|
      invariant Tallied(buckets, rows[..k], start, end)
      invariant prior == LastRead(rows[..k], start, end) && inRange == |InRange(rows[..k], start, end)|
    {
      ReadOne(rows, k, start, end);
      var t := rows[k];
      if !(t.price > 0.0 && t.quantity >= 0.0) {
        continue;
      }
      if t.at < start {
        prior := Some(t.price);
        continue;
      }
      if t.at >= end {
        continue;
      }
      inRange := inRange + 1;
      var bucket := BucketOf(t.at);
      IntoBucket(rows, k, start, end);
      buckets := buckets[bucket := Added(TallyAt(buckets, bucket), t)];
      prior := Some(t.price);
    }
    assert rows[..|rows|] == rows;
  }

  /** Each bucket with trades is there, with what its trades fold to. */
  ghost predicate Tallied(buckets: map<int, Tally>, rows: seq<Trade>, start: int, end: int) {
    forall b :: (b in buckets <==> TradesIn(rows, start, end, b) != [])
                && TallyAt(buckets, b) == Folded(TradesIn(rows, start, end, b))
  }

  lemma NothingRead(rows: seq<Trade>, start: int, end: int)
    ensures Tallied(map[], rows[..0], start, end) && LastRead(rows[..0], start, end) == None
    ensures InRange(rows[..0], start, end) == []
  {
  }

  lemma ReadOne(rows: seq<Trade>, k: nat, start: int, end: int)
    requires k < |rows|
    ensures var t := rows[k];
            && (!Within(t, start, end) ==>
                  forall b :: TradesIn(rows[..k + 1], start, end, b) == TradesIn(rows[..k], start, end, b))
            && |InRange(rows[..k + 1], start, end)|
               == |InRange(rows[..k], start, end)| + (if Within(t, start, end) then 1 else 0)
            && LastRead(rows[..k + 1], start, end)
               == if Usable(t) && (t.at < start || t.at < end) then Some(t.price) else LastRead(rows[..k], start, end)
  {
    hide BucketOf;
    assert rows[..k + 1][..k] == rows[..k];
    forall b | !Within(rows[k], start, end)
      ensures TradesIn(rows[..k + 1], start, end, b) == TradesIn(rows[..k], start, end, b) {
      assert TradesIn(rows[..k], start, end, b) + [] == TradesIn(rows[..k], start, end, b);
    }
  }

  lemma IntoBucket(rows: seq<Trade>, k: nat, start: int, end: int)
    requires k < |rows| && Within(rows[k], start, end)
    ensures forall b | b != BucketOf(rows[k].at) ::
            TradesIn(rows[..k + 1], start, end, b) == TradesIn(rows[..k], start, end, b)
    ensures var b := BucketOf(rows[k].at);
            && TradesIn(rows[..k + 1], start, end, b) != []
            && Folded(TradesIn(rows[..k + 1], start, end, b))
               == Added(Folded(TradesIn(rows[..k], start, end, b)), rows[k])
  {
    hide Added, BucketOf;
    assert rows[..k + 1][..k] == rows[..k];
    forall b ensures TradesIn(rows[..k], start, end, b) + [] == TradesIn(rows[..k], start, end, b) {
    }
    var trades := TradesIn(rows[..k], start, end, BucketOf(rows[k].at));
    assert (trades + [rows[k]])[..|trades|] == trades;
  }

  // ---- Output ----

  datatype Bar = Bar(start: int, open: Option<real>, high: Option<real>, low: Option<real>, close: Option<real>,
                     count: nat, notional: real, buys: real, sells: real)

  function BarCount(start: int, end: int): nat {
    if end > BucketOf(start) then (end - BucketOf(start) + BUCKET_MS - 1) / BUCKET_MS else 0
  }

  function StartOf(start: int, i: int): int {
    BucketOf(start) + i * BUCKET_MS
  }

  function Priced(price: Option<real>, b: int): Bar {
    Bar(b, price, price, price, price, 0, 0.0, 0.0, 0.0)
  }

  function Traded(t: Tally, b: int): Bar {
    Bar(b, Some(t.open), Some(t.high), Some(t.low), Some(t.close), t.count, t.notional, t.buys, t.sells)
  }

  /** The price carried into the `i`-th bucket. */
  function Carried(rows: seq<Trade>, start: int, end: int, i: nat): Option<real> {
    if i == 0 then LastRead(rows, start, end)
    else
      var before := TradesIn(rows, start, end, StartOf(start, i - 1));
      if before != [] then Some(Folded(before).close) else Carried(rows, start, end, i - 1)
  }

  function BarAt(rows: seq<Trade>, start: int, end: int, i: nat): Bar {
    var b := StartOf(start, i);
    var trades := TradesIn(rows, start, end, b);
    if trades == [] then Priced(Carried(rows, start, end, i), b) else Traded(Folded(trades), b)
  }

  /** A price is shown only if it is a positive number; every usable price is. */
  method AggregateSymbol(rows: seq<Trade>, start: int, end: int) returns (bars: seq<Bar>, inRange: nat)
    ensures |bars| == BarCount(start, end) && forall i | 0 <= i < |bars| :: bars[i] == BarAt(rows, start, end, i)
    ensures inRange == |InRange(rows, start, end)|
  {
    hide Folded, TradesIn, BucketOf, BarCount, LastRead;
    var buckets, prior;
    buckets, prior, inRange := ReadRows(rows, start, end);
    bars := [];
    var carried := prior;
    for i := 0 to BarCount(start, end)
      invariant |bars| == i && forall k | 0 <= k < i :: bars[k] == BarAt(rows, start, end, k)
      invariant carried == Carried(rows, start, end, i)
    {
      var b := StartOf(start, i);
      if b in buckets {
        carried := Some(buckets[b].close);
        bars := bars + [Traded(buckets[b], b)];
      } else {
        bars := bars + [Priced(carried, b)];
      }
    }
  }

  // ---- Conservation ----

  /** A weight summed over the first `n` bars. */
  function SumBars(rows: seq<Trade>, start: int, end: int, n: nat, weight: Trade -> real): real {
    if n == 0 then 0.0
    else SumBars(rows, start, end, n - 1, weight) + Sum(TradesIn(rows, start, end, StartOf(start, n - 1)), weight)
  }

  /** The trade's bucket is one of the first `n`. */
  predicate Lands(start: int, n: nat, t: Trade) {
    BucketOf(start) <= BucketOf(t.at) < StartOf(start, n)
  }

  lemma {:induction false} OneMoreTrade(rows: seq<Trade>, start: int, end: int, n: nat, weight: Trade -> real)
    requires rows != []
    ensures var (front, t) := (rows[..|rows| - 1], rows[|rows| - 1]);
            SumBars(rows, start, end, n, weight)
            == SumBars(front, start, end, n, weight)
               + if Within(t, start, end) && Lands(start, n, t) then weight(t) else 0.0
  {
    hide BucketOf, Within;
    var front, t := rows[..|rows| - 1], rows[|rows| - 1];
    if n > 0 {
      OneMoreTrade(rows, start, end, n - 1, weight);
      LandsOnce(start, n, t);
      var b := StartOf(start, n - 1);
      var trades := TradesIn(front, start, end, b);
      assert (trades + [t])[..|trades|] == trades;
      assert trades + [] == trades;
    }
  }

  /** A bucket start is among the first `n` but not the first `n - 1` just if it is the `n`-th. */
  lemma LandsOnce(start: int, n: nat, t: Trade)
    requires n > 0
    ensures Lands(start, n, t) <==> Lands(start, n - 1, t) || BucketOf(t.at) == StartOf(start, n - 1)
    ensures !(Lands(start, n - 1, t) && BucketOf(t.at) == StartOf(start, n - 1))
    ensures !Lands(start, 0, t)
  {
    var k := t.at / BUCKET_MS - start / BUCKET_MS;
    assert BucketOf(t.at) - BucketOf(start) == k * BUCKET_MS;
  }

  lemma EveryTradeLands(start: int, end: int, t: Trade)
    requires Within(t, start, end)
    ensures Lands(start, BarCount(start, end), t)
  {
    var n := BarCount(start, end);
    assert BucketOf(t.at) <= t.at < end;
  }

  /** Every in-range trade is in exactly one bar: any weight summed over the bars is its sum over the trades. */
  lemma {:induction false} WeightIsConserved(rows: seq<Trade>, start: int, end: int, weight: Trade -> real)
    ensures SumBars(rows, start, end, BarCount(start, end), weight) == Sum(InRange(rows, start, end), weight)
  {
    hide BucketOf, BarCount, Lands;
    var n := BarCount(start, end);
    if rows == [] {
      NoTrades(start, end, n, weight);
    } else {
      var front, t := rows[..|rows| - 1], rows[|rows| - 1];
      WeightIsConserved(front, start, end, weight);
      OneMoreTrade(rows, start, end, n, weight);
      var trades := InRange(front, start, end);
      assert (trades + [t])[..|trades|] == trades && trades + [] == trades;
      if Within(t, start, end) {
        EveryTradeLands(start, end, t);
      }
    }
  }

  lemma {:induction false} NoTrades(start: int, end: int, n: nat, weight: Trade -> real)
    ensures SumBars([], start, end, n, weight) == 0.0
  {
    if n > 0 {
      NoTrades(start, end, n - 1, weight);
    }
  }

  function Counts(bars: seq<Bar>): nat {
    if bars == [] then 0 else Counts(bars[..|bars| - 1]) + bars[|bars| - 1].count
  }

  function Buys(bars: seq<Bar>): real {
    if bars == [] then 0.0 else Buys(bars[..|bars| - 1]) + bars[|bars| - 1].buys
  }

  function Notionals(bars: seq<Bar>): real {
    if bars == [] then 0.0 else Notionals(bars[..|bars| - 1]) + bars[|bars| - 1].notional
  }

  lemma {:induction false} SumOfOnes(trades: seq<Trade>)
    ensures Sum(trades, One) == |trades| as real
  {
    if trades != [] {
      SumOfOnes(trades[..|trades| - 1]);
    }
  }

  lemma {:induction false} BarsSum(rows: seq<Trade>, start: int, end: int, bars: seq<Bar>)
    requires forall i | 0 <= i < |bars| :: bars[i] == BarAt(rows, start, end, i)
    ensures Counts(bars) as real == SumBars(rows, start, end, |bars|, One)
    ensures Notionals(bars) == SumBars(rows, start, end, |bars|, Notional)
    ensures Buys(bars) == SumBars(rows, start, end, |bars|, BuyNotional)
  {
    hide Folded, TradesIn, Carried, Sum;
    if bars != [] {
      var n := |bars| - 1;
      BarsSum(rows, start, end, bars[..n]);
      var trades := TradesIn(rows, start, end, StartOf(start, n));
      FoldedMeans(trades);
      SumOfOnes(trades);
      NothingSums();
    }
  }

  lemma NothingSums()
    ensures Sum([], Notional) == 0.0 && Sum([], BuyNotional) == 0.0
  {
  }

  /** Trades, notionals and active buys of the bars add up to those of the in-range input. */
  lemma BarsConserve(rows: seq<Trade>, start: int, end: int, bars: seq<Bar>)
    requires |bars| == BarCount(start, end) && forall i | 0 <= i < |bars| :: bars[i] == BarAt(rows, start, end, i)
    ensures Counts(bars) == |InRange(rows, start, end)|
    ensures Notionals(bars) == Sum(InRange(rows, start, end), Notional)
    ensures Buys(bars) == Sum(InRange(rows, start, end), BuyNotional)
  {
    hide Counts, Notionals, Buys, SumBars, Sum, InRange, BarAt, BarCount;
    BarsSum(rows, start, end, bars);
    WeightIsConserved(rows, start, end, One);
    WeightIsConserved(rows, start, end, Notional);
    WeightIsConserved(rows, start, end, BuyNotional);
    SumOfOnes(InRange(rows, start, end));
  }

  // ---- Single bars ----

  /** Opening and close lie between low and high, and the notional splits into buys and sells. */
  lemma BarIsConsistent(rows: seq<Trade>, start: int, end: int, i: nat)
    ensures var bar := BarAt(rows, start, end, i);
            && bar.buys + bar.sells == bar.notional
            && (bar.count > 0 ==> bar.open.Some? && bar.high.Some? && bar.low.Some? && bar.close.Some?
                                  && bar.low.value <= bar.open.value <= bar.high.value
                                  && bar.low.value <= bar.close.value <= bar.high.value)
            && (bar.count == 0 ==> bar.open == bar.high == bar.low == bar.close)
  {
    hide Folded, TradesIn, Carried;
    var trades := TradesIn(rows, start, end, StartOf(start, i));
    FoldedMeans(trades);
    if trades != [] {
      assert trades[0] in trades && trades[|trades| - 1] in trades;
    }
  }

  /** From the first traded bucket on, an empty bar shows the close of the latest traded one before it. */
  lemma {:induction false} EmptyBarCarriesClose(rows: seq<Trade>, start: int, end: int, j: nat, i: nat)
    requires j < i && BarAt(rows, start, end, j).count > 0
    requires forall k: nat | j < k <= i :: BarAt(rows, start, end, k).count == 0
    ensures BarAt(rows, start, end, i).close == BarAt(rows, start, end, j).close
    decreases i
  {
    hide Folded, TradesIn;
    FoldedMeans(TradesIn(rows, start, end, StartOf(start, i - 1)));
    FoldedMeans(TradesIn(rows, start, end, StartOf(start, i)));
    if i - 1 > j {
      EmptyBarCarriesClose(rows, start, end, j, i - 1);
    }
  }

  /** Before it, an empty bar shows the last price read in all, which may be a later trade's. */
  lemma {:induction false} LeadingBarShowsLastRead(rows: seq<Trade>, start: int, end: int, i: nat)
    requires forall k: nat | k <= i :: BarAt(rows, start, end, k).count == 0
    ensures BarAt(rows, start, end, i).close == LastRead(rows, start, end)
  {
    hide Folded, TradesIn, LastRead;
    FoldedMeans(TradesIn(rows, start, end, StartOf(start, i)));
    if i > 0 {
      FoldedMeans(TradesIn(rows, start, end, StartOf(start, i - 1)));
      LeadingBarShowsLastRead(rows, start, end, i - 1);
    }
  }

  predicate InOrder(rows: seq<Trade>) {
    forall i, j | 0 <= i < j < |rows| :: rows[i].at <= rows[j].at
  }

  /** The price a leading bar should carry: the last one before the range. */
  function LastBefore(rows: seq<Trade>, start: int): Option<real> {
    if rows == [] then None
    else if Usable(rows[|rows| - 1]) && rows[|rows| - 1].at < start then Some(rows[|rows| - 1].price)
    else LastBefore(rows[..|rows| - 1], start)
  }

  lemma {:induction false} NothingInRangeYet(rows: seq<Trade>, start: int, end: int)
    requires forall i | 0 <= i < |rows| :: rows[i].at < start
    ensures InRange(rows, start, end) == []
  {
    if rows != [] {
      NothingInRangeYet(rows[..|rows| - 1], start, end);
    }
  }

  lemma {:induction false} LastReadIs(rows: seq<Trade>, start: int, end: int)
    requires InOrder(rows) && start <= end
    ensures var inside := InRange(rows, start, end);
            LastRead(rows, start, end)
            == if inside != [] then Some(inside[|inside| - 1].price) else LastBefore(rows, start)
  {
    if rows != [] {
      LastReadIs(rows[..|rows| - 1], start, end);
      if rows[|rows| - 1].at < start {
        NothingInRangeYet(rows, start, end);
      }
    }
  }

  /** With trades in time order, the leading bars carry the price from before the range just when nothing was traded in
      it or the last trade in it happens to have that same price. */
  lemma LeadingBarsAreRight(rows: seq<Trade>, start: int, end: int, i: nat)
    requires InOrder(rows) && start <= end
    requires forall k: nat | k <= i :: BarAt(rows, start, end, k).count == 0
    ensures var inside := InRange(rows, start, end);
            BarAt(rows, start, end, i).close == LastBefore(rows, start)
            <==> inside == [] || LastBefore(rows, start) == Some(inside[|inside| - 1].price)
  {
    hide BarAt, LastRead, LastBefore, InRange;
    LeadingBarShowsLastRead(rows, start, end, i);
    LastReadIs(rows, start, end);
  }

  /** One trade in the second bucket: the first bar, empty, shows its price, and nothing was traded before. */
  lemma LeadingBarShowsLaterPrice(price: real)
    requires price > 0.0
    ensures var (rows, end) := ([Trade(BUCKET_MS, price, 1.0, false)], 2 * BUCKET_MS);
            && InOrder(rows) && BarAt(rows, 0, end, 0).count == 0 && BarAt(rows, 0, end, 1).count == 1
            && BarAt(rows, 0, end, 0).close == Some(price) && LastBefore(rows, 0) == None
  {
    var t := Trade(BUCKET_MS, price, 1.0, false);
    assert [t][..0] == [] && [] + [t] == [t];
    assert TradesIn([], 0, 2 * BUCKET_MS, 0) == [] && TradesIn([], 0, 2 * BUCKET_MS, BUCKET_MS) == [];
    assert TradesIn([t], 0, 2 * BUCKET_MS, StartOf(0, 1)) == [t];
    FoldedSums([t]);
  }

  // ---- Which trades go where, and what the bars show ----

  /** All selections go trade by trade, in order. */
  lemma {:induction false} SelectionsJoin(a: seq<Trade>, b: seq<Trade>, start: int, end: int, bucket: int)
    ensures TradesIn(a + b, start, end, bucket) == TradesIn(a, start, end, bucket) + TradesIn(b, start, end, bucket)
    ensures InRange(a + b, start, end) == InRange(a, start, end) + InRange(b, start, end)
    decreases |b|
  {
    hide BucketOf, Within;
    if b == [] {
      assert a + b == a;
    } else {
      assert (a + b)[..|a + b| - 1] == a + b[..|b| - 1];
      SelectionsJoin(a, b[..|b| - 1], start, end, bucket);
    }
  }

  /** A trade counts if price and quantity are proper and its time lies in the range, and then in the bucket of fifteen
      seconds that its time falls into. */
  lemma OneSelected(t: Trade, start: int, end: int, bucket: int)
    ensures var counts := t.price > 0.0 && t.quantity >= 0.0 && start <= t.at < end;
            && InRange([t], start, end) == (if counts then [t] else [])
            && (bucket % BUCKET_MS == 0 ==>
                  TradesIn([t], start, end, bucket)
                  == if counts && bucket <= t.at < bucket + BUCKET_MS then [t] else [])
  {
    assert [t][..0] == [];
    if bucket % BUCKET_MS == 0 {
      InsideBucket(t.at, bucket);
    }
  }

  lemma InsideBucket(at: int, bucket: int)
    requires bucket % BUCKET_MS == 0
    ensures BucketOf(at) == bucket <==> bucket <= at < bucket + BUCKET_MS
  {
    var k := bucket / BUCKET_MS;
    assert bucket == k * BUCKET_MS;
  }

  lemma {:induction false} SumsJoin(a: seq<Trade>, b: seq<Trade>, weight: Trade -> real)
    ensures Sum(a + b, weight) == Sum(a, weight) + Sum(b, weight)
    decreases |b|
  {
    if b == [] {
      assert a + b == a;
    } else {
      assert (a + b)[..|a + b| - 1] == a + b[..|b| - 1];
      SumsJoin(a, b[..|b| - 1], weight);
    }
  }

  lemma OneSummed(t: Trade, weight: Trade -> real)
    ensures Sum([t], weight) == weight(t)
  {
    assert [t][..0] == [];
  }

  /** A bar with trades shows their first and last price, the extremes, the count and the sums, under its bucket's
      start. */
  lemma BarMeans(rows: seq<Trade>, start: int, end: int, i: nat)
    ensures var (bar, trades) := (BarAt(rows, start, end, i), TradesIn(rows, start, end, StartOf(start, i)));
            && bar.start == start - start % BUCKET_MS + i * BUCKET_MS
            && bar.count == |trades| && bar.notional == Sum(trades, Notional)
            && bar.buys == Sum(trades, BuyNotional) && bar.sells == Sum(trades, SellNotional)
            && (trades != [] ==>
                  && bar.open == Some(trades[0].price) && bar.close == Some(trades[|trades| - 1].price)
                  && bar.low.Some? && bar.high.Some? && Spans(bar.low.value, bar.high.value, trades))
  {
    hide Folded, TradesIn, Carried, Sum, Spans;
    FoldedMeans(TradesIn(rows, start, end, StartOf(start, i)));
    NothingSummed();
    assert start == start / BUCKET_MS * BUCKET_MS + start % BUCKET_MS;
  }

  lemma NothingSummed()
    ensures Sum([], Notional) == Sum([], BuyNotional) == Sum([], SellNotional) == 0.0
  {
  }

  /** The bars reach just past the end of the range. */
  lemma BarsReachEnd(start: int, end: int)
    ensures var n := BarCount(start, end);
            && end <= StartOf(start, n)
            && (n > 0 ==> StartOf(start, n - 1) < end)
  {
    var n := BarCount(start, end);
    assert StartOf(start, n) == BucketOf(start) + n * BUCKET_MS;
    if n > 0 {
      assert (n - 1) * BUCKET_MS < end - BucketOf(start) <= n * BUCKET_MS;
    }
  }
}
