/** `fetch_symbol` of `scripts/download_official_15m_klines.py`: paging through an exchange's candles, with the server
    an arbitrary oracle. */
module KlinePaging {
  import opened Numerals
  import opened Sorting

  /** Times are milliseconds. */
  const INTERVAL := 15 * 60 * 1000
  const MAX_LIMIT := 1500

  datatype Candle = Candle(start: int, end: int, values: string)

  /** A row that is no list of at least seven values with integer times is malformed. */
  datatype Row = Malformed | Listed(candle: Candle)

  datatype Fault = Unreachable | EmptyPage | MalformedRow | NothingInRange | Gap | NoAdvance | ShortPage | Missing

  datatype Outcome<T> = Ok(value: T) | Raised(fault: Fault)

  /** The answer to a request from `cursor` for `limit` rows, or a failure. */
  type Server = (int, int) -> Option<seq<Row>>

  datatype Search = Search(cursor: int, effective: int, first: bool, stored: map<int, Candle>)

  function Opening(start: int): Search {
    Search(start, start, true, map[])
  }

  /** Whole intervals from one time to another. */
  function Steps(from: int, to: int): nat {
    if to > from then (to - from) / INTERVAL else 0
  }

  function LimitAt(cursor: int, end: int): (limit: int)
    ensures 1 <= limit <= MAX_LIMIT && (1 <= Steps(cursor, end) <= MAX_LIMIT ==> limit == Steps(cursor, end))
    ensures Steps(cursor, end) > MAX_LIMIT ==> limit == MAX_LIMIT
  {
    var remaining := Steps(cursor, end);
    if remaining < 1 then 1 else if remaining > MAX_LIMIT then MAX_LIMIT else remaining
  }

  predicate InRange(c: Candle, start: int, end: int) {
    start <= c.start < end && c.end <= end
  }

  function Parsed(rows: seq<Row>, start: int, end: int): Outcome<seq<Candle>> {
    if rows == [] then Ok([])
    else match (Parsed(rows[..|rows| - 1], start, end), rows[|rows| - 1])
      case (Raised(fault), _) => Raised(fault)
      case (Ok(_), Malformed) => Raised(MalformedRow)
      case (Ok(candles), Listed(c)) => Ok(if InRange(c, start, end) then candles + [c] else candles)
  }

  function StoreAll(stored: map<int, Candle>, candles: seq<Candle>): map<int, Candle> {
    if candles == [] then stored
    else StoreAll(stored, candles[..|candles| - 1])[candles[|candles| - 1].start := candles[|candles| - 1]]
  }

  function Earliest(candles: seq<Candle>): int
    requires candles != []
  {
    var last := candles[|candles| - 1].start;
    if |candles| == 1 then last
    else
      var before := Earliest(candles[..|candles| - 1]);
      if before <= last then before else last
  }

  function Latest(candles: seq<Candle>): int
    requires candles != []
  {
    var last := candles[|candles| - 1].start;
    if |candles| == 1 then last
    else
      var before := Latest(candles[..|candles| - 1]);
      if before >= last then before else last
  }

  /** One page: the search after it, and whether it was the last. */
  function Turn(server: Server, start: int, end: int, lenient: bool, s: Search): Outcome<(Search, bool)> {
    var limit := LimitAt(s.cursor, end);
    match server(s.cursor, limit)
    case None => Raised(Unreachable)
    case Some(rows) =>
      if rows == [] then Raised(EmptyPage)
      else match Parsed(rows, start, end)
        case Raised(fault) => Raised(fault)
        case Ok(candles) =>
          if candles == [] then Raised(NothingInRange)
          else if Earliest(candles) > s.cursor && !s.first then Raised(Gap)
          else if Latest(candles) + INTERVAL <= s.cursor then Raised(NoAdvance)
          else
            var next := Latest(candles) + INTERVAL;
            if |rows| < limit && next < end && !lenient then Raised(ShortPage)
            else
              Ok((Search(next, if Earliest(candles) > s.cursor then Earliest(candles) else s.effective, false,
                         StoreAll(s.stored, candles)), |rows| < limit))
  }

  function Paged(server: Server, start: int, end: int, lenient: bool, s: Search): Outcome<Search>
    decreases end - s.cursor
  {
    if s.cursor >= end then Ok(s)
    else match Turn(server, start, end, lenient, s)
      case Raised(fault) => Raised(fault)
      case Ok((next, last)) => if last then Ok(next) else Paged(server, start, end, lenient, next)
  }

  predicate Covers(s: Search, end: int) {
    forall k: nat | k < Steps(s.effective, end) :: s.effective + k * INTERVAL in s.stored
  }

  /** The stored candles by time. */
  predicate Lists(candles: seq<Candle>, stored: map<int, Candle>) {
    && (forall i | 0 <= i < |candles| :: candles[i].start in stored && candles[i] == stored[candles[i].start])
    && (forall t | t in stored :: stored[t] in candles)
    && forall i, j | 0 <= i < j < |candles| :: candles[i].start < candles[j].start
  }

  method ReadPage(rows: seq<Row>, start: int, end: int, stored0: map<int, Candle>)
    returns (outcome: Outcome<seq<Candle>>, stored: map<int, Candle>)
    ensures outcome == Parsed(rows, start, end)
    ensures outcome.Ok? ==> stored == StoreAll(stored0, outcome.value)
  {
    hide Parsed, StoreAll, InRange;
    var candles: seq<Candle> := [];
    stored := stored0;
    NothingParsed(start, end);
    NothingStored(stored);
    for i := 0 to |rows|
      invariant Parsed(rows[..i], start, end) == Ok(candles) && stored == StoreAll(stored0, candles)
    {
      assert rows[..i + 1] == rows[..i] + [rows[i]];
      ParsedGrows(rows[..i], rows[i], start, end);
      if rows[i].Malformed? {
        MalformedStays(rows, i + 1, start, end);
        return Raised(MalformedRow), stored;
      }
      var c := rows[i].candle;
      if InRange(c, start, end) {
        StoreGrows(stored0, candles, c);
        stored, candles := stored[c.start := c], candles + [c];
      }
    }
    assert rows[..|rows|] == rows;
    outcome := Ok(candles);
  }

  lemma NothingParsed(start: int, end: int)
    ensures Parsed([], start, end) == Ok([])
  {
  }

  lemma NothingStored(stored: map<int, Candle>)
    ensures StoreAll(stored, []) == stored
  {
  }

  lemma ParsedGrows(rows: seq<Row>, row: Row, start: int, end: int)
    requires Parsed(rows, start, end).Ok?
    ensures Parsed(rows + [row], start, end) == match row
              case Malformed => Raised(MalformedRow)
              case Listed(c) =>
                Ok(if InRange(c, start, end) then Parsed(rows, start, end).value + [c]
                   else Parsed(rows, start, end).value)
  {
    assert (rows + [row])[..|rows|] == rows;
  }

  lemma StoreGrows(stored: map<int, Candle>, candles: seq<Candle>, c: Candle)
    ensures StoreAll(stored, candles + [c]) == StoreAll(stored, candles)[c.start := c]
  {
    assert (candles + [c])[..|candles|] == candles;
  }

  lemma {:induction false} MalformedStays(rows: seq<Row>, i: nat, start: int, end: int)
    requires i <= |rows| && Parsed(rows[..i], start, end).Raised?
    ensures Parsed(rows, start, end) == Parsed(rows[..i], start, end)
    decreases |rows| - i
  {
    if i == |rows| {
      assert rows[..i] == rows;
    } else {
      assert rows[..i + 1][..i] == rows[..i];
      MalformedStays(rows, i + 1, start, end);
    }
  }

  method FetchSymbol(server: Server, start: int, end: int, lenient: bool) returns (result: Outcome<seq<Candle>>)
    ensures match Paged(server, start, end, lenient, Opening(start))
            case Raised(fault) => result == Raised(fault)
            case Ok(s) =>
              if !Covers(s, end) && !lenient then result == Raised(Missing)
              else result.Ok? && Lists(result.value, s.stored)
  {
    hide Parsed, StoreAll, LimitAt, Steps, Lists;
    var s := Opening(start);
    var last := false;
    while !last && s.cursor < end
      invariant Paged(server, start, end, lenient, Opening(start))
                == if last then Ok(s) else Paged(server, start, end, lenient, s)
      decreases !last, end - s.cursor
    {
      var limit := LimitAt(s.cursor, end);
      var page := server(s.cursor, limit);
      if page.None? {
        return Raised(Unreachable);
      }
      var rows := page.value;
      if rows == [] {
        return Raised(EmptyPage);
      }
      var parsed, stored := ReadPage(rows, start, end, s.stored);
      if parsed.Raised? {
        return Raised(parsed.fault);
      }
      if parsed.value == [] {
        return Raised(NothingInRange);
      }
      var firstStart, next := Earliest(parsed.value), Latest(parsed.value) + INTERVAL;
      if firstStart > s.cursor && !s.first {
        return Raised(Gap);
      }
      if next <= s.cursor {
        return Raised(NoAdvance);
      }
      if |rows| < limit && next < end && !lenient {
        return Raised(ShortPage);
      }
      s := Search(next, if firstStart > s.cursor then firstStart else s.effective, false, stored);
      last := |rows| < limit;
    }
    if !lenient {
      var covered := CheckCovered(s, end);
      if !covered {
        return Raised(Missing);
      }
    }
    PagedIsSound(server, start, end, lenient, Opening(start));
    var candles := ByTime(s.stored);
    result := Ok(candles);
  }

  method CheckCovered(s: Search, end: int) returns (covered: bool)
    ensures covered == Covers(s, end)
  {
    hide Steps;
    for k := 0 to Steps(s.effective, end)
      invariant forall j: nat | j < k :: s.effective + j * INTERVAL in s.stored
    {
      if s.effective + k * INTERVAL !in s.stored {
        return false;
      }
    }
    covered := true;
  }

  function StartOf(c: Candle): int {
    c.start
  }

  predicate ByStart(stored: map<int, Candle>) {
    forall t | t in stored :: stored[t].start == t
  }

  /** `[rows[key] for key in sorted(rows)]`. */
  method ByTime(stored: map<int, Candle>) returns (candles: seq<Candle>)
    requires ByStart(stored)
    ensures Lists(candles, stored)
  {
    candles := [];
    var todo := stored.Keys;
    while todo != {}
      invariant todo <= stored.Keys
      invariant SortedBy(candles, StartOf)
      invariant Gathered(candles, stored, todo)
      decreases todo
    {
      ghost var one := Member(todo);
      var t :| t in todo;
      GatherOne(candles, stored, todo, t);
      candles, todo := Insert(candles, stored[t], StartOf), todo - {t};
    }
    GatheredAll(candles, stored);
  }

  /** Each stored candle that is no longer to do is listed once, and nothing else is. */
  ghost predicate Gathered(candles: seq<Candle>, stored: map<int, Candle>, todo: set<int>) {
    && (forall c | c in candles :: c.start in stored && c.start !in todo && c == stored[c.start])
    && (forall t | t in stored && t !in todo :: stored[t] in candles)
    && forall c :: multiset(candles)[c] <= 1
  }

  lemma GatherOne(candles: seq<Candle>, stored: map<int, Candle>, todo: set<int>, t: int)
    requires ByStart(stored) && todo <= stored.Keys && t in todo
    requires SortedBy(candles, StartOf) && Gathered(candles, stored, todo)
    ensures var more := Insert(candles, stored[t], StartOf);
            SortedBy(more, StartOf) && Gathered(more, stored, todo - {t})
  {
    hide Insert, SortedBy;
    var more := Insert(candles, stored[t], StartOf);
    InsertSorts(candles, stored[t], StartOf);
    InsertContents(candles, stored[t], StartOf);
    forall c ensures c in more <==> c in candles || c == stored[t] {
      InsertMembers(candles, stored[t], StartOf, c);
    }
  }

  lemma GatheredAll(candles: seq<Candle>, stored: map<int, Candle>)
    requires SortedBy(candles, StartOf) && Gathered(candles, stored, {})
    ensures Lists(candles, stored)
  {
    forall i, j | 0 <= i < j < |candles| ensures candles[i].start < candles[j].start {
      if candles[i].start == candles[j].start {
        TwiceCounted(candles, i, j);
      }
    }
  }

  lemma TwiceCounted(candles: seq<Candle>, i: nat, j: nat)
    requires i < j < |candles| && candles[i] == candles[j]
    ensures multiset(candles)[candles[i]] >= 2
  {
    var c := candles[i];
    assert candles == candles[..j] + candles[j..] && c in candles[..j] && c in candles[j..];
    assert multiset(candles) == multiset(candles[..j]) + multiset(candles[j..]);
  }

  // ---- What a search has stored ----

  lemma {:induction false} ParsedFrom(rows: seq<Row>, start: int, end: int)
    requires Parsed(rows, start, end).Ok?
    ensures forall c | c in Parsed(rows, start, end).value :: InRange(c, start, end) && Listed(c) in rows
  {
    if rows != [] {
      ParsedFrom(rows[..|rows| - 1], start, end);
      assert rows == rows[..|rows| - 1] + [rows[|rows| - 1]];
    }
  }

  lemma {:induction false} StoredFrom(stored: map<int, Candle>, candles: seq<Candle>)
    requires ByStart(stored)
    ensures var all := StoreAll(stored, candles);
            && ByStart(all)
            && (forall t | t in all :: (t in stored && all[t] == stored[t]) || all[t] in candles)
            && (forall t | t in stored :: t in all) && forall c | c in candles :: c.start in all
  {
    if candles != [] {
      StoredFrom(stored, candles[..|candles| - 1]);
      assert candles == candles[..|candles| - 1] + [candles[|candles| - 1]];
    }
  }

  ghost predicate Kept(s: Search, start: int, end: int) {
    && ByStart(s.stored) && s.effective >= start
    && (s.effective != start ==> s.effective in s.stored)
    && forall t | t in s.stored :: InRange(s.stored[t], start, end)
  }

  lemma TurnKeeps(server: Server, start: int, end: int, lenient: bool, s: Search)
    requires Kept(s, start, end) && Turn(server, start, end, lenient, s).Ok?
    ensures Kept(Turn(server, start, end, lenient, s).value.0, start, end)
  {
    hide Parsed, StoreAll, LimitAt, Latest;
    var rows := server(s.cursor, LimitAt(s.cursor, end)).value;
    ParsedFrom(rows, start, end);
    var candles := Parsed(rows, start, end).value;
    StoredFrom(s.stored, candles);
    EarliestIn(candles);
    var i :| 0 <= i < |candles| && candles[i].start == Earliest(candles);
    assert candles[i] in candles;
  }

  lemma {:induction false} EarliestIn(candles: seq<Candle>)
    requires candles != []
    ensures Holds(candles, Earliest(candles)) && Holds(candles, Latest(candles))
    ensures forall i | 0 <= i < |candles| :: Earliest(candles) <= candles[i].start <= Latest(candles)
  {
    var n := |candles| - 1;
    if n > 0 {
      EarliestIn(candles[..n]);
      var i :| 0 <= i < n && candles[..n][i].start == Earliest(candles[..n]);
      var k :| 0 <= k < n && candles[..n][k].start == Latest(candles[..n]);
      assert candles[i].start == Earliest(candles) || candles[n].start == Earliest(candles);
      assert candles[k].start == Latest(candles) || candles[n].start == Latest(candles);
      assert forall k | 0 <= k < n :: candles[..n][k] == candles[k];
    } else {
      assert candles[0].start == Earliest(candles) == Latest(candles);
    }
  }

  /** The candles have one that starts at `t`. */
  predicate Holds(candles: seq<Candle>, t: int) {
    exists i :: 0 <= i < |candles| && candles[i].start == t
  }

  /** Whatever the server does, candles are stored under their own start and lie in the range asked for, and an
      effective start behind the requested one is that of a stored candle. */
  lemma {:induction false} PagedIsSound(server: Server, start: int, end: int, lenient: bool, s: Search)
    requires Kept(s, start, end)
    ensures Paged(server, start, end, lenient, s).Ok? ==> Kept(Paged(server, start, end, lenient, s).value, start, end)
    decreases end - s.cursor
  {
    hide Turn, Kept;
    TurnAdvances(server, start, end, lenient, s);
    if s.cursor < end && Turn(server, start, end, lenient, s).Ok? {
      TurnKeeps(server, start, end, lenient, s);
      var (next, last) := Turn(server, start, end, lenient, s).value;
      if !last {
        PagedIsSound(server, start, end, lenient, next);
      }
    }
  }

  lemma TurnAdvances(server: Server, start: int, end: int, lenient: bool, s: Search)
    ensures Turn(server, start, end, lenient, s).Ok? ==> Turn(server, start, end, lenient, s).value.0.cursor > s.cursor
  {
    hide Parsed, StoreAll, LimitAt, Latest, Earliest;
  }

  // ---- A server that keeps to the grid ----

  /** In-range candles are aligned, one interval long, and not before the cursor asked for. */
  ghost predicate KeepsToGrid(server: Server, start: int, end: int) {
    forall cursor: int, limit: int, c: Candle
      | server(cursor, limit).Some? && Listed(c) in server(cursor, limit).value && InRange(c, start, end) ::
      (c.start - start) % INTERVAL == 0 && c.start >= cursor && c.end == c.start + INTERVAL
  }

  predicate OnGrid(c: Candle, start: int, from: int) {
    (c.start - start) % INTERVAL == 0 && c.start >= from && c.end == c.start + INTERVAL
  }

  ghost predicate Aligned(s: Search, start: int) {
    && (s.effective - start) % INTERVAL == 0 && start <= s.effective <= s.cursor
    && (s.first ==> s.stored == map[] && s.cursor == start == s.effective)
    && forall t | t in s.stored :: OnGrid(s.stored[t], start, s.effective)
  }

  /** The candles a successful turn has read, and what it makes of them. */
  lemma TurnReads(server: Server, start: int, end: int, lenient: bool, s: Search) returns (candles: seq<Candle>)
    requires Turn(server, start, end, lenient, s).Ok?
    ensures var page := server(s.cursor, LimitAt(s.cursor, end));
            page.Some? && Parsed(page.value, start, end) == Ok(candles) && candles != []
    ensures Earliest(candles) > s.cursor ==> s.first
    ensures Turn(server, start, end, lenient, s).value.0
            == Search(Latest(candles) + INTERVAL,
                      if Earliest(candles) > s.cursor then Earliest(candles) else s.effective,
                      false, StoreAll(s.stored, candles))
  {
    hide Parsed, StoreAll, LimitAt, Latest, Earliest;
    candles := Parsed(server(s.cursor, LimitAt(s.cursor, end)).value, start, end).value;
  }

  lemma TurnAligns(server: Server, start: int, end: int, lenient: bool, s: Search)
    requires KeepsToGrid(server, start, end) && Kept(s, start, end) && Aligned(s, start)
    requires Turn(server, start, end, lenient, s).Ok?
    ensures Aligned(Turn(server, start, end, lenient, s).value.0, start)
  {
    hide Parsed, StoreAll, LimitAt, Latest, Earliest, Turn;
    var candles := TurnReads(server, start, end, lenient, s);
    PageOnGrid(server, start, end, s, candles);
    StoredFrom(s.stored, candles);
    StoredOnGrid(s, candles, start, if Earliest(candles) > s.cursor then Earliest(candles) else s.effective);
  }

  lemma PageOnGrid(server: Server, start: int, end: int, s: Search, candles: seq<Candle>)
    requires KeepsToGrid(server, start, end) && candles != []
    requires var page := server(s.cursor, LimitAt(s.cursor, end));
             page.Some? && Parsed(page.value, start, end) == Ok(candles)
    ensures forall c | c in candles :: OnGrid(c, start, s.cursor) && c.start >= Earliest(candles)
    ensures s.cursor <= Earliest(candles) <= Latest(candles) && (Earliest(candles) - start) % INTERVAL == 0
  {
    hide Parsed, LimitAt, Latest, Earliest;
    var limit := LimitAt(s.cursor, end);
    ParsedFrom(server(s.cursor, limit).value, start, end);
    EarliestIn(candles);
    forall c | c in candles ensures OnGrid(c, start, s.cursor) && c.start >= Earliest(candles) {
      assert Listed(c) in server(s.cursor, limit).value;
    }
    var i :| 0 <= i < |candles| && candles[i].start == Earliest(candles);
    assert OnGrid(candles[i], start, s.cursor);
  }

  lemma StoredOnGrid(s: Search, candles: seq<Candle>, start: int, from: int)
    requires Aligned(s, start) && ByStart(s.stored) && (s.first || from == s.effective) && start <= from
    requires forall c | c in candles :: OnGrid(c, start, s.cursor) && c.start >= from
    ensures forall t | t in StoreAll(s.stored, candles) :: OnGrid(StoreAll(s.stored, candles)[t], start, from)
  {
    hide StoreAll;
    StoredFrom(s.stored, candles);
  }

  lemma {:induction false} PagedAligns(server: Server, start: int, end: int, lenient: bool, s: Search)
    requires KeepsToGrid(server, start, end) && Kept(s, start, end) && Aligned(s, start)
    ensures Paged(server, start, end, lenient, s).Ok? ==> Aligned(Paged(server, start, end, lenient, s).value, start)
    decreases end - s.cursor
  {
    hide Turn, Kept, Aligned, KeepsToGrid;
    TurnAdvances(server, start, end, lenient, s);
    if s.cursor < end && Turn(server, start, end, lenient, s).Ok? {
      TurnKeeps(server, start, end, lenient, s);
      TurnAligns(server, start, end, lenient, s);
      var (next, last) := Turn(server, start, end, lenient, s).value;
      if !last {
        PagedAligns(server, start, end, lenient, next);
      }
    }
  }

  predicate GridPoint(from: int, end: int, t: int) {
    t >= from && (t - from) % INTERVAL == 0 && t + INTERVAL <= end
  }

  lemma GridIsSteps(from: int, end: int, t: int)
    ensures GridPoint(from, end, t) <==> exists k: nat :: k < Steps(from, end) && t == from + k * INTERVAL
  {
    if GridPoint(from, end, t) {
      assert t == from + ((t - from) / INTERVAL) * INTERVAL;
    }
  }

  lemma AlignedIsOnGrid(c: Candle, start: int, from: int, end: int)
    requires OnGrid(c, start, from) && (from - start) % INTERVAL == 0 && c.end <= end
    ensures GridPoint(from, end, c.start)
  {
  }

  /** Strict success against a server that keeps to the grid: exactly the grid from the effective start to the end. */
  lemma StrictIsExact(server: Server, start: int, end: int, candles: seq<Candle>)
    requires KeepsToGrid(server, start, end)
    requires Paged(server, start, end, false, Opening(start)).Ok?
    requires var s := Paged(server, start, end, false, Opening(start)).value;
             Covers(s, end) && Lists(candles, s.stored)
    ensures var from := Paged(server, start, end, false, Opening(start)).value.effective;
            forall t :: (exists c :: c in candles && c.start == t) <==> GridPoint(from, end, t)
  {
    hide Paged, Steps, KeepsToGrid, GridPoint, OnGrid;
    var s := Paged(server, start, end, false, Opening(start)).value;
    PagedIsSound(server, start, end, false, Opening(start));
    PagedAligns(server, start, end, false, Opening(start));
    forall t ensures (exists c :: c in candles && c.start == t) <==> GridPoint(s.effective, end, t) {
      GridIsSteps(s.effective, end, t);
      if t in s.stored {
        AlignedIsOnGrid(s.stored[t], start, s.effective, end);
        assert s.stored[t] in candles;
      }
    }
  }

  // ---- Holes ----

  /** The in-range candles of the page at the cursor. */
  function PageAt(server: Server, start: int, end: int, s: Search): seq<Candle> {
    match server(s.cursor, LimitAt(s.cursor, end))
    case None => []
    case Some(rows) => match Parsed(rows, start, end)
      case Raised(_) => []
      case Ok(candles) => candles
  }

  /** All pages that a search reads, in order. */
  function PagesRead(server: Server, start: int, end: int, lenient: bool, s: Search): seq<seq<Candle>>
    decreases end - s.cursor
  {
    if s.cursor >= end then []
    else match Turn(server, start, end, lenient, s)
      case Raised(_) => []
      case Ok((next, last)) =>
        [PageAt(server, start, end, s)] + if last then [] else PagesRead(server, start, end, lenient, next)
  }

  predicate Marks(start: int, t: int) {
    (t - start) % INTERVAL == 0
  }

  /** The page has every grid point between its earliest and its latest candle. */
  ghost predicate Full(candles: seq<Candle>, start: int) {
    candles != [] ==>
      forall t | Earliest(candles) <= t <= Latest(candles) && Marks(start, t) :: Holds(candles, t)
  }

  ghost predicate AllFull(pages: seq<seq<Candle>>, start: int) {
    forall i | 0 <= i < |pages| :: Full(pages[i], start)
  }

  /** Every grid point from the effective start up to the cursor is stored. */
  ghost predicate Seamless(s: Search, start: int) {
    forall t | s.effective <= t < s.cursor && Marks(start, t) :: t in s.stored
  }

  /** The cursor is on the grid, and everything stored lies behind it. */
  ghost predicate Behind(s: Search, start: int) {
    Marks(start, s.cursor) && forall t | t in s.stored :: t < s.cursor
  }

  lemma StoreHolds(stored: map<int, Candle>, candles: seq<Candle>, t: int)
    requires ByStart(stored)
    ensures t in StoreAll(stored, candles) <==> t in stored || Holds(candles, t)
  {
    hide StoreAll;
    StoredFrom(stored, candles);
    if i :| 0 <= i < |candles| && candles[i].start == t {
      assert candles[i] in candles;
    }
  }

  /** A turn of a server that keeps to the grid: the next page begins at the cursor, or is the first. */
  lemma TurnTiles(server: Server, start: int, end: int, lenient: bool, s: Search)
    requires KeepsToGrid(server, start, end) && Kept(s, start, end) && Aligned(s, start) && Behind(s, start)
    requires Turn(server, start, end, lenient, s).Ok?
    ensures var (next, page) := (Turn(server, start, end, lenient, s).value.0, PageAt(server, start, end, s));
            && page != [] && next.cursor == Latest(page) + INTERVAL && Earliest(page) <= Latest(page)
            && (s.first ==> next.effective == Earliest(page) && s.stored == map[] && s.effective == s.cursor)
            && (!s.first ==> next.effective == s.effective && Earliest(page) == s.cursor)
            && next.effective <= Earliest(page) && next.stored == StoreAll(s.stored, page)
            && Behind(next, start)
  {
    hide Parsed, StoreAll, LimitAt, Latest, Earliest, Turn, KeepsToGrid, Behind, Marks, OnGrid;
    var candles := TurnReads(server, start, end, lenient, s);
    PageOnGrid(server, start, end, s, candles);
    PageStaysBehind(s, start, candles, Turn(server, start, end, lenient, s).value.0);
  }

  lemma PageStaysBehind(s: Search, start: int, candles: seq<Candle>, next: Search)
    requires ByStart(s.stored) && Behind(s, start) && candles != [] && s.cursor <= Earliest(candles)
    requires forall c | c in candles :: OnGrid(c, start, s.cursor)
    requires next.cursor == Latest(candles) + INTERVAL && next.stored == StoreAll(s.stored, candles)
    ensures Behind(next, start)
  {
    hide StoreAll, Latest, Earliest;
    EarliestIn(candles);
    var k :| 0 <= k < |candles| && candles[k].start == Latest(candles);
    assert candles[k] in candles && OnGrid(candles[k], start, s.cursor);
    forall t | t in next.stored ensures t <= Latest(candles) {
      StoreHolds(s.stored, candles, t);
    }
  }

  /** A hole behind the cursor is never filled, and one in a page is there to stay. */
  lemma TurnKeepsHoles(server: Server, start: int, end: int, lenient: bool, s: Search)
    requires KeepsToGrid(server, start, end) && Kept(s, start, end) && Aligned(s, start) && Behind(s, start)
    requires Turn(server, start, end, lenient, s).Ok?
    ensures Seamless(Turn(server, start, end, lenient, s).value.0, start)
            <==> Seamless(s, start) && Full(PageAt(server, start, end, s), start)
  {
    hide StoreAll, Latest, Earliest, Turn, KeepsToGrid, PageAt, Aligned, Marks;
    TurnTiles(server, start, end, lenient, s);
    var next, page := Turn(server, start, end, lenient, s).value.0, PageAt(server, start, end, s);
    EarliestIn(page);
    forall t ensures t in next.stored <==> t in s.stored || Holds(page, t) {
      StoreHolds(s.stored, page, t);
    }
    forall t | Holds(page, t) ensures t >= Earliest(page) {
    }
    StartsAtOrAfter(s, start, page);
    forall t | Marks(start, t) && t < next.cursor ensures t <= Latest(page) {
      GridGap(next.cursor, start, t);
    }
    if Seamless(next, start) {
      forall t | s.effective <= t < s.cursor && Marks(start, t) ensures t in s.stored {
        assert t in next.stored;
      }
      forall t | Earliest(page) <= t <= Latest(page) && Marks(start, t) ensures Holds(page, t) {
        assert t in next.stored;
      }
    }
  }

  lemma StartsAtOrAfter(s: Search, start: int, page: seq<Candle>)
    requires Behind(s, start) && (s.first ==> s.stored == map[])
             && (!s.first ==> page != [] && Earliest(page) == s.cursor)
    ensures page != [] ==> forall t | t in s.stored :: t < Earliest(page)
  {
  }

  lemma GridGap(cursor: int, start: int, t: int)
    requires Marks(start, cursor) && Marks(start, t) && t < cursor
    ensures t <= cursor - INTERVAL
  {
    var q, r := (cursor - start) / INTERVAL, (t - start) / INTERVAL;
    assert cursor - t == (q - r) * INTERVAL;
  }

  lemma {:induction false} PagedKeepsHoles(server: Server, start: int, end: int, lenient: bool, s: Search)
    requires KeepsToGrid(server, start, end) && Kept(s, start, end) && Aligned(s, start) && Behind(s, start)
    requires Paged(server, start, end, lenient, s).Ok?
    ensures var found := Paged(server, start, end, lenient, s).value;
            && Behind(found, start)
            && (Seamless(found, start)
                <==> Seamless(s, start) && AllFull(PagesRead(server, start, end, lenient, s), start))
    decreases end - s.cursor
  {
    hide Turn, Kept, Aligned, KeepsToGrid, Behind, Seamless, Full, PageAt;
    TurnAdvances(server, start, end, lenient, s);
    if s.cursor < end {
      TurnKeeps(server, start, end, lenient, s);
      TurnAligns(server, start, end, lenient, s);
      TurnTiles(server, start, end, lenient, s);
      TurnKeepsHoles(server, start, end, lenient, s);
      var (next, last) := Turn(server, start, end, lenient, s).value;
      var page := PageAt(server, start, end, s);
      if last {
        AllFullOfOne(page, [], start);
      } else {
        PagedKeepsHoles(server, start, end, lenient, next);
        AllFullOfOne(page, PagesRead(server, start, end, lenient, next), start);
      }
    }
  }

  lemma AllFullOfOne(page: seq<Candle>, pages: seq<seq<Candle>>, start: int)
    ensures AllFull([page] + pages, start) <==> Full(page, start) && AllFull(pages, start)
  {
    hide Full;
    assert forall i | 0 <= i < |pages| :: ([page] + pages)[i + 1] == pages[i];
    assert ([page] + pages)[0] == page;
  }

  /** Success with or without `allow_missing_tail`, against a server that keeps to the grid: the candles are exactly the
      grid from the effective start to the last cursor, so that at most a tail is missing, if and only if no page has a
      hole between its first candle and its last. */
  lemma OnlyTailIsMissing(server: Server, start: int, end: int, lenient: bool, candles: seq<Candle>)
    requires KeepsToGrid(server, start, end) && Paged(server, start, end, lenient, Opening(start)).Ok?
    requires Lists(candles, Paged(server, start, end, lenient, Opening(start)).value.stored)
    ensures var s := Paged(server, start, end, lenient, Opening(start)).value;
            (forall t :: (exists c :: c in candles && c.start == t) <==> GridPoint(s.effective, s.cursor, t))
            <==> AllFull(PagesRead(server, start, end, lenient, Opening(start)), start)
  {
    hide Paged, PagesRead, KeepsToGrid, AllFull, GridPoint, OnGrid, Marks;
    var s := Paged(server, start, end, lenient, Opening(start)).value;
    OpeningIsBehind(start);
    PagedIsSound(server, start, end, lenient, Opening(start));
    PagedAligns(server, start, end, lenient, Opening(start));
    PagedKeepsHoles(server, start, end, lenient, Opening(start));
    forall t ensures (exists c :: c in candles && c.start == t) <==> t in s.stored {
      if t in s.stored {
        assert s.stored[t] in candles;
      }
    }
    forall t ensures GridPoint(s.effective, s.cursor, t) <==> s.effective <= t < s.cursor && Marks(start, t) {
      SameGrid(s.effective, start, s.cursor, t);
    }
    forall t | t in s.stored ensures s.effective <= t < s.cursor && Marks(start, t) {
      StoredIsAligned(s.stored[t], start, s.effective);
    }
    SeamlessIsExact(s, start, candles);
  }

  lemma OpeningIsBehind(start: int)
    ensures Behind(Opening(start), start) && Seamless(Opening(start), start)
  {
  }

  /** Given that nothing else is stored, seamless means exactly the grid. */
  lemma SeamlessIsExact(s: Search, start: int, candles: seq<Candle>)
    requires forall t :: (exists c :: c in candles && c.start == t) <==> t in s.stored
    requires forall t :: GridPoint(s.effective, s.cursor, t) <==> s.effective <= t < s.cursor && Marks(start, t)
    requires forall t | t in s.stored :: s.effective <= t < s.cursor && Marks(start, t)
    ensures (forall t :: (exists c :: c in candles && c.start == t) <==> GridPoint(s.effective, s.cursor, t))
            <==> Seamless(s, start)
  {
    hide GridPoint, Marks;
    if Seamless(s, start) {
      forall t ensures (exists c :: c in candles && c.start == t) <==> GridPoint(s.effective, s.cursor, t) {
        assert t in s.stored <==> exists c :: c in candles && c.start == t;
      }
    }
    if forall t :: (exists c :: c in candles && c.start == t) <==> GridPoint(s.effective, s.cursor, t) {
      forall t | s.effective <= t < s.cursor && Marks(start, t) ensures t in s.stored {
        assert GridPoint(s.effective, s.cursor, t);
      }
    }
  }

  lemma StoredIsAligned(c: Candle, start: int, from: int)
    requires OnGrid(c, start, from)
    ensures c.start >= from && Marks(start, c.start)
  {
  }

  lemma SameGrid(from: int, start: int, cursor: int, t: int)
    requires (from - start) % INTERVAL == 0 && Marks(start, cursor)
    ensures GridPoint(from, cursor, t) <==> from <= t < cursor && Marks(start, t)
  {
    hide Marks;
    SameMarks(from, start, t);
    if from <= t < cursor && Marks(start, t) {
      GridGap(cursor, start, t);
    }
  }

  lemma SameMarks(from: int, start: int, t: int)
    requires (from - start) % INTERVAL == 0
    ensures (t - from) % INTERVAL == 0 <==> Marks(start, t)
  {
    var q := (from - start) / INTERVAL;
    assert t - start == t - from + q * INTERVAL;
  }

  const FIRST := Candle(0, INTERVAL, "")
  const THIRD := Candle(2 * INTERVAL, 3 * INTERVAL, "")

  /** Keeps to the grid and never had the second candle. */
  function ServeHole(cursor: int, limit: int): Option<seq<Row>> {
    if cursor <= 0 then Some([Listed(FIRST), Listed(THIRD)])
    else if cursor <= 2 * INTERVAL then Some([Listed(THIRD)])
    else Some([])
  }

  lemma HoleIsParsed()
    ensures Parsed(ServeHole(0, 3).value, 0, 3 * INTERVAL) == Ok([FIRST, THIRD])
  {
    hide Parsed;
    NothingParsed(0, 3 * INTERVAL);
    assert [] + [Listed(FIRST)] == [Listed(FIRST)] && [] + [FIRST] == [FIRST];
    ParsedGrows([], Listed(FIRST), 0, 3 * INTERVAL);
    assert [Listed(FIRST)] + [Listed(THIRD)] == [Listed(FIRST), Listed(THIRD)] && [FIRST] + [THIRD] == [FIRST, THIRD];
    ParsedGrows([Listed(FIRST)], Listed(THIRD), 0, 3 * INTERVAL);
  }

  lemma HoleIsStored()
    ensures StoreAll(map[], [FIRST, THIRD]) == map[0 := FIRST, 2 * INTERVAL := THIRD]
    ensures Earliest([FIRST, THIRD]) == 0 && Latest([FIRST, THIRD]) == 2 * INTERVAL
  {
    assert [FIRST, THIRD][..1] == [FIRST] && [FIRST][..0] == [];
    assert StoreAll(map[], [FIRST]) == map[0 := FIRST];
  }

  /** `allow_missing_tail` forgives more than a tail: a hole inside a page passes too, though the server keeps to the
      grid. */
  lemma LenientKeepsHoles()
    ensures KeepsToGrid(ServeHole, 0, 3 * INTERVAL)
    ensures var found := Paged(ServeHole, 0, 3 * INTERVAL, true, Opening(0));
            found.Ok? && INTERVAL !in found.value.stored && 2 * INTERVAL in found.value.stored
  {
    hide Parsed, StoreAll, Earliest, Latest;
    HoleIsParsed();
    HoleIsStored();
    assert LimitAt(0, 3 * INTERVAL) == 3;
    assert Turn(ServeHole, 0, 3 * INTERVAL, true, Opening(0)).Ok?;
  }

  // ---- Every fault, in terms of the pages served ----

  /** The search comes by state `v`. */
  predicate Visits(server: Server, start: int, end: int, lenient: bool, s: Search, v: Search)
    decreases end - s.cursor
  {
    TurnAdvances(server, start, end, lenient, s);
    s.cursor < end
    && (v == s
        || match Turn(server, start, end, lenient, s)
           case Raised(_) => false
           case Ok((next, last)) => !last && Visits(server, start, end, lenient, next, v))
  }

  /** The page holds this candle of the range. */
  predicate Serves(rows: seq<Row>, start: int, end: int, c: Candle) {
    Listed(c) in rows && InRange(c, start, end)
  }

  /** A page of proper rows of which some lie in the range. */
  ghost predicate Readable(rows: seq<Row>, start: int, end: int) {
    Malformed !in rows && exists c :: Serves(rows, start, end, c)
  }

  /** All its candles in the range start after the cursor. */
  ghost predicate LeavesGap(rows: seq<Row>, start: int, end: int, cursor: int) {
    forall c | Serves(rows, start, end, c) :: c.start > cursor
  }

  /** None of them ends after it. */
  ghost predicate StandsStill(rows: seq<Row>, start: int, end: int, cursor: int) {
    forall c | Serves(rows, start, end, c) :: c.start + INTERVAL <= cursor
  }

  /** None of them reaches the end of the range. */
  ghost predicate EndsEarly(rows: seq<Row>, start: int, end: int) {
    forall c | Serves(rows, start, end, c) :: c.start + INTERVAL < end
  }

  /** What is wrong with the page served at this state. */
  ghost predicate Faulty(server: Server, start: int, end: int, lenient: bool, s: Search, fault: Fault) {
    var limit := LimitAt(s.cursor, end);
    match server(s.cursor, limit)
    case None => fault == Unreachable
    case Some(rows) =>
      match fault
      case Unreachable => false
      case EmptyPage => rows == []
      case MalformedRow => Malformed in rows
      case NothingInRange => rows != [] && Malformed !in rows && !Readable(rows, start, end)
      case Gap => Readable(rows, start, end) && !s.first && LeavesGap(rows, start, end, s.cursor)
      case NoAdvance => Readable(rows, start, end) && StandsStill(rows, start, end, s.cursor)
      case ShortPage =>
        && Readable(rows, start, end) && (s.first || !LeavesGap(rows, start, end, s.cursor))
        && !StandsStill(rows, start, end, s.cursor)
        && |rows| < limit && EndsEarly(rows, start, end) && !lenient
      case Missing => false
  }

  lemma {:induction false} ParsedExactly(rows: seq<Row>, start: int, end: int)
    ensures match Parsed(rows, start, end)
            case Raised(fault) => fault == MalformedRow && Malformed in rows
            case Ok(candles) => Malformed !in rows && forall c :: c in candles <==> Serves(rows, start, end, c)
  {
    if rows != [] {
      var front, last := rows[..|rows| - 1], rows[|rows| - 1];
      ParsedExactly(front, start, end);
      assert rows == front + [last];
      forall c ensures Serves(rows, start, end, c)
                       <==> Serves(front, start, end, c) || (last == Listed(c) && InRange(c, start, end)) {
      }
    }
  }

  lemma ExtremesExactly(rows: seq<Row>, start: int, end: int, candles: seq<Candle>, cursor: int)
    requires candles != [] && forall c :: c in candles <==> Serves(rows, start, end, c)
    ensures Earliest(candles) > cursor <==> LeavesGap(rows, start, end, cursor)
    ensures Latest(candles) + INTERVAL <= cursor <==> StandsStill(rows, start, end, cursor)
    ensures Latest(candles) + INTERVAL < end <==> EndsEarly(rows, start, end)
  {
    hide Earliest, Latest, Serves;
    EarliestIn(candles);
    var i :| 0 <= i < |candles| && candles[i].start == Earliest(candles);
    var k :| 0 <= k < |candles| && candles[k].start == Latest(candles);
    assert candles[i] in candles && candles[k] in candles;
    forall c | Serves(rows, start, end, c) ensures Earliest(candles) <= c.start <= Latest(candles) {
      assert c in candles;
    }
  }

  /** One turn raises exactly what is wrong with its page. */
  lemma TurnFaultsExactly(server: Server, start: int, end: int, lenient: bool, s: Search, fault: Fault)
    ensures Turn(server, start, end, lenient, s) == Raised(fault) <==> Faulty(server, start, end, lenient, s, fault)
  {
    hide Parsed, StoreAll, LimitAt, Earliest, Latest, LeavesGap, StandsStill, EndsEarly, Serves;
    var page := server(s.cursor, LimitAt(s.cursor, end));
    if page.Some? {
      var rows := page.value;
      ParsedExactly(rows, start, end);
      NothingServed(start, end);
      if Parsed(rows, start, end).Ok? {
        var candles := Parsed(rows, start, end).value;
        if candles != [] {
          assert candles[0] in candles;
          ExtremesExactly(rows, start, end, candles, s.cursor);
          GapIsAhead(rows, start, end, candles[0], s.cursor);
        }
      }
    }
  }

  lemma NothingServed(start: int, end: int)
    ensures forall c :: !Serves([], start, end, c)
  {
  }

  lemma GapIsAhead(rows: seq<Row>, start: int, end: int, c: Candle, cursor: int)
    requires Serves(rows, start, end, c)
    ensures !(LeavesGap(rows, start, end, cursor) && StandsStill(rows, start, end, cursor))
  {
  }

  /** A search fails with a fault if and only if it comes by a page with that fault. */
  lemma {:induction false} FaultsAreExact(server: Server, start: int, end: int, lenient: bool, s: Search, fault: Fault)
    ensures Paged(server, start, end, lenient, s) == Raised(fault) <==>
              exists v :: Visits(server, start, end, lenient, s, v) && Faulty(server, start, end, lenient, v, fault)
    decreases end - s.cursor
  {
    hide Turn, Faulty;
    TurnFaultsExactly(server, start, end, lenient, s, fault);
    TurnAdvances(server, start, end, lenient, s);
    if s.cursor < end {
      assert Visits(server, start, end, lenient, s, s);
      match Turn(server, start, end, lenient, s) {
        case Raised(_) =>
        case Ok((next, last)) =>
          if !last {
            FaultsAreExact(server, start, end, lenient, next, fault);
          }
      }
    }
  }

  /** Only the opening state counts as first, so a symbol may be listed late but never stop and start again. */
  lemma {:induction false} OnlyOpeningIsFirst(server: Server, start: int, end: int, lenient: bool, s: Search, v: Search)
    requires Visits(server, start, end, lenient, s, v)
    ensures v == s || (!v.first && v.cursor > s.cursor)
    decreases end - s.cursor
  {
    hide Turn;
    TurnAdvances(server, start, end, lenient, s);
    if v != s {
      var candles := TurnReads(server, start, end, lenient, s);
      OnlyOpeningIsFirst(server, start, end, lenient, Turn(server, start, end, lenient, s).value.0, v);
    }
  }

  // ---- A server with the whole grid ----

  function GridCandle(values: int -> string, t: int): Candle {
    Candle(t, t + INTERVAL, values(t))
  }

  /** `limit` candles of the grid from the cursor on. */
  function GridRows(values: int -> string, cursor: int, limit: nat): seq<Row> {
    seq(limit, i => Listed(GridCandle(values, cursor + i * INTERVAL)))
  }

  /** Each request for a grid point is answered with the next `limit` candles of the grid. */
  ghost predicate ServesGrid(server: Server, start: int, values: int -> string) {
    forall cursor: int, limit: nat | Marks(start, cursor) ::
      server(cursor, limit) == Some(GridRows(values, cursor, limit))
  }

  /** Exactly the grid points up to `cursor` are stored. */
  ghost predicate GridStored(stored: map<int, Candle>, start: int, cursor: int, values: int -> string) {
    && (forall t :: t in stored <==> start <= t < cursor && (t - start) % INTERVAL == 0)
    && forall t | t in stored :: stored[t] == GridCandle(values, t)
  }

  lemma GridRowsSpan(values: int -> string, start: int, end: int, cursor: int, limit: nat)
    requires Marks(start, cursor) && start <= cursor && 0 < limit && cursor + limit * INTERVAL <= end
    ensures Malformed !in GridRows(values, cursor, limit)
    ensures forall c :: Serves(GridRows(values, cursor, limit), start, end, c)
                        <==> c == GridCandle(values, c.start) && Marks(start, c.start)
                             && cursor <= c.start < cursor + limit * INTERVAL
  {
    hide Serves, Marks, GridRows;
    NoMalformedRow(values, cursor, limit);
    forall c: Candle
      ensures Serves(GridRows(values, cursor, limit), start, end, c)
              <==> c == GridCandle(values, c.start) && Marks(start, c.start)
                   && cursor <= c.start < cursor + limit * INTERVAL {
      if Serves(GridRows(values, cursor, limit), start, end, c) {
        ServedOnGrid(values, start, end, cursor, limit, c);
      }
      if c == GridCandle(values, c.start) && Marks(start, c.start) && cursor <= c.start < cursor + limit * INTERVAL {
        GridIsServed(values, start, end, cursor, limit, c);
      }
    }
  }

  lemma NoMalformedRow(values: int -> string, cursor: int, limit: nat)
    ensures Malformed !in GridRows(values, cursor, limit)
  {
  }

  lemma ServedOnGrid(values: int -> string, start: int, end: int, cursor: int, limit: nat, c: Candle)
    requires Marks(start, cursor) && Serves(GridRows(values, cursor, limit), start, end, c)
    ensures c == GridCandle(values, c.start) && Marks(start, c.start) && cursor <= c.start < cursor + limit * INTERVAL
  {
    hide Marks;
    var i :| 0 <= i < limit && GridRows(values, cursor, limit)[i] == Listed(c);
    StepMarks(start, cursor, i, limit);
  }

  lemma GridIsServed(values: int -> string, start: int, end: int, cursor: int, limit: nat, c: Candle)
    requires Marks(start, cursor) && start <= cursor && cursor + limit * INTERVAL <= end
    requires c == GridCandle(values, c.start) && Marks(start, c.start) && cursor <= c.start < cursor + limit * INTERVAL
    ensures Serves(GridRows(values, cursor, limit), start, end, c)
  {
    hide Marks;
    var i := (c.start - cursor) / INTERVAL;
    StepsBetween(start, cursor, c.start, limit);
    assert GridRows(values, cursor, limit)[i] == Listed(c);
    assert i * INTERVAL + INTERVAL <= limit * INTERVAL;
  }

  lemma StepsBetween(start: int, cursor: int, t: int, limit: nat)
    requires Marks(start, cursor) && Marks(start, t) && cursor <= t < cursor + limit * INTERVAL
    ensures var i := (t - cursor) / INTERVAL; 0 <= i < limit && t == cursor + i * INTERVAL
  {
    var a, b := (cursor - start) / INTERVAL, (t - start) / INTERVAL;
    assert t - cursor == (b - a) * INTERVAL;
  }

  lemma StepMarks(start: int, cursor: int, i: nat, limit: nat)
    requires Marks(start, cursor) && i < limit
    ensures Marks(start, cursor + i * INTERVAL) && i * INTERVAL < limit * INTERVAL
  {
    var a := (cursor - start) / INTERVAL;
    assert cursor + i * INTERVAL - start == (a + i) * INTERVAL;
  }

  /** How many intervals a request asks for while whole ones remain. */
  lemma LimitFits(cursor: int, end: int)
    requires cursor + INTERVAL <= end
    ensures 0 < LimitAt(cursor, end) && cursor + LimitAt(cursor, end) * INTERVAL <= end
  {
    var n := Steps(cursor, end);
    assert n >= 1 && n * INTERVAL <= end - cursor;
    assert LimitAt(cursor, end) * INTERVAL <= n * INTERVAL;
  }

  /** One page of the grid moves the cursor by as much as was asked for. */
  lemma GridTurn(server: Server, start: int, end: int, lenient: bool, s: Search, values: int -> string)
    requires ServesGrid(server, start, values) && Marks(start, s.cursor) && start <= s.cursor
    requires s.cursor + INTERVAL <= end && s.effective == start && ByStart(s.stored)
    requires GridStored(s.stored, start, s.cursor, values)
    ensures var next := s.cursor + LimitAt(s.cursor, end) * INTERVAL;
            && Turn(server, start, end, lenient, s).Ok?
            && var (s', last) := Turn(server, start, end, lenient, s).value;
               !last && s'.cursor == next && s'.effective == start && Marks(start, next) && next <= end
               && ByStart(s'.stored) && GridStored(s'.stored, start, next, values)
  {
    hide Parsed, StoreAll, LimitAt, Earliest, Latest, Serves, Marks, GridRows;
    LimitFits(s.cursor, end);
    var limit := LimitAt(s.cursor, end);
    var rows := GridRows(values, s.cursor, limit);
    assert server(s.cursor, limit) == Some(rows);
    GridRowsSpan(values, start, end, s.cursor, limit);
    ParsedExactly(rows, start, end);
    var candles := Parsed(rows, start, end).value;
    GridPage(values, start, end, s.cursor, limit, candles);
    StoreGrid(s.stored, start, s.cursor, limit, values, candles);
    GridRowsCount(values, s.cursor, limit);
  }

  lemma GridRowsCount(values: int -> string, cursor: int, limit: nat)
    requires limit > 0
    ensures |GridRows(values, cursor, limit)| == limit && GridRows(values, cursor, limit) != []
  {
  }

  lemma GridPage(values: int -> string, start: int, end: int, cursor: int, limit: nat, candles: seq<Candle>)
    requires Marks(start, cursor) && start <= cursor && 0 < limit && cursor + limit * INTERVAL <= end
    requires forall c :: c in candles <==> Serves(GridRows(values, cursor, limit), start, end, c)
    ensures candles != [] && Earliest(candles) == cursor && Latest(candles) == cursor + (limit - 1) * INTERVAL
    ensures Marks(start, cursor + limit * INTERVAL)
  {
    hide Earliest, Latest, Serves, GridRows, Marks;
    GridRowsSpan(values, start, end, cursor, limit);
    StepMarks(start, cursor, 0, limit);
    StepMarks(start, cursor, limit - 1, limit);
    StepMarks(start, cursor, limit, limit + 1);
    var (first, last) := (GridCandle(values, cursor), GridCandle(values, cursor + (limit - 1) * INTERVAL));
    assert first in candles && last in candles;
    ExtremesAreHeld(candles);
    var e :| 0 <= e < |candles| && candles[e].start == Earliest(candles);
    var l :| 0 <= l < |candles| && candles[l].start == Latest(candles);
    assert candles[e] in candles && candles[l] in candles;
    BetweenExtremes(candles, first);
    BetweenExtremes(candles, last);
    StepsBetween(start, cursor, candles[l].start, limit);
    LastStep(cursor, candles[l].start, limit);
  }

  lemma ExtremesAreHeld(candles: seq<Candle>)
    requires candles != []
    ensures exists e :: 0 <= e < |candles| && candles[e].start == Earliest(candles)
    ensures exists l :: 0 <= l < |candles| && candles[l].start == Latest(candles)
  {
    EarliestIn(candles);
  }

  lemma BetweenExtremes(candles: seq<Candle>, c: Candle)
    requires c in candles
    ensures Earliest(candles) <= c.start <= Latest(candles)
  {
    EarliestIn(candles);
  }

  lemma LastStep(cursor: int, t: int, limit: nat)
    requires exists i: nat :: i < limit && t == cursor + i * INTERVAL
    ensures t <= cursor + (limit - 1) * INTERVAL
  {
  }

  lemma StoreGrid(stored: map<int, Candle>, start: int, cursor: int, limit: nat, values: int -> string,
                  candles: seq<Candle>)
    requires ByStart(stored) && GridStored(stored, start, cursor, values) && Marks(start, cursor) && start <= cursor
    requires forall c :: c in candles <==> c == GridCandle(values, c.start) && Marks(start, c.start)
                                           && cursor <= c.start < cursor + limit * INTERVAL
    ensures ByStart(StoreAll(stored, candles))
    ensures GridStored(StoreAll(stored, candles), start, cursor + limit * INTERVAL, values)
  {
    hide StoreAll;
    StoredFrom(stored, candles);
    var all := StoreAll(stored, candles);
    forall t ensures t in all <==> start <= t < cursor + limit * INTERVAL && Marks(start, t) {
      if cursor <= t < cursor + limit * INTERVAL && Marks(start, t) {
        assert GridCandle(values, t) in candles;
      }
      if t in all && !(t in stored && all[t] == stored[t]) {
        assert all[t] in candles && all[t].start == t;
      }
    }
  }

  /** Against a server with the whole grid every search succeeds, strict or lenient, over however many pages, and stores
      exactly the grid; provided only that the range is a whole number of intervals. */
  lemma {:induction false} GridIsFetched(server: Server, start: int, end: int, lenient: bool, s: Search,
                                         values: int -> string)
    requires ServesGrid(server, start, values) && Marks(start, end) && Marks(start, s.cursor)
    requires start <= s.cursor <= end && s.effective == start && ByStart(s.stored)
    requires GridStored(s.stored, start, s.cursor, values)
    ensures Paged(server, start, end, lenient, s).Ok?
    ensures var found := Paged(server, start, end, lenient, s).value;
            found.cursor == end && found.effective == start && GridStored(found.stored, start, end, values)
    decreases end - s.cursor
  {
    hide Turn, GridStored, ServesGrid, ByStart, LimitAt;
    if s.cursor < end {
      NextMark(start, s.cursor, end);
      LimitFits(s.cursor, end);
      GridTurn(server, start, end, lenient, s, values);
      GridIsFetched(server, start, end, lenient, Turn(server, start, end, lenient, s).value.0, values);
    }
  }

  lemma NextMark(start: int, cursor: int, end: int)
    requires Marks(start, cursor) && Marks(start, end) && cursor < end
    ensures cursor + INTERVAL <= end
  {
    var a, b := (cursor - start) / INTERVAL, (end - start) / INTERVAL;
    assert end - cursor == (b - a) * INTERVAL;
  }

  /** A range that is no whole number of intervals always fails, at the piece left over: the only candle that could be
      asked for ends behind the range. */
  lemma {:induction false} OddRangeFails(server: Server, start: int, end: int, lenient: bool, s: Search,
                                         values: int -> string)
    requires ServesGrid(server, start, values) && !Marks(start, end) && Marks(start, s.cursor)
    requires start <= s.cursor < end && s.effective == start && ByStart(s.stored)
    requires GridStored(s.stored, start, s.cursor, values)
    ensures Paged(server, start, end, lenient, s) == Raised(NothingInRange)
    decreases end - s.cursor
  {
    hide Turn, GridStored, ByStart, LimitAt;
    if s.cursor + INTERVAL <= end {
      LimitFits(s.cursor, end);
      GridTurn(server, start, end, lenient, s, values);
      var next := Turn(server, start, end, lenient, s).value.0;
      assert Marks(start, next.cursor) && next.cursor != end;
      OddRangeFails(server, start, end, lenient, next, values);
    } else {
      OnlyPieceLeft(server, start, end, lenient, s, values);
      TurnFaultsExactly(server, start, end, lenient, s, NothingInRange);
    }
  }

  lemma OnlyPieceLeft(server: Server, start: int, end: int, lenient: bool, s: Search, values: int -> string)
    requires ServesGrid(server, start, values) && Marks(start, s.cursor)
    requires start <= s.cursor < end < s.cursor + INTERVAL
    ensures Faulty(server, start, end, lenient, s, NothingInRange)
  {
    assert Steps(s.cursor, end) == 0 && LimitAt(s.cursor, end) == 1;
    var rows := GridRows(values, s.cursor, 1);
    assert server(s.cursor, 1) == Some(rows);
    assert rows == [Listed(GridCandle(values, s.cursor))];
  }

  lemma NothingStoredYet(start: int, values: int -> string)
    ensures Marks(start, start) && ByStart(map[]) && GridStored(map[], start, start, values)
  {
  }

  /** So against a server with the whole grid `fetch_symbol` succeeds if and only if the range is empty or a whole
      number of intervals, and then it returns exactly the grid, with nothing missing. */
  lemma WholeGridIsReturned(server: Server, start: int, end: int, lenient: bool, values: int -> string,
                            candles: seq<Candle>)
    requires ServesGrid(server, start, values)
    ensures var found := Paged(server, start, end, lenient, Opening(start));
            && (found.Ok? <==> end <= start || Marks(start, end))
            && (found.Ok? ==> Covers(found.value, end))
            && (found.Ok? && Lists(candles, found.value.stored) ==>
                  forall c: Candle :: c in candles <==>
                    start <= c.start < end && Marks(start, c.start) && c == GridCandle(values, c.start))
  {
    hide GridStored, ServesGrid, Turn;
    NothingStoredYet(start, values);
    if end <= start {
      EmptyRange(server, start, end, lenient, candles);
    } else if Marks(start, end) {
      GridIsFetched(server, start, end, lenient, Opening(start), values);
      GridIsCovered(Paged(server, start, end, lenient, Opening(start)).value, start, end, values, candles);
    } else {
      OddRangeFails(server, start, end, lenient, Opening(start), values);
    }
  }

  lemma EmptyRange(server: Server, start: int, end: int, lenient: bool, candles: seq<Candle>)
    requires end <= start
    ensures Paged(server, start, end, lenient, Opening(start)) == Ok(Opening(start)) && Covers(Opening(start), end)
    ensures Lists(candles, Opening(start).stored) ==> candles == []
  {
    if Lists(candles, Opening(start).stored) && candles != [] {
      SomethingStored(candles, Opening(start).stored);
    }
  }

  lemma SomethingStored(candles: seq<Candle>, stored: map<int, Candle>)
    requires Lists(candles, stored) && candles != []
    ensures stored != map[]
  {
    assert candles[0].start in stored;
  }

  lemma GridIsCovered(s: Search, start: int, end: int, values: int -> string, candles: seq<Candle>)
    requires s.effective == start && GridStored(s.stored, start, end, values)
    ensures Covers(s, end)
    ensures Lists(candles, s.stored) ==>
              forall c: Candle :: c in candles <==>
                start <= c.start < end && Marks(start, c.start) && c == GridCandle(values, c.start)
  {
    forall k: nat | k < Steps(start, end) ensures start + k * INTERVAL in s.stored {
      assert k * INTERVAL < Steps(start, end) * INTERVAL <= end - start;
      assert (start + k * INTERVAL - start) % INTERVAL == 0;
    }
    if Lists(candles, s.stored) {
      forall c: Candle | start <= c.start < end && Marks(start, c.start) && c == GridCandle(values, c.start)
        ensures c in candles {
        assert c.start in s.stored && s.stored[c.start] in candles;
      }
    }
  }
}
