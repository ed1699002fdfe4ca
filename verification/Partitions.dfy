/** `_drop_expired_partitions` of `deploy/ops/archive_and_trim.py`: day partitions whose name says they lie before the
    cutoff are dropped, and nothing else. */
module Partitions {
  import opened Numerals

  const PREFIX := "strategy_runtime_events_p_"

  /** A partition's name, read: not one of ours, a date that does not exist, or the day as the number YYYYMMDD, which
      orders days as the calendar does. */
  datatype Name = Foreign | NoSuchDate | Day(day: nat)

  predicate IsLeap(year: nat) {
    year % 4 == 0 && (year % 100 != 0 || year % 400 == 0)
  }

  function DaysIn(year: nat, month: nat): nat {
    if month == 2 then (if IsLeap(year) then 29 else 28)
    else if month in {4, 6, 9, 11} then 30
    else 31
  }

  /** Which numbers YYYYMMDD are dates to `strptime`. */
  predicate IsDate(n: nat) {
    var (year, month, day) := (n / 10000, n / 100 % 100, n % 100);
    year >= 1 && 1 <= month <= 12 && 1 <= day <= DaysIn(year, month)
  }

  function Read(name: string): Name {
    if !(PREFIX <= name) then Foreign
    else
      var token := name[|PREFIX|..];
      if |token| != 8 || !AllDigits(token) then Foreign
      else
        var n := ParseDecimal(token).value;
        if IsDate(n) then Day(n) else NoSuchDate
  }

  /** The row's day and its content. */
  datatype Row = Row(day: nat, content: string)

  predicate Expired(name: string, cutoff: nat) {
    Read(name).Day? && Read(name).day < cutoff
  }

  /** How many names are processed: all, or those before the first that is no date. */
  function Processed(names: seq<string>): (k: nat)
    ensures k <= |names| && forall i | 0 <= i < k :: !Read(names[i]).NoSuchDate?
    ensures k < |names| ==> Read(names[k]).NoSuchDate?
  {
    if names == [] then 0
    else if Processed(names[..|names| - 1]) < |names| - 1 then Processed(names[..|names| - 1])
    else if Read(names[|names| - 1]).NoSuchDate? then |names| - 1
    else |names|
  }

  function ExpiredIn(names: seq<string>, cutoff: nat): set<string> {
    set i | 0 <= i < |names| && Expired(names[i], cutoff) :: names[i]
  }

  class Catalog {
    var tables: map<string, seq<Row>>

    constructor (tables: map<string, seq<Row>>)
      ensures this.tables == tables
    {
      this.tables := tables;
    }

    /** A name that is no date raises; what was dropped before stays dropped. */
    method DropExpired(names: seq<string>, cutoff: nat) returns (dropped: nat, raised: bool)
      modifies this
      ensures raised <==> Processed(names) < |names|
      ensures tables == old(tables) - ExpiredIn(names[..Processed(names)], cutoff)
      ensures dropped == |SelectExpired(names[..Processed(names)], cutoff)|
    {
      hide Read, Processed;
      dropped, raised := 0, false;
      NothingProcessed(names, cutoff);
      for i := 0 to |names|
        invariant Processed(names[..i]) == i
        invariant tables == old(tables) - ExpiredIn(names[..i], cutoff)
        invariant dropped == |SelectExpired(names[..i], cutoff)|
      {
        ProcessOne(names, i, cutoff);
        match Read(names[i]) {
          case Foreign =>
          case NoSuchDate =>
            return dropped, true;
          case Day(day) =>
            if day < cutoff {
              tables := tables - {names[i]};
              dropped := dropped + 1;
            }
        }
      }
      assert names[..|names|] == names;
    }
  }

  /** What counts as dropped: one per name read as a day before the cutoff. */
  lemma {:induction false} SelectedJoin(names: seq<string>, more: seq<string>, cutoff: nat)
    ensures SelectExpired(names + more, cutoff) == SelectExpired(names, cutoff) + SelectExpired(more, cutoff)
    ensures forall name :: name in SelectExpired(more, cutoff)
                           <==> name in more && Read(name).Day? && Read(name).day < cutoff
    decreases |more|
  {
    hide Read;
    if more == [] {
      assert names + more == names;
    } else {
      assert (names + more)[..|names + more| - 1] == names + more[..|more| - 1];
      SelectedJoin(names, more[..|more| - 1], cutoff);
      assert more == more[..|more| - 1] + [more[|more| - 1]];
    }
  }

  function SelectExpired(names: seq<string>, cutoff: nat): seq<string> {
    if names == [] then []
    else
      var last := names[|names| - 1];
      SelectExpired(names[..|names| - 1], cutoff) + if Expired(last, cutoff) then [last] else []
  }

  lemma NothingProcessed(names: seq<string>, cutoff: nat)
    ensures Processed(names[..0]) == 0 && ExpiredIn(names[..0], cutoff) == {} && SelectExpired(names[..0], cutoff) == []
  {
  }

  lemma ProcessOne(names: seq<string>, i: nat, cutoff: nat)
    requires i < |names| && Processed(names[..i]) == i
    ensures if Read(names[i]).NoSuchDate? then Processed(names) == i else Processed(names[..i + 1]) == i + 1
    ensures ExpiredIn(names[..i + 1], cutoff)
            == ExpiredIn(names[..i], cutoff) + if Expired(names[i], cutoff) then {names[i]} else {}
    ensures |SelectExpired(names[..i + 1], cutoff)|
            == |SelectExpired(names[..i], cutoff)| + if Expired(names[i], cutoff) then 1 else 0
  {
    hide Read, Processed, ExpiredIn, SelectExpired;
    ProcessedGrows(names, i);
    ExpiredGrows(names, i, cutoff);
  }

  lemma ProcessedGrows(names: seq<string>, i: nat)
    requires i < |names| && Processed(names[..i]) == i
    ensures if Read(names[i]).NoSuchDate? then Processed(names) == i else Processed(names[..i + 1]) == i + 1
  {
    hide Read;
    assert names[..i + 1][..i] == names[..i];
    if Read(names[i]).NoSuchDate? {
      StopsAt(names, i, |names|);
      assert names[..|names|] == names;
    }
  }

  lemma ExpiredGrows(names: seq<string>, i: nat, cutoff: nat)
    requires i < |names|
    ensures ExpiredIn(names[..i + 1], cutoff)
            == ExpiredIn(names[..i], cutoff) + if Expired(names[i], cutoff) then {names[i]} else {}
    ensures |SelectExpired(names[..i + 1], cutoff)|
            == |SelectExpired(names[..i], cutoff)| + if Expired(names[i], cutoff) then 1 else 0
  {
    hide Expired;
    assert names[..i + 1][..i] == names[..i];
  }

  lemma {:induction false} StopsAt(names: seq<string>, i: nat, n: nat)
    requires i < n <= |names| && Processed(names[..i]) == i && Read(names[i]).NoSuchDate?
    ensures Processed(names[..n]) == i
    decreases n
  {
    hide Read;
    assert names[..n][..n - 1] == names[..n - 1];
    if n > i + 1 {
      StopsAt(names, i, n - 1);
    }
  }

  /** Every row is in the partition of its day. */
  ghost predicate Placed(tables: map<string, seq<Row>>) {
    forall name, row | name in tables && Read(name).Day? && row in tables[name] :: row.day == Read(name).day
  }

  /** No row at or after the cutoff is lost, and no table without a date in its name. */
  lemma NothingSinceCutoffIsLost(tables: map<string, seq<Row>>, names: seq<string>, cutoff: nat, name: string)
    requires Placed(tables) && name in tables
    requires !Read(name).Day? || exists row :: row in tables[name] && row.day >= cutoff
    ensures var after := tables - ExpiredIn(names, cutoff);
            name in after && after[name] == tables[name]
  {
    hide Read;
  }

  /** Without a false date every listed partition that lies wholly before the cutoff goes. */
  lemma AllExpiredGo(tables: map<string, seq<Row>>, names: seq<string>, cutoff: nat)
    requires Processed(names) == |names| && forall name | name in tables :: name in names
    ensures forall name :: name in tables - ExpiredIn(names, cutoff)
                           <==> name in tables && !(Read(name).Day? && Read(name).day < cutoff)
  {
    hide Read, Processed;
    forall name | name in tables && Expired(name, cutoff) ensures name in ExpiredIn(names, cutoff) {
      var i :| 0 <= i < |names| && names[i] == name;
    }
  }

  // ---- Names and dates ----

  /** The decimal digits of `n`, that many of them. */
  function Padded(n: nat, width: nat): (s: string)
    ensures |s| == width && AllDigits(s)
  {
    if width == 0 then "" else Padded(n / 10, width - 1) + [DIGITS[n % 10]]
  }

  function Pow10(k: nat): nat {
    if k == 0 then 1 else 10 * Pow10(k - 1)
  }

  lemma {:induction false} PaddedReadsBack(n: nat, width: nat)
    requires width > 0 && n < Pow10(width)
    ensures ParseDecimal(Padded(n, width)) == Some(n)
  {
    DigitReadsBack(n % 10);
    var s := Padded(n, width);
    assert s[..|s| - 1] == Padded(n / 10, width - 1);
    if width > 1 {
      PaddedReadsBack(n / 10, width - 1);
    }
  }

  const MONTHS: seq<nat> := [31, 28, 31, 30, 31, 30, 31, 31, 30, 31, 30, 31]

  /** Day `d` of month `m` of year `y` exists: the months have their lengths, and February has one day more in years
      divisible by four, but of the centuries only in those divisible by four hundred. */
  predicate Exists(y: nat, m: nat, d: nat) {
    && y >= 1 && 1 <= m <= 12 && d >= 1
    && d <= MONTHS[m - 1] + if m == 2 && y % 4 == 0 && (y % 100 == 0 ==> y % 400 == 0) then 1 else 0
  }

  /** A partition's name is read as a day just if its eight digits are those of a day that exists, and as that day. */
  lemma NameIsRead(y: nat, m: nat, d: nat)
    requires y < 10000 && m < 100 && d < 100
    ensures var n := y * 10000 + m * 100 + d;
            Read(PREFIX + Padded(n, 8)) == if Exists(y, m, d) then Day(n) else NoSuchDate
  {
    hide IsDate, Exists, ParseDecimal, Padded;
    var n := y * 10000 + m * 100 + d;
    PowerOfEight();
    PaddedReadsBack(n, 8);
    assert (PREFIX + Padded(n, 8))[|PREFIX|..] == Padded(n, 8);
    DatesExist(y, m, d);
  }

  lemma PowerOfEight()
    ensures Pow10(8) == 100000000
  {
    assert Pow10(4) == 10000;
    assert Pow10(8) == 10 * (10 * (10 * (10 * Pow10(4))));
  }

  lemma DatesExist(y: nat, m: nat, d: nat)
    requires y < 10000 && m < 100 && d < 100
    ensures IsDate(y * 10000 + m * 100 + d) <==> Exists(y, m, d)
  {
    var n := y * 10000 + m * 100 + d;
    assert n / 10000 == y && n / 100 == y * 100 + m && n / 100 % 100 == m && n % 100 == d;
  }

  /** Days compare as their numbers do: by year, then month, then day. */
  lemma DaysAreOrdered(y: nat, m: nat, d: nat, y': nat, m': nat, d': nat)
    requires Exists(y, m, d) && Exists(y', m', d')
    ensures y * 10000 + m * 100 + d < y' * 10000 + m' * 100 + d'
            <==> y < y' || (y == y' && (m < m' || (m == m' && d < d')))
  {
    assert MONTHS[m - 1] <= 31 && MONTHS[m' - 1] <= 31;
  }

  /** Any other name is left alone: a foreign prefix, another number of characters, or one that is no digit. */
  lemma ForeignNames(name: string)
    ensures Read(name).Foreign? <==>
              !(PREFIX <= name) || |name| != |PREFIX| + 8
              || exists i :: |PREFIX| <= i < |name| && !IsDigit(name[i])
  {
    if PREFIX <= name {
      var token := name[|PREFIX|..];
      assert forall i | 0 <= i < |token| :: token[i] == name[|PREFIX| + i];
      if !AllDigits(token) {
        var i :| 0 <= i < |token| && !IsDigit(token[i]);
        assert !IsDigit(name[|PREFIX| + i]);
      } else {
        forall i | |PREFIX| <= i < |name| ensures IsDigit(name[i]) {
          assert token[i - |PREFIX|] == name[i];
        }
      }
    }
  }
}
