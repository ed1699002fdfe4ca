/** `profile` of `scripts/research_archive/analyze_breakout_acceptance.py`: the volume histogram, its point of control
    and the expansion to the value area.  Which bin a price falls into is a parameter. */
module ValueArea {
  import opened Sorting

  /** A usable price in its bin; rows without price are left out before. */
  datatype Row = Row(index: int, notional: real)

  function VolumeAt(bins: map<int, real>, index: int): real {
    if index in bins then bins[index] else 0.0
  }

  function Volume(bins: map<int, real>, lower: int, upper: int): real
    decreases upper - lower
  {
    if lower > upper then 0.0 else Volume(bins, lower, upper - 1) + VolumeAt(bins, upper)
  }

  function Traded(rows: seq<Row>): real {
    if rows == [] then 0.0
    else Traded(rows[..|rows| - 1]) + if rows[|rows| - 1].notional > 0.0 then rows[|rows| - 1].notional else 0.0
  }

  predicate Within(bins: map<int, real>, lower: int, upper: int) {
    forall i | i in bins :: lower <= i <= upper
  }

  predicate Filled(bins: map<int, real>) {
    forall i | i in bins :: bins[i] > 0.0
  }

  /** What was traded at usable rows of one bin. */
  function TradedAt(rows: seq<Row>, index: int): real {
    if rows == [] then 0.0
    else
      var last := rows[|rows| - 1];
      TradedAt(rows[..|rows| - 1], index)
      + if last.index == index && last.notional > 0.0 then last.notional else 0.0
  }

  lemma {:induction false} TradedJoins(a: seq<Row>, b: seq<Row>, index: int)
    ensures Traded(a + b) == Traded(a) + Traded(b)
    ensures TradedAt(a + b, index) == TradedAt(a, index) + TradedAt(b, index)
    decreases |b|
  {
    if b == [] {
      assert a + b == a;
    } else {
      assert (a + b)[..|a + b| - 1] == a + b[..|b| - 1];
      TradedJoins(a, b[..|b| - 1], index);
    }
  }

  lemma TradedOnce(r: Row, index: int)
    ensures Traded([r]) == if r.notional > 0.0 then r.notional else 0.0
    ensures TradedAt([r], index) == if r.index == index && r.notional > 0.0 then r.notional else 0.0
  {
    assert [r][..0] == [];
  }

  /** The volume of a span is the sum of its bins. */
  lemma {:induction false} VolumeJoins(bins: map<int, real>, lower: int, middle: int, upper: int)
    requires lower - 1 <= middle <= upper
    ensures Volume(bins, lower, upper) == Volume(bins, lower, middle) + Volume(bins, middle + 1, upper)
    ensures Volume(bins, upper, upper) == if upper in bins then bins[upper] else 0.0
    decreases upper - middle
  {
    assert Volume(bins, upper, upper - 1) == 0.0;
    if middle < upper {
      VolumeJoins(bins, lower, middle, upper - 1);
    }
  }

  method Histogram(rows: seq<Row>) returns (bins: map<int, real>, ghost low: int, ghost high: int)
    ensures Filled(bins) && Within(bins, low, high)
    ensures forall i | i in bins :: bins[i] == TradedAt(rows, i)
    ensures forall i :: i in bins <==> exists r :: r in rows && r.index == i && r.notional > 0.0
    ensures forall lower, upper | Within(bins, lower, upper) :: Volume(bins, lower, upper) == Traded(rows)
  {
    hide Volume, Traded, Within, TradedAt;
    bins, low, high := map[], 0, 0;
    NothingTraded(rows);
    NothingWithin();
    for k := 0 to |rows|
      invariant Filled(bins) && Within(bins, low, high)
      invariant forall i :: VolumeAt(bins, i) == TradedAt(rows[..k], i)
      invariant forall i :: i in bins <==> exists r :: r in rows[..k] && r.index == i && r.notional > 0.0
      invariant forall lower, upper | Within(bins, lower, upper) :: Volume(bins, lower, upper) == Traded(rows[..k])
    {
      var r := rows[k];
      ghost var before := bins;
      assert rows[..k + 1] == rows[..k] + [r];
      TradedGrows(rows, k);
      if r.notional > 0.0 {
        bins := bins[r.index := VolumeAt(bins, r.index) + r.notional];
        assert forall i :: VolumeAt(bins, i) == VolumeAt(before, i) + if i == r.index then r.notional else 0.0;
        low, high := if r.index < low then r.index else low, if r.index > high then r.index else high;
        WiderHolds(before, bins, r.index, low, high);
        forall lower, upper | Within(bins, lower, upper)
          ensures Within(before, lower, upper)
                  && Volume(bins, lower, upper) == Volume(before, lower, upper) + r.notional {
          VolumeGrows(before, r.index, r.notional, lower, upper);
        }
      }
    }
    assert rows[..|rows|] == rows;
  }

  lemma NothingWithin()
    ensures Within(map[], 0, 0)
  {
  }

  lemma WiderHolds(before: map<int, real>, bins: map<int, real>, index: int, low: int, high: int)
    requires bins.Keys == before.Keys + {index} && low <= index <= high
    requires exists l, h :: low <= l && h <= high && Within(before, l, h)
    ensures Within(bins, low, high)
  {
  }

  lemma NothingTraded(rows: seq<Row>)
    ensures Traded(rows[..0]) == 0.0 && forall i :: TradedAt(rows[..0], i) == 0.0
    ensures forall lower, upper :: Volume(map[], lower, upper) == 0.0
  {
    forall lower, upper ensures Volume(map[], lower, upper) == 0.0 {
      EmptyVolume(lower, upper);
    }
  }

  lemma {:induction false} EmptyVolume(lower: int, upper: int)
    ensures Volume(map[], lower, upper) == 0.0
    decreases upper - lower
  {
    if lower <= upper {
      EmptyVolume(lower, upper - 1);
    }
  }

  lemma TradedGrows(rows: seq<Row>, k: nat)
    requires k < |rows|
    ensures Traded(rows[..k + 1]) == Traded(rows[..k]) + if rows[k].notional > 0.0 then rows[k].notional else 0.0
    ensures forall i :: TradedAt(rows[..k + 1], i)
              == TradedAt(rows[..k], i) + if rows[k].index == i && rows[k].notional > 0.0 then rows[k].notional else 0.0
  {
    assert rows[..k + 1][..k] == rows[..k];
  }

  lemma {:induction false} VolumeElsewhere(bins: map<int, real>, bins': map<int, real>, lower: int, upper: int)
    requires forall i | lower <= i <= upper :: VolumeAt(bins', i) == VolumeAt(bins, i)
    ensures Volume(bins', lower, upper) == Volume(bins, lower, upper)
    decreases upper - lower
  {
    if lower <= upper {
      VolumeElsewhere(bins, bins', lower, upper - 1);
    }
  }

  lemma {:induction false} VolumeOneMore(bins: map<int, real>, bins': map<int, real>, index: int, extra: real,
                                         lower: int, upper: int)
    requires forall i | i != index :: VolumeAt(bins', i) == VolumeAt(bins, i)
    requires VolumeAt(bins', index) == VolumeAt(bins, index) + extra && lower <= index <= upper
    ensures Volume(bins', lower, upper) == Volume(bins, lower, upper) + extra
    decreases upper - lower
  {
    if upper == index {
      VolumeElsewhere(bins, bins', lower, upper - 1);
    } else {
      VolumeOneMore(bins, bins', index, extra, lower, upper - 1);
    }
  }

  lemma VolumeGrows(bins: map<int, real>, index: int, extra: real, lower: int, upper: int)
    requires Within(bins[index := VolumeAt(bins, index) + extra], lower, upper)
    ensures var bins' := bins[index := VolumeAt(bins, index) + extra];
            Within(bins, lower, upper) && Volume(bins', lower, upper) == Volume(bins, lower, upper) + extra
  {
    var bins' := bins[index := VolumeAt(bins, index) + extra];
    assert index in bins';
    assert forall i | i in bins :: i in bins';
    VolumeOneMore(bins, bins', index, extra, lower, upper);
  }

  // ---- Expansion ----

  function Magnitude(i: int): int {
    if i < 0 then -i else i
  }

  /** A bin of greatest volume and, among those, nearest to the anchor; of two such the dictionary order picks one. */
  predicate IsControl(bins: map<int, real>, poc: int) {
    && poc in bins
    && forall i | i in bins ::
         bins[i] < bins[poc] || (bins[i] == bins[poc] && Magnitude(i) >= Magnitude(poc))
  }

  datatype Area = Area(lower: int, upper: int)

  predicate Stuck(bins: map<int, real>, a: Area) {
    a.lower - 1 !in bins && a.upper + 1 !in bins
  }

  /** The neighbour with the greater volume, the lower one on a tie. */
  function Widened(bins: map<int, real>, a: Area): (b: Area)
    requires Filled(bins) && !Stuck(bins, a)
    ensures b == Area(a.lower, a.upper + 1) || b == Area(a.lower - 1, a.upper)
    ensures b.upper > a.upper ==>
              a.upper + 1 in bins && (a.lower - 1 in bins ==> bins[a.upper + 1] > bins[a.lower - 1])
    ensures b.lower < a.lower ==>
              a.lower - 1 in bins && (a.upper + 1 in bins ==> bins[a.lower - 1] >= bins[a.upper + 1])
  {
    if VolumeAt(bins, a.upper + 1) > VolumeAt(bins, a.lower - 1)
    then Area(a.lower, a.upper + 1) else Area(a.lower - 1, a.upper)
  }

  predicate Solid(bins: map<int, real>, a: Area) {
    a.lower <= a.upper && forall i | a.lower <= i <= a.upper :: i in bins
  }

  /** The areas from the point of control on, each the widening of the one before, all short of the target but the
      last. */
  ghost predicate Grows(bins: map<int, real>, poc: int, target: real, areas: seq<Area>)
    requires Filled(bins)
  {
    && areas != [] && areas[0] == Area(poc, poc)
    && forall j, k | 0 <= j && j + 1 == k < |areas| :: Needed(bins, target, areas[j], areas[k])
  }

  /** The widening of an area that is short of the target. */
  predicate Needed(bins: map<int, real>, target: real, before: Area, after: Area)
    requires Filled(bins)
  {
    !Stuck(bins, before) && after == Widened(bins, before) && Volume(bins, before.lower, before.upper) < target
  }

  lemma {:induction false} LowerVolume(bins: map<int, real>, lower: int, upper: int)
    requires lower <= upper
    ensures Volume(bins, lower, upper) == VolumeAt(bins, lower) + Volume(bins, lower + 1, upper)
    decreases upper - lower
  {
    if lower == upper {
      assert Volume(bins, lower, upper - 1) == 0.0;
    } else {
      LowerVolume(bins, lower, upper - 1);
    }
  }

  lemma WidenedAdds(bins: map<int, real>, a: Area)
    requires Filled(bins) && Solid(bins, a) && !Stuck(bins, a)
    ensures var b := Widened(bins, a);
            && Solid(bins, b)
            && Volume(bins, b.lower, b.upper) == Volume(bins, a.lower, a.upper)
               + if b.upper > a.upper then bins[a.upper + 1] else bins[a.lower - 1]
  {
    LowerVolume(bins, a.lower - 1, a.upper);
  }

  /** The loop of `profile`: the value is the volume of the bins inside and no sentinel ever enters it; the area ends
      with the target reached or both neighbours missing, and every widening on the way was still needed. */
  method Expand(bins: map<int, real>, poc: int, target: real)
    returns (lower: int, upper: int, value: real, ghost areas: seq<Area>)
    requires Filled(bins) && IsControl(bins, poc)
    ensures lower <= poc <= upper && Solid(bins, Area(lower, upper)) && value == Volume(bins, lower, upper)
    ensures value >= target || (lower - 1 !in bins && upper + 1 !in bins)
    ensures Grows(bins, poc, target, areas) && areas[|areas| - 1] == Area(lower, upper)
    ensures lower == upper == poc || LastNeeded(bins, poc, target, lower, upper)
  {
    hide Volume, Widened;
    lower, upper, value := poc, poc, bins[poc];
    areas := [Area(poc, poc)];
    OneBin(bins, poc);
    while value < target
      invariant lower <= poc <= upper && Solid(bins, Area(lower, upper)) && value == Volume(bins, lower, upper)
      invariant Grows(bins, poc, target, areas) && areas[|areas| - 1] == Area(lower, upper)
      invariant lower == upper == poc || LastNeeded(bins, poc, target, lower, upper)
      decreases |Outside(bins, lower, upper)|
    {
      var left := if lower - 1 in bins then bins[lower - 1] else -1.0;
      var right := if upper + 1 in bins then bins[upper + 1] else -1.0;
      if left < 0.0 && right < 0.0 {
        break;
      }
      ghost var a := Area(lower, upper);
      WidenedAdds(bins, a);
      WidenedIs(bins, a, left, right);
      FewerOutside(bins, lower, upper);
      if right > left {
        upper, value := upper + 1, value + right;
      } else {
        lower, value := lower - 1, value + left;
      }
      WidenedIsNeeded(bins, poc, target, a, Area(lower, upper));
      areas := areas + [Area(lower, upper)];
    }
  }

  /** The bin taken in last was still needed, and larger than the other neighbour, or as large and the lower one. */
  predicate LastNeeded(bins: map<int, real>, poc: int, target: real, lower: int, upper: int) {
    || (lower < poc && lower in bins && Volume(bins, lower + 1, upper) < target
        && (upper + 1 in bins ==> bins[lower] >= bins[upper + 1]))
    || (poc < upper && upper in bins && Volume(bins, lower, upper - 1) < target
        && (lower - 1 in bins ==> bins[upper] > bins[lower - 1]))
  }

  lemma WidenedIsNeeded(bins: map<int, real>, poc: int, target: real, a: Area, b: Area)
    requires Filled(bins) && !Stuck(bins, a) && b == Widened(bins, a) && a.lower <= poc <= a.upper
    requires Volume(bins, a.lower, a.upper) < target
    ensures LastNeeded(bins, poc, target, b.lower, b.upper)
  {
    hide Volume;
  }

  lemma OneBin(bins: map<int, real>, poc: int)
    requires poc in bins
    ensures Volume(bins, poc, poc) == bins[poc]
  {
    assert Volume(bins, poc, poc - 1) == 0.0;
  }

  /** The sentinel of a missing neighbour never wins. */
  lemma WidenedIs(bins: map<int, real>, a: Area, left: real, right: real)
    requires Filled(bins) && !Stuck(bins, a)
    requires left == (if a.lower - 1 in bins then bins[a.lower - 1] else -1.0)
    requires right == (if a.upper + 1 in bins then bins[a.upper + 1] else -1.0)
    ensures Widened(bins, a) == if right > left then Area(a.lower, a.upper + 1) else Area(a.lower - 1, a.upper)
  {
  }

  function Outside(bins: map<int, real>, lower: int, upper: int): set<int> {
    set i | i in bins && !(lower <= i <= upper)
  }

  lemma FewerOutside(bins: map<int, real>, lower: int, upper: int)
    requires lower <= upper
    ensures upper + 1 in bins ==> |Outside(bins, lower, upper + 1)| < |Outside(bins, lower, upper)|
    ensures lower - 1 in bins ==> |Outside(bins, lower - 1, upper)| < |Outside(bins, lower, upper)|
  {
    var outside := Outside(bins, lower, upper);
    if upper + 1 in bins {
      assert Outside(bins, lower, upper + 1) == outside - {upper + 1};
    }
    if lower - 1 in bins {
      assert Outside(bins, lower - 1, upper) == outside - {lower - 1};
    }
  }

  // ---- The whole profile ----

  /** `sum(bins.values())`, in whatever order the dictionary has. */
  method Total(bins: map<int, real>) returns (total: real)
    ensures forall lower, upper | Within(bins, lower, upper) :: Volume(bins, lower, upper) == total
  {
    hide Volume, Within;
    total := 0.0;
    var rest := bins;
    while rest.Keys != {}
      invariant forall lower, upper | Within(bins, lower, upper) ::
                  Within(rest, lower, upper) && total + Volume(rest, lower, upper) == Volume(bins, lower, upper)
      decreases rest.Keys
    {
      ghost var one := Member(rest.Keys);
      var i :| i in rest.Keys;
      ghost var before := rest;
      total, rest := total + rest[i], rest - {i};
      forall lower, upper | Within(bins, lower, upper)
        ensures Within(rest, lower, upper) && Volume(before, lower, upper) == Volume(rest, lower, upper) + before[i] {
        VolumeWithout(before, i, lower, upper);
      }
    }
    assert rest == map[];
    NothingTraded([]);
  }

  lemma VolumeWithout(bins: map<int, real>, i: int, lower: int, upper: int)
    requires i in bins && Within(bins, lower, upper)
    ensures Within(bins - {i}, lower, upper) && Volume(bins, lower, upper) == Volume(bins - {i}, lower, upper) + bins[i]
  {
    VolumeOneMore(bins - {i}, bins, i, bins[i], lower, upper);
  }

  method Control(bins: map<int, real>) returns (poc: int)
    requires bins.Keys != {}
    ensures IsControl(bins, poc)
    ensures poc in bins && forall i | i in bins ::
              && bins[i] <= bins[poc]
              && (bins[i] == bins[poc] ==> (if poc < 0 then -poc else poc) <= if i < 0 then -i else i)
  {
    ghost var one := Member(bins.Keys);
    poc :| poc in bins.Keys;
    var todo := bins.Keys;
    while todo != {}
      invariant poc in bins
      invariant forall i | i in bins && i !in todo ::
                  bins[i] < bins[poc] || (bins[i] == bins[poc] && Magnitude(i) >= Magnitude(poc))
      decreases todo
    {
      ghost var next := Member(todo);
      var i :| i in todo;
      todo := todo - {i};
      if bins[i] > bins[poc] || (bins[i] == bins[poc] && Magnitude(i) < Magnitude(poc)) {
        poc := i;
      }
    }
  }

  /** No positive anchor or no usable row, no profile; otherwise the area holds the point of control and the fraction
      asked for of everything traded, or is hemmed in by empty bins. */
  method Profile(rows: seq<Row>, anchor: real, fraction: real)
    returns (found: bool, total: real, lower: int, upper: int, value: real, ghost bins: map<int, real>)
    ensures found <==> anchor > 0.0 && exists r :: r in rows && r.notional > 0.0
    ensures found ==>
              && Filled(bins) && (forall i :: i in bins <==> exists r :: r in rows && r.index == i && r.notional > 0.0)
              && total == Traded(rows) && Solid(bins, Area(lower, upper)) && value == Volume(bins, lower, upper)
              && (value >= total * fraction || (lower - 1 !in bins && upper + 1 !in bins))
              && (forall i | i in bins :: bins[i] == TradedAt(rows, i))
              && exists poc :: lower <= poc <= upper && IsControl(bins, poc)
                               && forall i | i in bins :: bins[i] <= bins[poc]
  {
    hide Volume, Traded, TradedAt, Within, Filled, IsControl, Solid, Grows;
    found, total, lower, upper, value, bins := false, 0.0, 0, 0, 0.0, map[];
    if anchor <= 0.0 {
      return;
    }
    var histogram;
    ghost var low, high;
    histogram, low, high := Histogram(rows);
    bins := histogram;
    if histogram.Keys == {} {
      forall r | r in rows ensures r.notional <= 0.0 {
        assert r.index !in bins;
      }
      return;
    }
    found := true;
    total := Total(histogram);
    assert Volume(bins, low, high) == total;
    var poc := Control(histogram);
    ghost var areas;
    lower, upper, value, areas := Expand(histogram, poc, total * fraction);
  }

  /** A target within the traded volume is missed only where bins lie beyond a gap. */
  lemma MissedOnlyAtGaps(bins: map<int, real>, a: Area, target: real, total: real)
    requires Filled(bins) && Solid(bins, a) && target <= total
    requires forall lower, upper | Within(bins, lower, upper) :: Volume(bins, lower, upper) == total
    requires Stuck(bins, a) && Volume(bins, a.lower, a.upper) < target
    ensures exists i :: i in bins && (i < a.lower - 1 || i > a.upper + 1)
  {
    assert Within(bins, a.lower, a.upper) ==> Volume(bins, a.lower, a.upper) == total;
  }
}
