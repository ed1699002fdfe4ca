/** `OpsMonitor._memory_pressure_alerts`: anonymous memory pushed into swap, against a running minimum. */
module SwapPressure {
  import opened Numerals

  /** 32 MiB. */
  const THRESHOLD := 32 * 1024 * 1024

  /** The new baseline after a reading, and the growth that is reported. */
  function Step(baseline: Option<int>, reading: Option<int>): (Option<int>, Option<int>) {
    if reading.None? then (baseline, None)
    else if baseline.None? || reading.value < baseline.value then (reading, None)
    else if reading.value - baseline.value < THRESHOLD then (baseline, None)
    else (reading, Some(reading.value - baseline.value))
  }

  class PressureMonitor {
    /** `memory_swap_bytes`, by service. */
    var counters: map<string, int>

    constructor ()
      ensures counters == map[]
    {
      counters := map[];
    }

    function Baseline(service: string): Option<int>
      reads this
    {
      if service in counters then Some(counters[service]) else None
    }

    method Observe(service: string, current: Option<int>) returns (growth: Option<int>)
      modifies this
      ensures (Baseline(service), growth) == Step(old(Baseline(service)), current)
      ensures forall other | other != service :: Baseline(other) == old(Baseline(other))
    {
      if current.None? {
        return None;
      }
      if service !in counters || current.value < counters[service] {
        counters := counters[service := current.value];
        return None;
      }
      var rise := current.value - counters[service];
      if rise < THRESHOLD {
        return None;
      }
      counters := counters[service := current.value];
      growth := Some(rise);
    }
  }

  // ---- Runs of one service, from no baseline ----

  function After(readings: seq<Option<int>>): Option<int> {
    if readings == [] then None
    else Step(After(readings[..|readings| - 1]), readings[|readings| - 1]).0
  }

  /** The `k`-th reading raises an alert. */
  predicate ReportsAt(readings: seq<Option<int>>, k: nat)
    requires k < |readings|
  {
    Step(After(readings[..k]), readings[k]).1.Some?
  }

  /** Where the present baseline starts counting: the last report, or the beginning. */
  function LastReport(readings: seq<Option<int>>): (k: nat)
    ensures k <= |readings|
  {
    if readings == [] then 0
    else if ReportsAt(readings, |readings| - 1) then |readings| - 1
    else LastReport(readings[..|readings| - 1])
  }

  /** The least reading present, if there is one. */
  ghost predicate IsLeast(b: Option<int>, readings: seq<Option<int>>) {
    && (b.Some? ==> b in readings)
    && forall r | r in readings && r.Some? :: b.Some? && b.value <= r.value
  }

  lemma LeastGrows(b: Option<int>, readings: seq<Option<int>>, last: Option<int>)
    requires IsLeast(b, readings) && Step(b, last).1.None?
    ensures IsLeast(Step(b, last).0, readings + [last])
  {
  }

  /** The stored baseline is the least reading from the last report on. */
  lemma {:induction false} BaselineIsLeast(readings: seq<Option<int>>)
    ensures IsLeast(After(readings), readings[LastReport(readings)..])
  {
    hide Step, IsLeast;
    if readings == [] {
      NothingIsLeast();
    } else {
      var front, last := readings[..|readings| - 1], readings[|readings| - 1];
      BaselineIsLeast(front);
      if ReportsAt(readings, |front|) {
        assert readings[|front|..] == [last];
        ReportIsLeast(After(front), last);
      } else {
        LeastGrows(After(front), front[LastReport(front)..], last);
        assert readings[LastReport(front)..] == front[LastReport(front)..] + [last];
      }
    }
  }

  /** A reading is reported if and only if it lies the threshold or more above the least reading since the last report,
      and the amount reported is that difference. */
  lemma ReportIsRiseOverLeast(readings: seq<Option<int>>, r: Option<int>)
    ensures var report := Step(After(readings), r).1;
            && (report.Some? <==> exists least: int :: RisesOver(readings, least, r))
            && (report.Some? ==>
                  forall least: int | RisesOver(readings, least, r) :: report.value == r.value - least)
  {
    hide IsLeast, LastReport, After;
    BaselineIsLeast(readings);
    var since := readings[LastReport(readings)..];
    forall least | IsLeast(Some(least), since) ensures After(readings) == Some(least) {
      LeastIsUnique(Some(least), After(readings), since);
    }
    if Step(After(readings), r).1.Some? {
      assert RisesOver(readings, After(readings).value, r);
    }
  }

  /** The reading lies the threshold or more above the least one since the last report. */
  ghost predicate RisesOver(readings: seq<Option<int>>, least: int, r: Option<int>) {
    IsLeast(Some(least), readings[LastReport(readings)..]) && r.Some? && r.value - least >= THRESHOLD
  }

  lemma LeastIsUnique(a: Option<int>, b: Option<int>, readings: seq<Option<int>>)
    requires IsLeast(a, readings) && IsLeast(b, readings) && a.Some?
    ensures a == b
  {
    assert a in readings;
  }

  lemma NothingIsLeast()
    ensures IsLeast(None, [])
  {
  }

  lemma ReportIsLeast(b: Option<int>, last: Option<int>)
    requires Step(b, last).1.Some?
    ensures IsLeast(Step(b, last).0, [last])
  {
  }

  /** From a reading on, the baseline is no higher than it until the next report. */
  lemma {:induction false} BaselineStaysBelow(readings: seq<Option<int>>, i: nat, j: nat)
    requires i <= j < |readings| && readings[i].Some?
    requires forall k | i < k <= j :: !ReportsAt(readings, k)
    ensures After(readings[..j + 1]).Some? && After(readings[..j + 1]).value <= readings[i].value
  {
    assert readings[..j + 1][..j] == readings[..j];
    if i < j {
      BaselineStaysBelow(readings, i, j - 1);
      assert !ReportsAt(readings, j);
    }
  }

  /** No rise of the threshold or more goes unreported. */
  lemma RisesAreReported(readings: seq<Option<int>>, i: nat, j: nat)
    requires i < j < |readings| && readings[i].Some? && readings[j].Some?
    requires readings[j].value - readings[i].value >= THRESHOLD
    ensures exists k: nat :: i < k <= j && ReportsAt(readings, k)
  {
    if forall k: nat | i < k < j :: !ReportsAt(readings, k) {
      BaselineStaysBelow(readings, i, j - 1);
      assert ReportsAt(readings, j);
    }
  }

  function Reports(readings: seq<Option<int>>): nat {
    if readings == [] then 0
    else Reports(readings[..|readings| - 1]) + if ReportsAt(readings, |readings| - 1) then 1 else 0
  }

  function Latest(readings: seq<Option<int>>): Option<int> {
    if readings == [] then None
    else if readings[|readings| - 1].Some? then readings[|readings| - 1]
    else Latest(readings[..|readings| - 1])
  }

  /** Everything the series ever moved upward, from one reading to the next; gaps are skipped. */
  function Climbed(readings: seq<Option<int>>): int {
    if readings == [] then 0
    else
      var front, last := readings[..|readings| - 1], readings[|readings| - 1];
      Climbed(front) + if last.Some? && Latest(front).Some? && last.value > Latest(front).value
                       then last.value - Latest(front).value else 0
  }

  /** What was climbed pays for every report in full; what is left over is at least the height above the baseline.  So
      the same swap is never reported twice. */
  lemma {:induction false} ReportsAreFunded(readings: seq<Option<int>>)
    ensures Reports(readings) * THRESHOLD <= Climbed(readings)
    ensures match After(readings)
            case None => Reports(readings) == 0 && Latest(readings).None? && Climbed(readings) == 0
            case Some(b) => Latest(readings).Some? && b <= Latest(readings).value
                            && Reports(readings) * THRESHOLD + (Latest(readings).value - b) <= Climbed(readings)
  {
    if readings != [] {
      var front := readings[..|readings| - 1];
      ReportsAreFunded(front);
      assert readings[..|readings| - 1] == front;
    }
  }
}
