/** `OpsMonitor._memory_growth_alerts` with `evaluate_container_memory_growth`: growth over the oldest sample of a
    sliding window, on one container. */
module MemoryTrend {
  import opened Numerals

  /** Times are ticks; `fraction` is the share of its limit a container must use before growth counts. */
  datatype Trending = Trending(window: int, interval: int, growth: int, required: int, fraction: real)

  ghost predicate Accepted(cfg: Trending) {
    cfg.window >= 0 && cfg.interval > 0 && cfg.required > 0
  }

  datatype Sample = Sample(at: int, bytes: int)

  /** One call: the time, the reading if there is one, the container if it is known, and its memory limit. */
  datatype Reading = Reading(at: int, bytes: Option<int>, container: Option<string>, limit: Option<int>)

  datatype Trend = Trend(samples: seq<Sample>, breaches: int, container: Option<string>)

  const UNKNOWN := Trend([], 0, None)

  function InWindow(samples: seq<Sample>, cutoff: int, now: int): seq<Sample> {
    if samples == [] then []
    else
      var last := samples[|samples| - 1];
      InWindow(samples[..|samples| - 1], cutoff, now) + if cutoff <= last.at <= now then [last] else []
  }

  function Entered(t: Trend, container: Option<string>): Trend {
    if container.None? then t
    else if t.container != container then Trend([], 0, container)
    else t
  }

  /** What is in the window before this reading joins it. */
  function Retained(cfg: Trending, t: Trend, r: Reading): seq<Sample> {
    InWindow(Entered(t, r.container).samples, r.at - cfg.window, r.at)
  }

  predicate Breached(cfg: Trending, retained: seq<Sample>, r: Reading) {
    r.bytes.Some? && retained != [] && r.bytes.value - retained[0].bytes >= cfg.growth
  }

  function Limit(cfg: Trending): int
    requires cfg.interval > 0
  {
    var fitting := cfg.window / cfg.interval + 2;
    if fitting > 120 then fitting else 120
  }

  function Latest(samples: seq<Sample>, limit: int): seq<Sample> {
    if limit > 0 && |samples| > limit then samples[|samples| - limit..] else samples
  }

  function Joined(retained: seq<Sample>, r: Reading): seq<Sample> {
    if r.bytes.Some? then retained + [Sample(r.at, r.bytes.value)] else retained
  }

  function Step(cfg: Trending, t: Trend, r: Reading): Trend
    requires cfg.interval > 0
  {
    var entered, retained := Entered(t, r.container), Retained(cfg, t, r);
    Trend(Latest(Joined(retained, r), Limit(cfg)),
          if Breached(cfg, retained, r) then entered.breaches + 1 else 0,
          entered.container)
  }

  /** `evaluate_container_memory_growth`, given the new breach count. */
  predicate Alerts(cfg: Trending, retained: seq<Sample>, breaches: int, r: Reading) {
    && r.bytes.Some? && retained != [] && r.at - retained[0].at >= 0
    && breaches >= cfg.required && cfg.required > 0 && cfg.growth > 0
    && r.bytes.value - retained[0].bytes >= cfg.growth
    && !(r.limit.Some? && r.limit.value > 0 && r.bytes.value as real < r.limit.value as real * cfg.fraction)
  }

  class MemoryMonitor {
    const cfg: Trending
    var samples: map<string, seq<Sample>>
    var breaches: map<string, int>
    var containers: map<string, string>

    constructor (cfg: Trending)
      ensures this.cfg == cfg && forall service :: TrendOf(service) == UNKNOWN
    {
      this.cfg, samples, breaches, containers := cfg, map[], map[], map[];
    }

    function TrendOf(service: string): Trend
      reads this
    {
      Trend(if service in samples then samples[service] else [],
            if service in breaches then breaches[service] else 0,
            if service in containers then Some(containers[service]) else None)
    }

    /** A new container starts from no samples and no breaches. */
    method Enter(service: string, container: Option<string>)
      modifies this
      ensures TrendOf(service) == Entered(old(TrendOf(service)), container)
      ensures forall other | other != service :: TrendOf(other) == old(TrendOf(other))
    {
      if container.Some? {
        if service !in containers || containers[service] != container.value {
          samples, breaches := samples[service := []], breaches[service := 0];
        }
        containers := containers[service := container.value];
      }
    }

    method Observe(service: string, r: Reading) returns (alert: bool)
      requires Accepted(cfg)
      modifies this
      ensures TrendOf(service) == Step(cfg, old(TrendOf(service)), r)
      ensures alert == Alerts(cfg, Retained(cfg, old(TrendOf(service)), r), TrendOf(service).breaches, r)
      ensures forall other | other != service :: TrendOf(other) == old(TrendOf(other))
    {
      hide Alerts, Limit, InWindow;
      Enter(service, r.container);
      var stored := if service in samples then samples[service] else [];
      var retained := Filter(stored, r.at - cfg.window, r.at);
      var previous := if service in breaches then breaches[service] else 0;
      var breached := r.bytes.Some? && retained != [] && r.bytes.value - retained[0].bytes >= cfg.growth;
      var consecutive := if breached then previous + 1 else 0;
      breaches := breaches[service := consecutive];
      alert := Alerts(cfg, retained, consecutive, r);
      if r.bytes.Some? {
        retained := retained + [Sample(r.at, r.bytes.value)];
      }
      samples := samples[service := Latest(retained, Limit(cfg))];
    }
  }

  method Filter(stored: seq<Sample>, cutoff: int, now: int) returns (retained: seq<Sample>)
    ensures retained == InWindow(stored, cutoff, now)
  {
    retained := [];
    for i := 0 to |stored|
      invariant retained == InWindow(stored[..i], cutoff, now)
    {
      assert stored[..i + 1][..i] == stored[..i];
      if cutoff <= stored[i].at <= now {
        retained := retained + [stored[i]];
      }
    }
    assert stored[..|stored|] == stored;
  }

  // ---- Runs of one service ----

  function After(cfg: Trending, readings: seq<Reading>): Trend
    requires cfg.interval > 0
  {
    if readings == [] then UNKNOWN
    else Step(cfg, After(cfg, readings[..|readings| - 1]), readings[|readings| - 1])
  }

  /** The samples of all readings made on the present container. */
  function History(readings: seq<Reading>): seq<Sample> {
    if readings == [] then []
    else
      var front, last := readings[..|readings| - 1], readings[|readings| - 1];
      Joined(if Moves(front, last) then [] else History(front), last)
  }

  /** The last reading comes from another container than the ones before. */
  predicate Moves(front: seq<Reading>, last: Reading) {
    last.container.Some? && ContainerAt(front) != last.container
  }

  function ContainerAt(readings: seq<Reading>): Option<string> {
    if readings == [] then None
    else if readings[|readings| - 1].container.Some? then readings[|readings| - 1].container
    else ContainerAt(readings[..|readings| - 1])
  }

  /** Readings of cycles started at least an interval apart, each made before another interval has passed. */
  predicate Paced(readings: seq<Reading>, interval: int) {
    forall i, j | 0 <= i < j < |readings| :: readings[j].at - readings[i].at > (j - i - 1) * interval
  }

  /** `run_forever` paces its readings so: it sleeps out the interval from the start of each cycle. */
  lemma {:induction false} RunForeverIsPaced(readings: seq<Reading>, starts: seq<int>, interval: int)
    requires interval > 0 && |starts| == |readings|
    requires forall i | 0 <= i < |starts| - 1 :: starts[i + 1] - starts[i] >= interval
    requires forall i | 0 <= i < |starts| :: starts[i] <= readings[i].at < starts[i] + interval
    ensures Paced(readings, interval)
  {
    forall i, j | 0 <= i < j < |readings| ensures readings[j].at - readings[i].at > (j - i - 1) * interval {
      StartsSpread(starts, interval, i, j);
      assert (j - i) * interval == (j - i - 1) * interval + interval;
    }
  }

  lemma {:induction false} StartsSpread(starts: seq<int>, interval: int, i: nat, j: nat)
    requires i <= j < |starts| && forall k | 0 <= k < |starts| - 1 :: starts[k + 1] - starts[k] >= interval
    ensures starts[j] - starts[i] >= (j - i) * interval
    decreases j - i
  {
    if i < j {
      StartsSpread(starts, interval, i, j - 1);
      assert starts[j - 1 + 1] - starts[j - 1] >= interval;
      assert (j - i) * interval == (j - 1 - i) * interval + interval;
    }
  }

  // ---- The sample limit never cuts into the window ----

  /** Each sample stems from a reading with at least as many readings behind it as the sample has samples. */
  ghost predicate Traced(samples: seq<Sample>, readings: seq<Reading>) {
    forall i | 0 <= i < |samples| :: HasStem(samples, readings, i)
  }

  ghost predicate HasStem(samples: seq<Sample>, readings: seq<Reading>, i: int)
    requires 0 <= i < |samples|
  {
    exists k :: StemsFrom(samples, readings, i, k)
  }

  predicate StemsFrom(samples: seq<Sample>, readings: seq<Reading>, i: int, k: int)
    requires 0 <= i < |samples|
  {
    0 <= k < |readings| && readings[k].at == samples[i].at && |readings| - k >= |samples| - i
  }

  lemma {:induction false} FilterIndex(samples: seq<Sample>, cutoff: int, now: int, i: nat) returns (j: nat)
    requires i < |InWindow(samples, cutoff, now)|
    ensures j < |samples| && samples[j] == InWindow(samples, cutoff, now)[i]
    ensures |samples| - j >= |InWindow(samples, cutoff, now)| - i
    ensures cutoff <= samples[j].at <= now
  {
    var front := samples[..|samples| - 1];
    if i < |InWindow(front, cutoff, now)| {
      j := FilterIndex(front, cutoff, now, i);
    } else {
      j := |front|;
    }
  }

  lemma FilterStaysTraced(samples: seq<Sample>, readings: seq<Reading>, cutoff: int, now: int)
    requires Traced(samples, readings)
    ensures Traced(InWindow(samples, cutoff, now), readings)
  {
    hide InWindow;
    var kept := InWindow(samples, cutoff, now);
    forall i | 0 <= i < |kept| ensures HasStem(kept, readings, i) {
      var j := FilterIndex(samples, cutoff, now, i);
      assert HasStem(samples, readings, j);
      var k :| StemsFrom(samples, readings, j, k);
      assert StemsFrom(kept, readings, i, k);
    }
  }

  lemma JoinStaysTraced(samples: seq<Sample>, readings: seq<Reading>, r: Reading)
    requires Traced(samples, readings)
    ensures Traced(Joined(samples, r), readings + [r])
  {
    var joined := Joined(samples, r);
    forall i | 0 <= i < |joined| ensures HasStem(joined, readings + [r], i) {
      if i < |samples| {
        assert HasStem(samples, readings, i);
        var k :| StemsFrom(samples, readings, i, k);
        assert StemsFrom(joined, readings + [r], i, k);
      } else {
        assert StemsFrom(joined, readings + [r], i, |readings|);
      }
    }
  }

  lemma TracedFits(cfg: Trending, samples: seq<Sample>, readings: seq<Reading>)
    requires Accepted(cfg) && readings != [] && Paced(readings, cfg.interval) && Traced(samples, readings)
    requires forall i | 0 <= i < |samples| :: samples[i].at >= readings[|readings| - 1].at - cfg.window
    ensures |samples| <= Limit(cfg)
  {
    if |samples| > 2 {
      assert HasStem(samples, readings, 0);
      var k :| StemsFrom(samples, readings, 0, k);
      var last := |readings| - 1;
      assert readings[last].at - readings[k].at > (last - k - 1) * cfg.interval;
      FewFit(cfg.window, cfg.interval, |samples| - 2, last - k - 1);
    }
  }

  lemma FewFit(window: int, interval: int, n: int, m: int)
    requires window >= 0 && interval > 0 && n <= m && m * interval <= window
    ensures n <= window / interval
  {
    FloorReaches(window, interval, m);
  }

  /** With `run_forever`'s pace the limit drops nothing: all that is retained and the new reading is stored. */
  lemma {:induction false} LimitIsIdle(cfg: Trending, readings: seq<Reading>)
    requires Accepted(cfg) && Paced(readings, cfg.interval)
    ensures Traced(After(cfg, readings).samples, readings)
    ensures readings != [] ==>
              var front, r := readings[..|readings| - 1], readings[|readings| - 1];
              After(cfg, readings).samples == Joined(Retained(cfg, After(cfg, front), r), r)
  {
    hide Step, Retained, Joined, Traced, Paced;
    if readings == [] {
      NothingIsTraced();
    } else {
      var front, r := readings[..|readings| - 1], readings[|readings| - 1];
      PaceOfPrefix(readings, cfg.interval);
      LimitIsIdle(cfg, front);
      assert front + [r] == readings;
      StoresAll(cfg, After(cfg, front), front, r);
    }
  }

  lemma StoresAll(cfg: Trending, t: Trend, front: seq<Reading>, r: Reading)
    requires Accepted(cfg) && Traced(t.samples, front) && Paced(front + [r], cfg.interval)
    ensures Step(cfg, t, r).samples == Joined(Retained(cfg, t, r), r)
    ensures Traced(Step(cfg, t, r).samples, front + [r])
  {
    hide InWindow, Joined, Limit, Traced, Paced;
    NothingIsTracedIn(front);
    var entered, retained := Entered(t, r.container), Retained(cfg, t, r);
    FilterStaysTraced(entered.samples, front, r.at - cfg.window, r.at);
    JoinStaysTraced(retained, front, r);
    JoinedIsRecent(entered.samples, r, cfg.window);
    TracedFits(cfg, Joined(retained, r), front + [r]);
  }

  lemma JoinedIsRecent(samples: seq<Sample>, r: Reading, window: nat)
    ensures var joined := Joined(InWindow(samples, r.at - window, r.at), r);
            forall i | 0 <= i < |joined| :: joined[i].at >= r.at - window
  {
    hide InWindow;
    var retained := InWindow(samples, r.at - window, r.at);
    forall i | 0 <= i < |retained| ensures retained[i].at >= r.at - window {
      var j := FilterIndex(samples, r.at - window, r.at, i);
    }
  }

  lemma NothingIsTraced()
    ensures Traced([], [])
  {
  }

  lemma NothingIsTracedIn(readings: seq<Reading>)
    ensures Traced([], readings)
  {
  }

  lemma PaceOfPrefix(readings: seq<Reading>, interval: int)
    requires Paced(readings, interval) && readings != []
    ensures Paced(readings[..|readings| - 1], interval)
    ensures |readings| > 1 ==> readings[|readings| - 2].at < readings[|readings| - 1].at
  {
    if |readings| > 1 {
      assert readings[|readings| - 1].at - readings[|readings| - 2].at > 0 * interval;
    }
  }

  // ---- What is stored is the window of the whole history ----

  lemma FilterAppend(samples: seq<Sample>, last: Sample, cutoff: int, now: int)
    ensures InWindow(samples + [last], cutoff, now)
            == InWindow(samples, cutoff, now) + if cutoff <= last.at <= now then [last] else []
  {
    assert (samples + [last])[..|samples|] == samples;
  }

  lemma {:induction false} FilterTwice(samples: seq<Sample>, cutoff: int, now: int, later: int, end: int)
    requires cutoff <= later && now <= end && forall s | s in samples :: s.at <= now
    ensures InWindow(InWindow(samples, cutoff, now), later, end) == InWindow(samples, later, end)
  {
    hide InWindow;
    if samples == [] {
      NothingInWindow(cutoff, now);
    } else {
      var front, last := samples[..|samples| - 1], samples[|samples| - 1];
      assert samples == front + [last];
      FilterTwice(front, cutoff, now, later, end);
      FilterAppend(front, last, cutoff, now);
      FilterAppend(front, last, later, end);
      if cutoff <= last.at {
        FilterAppend(InWindow(front, cutoff, now), last, later, end);
      } else {
        assert InWindow(front, cutoff, now) + [] == InWindow(front, cutoff, now);
        assert InWindow(front, later, end) + [] == InWindow(front, later, end);
      }
    }
  }

  lemma {:induction false} HistoryIsPast(readings: seq<Reading>, interval: int)
    requires Paced(readings, interval)
    ensures forall s | s in History(readings) :: readings != [] && s.at <= readings[|readings| - 1].at
  {
    hide Paced;
    if readings != [] {
      PaceOfPrefix(readings, interval);
      HistoryIsPast(readings[..|readings| - 1], interval);
    }
  }

  /** The stored samples are exactly those of the container's whole history that lie in the window. */
  lemma {:induction false} StoredIsWindow(cfg: Trending, readings: seq<Reading>)
    requires Accepted(cfg) && readings != [] && Paced(readings, cfg.interval)
    ensures var now := readings[|readings| - 1].at;
            After(cfg, readings).samples == InWindow(History(readings), now - cfg.window, now)
    ensures After(cfg, readings).container == ContainerAt(readings)
    decreases |readings|, 0
  {
    hide InWindow, Paced, Limit, Joined, Latest, Retained, Breached;
    var front, r := readings[..|readings| - 1], readings[|readings| - 1];
    PaceOfPrefix(readings, cfg.interval);
    LimitIsIdle(cfg, readings);
    assert front + [r] == readings;
    RetainedIsWindow(cfg, front, r);
    JoinWindow(if Moves(front, r) then [] else History(front), r, r.at - cfg.window);
  }

  lemma JoinWindow(samples: seq<Sample>, r: Reading, cutoff: int)
    requires cutoff <= r.at
    ensures InWindow(Joined(samples, r), cutoff, r.at) == Joined(InWindow(samples, cutoff, r.at), r)
  {
    if r.bytes.Some? {
      assert Joined(samples, r)[..|samples|] == samples;
    }
  }

  /** So a reading is compared with the oldest sample of the window, none having been lost. */
  lemma {:induction false} RetainedIsWindow(cfg: Trending, front: seq<Reading>, r: Reading)
    requires Accepted(cfg) && Paced(front + [r], cfg.interval)
    ensures Retained(cfg, After(cfg, front), r)
            == InWindow(if Moves(front, r) then [] else History(front), r.at - cfg.window, r.at)
    ensures After(cfg, front).container == ContainerAt(front)
    decreases |front|, 1
  {
    hide InWindow, Paced, Limit, Step, History, After, Retained;
    PaceOfPrefix(front + [r], cfg.interval);
    assert (front + [r])[..|front|] == front;
    if front == [] {
      NothingKnown(cfg);
      EnteredWindow(cfg, UNKNOWN, [], r.at, r);
    } else {
      StoredIsWindow(cfg, front);
      HistoryIsPast(front, cfg.interval);
      EnteredWindow(cfg, After(cfg, front), History(front), front[|front| - 1].at, r);
    }
  }

  lemma EnteredWindow(cfg: Trending, t: Trend, history: seq<Sample>, now: int, r: Reading)
    requires t.samples == InWindow(history, now - cfg.window, now)
    requires now <= r.at && forall s | s in history :: s.at <= now
    ensures Retained(cfg, t, r)
            == InWindow(if r.container.Some? && t.container != r.container then [] else history, r.at - cfg.window,
                        r.at)
  {
    hide InWindow;
    FilterTwice(history, now - cfg.window, now, r.at - cfg.window, r.at);
  }

  lemma NothingKnown(cfg: Trending)
    requires cfg.interval > 0
    ensures After(cfg, []) == UNKNOWN && History([]) == [] && forall cutoff, now :: InWindow([], cutoff, now) == []
  {
  }

  // ---- Alerts ----

  /** The last reading exceeds the oldest sample its container left in the window by the growth or more. */
  predicate GrowthSeen(cfg: Trending, readings: seq<Reading>)
    requires readings != []
  {
    var front, r := readings[..|readings| - 1], readings[|readings| - 1];
    var window := InWindow(History(front), r.at - cfg.window, r.at);
    !Moves(front, r) && r.bytes.Some? && window != [] && r.bytes.value - window[0].bytes >= cfg.growth
  }

  /** For how many readings in a row growth has been seen. */
  function Streak(cfg: Trending, readings: seq<Reading>): nat {
    if readings == [] || !GrowthSeen(cfg, readings) then 0 else 1 + Streak(cfg, readings[..|readings| - 1])
  }

  lemma {:induction false} BreachesAreStreak(cfg: Trending, readings: seq<Reading>)
    requires Accepted(cfg) && Paced(readings, cfg.interval)
    ensures After(cfg, readings).breaches == Streak(cfg, readings)
  {
    hide InWindow, Paced, Limit, History;
    if readings != [] {
      var front, r := readings[..|readings| - 1], readings[|readings| - 1];
      PaceOfPrefix(readings, cfg.interval);
      BreachesAreStreak(cfg, front);
      assert front + [r] == readings;
      RetainedIsWindow(cfg, front, r);
      NothingInWindow(r.at - cfg.window, r.at);
    }
  }

  lemma NothingInWindow(cutoff: int, now: int)
    ensures InWindow([], cutoff, now) == []
  {
  }

  /** Growth was also seen `k` readings ago. */
  predicate SeenBack(cfg: Trending, readings: seq<Reading>, k: nat) {
    k < |readings| && GrowthSeen(cfg, readings[..|readings| - k])
  }

  lemma {:induction false} StreakIsConsecutive(cfg: Trending, readings: seq<Reading>, n: nat)
    ensures Streak(cfg, readings) >= n <==> forall k: nat | k < n :: SeenBack(cfg, readings, k)
  {
    hide GrowthSeen;
    if n > 0 {
      assert readings[..|readings| - 0] == readings;
      assert SeenBack(cfg, readings, 0) <==> readings != [] && GrowthSeen(cfg, readings);
      if readings != [] {
        var front := readings[..|readings| - 1];
        StreakIsConsecutive(cfg, front, n - 1);
        forall k: nat | k < n - 1 ensures SeenBack(cfg, front, k) <==> SeenBack(cfg, readings, k + 1) {
          SeenFurtherBack(cfg, readings, k);
        }
        assert forall k: nat | 0 < k < n :: SeenBack(cfg, readings, k) <==> SeenBack(cfg, front, k - 1);
      }
    }
  }

  lemma SeenFurtherBack(cfg: Trending, readings: seq<Reading>, k: nat)
    requires readings != []
    ensures SeenBack(cfg, readings[..|readings| - 1], k) <==> SeenBack(cfg, readings, k + 1)
  {
    hide GrowthSeen;
    if k + 1 < |readings| {
      assert readings[..|readings| - 1][..|readings| - 1 - k] == readings[..|readings| - (k + 1)];
    }
  }

  /** At `run_forever`'s pace an alert is raised just when the growth was seen in the required number of consecutive
      readings on one container, and the container uses its share of the limit, if it has one. */
  lemma AlertIsSustainedGrowth(cfg: Trending, front: seq<Reading>, r: Reading)
    requires Accepted(cfg) && Paced(front + [r], cfg.interval)
    ensures Alerts(cfg, Retained(cfg, After(cfg, front), r), After(cfg, front + [r]).breaches, r)
            <==> && cfg.growth > 0 && (forall k: nat | k < cfg.required :: SeenBack(cfg, front + [r], k))
                 && (r.bytes.Some? && r.limit.Some? && r.limit.value > 0 ==>
                       r.bytes.value as real >= r.limit.value as real * cfg.fraction)
  {
    hide InWindow, Paced, After, History, Retained, SeenBack;
    var readings := front + [r];
    assert readings[..|readings| - 1] == front;
    BreachesAreStreak(cfg, readings);
    StreakIsConsecutive(cfg, readings, cfg.required);
    RetainedIsWindow(cfg, front, r);
    RetainedInWindow(cfg, After(cfg, front), r);
  }

  lemma RetainedInWindow(cfg: Trending, t: Trend, r: Reading)
    ensures Retained(cfg, t, r) != [] ==> Retained(cfg, t, r)[0].at <= r.at
  {
    if Retained(cfg, t, r) != [] {
      var j := FilterIndex(Entered(t, r.container).samples, r.at - cfg.window, r.at, 0);
    }
  }

  // ---- The window told from the readings ----

  lemma {:induction false} WindowMembers(samples: seq<Sample>, cutoff: int, now: int)
    ensures forall s :: s in InWindow(samples, cutoff, now) <==> s in samples && cutoff <= s.at <= now
  {
    if samples != [] {
      WindowMembers(samples[..|samples| - 1], cutoff, now);
      assert samples == samples[..|samples| - 1] + [samples[|samples| - 1]];
    }
  }

  predicate Ascending(samples: seq<Sample>) {
    forall i, j | 0 <= i < j < |samples| :: samples[i].at < samples[j].at
  }

  lemma {:induction false} WindowAscends(samples: seq<Sample>, cutoff: int, now: int)
    requires Ascending(samples)
    ensures Ascending(InWindow(samples, cutoff, now))
  {
    if samples != [] {
      var front := samples[..|samples| - 1];
      WindowAscends(front, cutoff, now);
      WindowMembers(front, cutoff, now);
      var kept := InWindow(front, cutoff, now);
      forall i | 0 <= i < |kept| ensures kept[i].at < samples[|samples| - 1].at {
        assert kept[i] in front;
      }
    }
  }

  lemma {:induction false} HistoryAscends(readings: seq<Reading>, interval: int)
    requires Paced(readings, interval)
    ensures Ascending(History(readings))
  {
    hide Paced;
    if readings != [] {
      PaceOfPrefix(readings, interval);
      HistoryAscends(readings[..|readings| - 1], interval);
      HistoryIsPast(readings[..|readings| - 1], interval);
      var history := History(readings[..|readings| - 1]);
      assert forall i | 0 <= i < |history| :: history[i] in history;
    }
  }

  /** The oldest sample of the window. */
  ghost predicate IsOldest(history: seq<Sample>, cutoff: int, now: int, s: Sample) {
    && s in history && cutoff <= s.at <= now
    && forall other | other in history && cutoff <= other.at <= now :: s.at <= other.at
  }

  /** Growth is seen if and only if the reading, on the same container as before, exceeds by the growth the oldest
      sample that this container left in the window. */
  lemma GrowthIsOverOldest(cfg: Trending, front: seq<Reading>, r: Reading)
    requires Accepted(cfg) && Paced(front + [r], cfg.interval)
    ensures GrowthSeen(cfg, front + [r]) <==>
              && r.bytes.Some? && !(r.container.Some? && ContainerAt(front) != r.container)
              && exists s :: IsOldest(History(front), r.at - cfg.window, r.at, s)
                             && r.bytes.value - s.bytes >= cfg.growth
  {
    hide InWindow, Paced, History, ContainerAt;
    assert (front + [r])[..|front|] == front;
    PaceOfPrefix(front + [r], cfg.interval);
    HistoryAscends(front, cfg.interval);
    var (history, cutoff) := (History(front), r.at - cfg.window);
    var window := InWindow(history, cutoff, r.at);
    WindowMembers(history, cutoff, r.at);
    WindowAscends(history, cutoff, r.at);
    if window != [] {
      assert window[0] in window;
      forall other | other in window
        ensures window[0].at <= other.at && (other.at == window[0].at ==> other == window[0]) {
        var i :| 0 <= i < |window| && window[i] == other;
      }
      assert IsOldest(history, cutoff, r.at, window[0]);
    }
    if s :| IsOldest(history, cutoff, r.at, s) {
      assert s in window;
    }
  }

  /** Whatever the pace, no more samples are stored than fit the window, or 120 if that is more. */
  lemma StoredIsBounded(cfg: Trending, t: Trend, r: Reading)
    requires Accepted(cfg)
    ensures var stored := |Step(cfg, t, r).samples|;
            stored <= 120 || stored <= cfg.window / cfg.interval + 2
  {
    hide InWindow;
  }
}
