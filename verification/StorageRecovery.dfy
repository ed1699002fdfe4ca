/** The storage-growth incident from alert to recovery: the detector's hold and recovery timer
    (`_database_storage_growth_alerts`), then `_emit` and `_emit_resolutions`, over whole runs of monitor cycles. */
module StorageRecovery {
  import opened Numerals
  import opened AlertEngine
  import opened StorageGrowth

  /** `database_storage_growth_resolution_hold` and `database_storage_growth_recovery_since`. */
  datatype Watch = Watch(hold: bool, since: Option<int>)

  /** How one reading moves the hold and the timer. */
  function Judge(g: Growth, w: Watch, active: bool, reading: Reading, now: int): Watch {
    match reading
    case Missing | Unmeasured | Stale => Watch(active, w.since)
    case Over(_) => Watch(false, None)
    case InBand => Watch(active, None)
    case Below =>
      if !active then Watch(false, None)
      else
        var since := if w.since.Some? && w.since.value <= now then w.since.value else now;
        Watch(now - since < g.recovery, Some(since))
  }

  /** Relation sizes the detector looks at. */
  function Measurable(relations: map<string, int>): (kept: map<string, int>)
    ensures forall n :: n in kept <==> n in relations && relations[n] >= 0
    ensures forall n | n in kept :: kept[n] == relations[n]
  {
    map n | n in relations && relations[n] >= 0 :: relations[n]
  }

  class GrowthDetector {
    const g: Growth
    var samples: seq<Sample>
    var hold: bool
    var since: Option<int>

    constructor (g: Growth)
      ensures this.g == g && samples == [] && !hold && since == None
    {
      this.g, samples, hold, since := g, [], false, None;
    }

    /** `_database_storage_growth_alerts`; the reading fixes the alert it returns. */
    method Observe(footprint: Option<Footprint>, active: bool, now: int) returns (reading: Reading)
      requires Accepted(g)
      modifies this
      ensures footprint.None? ==> reading == Missing && samples == old(samples)
      ensures footprint.Some? ==>
                var taken := Sample(now, footprint.value.bytes, Measurable(footprint.value.relations));
                samples == Kept(old(samples), g, taken) && reading == Classify(g, samples, taken)
      ensures Watch(hold, since) == Judge(g, Watch(old(hold), old(since)), active, reading, now)
    {
      hide Kept, Reaches, RelationReaches, Measurable;
      hold := active;
      if footprint.None? {
        return Missing;
      }
      var taken := Sample(now, footprint.value.bytes, Measurable(footprint.value.relations));
      samples := Retain(samples, g, taken);
      var baseline := Baseline(samples, g, now);
      BaselineIsOld(samples, g, now);
      if baseline.None? {
        return Unmeasured;
      }
      if now - baseline.value.at > g.minimum + 2 * g.interval {
        return Stale;
      }
      reading := Measure(g, taken, baseline.value);
      if !reading.Over? {
        if !active {
          since, hold := None, false;
          return;
        }
        if reading.InBand? {
          since, hold := None, true;
          return;
        }
        if since.None? || since.value > now {
          since := Some(now);
        }
        hold := now - since.value < g.recovery;
        return;
      }
      since, hold := None, false;
    }
  }

  // ---- Cycles ----

  /** The size query fails, or there is no container to ask; or it answers. */
  datatype Query = Failed | Answered(reading: Reading, details: string)

  datatype Cycle = Cycle(query: Query, at: int)

  datatype Incident = Incident(alert: NameState, watch: Watch)

  const CALM := Incident(EMPTY, Watch(false, None))

  predicate Shows(c: Cycle, reading: Reading) {
    c.query.Answered? && c.query.reading == reading
  }

  predicate OverBudget(c: Cycle) {
    c.query.Answered? && c.query.reading.Over?
  }

  /** An observation that is no sign of recovery. */
  predicate Disturbs(c: Cycle) {
    OverBudget(c) || Shows(c, InBand)
  }

  function GrowthAlert(isCritical: bool, details: string): Context {
    Context(if isCritical then "critical" else "warning",
            "Database storage is growing faster than its configured budget", Some(details))
  }

  function Watched(g: Growth, s: Incident, c: Cycle): Watch {
    if c.query.Failed? then s.watch else Judge(g, s.watch, s.alert.active.Some?, c.query.reading, c.at)
  }

  function Emitted(cfg: Config, s: Incident, c: Cycle): NameState {
    if OverBudget(c) then Emit(cfg, true, s.alert, GrowthAlert(c.query.reading.isCritical, c.query.details), c.at).0
    else s.alert
  }

  /** One cycle; the note is the recovery, if there is one.  Repair and recovery both clear the detector's entries. */
  function Turn(g: Growth, cfg: Config, s: Incident, c: Cycle): (Incident, Option<Note>) {
    var w, raised := Watched(g, s, c), Emitted(cfg, s, c);
    var (swept, note) := Sweep(cfg, true, raised, OverBudget(c), w.hold, c.at);
    (Incident(swept, if raised.active.Some? && swept.active.None? then Watch(false, None) else w), note)
  }

  function Reached(g: Growth, cfg: Config, cycles: seq<Cycle>): Incident {
    if cycles == [] then CALM
    else Turn(g, cfg, Reached(g, cfg, cycles[..|cycles| - 1]), cycles[|cycles| - 1]).0
  }

  /** The last cycle reports the recovery of the growth incident. */
  predicate Recovers(g: Growth, cfg: Config, cycles: seq<Cycle>) {
    cycles != [] && Turn(g, cfg, Reached(g, cfg, cycles[..|cycles| - 1]), cycles[|cycles| - 1]).1.Some?
  }

  // ---- What a recovery rests on ----

  /** From cycle `j` on nothing disturbs, and `j` itself shows growth below both lower thresholds at time `t`. */
  ghost predicate CalmSince(cycles: seq<Cycle>, j: nat, t: int) {
    && j < |cycles| && Shows(cycles[j], Below) && cycles[j].at == t
    && forall i | j <= i < |cycles| :: !Disturbs(cycles[i])
  }

  /** A missing or stale sample counts as little as one over budget: the cycle is below the thresholds, or asked in
      vain. */
  predicate Counts(c: Cycle) {
    Shows(c, Below) || c.query.Failed?
  }

  /** Growth was seen below the thresholds at two cycles at least the recovery time apart, with no observation to the
      contrary since the first; the second is followed by at least `n - 1` more cycles, and each of the last `n`
      counts. */
  ghost predicate Earned(g: Growth, cycles: seq<Cycle>, n: nat) {
    exists j: nat, k: nat :: EarnedBy(g, cycles, n, j, k)
  }

  ghost predicate EarnedBy(g: Growth, cycles: seq<Cycle>, n: nat, j: nat, k: nat) {
    && j <= k < |cycles| && k + n <= |cycles|
    && CalmSince(cycles, j, cycles[j].at)
    && Shows(cycles[k], Below) && cycles[j].at + g.recovery <= cycles[k].at
    && forall i | |cycles| - n <= i < |cycles| :: Counts(cycles[i])
  }

  /** The last `n` cycles saw nothing at all, and the one before them was over budget. */
  predicate BlindSinceOver(cycles: seq<Cycle>, n: nat) {
    && n < |cycles| && OverBudget(cycles[|cycles| - 1 - n])
    && forall i | |cycles| - n <= i < |cycles| :: cycles[i].query.Failed?
  }

  ghost predicate Grounded(g: Growth, cfg: Config, cycles: seq<Cycle>, s: Incident) {
    && Healthy(cfg, s.alert)
    && (s.watch.since.Some? ==> s.alert.active.Some? && exists j: nat :: CalmSince(cycles, j, s.watch.since.value))
    && (s.alert.active.Some? && s.alert.absences > 0 ==> !s.watch.hold)
    && (s.alert.active.Some? && !s.watch.hold ==>
          Earned(g, cycles, s.alert.absences) || BlindSinceOver(cycles, s.alert.absences))
  }

  lemma CalmGrows(cycles: seq<Cycle>, c: Cycle, j: nat, t: int)
    requires CalmSince(cycles, j, t) && !Disturbs(c)
    ensures CalmSince(cycles + [c], j, t)
  {
  }

  lemma EarnedGrows(g: Growth, cycles: seq<Cycle>, c: Cycle, n: nat)
    requires Earned(g, cycles, n) && Counts(c)
    ensures Earned(g, cycles + [c], n + 1)
  {
    var j: nat, k: nat :| EarnedBy(g, cycles, n, j, k);
    CalmGrows(cycles, c, j, cycles[j].at);
    assert EarnedBy(g, cycles + [c], n + 1, j, k);
  }

  /** While the detector has been blind since an over-budget reading, no calm can be under way. */
  lemma BlindIsNotCalm(cycles: seq<Cycle>, n: nat, j: nat, t: int)
    requires BlindSinceOver(cycles, n)
    ensures !CalmSince(cycles, j, t)
  {
    var last := |cycles| - 1 - n;
    if j <= last {
      assert Disturbs(cycles[last]);
    } else if j < |cycles| {
      assert cycles[j].query.Failed?;
    }
  }

  lemma OverKeepsGrounded(g: Growth, cfg: Config, cycles: seq<Cycle>, s: Incident, c: Cycle)
    requires Sound(cfg) && Accepted(g) && Grounded(g, cfg, cycles, s) && OverBudget(c)
    ensures Grounded(g, cfg, cycles + [c], Turn(g, cfg, s, c).0) && Turn(g, cfg, s, c).1.None?
  {
    hide Earned, CalmSince, Decide;
    var alert := GrowthAlert(c.query.reading.isCritical, c.query.details);
    StepKeepsHealthy(cfg, true, s.alert, Raise(alert, c.at));
    StepKeepsHealthy(cfg, true, Emitted(cfg, s, c), EndCycle(true, false, c.at));
    assert BlindSinceOver(cycles + [c], 0);
  }

  lemma BlindKeepsGrounded(g: Growth, cfg: Config, cycles: seq<Cycle>, s: Incident, c: Cycle)
    requires Sound(cfg) && Accepted(g) && Grounded(g, cfg, cycles, s) && c.query.Failed?
    ensures Grounded(g, cfg, cycles + [c], Turn(g, cfg, s, c).0)
    ensures Turn(g, cfg, s, c).1.Some? ==>
              Earned(g, cycles + [c], cfg.resolutionsRequired) || BlindSinceOver(cycles + [c], cfg.resolutionsRequired)
  {
    hide Earned, CalmSince, Deliverable;
    StepKeepsHealthy(cfg, true, s.alert, EndCycle(false, s.watch.hold, c.at));
    if s.watch.since.Some? {
      var j: nat :| CalmSince(cycles, j, s.watch.since.value);
      CalmGrows(cycles, c, j, s.watch.since.value);
    }
    if s.alert.active.Some? && !s.watch.hold && Earned(g, cycles, s.alert.absences) {
      EarnedGrows(g, cycles, c, s.alert.absences);
    }
  }

  /** A reading that says nothing, or too much, holds the incident. */
  lemma HeldKeepsGrounded(g: Growth, cfg: Config, cycles: seq<Cycle>, s: Incident, c: Cycle)
    requires Sound(cfg) && Accepted(g) && Grounded(g, cfg, cycles, s)
    requires c.query.Answered? && !OverBudget(c) && !Shows(c, Below)
    ensures Grounded(g, cfg, cycles + [c], Turn(g, cfg, s, c).0) && Turn(g, cfg, s, c).1.None?
  {
    hide Earned, CalmSince, Deliverable;
    StepKeepsHealthy(cfg, true, s.alert, EndCycle(false, Watched(g, s, c).hold, c.at));
    if s.watch.since.Some? && !Shows(c, InBand) {
      var j: nat :| CalmSince(cycles, j, s.watch.since.value);
      CalmGrows(cycles, c, j, s.watch.since.value);
    }
  }

  lemma BelowKeepsGrounded(g: Growth, cfg: Config, cycles: seq<Cycle>, s: Incident, c: Cycle)
    requires Sound(cfg) && Accepted(g) && Grounded(g, cfg, cycles, s) && Shows(c, Below)
    ensures Grounded(g, cfg, cycles + [c], Turn(g, cfg, s, c).0)
    ensures Turn(g, cfg, s, c).1.Some? ==> Earned(g, cycles + [c], cfg.resolutionsRequired)
  {
    hide Earned, CalmSince, Deliverable, BlindSinceOver;
    var w := Watched(g, s, c);
    StepKeepsHealthy(cfg, true, s.alert, EndCycle(false, w.hold, c.at));
    if s.alert.active.Some? {
      var j := BelowStartsOrContinues(g, cycles, s, c);
      if !w.hold {
        BelowEarns(g, cfg, cycles, s, c, j);
      }
    }
  }

  /** The timer always dates from a cycle that has been calm ever since. */
  lemma BelowStartsOrContinues(g: Growth, cycles: seq<Cycle>, s: Incident, c: Cycle) returns (j: nat)
    requires s.watch.since.Some? ==> exists i: nat :: CalmSince(cycles, i, s.watch.since.value)
    requires Shows(c, Below) && s.alert.active.Some?
    ensures Watched(g, s, c).since.Some? && CalmSince(cycles + [c], j, Watched(g, s, c).since.value)
  {
    if s.watch.since.Some? && s.watch.since.value <= c.at {
      j :| CalmSince(cycles, j, s.watch.since.value);
      CalmGrows(cycles, c, j, s.watch.since.value);
    } else {
      j := |cycles|;
    }
  }

  lemma BelowEarns(g: Growth, cfg: Config, cycles: seq<Cycle>, s: Incident, c: Cycle, j: nat)
    requires Accepted(g) && Grounded(g, cfg, cycles, s) && Shows(c, Below) && s.alert.active.Some?
    requires var w := Watched(g, s, c);
             !w.hold && w.since.Some? && CalmSince(cycles + [c], j, w.since.value)
    ensures Earned(g, cycles + [c], s.alert.absences + 1)
  {
    var n := s.alert.absences;
    if n > 0 && Earned(g, cycles, n) {
      EarnedGrows(g, cycles, c, n);
    } else {
      if n > 0 {
        assert s.watch.since.Some?;
        var i: nat :| CalmSince(cycles, i, s.watch.since.value);
        BlindIsNotCalm(cycles, n, i, s.watch.since.value);
        assert false;
      }
      assert EarnedBy(g, cycles + [c], 1, j, |cycles|);
    }
  }

  lemma {:induction false} RunIsGrounded(g: Growth, cfg: Config, cycles: seq<Cycle>)
    requires Sound(cfg) && Accepted(g)
    ensures Grounded(g, cfg, cycles, Reached(g, cfg, cycles))
    ensures Recovers(g, cfg, cycles) ==>
              Earned(g, cycles, cfg.resolutionsRequired) || BlindSinceOver(cycles, cfg.resolutionsRequired)
  {
    hide Grounded, Earned, BlindSinceOver, Turn, OverBudget, Shows;
    if cycles == [] {
      NothingIsGrounded(g, cfg);
    } else {
      var front, c := cycles[..|cycles| - 1], cycles[|cycles| - 1];
      assert front + [c] == cycles;
      RunIsGrounded(g, cfg, front);
      var s := Reached(g, cfg, front);
      if c.query.Failed? {
        BlindKeepsGrounded(g, cfg, front, s, c);
      } else if OverBudget(c) {
        OverKeepsGrounded(g, cfg, front, s, c);
      } else if Shows(c, Below) {
        BelowKeepsGrounded(g, cfg, front, s, c);
      } else {
        HeldKeepsGrounded(g, cfg, front, s, c);
      }
    }
  }

  lemma NothingIsGrounded(g: Growth, cfg: Config)
    requires Sound(cfg)
    ensures Grounded(g, cfg, [], CALM)
  {
  }

  lemma BlindIsNotEarned(g: Growth, cycles: seq<Cycle>, n: nat, m: nat)
    requires BlindSinceOver(cycles, n)
    ensures !Earned(g, cycles, m)
  {
    hide BlindSinceOver, CalmSince;
    if Earned(g, cycles, m) {
      var j: nat, k: nat :| EarnedBy(g, cycles, m, j, k);
      BlindIsNotCalm(cycles, n, j, cycles[j].at);
    }
  }

  /** A reported recovery is earned just when the required number of cycles before it did not all go blind right after
      an over-budget reading: a failing size query leaves the hold as the last reading left it, and over budget it is
      off. */
  lemma RecoveryIsEarnedUnlessBlind(g: Growth, cfg: Config, cycles: seq<Cycle>)
    requires Sound(cfg) && Accepted(g) && Recovers(g, cfg, cycles)
    ensures Earned(g, cycles, cfg.resolutionsRequired) <==> !BlindSinceOver(cycles, cfg.resolutionsRequired)
  {
    hide Earned, BlindSinceOver, Recovers, Grounded;
    RunIsGrounded(g, cfg, cycles);
    if BlindSinceOver(cycles, cfg.resolutionsRequired) {
      BlindIsNotEarned(g, cycles, cfg.resolutionsRequired, cfg.resolutionsRequired);
    }
  }

  /** With every query answered, an incident recovers only after growth stayed below both lower thresholds, in every
      observation made, for the whole recovery time, and each of the required last cycles measured it there: a missing
      sample never counts. */
  lemma AnsweredRecoveryIsEarned(g: Growth, cfg: Config, cycles: seq<Cycle>)
    requires Sound(cfg) && Accepted(g) && Recovers(g, cfg, cycles)
    requires forall i | 0 <= i < |cycles| :: cycles[i].query.Answered?
    ensures Earned(g, cycles, cfg.resolutionsRequired)
    ensures cfg.resolutionsRequired <= |cycles|
    ensures forall i | |cycles| - cfg.resolutionsRequired <= i < |cycles| :: Shows(cycles[i], Below)
  {
    hide Recovers, CalmSince;
    RecoveryIsEarnedUnlessBlind(g, cfg, cycles);
    if cycles != [] {
      assert cycles[|cycles| - 1].query.Answered?;
    }
    var j: nat, k: nat :| EarnedBy(g, cycles, cfg.resolutionsRequired, j, k);
    forall i | |cycles| - cfg.resolutionsRequired <= i < |cycles| ensures Shows(cycles[i], Below) {
      assert Counts(cycles[i]) && cycles[i].query.Answered?;
    }
  }

  // ---- An earned recovery is granted ----

  predicate InTime(cycles: seq<Cycle>) {
    forall i, j | 0 <= i < j < |cycles| :: cycles[i].at <= cycles[j].at
  }

  /** While an incident stays open and nothing disturbs, the timer keeps counting from the first calm cycle or
      before. */
  lemma {:induction false} TimerRuns(g: Growth, cfg: Config, cycles: seq<Cycle>, j: nat)
    requires Sound(cfg) && Accepted(g) && InTime(cycles) && j < |cycles| && CalmSince(cycles, j, cycles[j].at)
    requires Reached(g, cfg, cycles).alert.active.Some?
    ensures Reached(g, cfg, cycles[..|cycles| - 1]).alert.active.Some?
    ensures var w := Reached(g, cfg, cycles).watch; w.since.Some? && w.since.value <= cycles[j].at
    decreases |cycles|
  {
    hide Emit, Deliverable;
    var front, c := cycles[..|cycles| - 1], cycles[|cycles| - 1];
    var s := Reached(g, cfg, front);
    assert !Disturbs(c);
    OnlyRaisesOpen(g, cfg, s, c);
    if j < |front| {
      assert CalmSince(front, j, front[j].at);
      TimerRuns(g, cfg, front, j);
      assert front[j].at <= c.at;
    }
  }

  /** An undisturbed cycle opens no incident. */
  lemma OnlyRaisesOpen(g: Growth, cfg: Config, s: Incident, c: Cycle)
    requires !OverBudget(c) && Turn(g, cfg, s, c).0.alert.active.Some?
    ensures s.alert.active.Some? && Turn(g, cfg, s, c).0.watch == Watched(g, s, c)
  {
  }

  /** Growth below the thresholds at two cycles at least the recovery time apart, with nothing to the contrary in
      between, lifts the hold of an open incident at the very second one. */
  lemma CalmLiftsHold(g: Growth, cfg: Config, cycles: seq<Cycle>, j: nat)
    requires Sound(cfg) && Accepted(g) && InTime(cycles) && j < |cycles| && CalmSince(cycles, j, cycles[j].at)
    requires var c := cycles[|cycles| - 1]; Shows(c, Below) && c.at >= cycles[j].at + g.recovery
    requires Reached(g, cfg, cycles[..|cycles| - 1]).alert.active.Some?
    ensures !Watched(g, Reached(g, cfg, cycles[..|cycles| - 1]), cycles[|cycles| - 1]).hold
  {
    hide Turn;
    var front, c := cycles[..|cycles| - 1], cycles[|cycles| - 1];
    if j < |front| {
      assert CalmSince(front, j, front[j].at);
      TimerRuns(g, cfg, front, j);
    }
  }

  /** Each of `n` such cycles at the end counts, so with the required number of them the incident is over. */
  lemma {:induction false} EarnedRecoveryComes(g: Growth, cfg: Config, cycles: seq<Cycle>, j: nat, n: nat)
    requires Sound(cfg) && Accepted(g) && InTime(cycles) && j < |cycles| && CalmSince(cycles, j, cycles[j].at)
    requires n <= |cycles| && forall i | |cycles| - n <= i < |cycles| ::
               Shows(cycles[i], Below) && j <= i && cycles[i].at >= cycles[j].at + g.recovery
    ensures Reached(g, cfg, cycles).alert.active.Some? ==> n <= Reached(g, cfg, cycles).alert.absences
    ensures n >= cfg.resolutionsRequired ==> Reached(g, cfg, cycles).alert.active.None?
    decreases n
  {
    hide Emit, CalmSince, Deliverable, Earned, BlindSinceOver;
    RunIsGrounded(g, cfg, cycles);
    if n > 0 && Reached(g, cfg, cycles).alert.active.Some? {
      var front, c := cycles[..|cycles| - 1], cycles[|cycles| - 1];
      NotDisturbed(cycles, j);
      OnlyRaisesOpen(g, cfg, Reached(g, cfg, front), c);
      CalmLiftsHold(g, cfg, cycles, j);
      RunIsGrounded(g, cfg, front);
      UnheldCounts(g, cfg, Reached(g, cfg, front), c);
      if n > 1 {
        CalmPrefix(cycles, j);
        EarnedRecoveryComes(g, cfg, front, j, n - 1);
      }
    }
  }

  lemma NotDisturbed(cycles: seq<Cycle>, j: nat)
    requires j < |cycles| && CalmSince(cycles, j, cycles[j].at)
    ensures !Disturbs(cycles[|cycles| - 1])
  {
  }

  lemma CalmPrefix(cycles: seq<Cycle>, j: nat)
    requires j < |cycles| - 1 && CalmSince(cycles, j, cycles[j].at)
    ensures CalmSince(cycles[..|cycles| - 1], j, cycles[j].at)
  {
  }

  lemma UnheldCounts(g: Growth, cfg: Config, s: Incident, c: Cycle)
    requires Sound(cfg) && Healthy(cfg, s.alert) && !OverBudget(c) && !Watched(g, s, c).hold
    requires Turn(g, cfg, s, c).0.alert.active.Some?
    ensures Turn(g, cfg, s, c).0.alert.absences == s.alert.absences + 1
  {
  }

  // ---- Blindness does recover an incident ----

  function Blind(n: nat, at: int): seq<Cycle> {
    seq(n, _ => Cycle(Failed, at))
  }

  lemma BlindTurn(g: Growth, cfg: Config, s: Incident, c: Cycle)
    requires Healthy(cfg, s.alert) && s.alert.active.Some? && !s.watch.hold && c.query.Failed?
    ensures Turn(g, cfg, s, c).1.Some? <==> s.alert.absences + 1 == cfg.resolutionsRequired
    ensures Turn(g, cfg, s, c).1.None? ==>
              Turn(g, cfg, s, c).0 == Incident(s.alert.(absences := s.alert.absences + 1), s.watch)
  {
  }

  lemma BlindGrows(cycles: seq<Cycle>, n: nat, at: int)
    requires n > 0
    ensures var all := cycles + Blind(n, at);
            all[..|all| - 1] == cycles + Blind(n - 1, at) && all[|all| - 1] == Cycle(Failed, at)
  {
  }

  lemma NothingIsBlind(cycles: seq<Cycle>, at: int)
    ensures cycles + Blind(0, at) == cycles
  {
  }

  lemma {:induction false} BlindCycles(g: Growth, cfg: Config, cycles: seq<Cycle>, n: nat, at: int)
    requires Sound(cfg) && Accepted(g) && cycles != [] && OverBudget(cycles[|cycles| - 1])
    requires Reached(g, cfg, cycles).alert.active.Some? && n < cfg.resolutionsRequired
    ensures var s := Reached(g, cfg, cycles + Blind(n, at));
            s.alert == Reached(g, cfg, cycles).alert.(absences := n) && !s.watch.hold && Healthy(cfg, s.alert)
  {
    hide Turn, Healthy, Earned, BlindSinceOver, OverBudget, Blind;
    if n == 0 {
      NothingIsBlind(cycles, at);
      RunIsGrounded(g, cfg, cycles);
      OverIsUnheld(g, cfg, cycles);
    } else {
      BlindCycles(g, cfg, cycles, n - 1, at);
      BlindGrows(cycles, n, at);
      BlindTurn(g, cfg, Reached(g, cfg, cycles + Blind(n - 1, at)), Cycle(Failed, at));
      RunIsGrounded(g, cfg, cycles + Blind(n, at));
    }
  }

  lemma OverIsUnheld(g: Growth, cfg: Config, cycles: seq<Cycle>)
    requires cycles != [] && OverBudget(cycles[|cycles| - 1]) && Reached(g, cfg, cycles).alert.active.Some?
    ensures !Reached(g, cfg, cycles).watch.hold && Reached(g, cfg, cycles).alert.absences == 0
  {
    hide Emit;
  }

  /** Whatever the growth, the required number of failing queries right after an over-budget reading reports the
      incident as recovered. */
  lemma BlindnessRecovers(g: Growth, cfg: Config, cycles: seq<Cycle>, at: int)
    requires Sound(cfg) && Accepted(g) && cycles != [] && OverBudget(cycles[|cycles| - 1])
    requires Reached(g, cfg, cycles).alert.active.Some?
    ensures Recovers(g, cfg, cycles + Blind(cfg.resolutionsRequired, at))
  {
    hide Turn, Healthy, OverBudget, Blind, Reached;
    var n := cfg.resolutionsRequired;
    BlindCycles(g, cfg, cycles, n - 1, at);
    BlindGrows(cycles, n, at);
    BlindTurn(g, cfg, Reached(g, cfg, cycles + Blind(n - 1, at)), Cycle(Failed, at));
  }

  lemma OpensAtSecond(g: Growth, cfg: Config, over: Cycle)
    requires cfg.alertsRequired == 2 && OverBudget(over)
    ensures Reached(g, cfg, [over, over]).alert.active.Some?
  {
    assert [over, over][..1] == [over] && [over][..0] == [] && [over, over] != [];
    var once := Reached(g, cfg, [over]);
    assert once == Turn(g, cfg, Reached(g, cfg, []), over).0;
    assert once.alert.raises == 1 && once.alert.active.None? && once.alert.lastSent.None?;
  }

  /** It does happen: two over-budget readings open the incident, two failing queries close it. */
  lemma FalseRecovery(g: Growth, cooldown: nat)
    requires Accepted(g)
    ensures var cfg := Config(2, 2, cooldown, 1, 1);
            var over := Cycle(Answered(Over(false), ""), 0);
            var cycles := [over, over] + Blind(2, 60);
            Recovers(g, cfg, cycles) && !Earned(g, cycles, 2)
  {
    hide Earned, Recovers;
    var cfg := Config(2, 2, cooldown, 1, 1);
    var over := Cycle(Answered(Over(false), ""), 0);
    OpensAtSecond(g, cfg, over);
    BlindnessRecovers(g, cfg, [over, over], 60);
    var cycles := [over, over] + Blind(2, 60);
    BlindIsNotEarned(g, cycles, 2, 2);
  }
}
