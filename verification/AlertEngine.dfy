/** The alert engine of `deploy/ops/cml_ops_monitor.py` for one alert name: debounce, cooldown, escalation, flapping,
    recovery and the repair of orphaned state.  Every dictionary of the monitor is keyed by alert name, so a name's
    entries form a machine of their own; `OpsMonitor` puts the machines together. */
module AlertEngine {
  import opened Numerals

  /** Times count ticks of one clock. */
  datatype Config = Config(alertsRequired: int, resolutionsRequired: int, cooldown: int, storageCooldown: int,
                           flappingWindow: int)

  ghost predicate Sound(cfg: Config) {
    cfg.alertsRequired > 0 && cfg.resolutionsRequired > 0 && cfg.flappingWindow > 0 && cfg.storageCooldown > 0
  }

  /** What is known of an alert or of a stored context; `details` is the payload, `None` when it is no mapping. */
  datatype Context = Context(severity: string, summary: string, details: Option<string>)

  datatype NameState = NameState(
    active: Option<int>,        // since when
    context: Option<Context>,
    lastSent: Option<int>,      // alert_cooldowns
    raises: int,                // pending_alerts
    absences: int,              // pending_resolutions
    resolvedAt: Option<int>,
    flaps: int,
    occurrences: Option<int>)

  datatype Note =
    | Sent(severity: string, occurrence: int, since: int, escalatedFrom: Option<string>,
           deescalatedFrom: Option<string>,
           flapping: Option<int>, at: int)
    | Resolved(context: Context, openedAt: int, total: Option<int>, endedAt: int)

  const EMPTY := NameState(None, None, None, 0, 0, None, 0, None)

  function Rank(severity: string): int {
    if severity == "info" then 1 else if severity == "warning" then 2 else if severity == "critical" then 3 else 0
  }

  /** `_has_alert_delivery_context`. */
  predicate Deliverable(context: Option<Context>) {
    context.Some? && Rank(context.value.severity) > 0 && context.value.summary != "" && context.value.details.Some?
  }

  function OrZero(x: Option<int>): int {
    if x.Some? then x.value else 0
  }

  function Repair(st: NameState): NameState {
    st.(raises := 0, absences := 0, occurrences := None, active := None, context := None)
  }

  predicate Orphan(st: NameState) {
    st.active.Some? && !Deliverable(st.context)
  }

  function PreviousSeverity(st: NameState): string {
    if st.context.Some? then st.context.value.severity else ""
  }

  predicate Escalates(st: NameState, severity: string) {
    PreviousSeverity(st) != "" && Rank(severity) > Rank(PreviousSeverity(st))
  }

  predicate Downgrades(storage: bool, st: NameState, severity: string) {
    storage && PreviousSeverity(st) != "" && Rank(severity) < Rank(PreviousSeverity(st))
  }

  predicate CoolingDown(cfg: Config, storage: bool, st: NameState, now: int) {
    st.lastSent.Some? && now - st.lastSent.value < (if storage then cfg.storageCooldown else cfg.cooldown)
  }

  /** `_emit` up to the notification decision: counters moved, orphaned state repaired. */
  function Primed(cfg: Config, st: NameState): NameState {
    var counted := st.(absences := 0, raises := st.raises + 1);
    if counted.raises >= cfg.alertsRequired && Orphan(counted) then Repair(counted) else counted
  }

  function Emit(cfg: Config, storage: bool, st: NameState, alert: Context, now: int): (NameState, Option<Note>) {
    var p := Primed(cfg, st);
    if st.raises + 1 < cfg.alertsRequired then (p, None) else Decide(cfg, storage, p, alert, now)
  }

  /** A debounced alert is sent unless it cools down; an escalation, or a downgrade of the storage alert, never does. */
  function Decide(cfg: Config, storage: bool, p: NameState, alert: Context, now: int): (NameState, Option<Note>) {
    if !Escalates(p, alert.severity) && !Downgrades(storage, p, alert.severity)
      && CoolingDown(cfg, storage, p, now) then
      (if p.active.Some? then p.(occurrences := Some(OrZero(p.occurrences) + 1)) else p, None)
    else Notify(cfg, storage, p, alert, now)
  }

  function Notify(cfg: Config, storage: bool, p: NameState, alert: Context, now: int): (NameState, Option<Note>) {
    var since := if p.active.Some? then p.active.value else now;
    var occurrence := OrZero(p.occurrences) + 1;
    var flapping := p.resolvedAt.Some? && now - p.resolvedAt.value < cfg.flappingWindow;
    var flaps := if flapping then p.flaps + 1 else p.flaps;
    (p.(active := Some(since), context := Some(alert), lastSent := Some(now), flaps := flaps,
        occurrences := Some(occurrence)),
     Some(Sent(alert.severity, occurrence, since,
               if Escalates(p, alert.severity) then Some(PreviousSeverity(p)) else None,
               if Downgrades(storage, p, alert.severity) then Some(PreviousSeverity(p)) else None,
               if flapping && !Escalates(p, alert.severity) then Some(flaps) else None, now)))
  }

  /** `_emit_resolutions` for one name: `present` says that the name is among the active keys of this cycle. */
  function Sweep(cfg: Config, storage: bool, st: NameState, present: bool, hold: bool,
                 now: int): (NameState, Option<Note>) {
    if st.active.None? then (if present then st else st.(raises := 0), None)
    else if present then (st.(absences := 0), None)
    else if !Deliverable(st.context) then (Repair(st), None)
    else if storage && hold then (st.(absences := 0), None)
    else if st.absences + 1 < cfg.resolutionsRequired then (st.(absences := st.absences + 1), None)
    else
      (st.(raises := 0, absences := 0, active := None, context := None, occurrences := None, resolvedAt := Some(now)),
       Some(Resolved(st.context.value, st.active.value, st.occurrences, now)))
  }

  // ---- Runs ----

  datatype Event =
    | Raise(alert: Context, at: int)
    | EndCycle(present: bool, hold: bool, at: int)

  predicate ProperAlert(alert: Context) {
    Deliverable(Some(alert))
  }

  predicate ProperEvents(events: seq<Event>) {
    forall i | 0 <= i < |events| && events[i].Raise? :: ProperAlert(events[i].alert)
  }

  function Apply(cfg: Config, storage: bool, st: NameState, e: Event): (NameState, Option<Note>) {
    match e
    case Raise(alert, at) => Emit(cfg, storage, st, alert, at)
    case EndCycle(present, hold, at) => Sweep(cfg, storage, st, present, hold, at)
  }

  function After(cfg: Config, storage: bool, st: NameState, events: seq<Event>): NameState {
    if events == [] then st
    else Apply(cfg, storage, After(cfg, storage, st, events[..|events| - 1]), events[|events| - 1]).0
  }

  function Notes(cfg: Config, storage: bool, st: NameState, events: seq<Event>): seq<Note> {
    if events == [] then []
    else
      var front := events[..|events| - 1];
      Notes(cfg, storage, st, front)
      + Optional(Apply(cfg, storage, After(cfg, storage, st, front), events[|events| - 1]).1)
  }

  function Optional<T>(x: Option<T>): seq<T> {
    if x.Some? then [x.value] else []
  }

  lemma {:induction false} RunsConcatenate(cfg: Config, storage: bool, st: NameState, a: seq<Event>, b: seq<Event>)
    ensures After(cfg, storage, st, a + b) == After(cfg, storage, After(cfg, storage, st, a), b)
    ensures Notes(cfg, storage, st, a + b)
            == Notes(cfg, storage, st, a) + Notes(cfg, storage, After(cfg, storage, st, a), b)
    decreases |b|
  {
    hide Apply;
    if b == [] {
      assert a + b == a;
    } else {
      assert (a + b)[..|a + b| - 1] == a + b[..|b| - 1];
      RunsConcatenate(cfg, storage, st, a, b[..|b| - 1]);
    }
  }

  // ---- Lifecycle ----

  /** What holds of a name on every run from an empty state. */
  predicate Healthy(cfg: Config, st: NameState) {
    && (st.active.Some? <==> st.context.Some?)
    && (st.active.Some? ==> Deliverable(st.context) && st.lastSent.Some? && st.raises >= cfg.alertsRequired)
    && (st.active.Some? <==> st.occurrences.Some?)
    && st.raises >= 0
    && 0 <= st.absences < cfg.resolutionsRequired
  }

  lemma StepKeepsHealthy(cfg: Config, storage: bool, st: NameState, e: Event)
    requires Sound(cfg) && Healthy(cfg, st) && (e.Raise? ==> ProperAlert(e.alert))
    ensures Healthy(cfg, Apply(cfg, storage, st, e).0)
  {
  }

  lemma {:induction false} RunKeepsHealthy(cfg: Config, storage: bool, events: seq<Event>)
    requires Sound(cfg) && ProperEvents(events)
    ensures Healthy(cfg, After(cfg, storage, EMPTY, events))
  {
    if events != [] {
      var front := events[..|events| - 1];
      RunKeepsHealthy(cfg, storage, front);
      StepKeepsHealthy(cfg, storage, After(cfg, storage, EMPTY, front), events[|events| - 1]);
    }
  }

  /** Alerts and recoveries alternate as (alert+ resolved)*, and the name is active while its last note is an alert. */
  predicate Alternates(notes: seq<Note>) {
    forall i | 0 <= i < |notes| && notes[i].Resolved? :: i > 0 && notes[i - 1].Sent?
  }

  /** How one step's note moves the name between inactive and active. */
  lemma NoteMovesActivity(cfg: Config, storage: bool, st: NameState, e: Event)
    requires Sound(cfg) && Healthy(cfg, st)
    ensures var (st', note) := Apply(cfg, storage, st, e);
            && (note.None? ==> (st'.active.Some? <==> st.active.Some?))
            && (note.Some? && note.value.Sent? ==> st'.active.Some?)
            && (note.Some? && note.value.Resolved? ==> st.active.Some? && st'.active.None?)
  {
  }

  predicate EndsWithAlert(notes: seq<Note>) {
    notes != [] && notes[|notes| - 1].Sent?
  }

  lemma AlternationGrows(notes: seq<Note>, note: Option<Note>)
    requires Alternates(notes) && (note.Some? && note.value.Resolved? ==> EndsWithAlert(notes))
    ensures Alternates(notes + Optional(note))
    ensures EndsWithAlert(notes + Optional(note)) == if note.Some? then note.value.Sent? else EndsWithAlert(notes)
  {
    var grown := notes + Optional(note);
    if note.None? {
      assert grown == notes;
    }
  }

  lemma {:induction false} NotesAlternate(cfg: Config, storage: bool, events: seq<Event>)
    requires Sound(cfg) && ProperEvents(events)
    ensures var (st, notes) := (After(cfg, storage, EMPTY, events), Notes(cfg, storage, EMPTY, events));
            && Alternates(notes)
            && (st.active.Some? <==> EndsWithAlert(notes))
            && (st.active.Some? <==> st.context.Some?) && (st.active.Some? ==> Deliverable(st.context))
  {
    hide Apply, Deliverable, Alternates, EndsWithAlert, Optional;
    RunKeepsHealthy(cfg, storage, events);
    if events != [] {
      var front, e := events[..|events| - 1], events[|events| - 1];
      NotesAlternate(cfg, storage, front);
      RunKeepsHealthy(cfg, storage, front);
      NoteMovesActivity(cfg, storage, After(cfg, storage, EMPTY, front), e);
      AlternationGrows(Notes(cfg, storage, EMPTY, front), Apply(cfg, storage, After(cfg, storage, EMPTY, front), e).1);
    } else {
      NothingAlternates();
    }
  }

  lemma NothingAlternates()
    ensures Alternates([]) && !EndsWithAlert([])
  {
  }

  /** How many cycles have ended, up to now and without a raise in between, with the name absent and not held. */
  function AbsentStreak(storage: bool, events: seq<Event>): nat {
    if events == [] then 0
    else match events[|events| - 1]
      case EndCycle(present, hold, _) =>
        if present || (storage && hold) then 0 else 1 + AbsentStreak(storage, events[..|events| - 1])
      case Raise(_, _) => 0
  }

  lemma {:induction false} AbsencesAreTheStreak(cfg: Config, storage: bool, events: seq<Event>)
    requires Sound(cfg) && ProperEvents(events)
    ensures var st := After(cfg, storage, EMPTY, events);
            st.active.Some? ==> st.absences == AbsentStreak(storage, events)
  {
    if events != [] {
      var front := events[..|events| - 1];
      AbsencesAreTheStreak(cfg, storage, front);
      RunKeepsHealthy(cfg, storage, front);
    }
  }

  /** A recovery is sent just when an active name has been absent for the required number of consecutive cycles, no
      sooner and no later. */
  lemma RecoveryIsExact(cfg: Config, storage: bool, events: seq<Event>, e: Event)
    requires Sound(cfg) && ProperEvents(events + [e])
    ensures var st := After(cfg, storage, EMPTY, events);
            var note := Apply(cfg, storage, st, e).1;
            (note.Some? && note.value.Resolved?)
            <==> e.EndCycle? && st.active.Some? && AbsentStreak(storage, events + [e]) == cfg.resolutionsRequired
  {
    assert ProperEvents(events) by {
      assert forall i | 0 <= i < |events| :: (events + [e])[i] == events[i];
    }
    assert (events + [e])[..|events|] == events;
    RunKeepsHealthy(cfg, storage, events);
    AbsencesAreTheStreak(cfg, storage, events);
  }

  function CountRaises(events: seq<Event>): int {
    if events == [] then 0
    else CountRaises(events[..|events| - 1]) + if events[|events| - 1].Raise? then 1 else 0
  }

  /** Event `i` opens the incident that is still open at the end. */
  ghost predicate Opens(cfg: Config, storage: bool, events: seq<Event>, i: nat) {
    && i < |events|
    && After(cfg, storage, EMPTY, events[..i]).active.None?
    && forall j | i < j <= |events| :: After(cfg, storage, EMPTY, events[..j]).active.Some?
  }

  lemma OpensPrefix(cfg: Config, storage: bool, events: seq<Event>, i: nat)
    requires Opens(cfg, storage, events, i) && i < |events| - 1
    ensures Opens(cfg, storage, events[..|events| - 1], i)
  {
    var front := events[..|events| - 1];
    assert front[..i] == events[..i];
    forall j | i < j <= |front| ensures After(cfg, storage, EMPTY, front[..j]).active.Some? {
      assert front[..j] == events[..j];
    }
  }

  /** An incident opens with a first occurrence, and each raise while it is open counts one more. */
  lemma StepCountsOccurrence(cfg: Config, storage: bool, st: NameState, e: Event)
    requires Sound(cfg) && Healthy(cfg, st) && (e.Raise? ==> ProperAlert(e.alert))
    requires Apply(cfg, storage, st, e).0.active.Some?
    ensures st.active.None? ==> e.Raise?
    ensures var before := if st.active.Some? then OrZero(st.occurrences) else 0;
            Apply(cfg, storage, st, e).0.occurrences == Some(before + if e.Raise? then 1 else 0)
  {
  }

  /** While an incident is open its occurrence count is the number of raises since the opening one, that included. */
  lemma {:induction false} OccurrencesCountRaises(cfg: Config, storage: bool, events: seq<Event>, i: nat)
    requires Sound(cfg) && ProperEvents(events) && Opens(cfg, storage, events, i)
    ensures After(cfg, storage, EMPTY, events).occurrences == Some(CountRaises(events[i..]))
  {
    hide Apply, Healthy, Deliverable;
    var front, e := events[..|events| - 1], events[|events| - 1];
    RunKeepsHealthy(cfg, storage, front);
    assert events[i..][..|events| - 1 - i] == front[i..] && events[i..][|events| - 1 - i] == e;
    assert events[..|events|] == events;
    assert After(cfg, storage, EMPTY, events[..|events|]).active.Some?;
    StepCountsOccurrence(cfg, storage, After(cfg, storage, EMPTY, front), e);
    if i < |events| - 1 {
      OpensPrefix(cfg, storage, events, i);
      OccurrencesCountRaises(cfg, storage, front, i);
      assert events[..|events| - 1] == front;
    } else {
      assert front[i..] == [];
    }
  }

  /** Every open incident has an opening event. */
  lemma {:induction false} OpeningExists(cfg: Config, storage: bool, events: seq<Event>) returns (i: nat)
    requires After(cfg, storage, EMPTY, events).active.Some?
    ensures Opens(cfg, storage, events, i)
  {
    var front := events[..|events| - 1];
    assert events[..|events|] == events;
    if After(cfg, storage, EMPTY, front).active.Some? {
      i := OpeningExists(cfg, storage, front);
      assert events[..i] == front[..i];
      forall j | i < j <= |events| ensures After(cfg, storage, EMPTY, events[..j]).active.Some? {
        if j < |events| {
          assert events[..j] == front[..j];
        }
      }
    } else {
      i := |events| - 1;
    }
  }

  /** A recovery reports as many occurrences as there were raises since the incident opened. */
  lemma ResolvedReportsRaises(cfg: Config, storage: bool, events: seq<Event>, e: Event)
    requires Sound(cfg) && ProperEvents(events + [e])
    requires var note := Apply(cfg, storage, After(cfg, storage, EMPTY, events), e).1;
             note.Some? && note.value.Resolved?
    ensures exists i: nat :: Opens(cfg, storage, events, i) &&
              Apply(cfg, storage, After(cfg, storage, EMPTY, events), e).1.value.total == Some(CountRaises(events[i..]))
  {
    assert ProperEvents(events) by {
      assert forall i | 0 <= i < |events| :: (events + [e])[i] == events[i];
    }
    var i := OpeningExists(cfg, storage, events);
    OccurrencesCountRaises(cfg, storage, events, i);
  }

  // ---- How often one name may notify ----

  function AlertCount(notes: seq<Note>): nat {
    if notes == [] then 0
    else AlertCount(notes[..|notes| - 1]) + if notes[|notes| - 1].Sent? then 1 else 0
  }

  function At(e: Event): int {
    e.at
  }

  predicate InOrder(events: seq<Event>) {
    forall i, j | 0 <= i < j < |events| :: At(events[i]) <= At(events[j])
  }

  function CooldownOf(cfg: Config, storage: bool): int {
    if storage then cfg.storageCooldown else cfg.cooldown
  }

  /** A notification that had to wait out the cooldown: neither escalation nor downgrade. */
  predicate IsUnforced(note: Option<Note>) {
    note.Some? && note.value.Sent? && note.value.escalatedFrom.None? && note.value.deescalatedFrom.None?
  }

  /** How many such notifications a run sends. */
  function Unforced(cfg: Config, storage: bool, st: NameState, events: seq<Event>): nat {
    if events == [] then 0
    else
      var front, e := events[..|events| - 1], events[|events| - 1];
      Unforced(cfg, storage, st, front)
      + if IsUnforced(Apply(cfg, storage, After(cfg, storage, st, front), e).1) then 1 else 0
  }

  predicate IsDowngrade(note: Note) {
    note.Sent? && note.deescalatedFrom.Some?
  }

  function DowngradeCount(notes: seq<Note>): nat {
    if notes == [] then 0
    else DowngradeCount(notes[..|notes| - 1]) + if IsDowngrade(notes[|notes| - 1]) then 1 else 0
  }

  function ContextRank(st: NameState): int {
    if st.context.Some? then Rank(st.context.value.severity) else 3
  }

  lemma CountAppended(notes: seq<Note>, note: Option<Note>)
    ensures AlertCount(notes + Optional(note)) == AlertCount(notes) + if note.Some? && note.value.Sent? then 1 else 0
    ensures DowngradeCount(notes + Optional(note))
            == DowngradeCount(notes) + if note.Some? && IsDowngrade(note.value) then 1 else 0
  {
    if note.Some? {
      assert (notes + [note.value])[..|notes|] == notes;
    } else {
      assert notes + [] == notes;
    }
  }

  /** One step's share in the budgets: a notification that is neither escalation nor downgrade comes a full cooldown
      after the one before; an escalation climbs at least one of three ranks; only the storage alert is ever
      downgraded. */
  lemma StepBudget(cfg: Config, storage: bool, st: NameState, e: Event)
    requires Sound(cfg) && Healthy(cfg, st) && (e.Raise? ==> ProperAlert(e.alert))
    ensures var (st', note) := Apply(cfg, storage, st, e);
            if note.Some? && note.value.Sent? then
              && st'.lastSent == Some(At(e)) && 1 <= ContextRank(st') <= 3
              && (note.value.escalatedFrom.Some? ==>
                    note.value.deescalatedFrom.None? && st.context.Some? && ContextRank(st') > ContextRank(st))
              && (note.value.deescalatedFrom.Some? ==> storage)
              && (IsUnforced(note) && st.lastSent.Some? ==> st.lastSent.value + CooldownOf(cfg, storage) <= At(e))
            else
              st'.lastSent == st.lastSent && ContextRank(st') >= ContextRank(st)
  {
  }

  lemma {:induction false} EscalationsAreFew(cfg: Config, storage: bool, events: seq<Event>)
    requires Sound(cfg) && ProperEvents(events)
    ensures var (st, notes) := (After(cfg, storage, EMPTY, events), Notes(cfg, storage, EMPTY, events));
            && AlertCount(notes)
               <= 3 * (Unforced(cfg, storage, EMPTY, events) + DowngradeCount(notes)) - (3 - ContextRank(st))
            && ContextRank(st) <= 3
            && (!storage ==> DowngradeCount(notes) == 0)
  {
    hide Apply;
    if events != [] {
      var front, e := events[..|events| - 1], events[|events| - 1];
      EscalationsAreFew(cfg, storage, front);
      RunKeepsHealthy(cfg, storage, front);
      var st := After(cfg, storage, EMPTY, front);
      StepBudget(cfg, storage, st, e);
      CountAppended(Notes(cfg, storage, EMPTY, front), Apply(cfg, storage, st, e).1);
    }
  }

  lemma {:induction false} UnforcedAreSpaced(cfg: Config, storage: bool, events: seq<Event>)
    requires Sound(cfg) && CooldownOf(cfg, storage) > 0 && ProperEvents(events) && InOrder(events)
    ensures var (st, n) := (After(cfg, storage, EMPTY, events), Unforced(cfg, storage, EMPTY, events));
            && (st.lastSent.Some? ==> events != [] && st.lastSent.value <= At(events[|events| - 1]))
            && (n > 0 ==> st.lastSent.Some?
                          && (n - 1) * CooldownOf(cfg, storage) <= st.lastSent.value - At(events[0]))
  {
    hide Apply, ContextRank, Healthy, CooldownOf;
    if events != [] {
      var front, e := events[..|events| - 1], events[|events| - 1];
      UnforcedAreSpaced(cfg, storage, front);
      RunKeepsHealthy(cfg, storage, front);
      StepBudget(cfg, storage, After(cfg, storage, EMPTY, front), e);
      var n := Unforced(cfg, storage, EMPTY, front);
      assert n * CooldownOf(cfg, storage) == (n - 1) * CooldownOf(cfg, storage) + CooldownOf(cfg, storage);
      assert front != [] ==> front[0] == events[0] && front[|front| - 1] == events[|events| - 2];
      assert At(events[0]) <= At(e) && (front != [] ==> At(events[|events| - 2]) <= At(e));
    }
  }

  /** The severity of the latest raise. */
  function LastRaised(events: seq<Event>): Option<string> {
    if events == [] then None
    else if events[|events| - 1].Raise? then Some(events[|events| - 1].alert.severity)
    else LastRaised(events[..|events| - 1])
  }

  /** How many raises are less severe than the raise before them. */
  function Falls(events: seq<Event>): nat {
    if events == [] then 0
    else
      var front, e := events[..|events| - 1], events[|events| - 1];
      Falls(front)
      + if e.Raise? && LastRaised(front).Some? && Rank(e.alert.severity) < Rank(LastRaised(front).value) then 1 else 0
  }

  /** The context of an active storage alert is as severe as its latest raise, since no change of rank waits. */
  lemma StepFollowsRank(cfg: Config, st: NameState, e: Event, last: Option<string>)
    requires Sound(cfg) && Healthy(cfg, st) && (e.Raise? ==> ProperAlert(e.alert))
    requires st.context.Some? ==> last.Some? && Rank(st.context.value.severity) == Rank(last.value)
    ensures var (st', note) := Apply(cfg, true, st, e);
            var last' := if e.Raise? then Some(e.alert.severity) else last;
            && (st'.context.Some? ==> last'.Some? && Rank(st'.context.value.severity) == Rank(last'.value))
            && (note.Some? && IsDowngrade(note.value) ==>
                  e.Raise? && last.Some? && Rank(e.alert.severity) < Rank(last.value))
  {
  }

  lemma {:induction false} DowngradesAreFalls(cfg: Config, events: seq<Event>)
    requires Sound(cfg) && ProperEvents(events)
    ensures DowngradeCount(Notes(cfg, true, EMPTY, events)) <= Falls(events)
    ensures var st := After(cfg, true, EMPTY, events);
            st.context.Some? ==>
              LastRaised(events).Some? && Rank(st.context.value.severity) == Rank(LastRaised(events).value)
  {
    hide Apply, Healthy;
    if events != [] {
      var front, e := events[..|events| - 1], events[|events| - 1];
      DowngradesAreFalls(cfg, front);
      RunKeepsHealthy(cfg, true, front);
      var st := After(cfg, true, EMPTY, front);
      StepFollowsRank(cfg, st, e, LastRaised(front));
      CountAppended(Notes(cfg, true, EMPTY, front), Apply(cfg, true, st, e).1);
    }
  }

  /** Over a span of `span` ticks every name sends at most 3 * (span / cooldown + 1 + downgrades) alerts; only the
      storage alert has downgrades, at most one per raise that is less severe than the raise before it, so every other
      name, and a storage alert whose raises never fall, stays within 3 * (span / cooldown + 1). */
  lemma NotificationBound(cfg: Config, storage: bool, events: seq<Event>, span: nat)
    requires Sound(cfg) && CooldownOf(cfg, storage) > 0 && ProperEvents(events) && InOrder(events)
    requires events != [] ==> At(events[|events| - 1]) - At(events[0]) <= span
    ensures var notes := Notes(cfg, storage, EMPTY, events);
            && AlertCount(notes) <= 3 * (span / CooldownOf(cfg, storage) + 1 + DowngradeCount(notes))
            && (!storage ==> DowngradeCount(notes) == 0)
            && DowngradeCount(notes) <= Falls(events)
  {
    hide After, Notes, Falls, Unforced, AlertCount, DowngradeCount, ContextRank, CooldownOf;
    EscalationsAreFew(cfg, storage, events);
    UnforcedAreSpaced(cfg, storage, events);
    if storage {
      DowngradesAreFalls(cfg, events);
    }
    var n := Unforced(cfg, storage, EMPTY, events);
    if n > 0 {
      FloorReaches(span, CooldownOf(cfg, storage), n - 1);
    }
  }
}
