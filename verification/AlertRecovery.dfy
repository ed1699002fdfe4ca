/** More on one alert name: how tight the notification bound is, and how the engine gets out of damaged state. */
module AlertRecovery {
  import opened Numerals
  import opened AlertEngine

  function Alarm(severity: string): Context {
    Context(severity, "summary", Some("details"))
  }

  /** The state after an alarm of this severity was sent at this time. */
  predicate Alarmed(cfg: Config, st: NameState, severity: string, sentAt: int) {
    && Rank(severity) > 0 && st.active.Some? && st.raises >= cfg.alertsRequired
    && st.context == Some(Alarm(severity)) && st.lastSent == Some(sentAt)
  }

  /** Raises that only count up to the debounce threshold. */
  function Warm(k: nat, at: int): (events: seq<Event>)
    ensures |events| == k && forall i | 0 <= i < k :: events[i] == Raise(Alarm("info"), at)
  {
    if k == 0 then [] else Warm(k - 1, at) + [Raise(Alarm("info"), at)]
  }

  lemma {:induction false} WarmingUp(cfg: Config, storage: bool, k: nat, at: int)
    requires k < cfg.alertsRequired
    ensures After(cfg, storage, EMPTY, Warm(k, at)) == EMPTY.(raises := k)
            && Notes(cfg, storage, EMPTY, Warm(k, at)) == []
  {
    if k > 0 {
      WarmingUp(cfg, storage, k - 1, at);
      assert Warm(k, at)[..k - 1] == Warm(k - 1, at);
    }
  }

  /** The first alarm past the debounce is sent, and so is one after the cooldown or one that skips it: a higher
      severity, or any other for the storage alert. */
  lemma AlarmIsSent(cfg: Config, storage: bool, st: NameState, previous: string, sentAt: int, severity: string, at: int)
    requires Sound(cfg) && Rank(severity) > 0
    requires st == EMPTY.(raises := cfg.alertsRequired - 1) || (Alarmed(cfg, st, previous, sentAt) &&
               (Rank(severity) > Rank(previous) || (storage && Rank(severity) < Rank(previous))
                || at - sentAt >= CooldownOf(cfg, storage)))
    ensures var (st', note) := Apply(cfg, storage, st, Raise(Alarm(severity), at));
            note.Some? && note.value.Sent? && Alarmed(cfg, st', severity, at)
  {
  }

  lemma AlarmRanks()
    ensures Rank("info") == 1 && Rank("warning") == 2 && Rank("critical") == 3
  {
  }

  lemma Appended(cfg: Config, storage: bool, events: seq<Event>, e: Event)
    ensures var (st', note) := Apply(cfg, storage, After(cfg, storage, EMPTY, events), e);
            && After(cfg, storage, EMPTY, events + [e]) == st'
            && AlertCount(Notes(cfg, storage, EMPTY, events + [e]))
               == AlertCount(Notes(cfg, storage, EMPTY, events)) + if note.Some? && note.value.Sent? then 1 else 0
  {
    hide Apply, After;
    assert (events + [e])[..|events|] == events;
    AppendedAfter(cfg, storage, events, e);
    CountAppended(Notes(cfg, storage, EMPTY, events), Apply(cfg, storage, After(cfg, storage, EMPTY, events), e).1);
  }

  lemma AppendedAfter(cfg: Config, storage: bool, events: seq<Event>, e: Event)
    ensures After(cfg, storage, EMPTY, events + [e]) == Apply(cfg, storage, After(cfg, storage, EMPTY, events), e).0
  {
    hide Apply;
    assert (events + [e])[..|events|] == events;
  }

  // ---- The bound is met at every span ----

  function Climb(at: int): seq<Event> {
    [Raise(Alarm("info"), at), Raise(Alarm("warning"), at), Raise(Alarm("critical"), at)]
  }

  /** After the debounce, a climb through all severities at the start and after each of `n` cooldowns. */
  function Climbs(cfg: Config, n: nat, at: int): seq<Event>
    requires cfg.alertsRequired > 0
  {
    (if n == 0 then Warm(cfg.alertsRequired - 1, at) else Climbs(cfg, n - 1, at)) + Climb(at + n * cfg.cooldown)
  }

  lemma {:induction false} ClimbsAreInOrder(cfg: Config, n: nat, at: int)
    requires cfg.alertsRequired > 0 && cfg.cooldown > 0
    ensures var events := Climbs(cfg, n, at);
            && events != [] && At(events[0]) == at && At(events[|events| - 1]) == at + n * cfg.cooldown
            && ProperEvents(events) && InOrder(events)
  {
    hide ProperEvents, InOrder, Climb, ProperAlert;
    ClimbIsProper(at + n * cfg.cooldown);
    if n > 0 {
      ClimbsAreInOrder(cfg, n - 1, at);
      NextPeriod(n, cfg.cooldown);
      LaterStaysInOrder(Climbs(cfg, n - 1, at), Climb(at + n * cfg.cooldown), at + n * cfg.cooldown);
    } else {
      WarmIsProper(cfg.alertsRequired - 1, at);
      LaterStaysInOrder(Warm(cfg.alertsRequired - 1, at), Climb(at), at);
    }
  }

  lemma NextPeriod(n: nat, period: int)
    requires n > 0
    ensures n * period == (n - 1) * period + period
  {
  }

  lemma ClimbIsProper(at: int)
    ensures |Climb(at)| == 3
    ensures forall e | e in Climb(at) :: At(e) == at && e.Raise? && ProperAlert(e.alert)
  {
    AlarmRanks();
  }

  lemma WarmIsProper(k: nat, at: int)
    ensures ProperEvents(Warm(k, at)) && InOrder(Warm(k, at))
  {
    hide Warm;
    AlarmRanks();
  }

  /** Proper events at one time may follow proper events up to that time. */
  lemma LaterStaysInOrder(events: seq<Event>, more: seq<Event>, at: int)
    requires ProperEvents(events) && InOrder(events) && (events != [] ==> At(events[|events| - 1]) <= at)
    requires forall i | 0 <= i < |more| :: At(more[i]) == at && (more[i].Raise? ==> ProperAlert(more[i].alert))
    ensures ProperEvents(events + more) && InOrder(events + more)
  {
    hide Deliverable;
    var all := events + more;
    forall i | 0 <= i < |all| && all[i].Raise? ensures ProperAlert(all[i].alert) {
      if i >= |events| {
        assert all[i] == more[i - |events|];
      }
    }
    forall i, j | 0 <= i < j < |all| ensures At(all[i]) <= At(all[j]) {
      if j >= |events| {
        assert all[j] == more[j - |events|];
        assert i >= |events| ==> all[i] == more[i - |events|];
        assert i < |events| ==> At(events[i]) <= At(events[|events| - 1]);
      }
    }
  }

  /** A climb sends three alerts, from the end of the debounce or once the cooldown has passed. */
  lemma ClimbSends(cfg: Config, events: seq<Event>, previous: string, sentAt: int, at: int)
    requires Sound(cfg)
    requires var st := After(cfg, false, EMPTY, events);
             || st == EMPTY.(raises := cfg.alertsRequired - 1)
             || (Alarmed(cfg, st, previous, sentAt) && at - sentAt >= cfg.cooldown)
    ensures AlertCount(Notes(cfg, false, EMPTY, events + Climb(at))) == AlertCount(Notes(cfg, false, EMPTY, events)) + 3
    ensures Alarmed(cfg, After(cfg, false, EMPTY, events + Climb(at)), "critical", at)
  {
    hide Apply, Alarmed, Rank, Notes, After;
    AlarmRanks();
    var e1, e2, e3 := Raise(Alarm("info"), at), Raise(Alarm("warning"), at), Raise(Alarm("critical"), at);
    assert events + Climb(at) == events + [e1] + [e2] + [e3];
    Appended(cfg, false, events, e1);
    Appended(cfg, false, events + [e1], e2);
    Appended(cfg, false, events + [e1] + [e2], e3);
    AlarmIsSent(cfg, false, After(cfg, false, EMPTY, events), previous, sentAt, "info", at);
    AlarmIsSent(cfg, false, After(cfg, false, EMPTY, events + [e1]), "info", at, "warning", at);
    AlarmIsSent(cfg, false, After(cfg, false, EMPTY, events + [e1] + [e2]), "warning", at, "critical", at);
  }

  lemma {:induction false} ClimbsSend(cfg: Config, n: nat, at: int)
    requires Sound(cfg)
    ensures AlertCount(Notes(cfg, false, EMPTY, Climbs(cfg, n, at))) == 3 * (n + 1)
    ensures Alarmed(cfg, After(cfg, false, EMPTY, Climbs(cfg, n, at)), "critical", at + n * cfg.cooldown)
  {
    hide Alarmed, Notes, After, Rank, Climb, AlertCount, Warm;
    if n == 0 {
      WarmingUp(cfg, false, cfg.alertsRequired - 1, at);
      ClimbSends(cfg, Warm(cfg.alertsRequired - 1, at), "", 0, at);
      NothingCounted();
    } else {
      ClimbsSend(cfg, n - 1, at);
      NextPeriod(n, cfg.cooldown);
      ClimbSends(cfg, Climbs(cfg, n - 1, at), "critical", at + (n - 1) * cfg.cooldown, at + n * cfg.cooldown);
    }
  }

  lemma NothingCounted()
    ensures AlertCount([]) == 0
  {
  }

  /** The bound is met at every span of whole cooldowns, for every debounce: a proper run that lasts `n` cooldowns and
      sends 3 * (n + 1) alerts. */
  lemma BoundIsReached(cfg: Config, n: nat, at: int)
    requires Sound(cfg) && cfg.cooldown > 0
    ensures var events := Climbs(cfg, n, at);
            && ProperEvents(events) && InOrder(events) && events != []
            && At(events[|events| - 1]) - At(events[0]) == n * cfg.cooldown
            && n * cfg.cooldown / cfg.cooldown == n
            && AlertCount(Notes(cfg, false, EMPTY, events)) == 3 * (n + 1)
  {
    hide Alarmed, Notes, After, Climbs;
    ClimbsAreInOrder(cfg, n, at);
    ClimbsSend(cfg, n, at);
    FloorReaches(n * cfg.cooldown, cfg.cooldown, n);
    FloorReaches(n * cfg.cooldown, cfg.cooldown, n + 1);
  }

  // ---- The storage alert exceeds it by its downgrades ----

  function SeesawSeverity(n: nat): string {
    if n % 2 == 1 then "warning" else "critical"
  }

  /** After the debounce, `n` raises of alternating severity, all at one time. */
  function Seesaw(cfg: Config, n: nat, at: int): (events: seq<Event>)
    requires cfg.alertsRequired > 0
  {
    if n == 0 then Warm(cfg.alertsRequired - 1, at)
    else Seesaw(cfg, n - 1, at) + [Raise(Alarm(SeesawSeverity(n)), at)]
  }

  lemma {:induction false} SeesawIsProper(cfg: Config, n: nat, at: int)
    requires cfg.alertsRequired > 0
    ensures var events := Seesaw(cfg, n, at);
            ProperEvents(events) && InOrder(events) && forall i | 0 <= i < |events| :: At(events[i]) == at
  {
    AlarmRanks();
    if n > 0 {
      SeesawIsProper(cfg, n - 1, at);
      LaterStaysInOrder(Seesaw(cfg, n - 1, at), [Raise(Alarm(SeesawSeverity(n)), at)], at);
    }
  }

  lemma {:induction false} SeesawSends(cfg: Config, n: nat, at: int)
    requires Sound(cfg)
    ensures AlertCount(Notes(cfg, true, EMPTY, Seesaw(cfg, n, at))) == n
    ensures var st := After(cfg, true, EMPTY, Seesaw(cfg, n, at));
            if n == 0 then st == EMPTY.(raises := cfg.alertsRequired - 1) else Alarmed(cfg, st, SeesawSeverity(n), at)
  {
    hide Apply, Alarmed, Rank, Deliverable, Notes, After;
    AlarmRanks();
    if n == 0 {
      WarmingUp(cfg, true, cfg.alertsRequired - 1, at);
    } else {
      SeesawSends(cfg, n - 1, at);
      var front := Seesaw(cfg, n - 1, at);
      AlarmIsSent(cfg, true, After(cfg, true, EMPTY, front), SeesawSeverity(n - 1), at, SeesawSeverity(n), at);
      Appended(cfg, true, front, Raise(Alarm(SeesawSeverity(n)), at));
    }
  }

  /** Downgrades of the storage alert skip the cooldown, so for every debounce and every `n` there is a proper run that
      sends `n` alerts at one time. */
  lemma StorageAlertIsUnbounded(cfg: Config, n: nat, at: int)
    requires Sound(cfg)
    ensures var events := Seesaw(cfg, n, at);
            && ProperEvents(events) && InOrder(events) && (forall i | 0 <= i < |events| :: At(events[i]) == at)
            && AlertCount(Notes(cfg, true, EMPTY, events)) == n
  {
    hide Alarmed, Notes, After, Seesaw;
    SeesawIsProper(cfg, n, at);
    SeesawSends(cfg, n, at);
  }

  // ---- Self-stabilisation ----

  /** One monitor cycle outside maintenance: the raises of this name, then the resolution pass. */
  datatype Cycle = Cycle(alerts: seq<Context>, hold: bool, at: int)

  predicate ProperCycle(c: Cycle) {
    forall i | 0 <= i < |c.alerts| :: ProperAlert(c.alerts[i])
  }

  function Raises(alerts: seq<Context>, at: int): (r: seq<Event>)
    ensures |r| == |alerts|
  {
    seq(|alerts|, i requires 0 <= i < |alerts| => Raise(alerts[i], at))
  }

  function EventsOf(c: Cycle): seq<Event> {
    Raises(c.alerts, c.at) + [EndCycle(c.alerts != [], c.hold, c.at)]
  }

  function AfterCycles(cfg: Config, storage: bool, st: NameState, cycles: seq<Cycle>): NameState {
    if cycles == [] then st
    else After(cfg, storage, AfterCycles(cfg, storage, st, cycles[..|cycles| - 1]), EventsOf(cycles[|cycles| - 1]))
  }

  predicate NoRecovery(notes: seq<Note>) {
    forall i | 0 <= i < |notes| :: notes[i].Sent?
  }

  lemma RaiseMends(cfg: Config, storage: bool, st: NameState, alert: Context, at: int)
    requires ProperAlert(alert)
    ensures var (st', note) := Apply(cfg, storage, st, Raise(alert, at));
            && (Orphan(st') ==> Orphan(st) && st'.raises == st.raises + 1 < cfg.alertsRequired)
            && (note.Some? ==> note.value.Sent?)
  {
  }

  lemma EndMends(cfg: Config, storage: bool, st: NameState, present: bool, hold: bool, at: int)
    ensures var (st', note) := Apply(cfg, storage, st, EndCycle(present, hold, at));
            && (Orphan(st') ==> Orphan(st) && present && st'.raises == st.raises)
            && (Orphan(st) ==> note.None?) && (present ==> note.None?)
  {
  }

  /** Raises on an orphan count up to the debounce threshold and then mend it; they never send a recovery. */
  lemma {:induction false} RaisesMend(cfg: Config, storage: bool, st: NameState, alerts: seq<Context>, at: int)
    requires forall i | 0 <= i < |alerts| :: ProperAlert(alerts[i])
    ensures var st' := After(cfg, storage, st, Raises(alerts, at));
            && (Orphan(st') ==> Orphan(st) && st'.raises == st.raises + |alerts|
                                && (alerts == [] || st'.raises < cfg.alertsRequired))
            && NoRecovery(Notes(cfg, storage, st, Raises(alerts, at)))
  {
    hide Apply, Orphan;
    if alerts != [] {
      var front := alerts[..|alerts| - 1];
      RaisesMend(cfg, storage, st, front, at);
      assert Raises(alerts, at)[..|front|] == Raises(front, at);
      RaiseMends(cfg, storage, After(cfg, storage, st, Raises(front, at)), alerts[|alerts| - 1], at);
    }
  }

  /** One cycle from damaged state sends no recovery, and leaves it damaged only if it raised the alert without
      reaching the debounce threshold. */
  lemma CycleMends(cfg: Config, storage: bool, st: NameState, c: Cycle)
    requires ProperCycle(c)
    ensures var st' := After(cfg, storage, st, EventsOf(c));
            Orphan(st') ==> Orphan(st) && st.raises + 1 <= st'.raises < cfg.alertsRequired
    ensures Orphan(st) ==> NoRecovery(Notes(cfg, storage, st, EventsOf(c)))
  {
    hide Apply, Orphan;
    var raises, last := Raises(c.alerts, c.at), EndCycle(c.alerts != [], c.hold, c.at);
    RaisesMend(cfg, storage, st, c.alerts, c.at);
    assert EventsOf(c)[..|raises|] == raises && EventsOf(c)[|raises|] == last;
    EndMends(cfg, storage, After(cfg, storage, st, raises), c.alerts != [], c.hold, c.at);
    if Orphan(st) && c.alerts == [] {
      assert raises == [];
    }
  }

  lemma {:induction false} CyclesMend(cfg: Config, storage: bool, st: NameState, cycles: seq<Cycle>)
    requires st.raises >= 0 && forall i | 0 <= i < |cycles| :: ProperCycle(cycles[i])
    ensures var st' := AfterCycles(cfg, storage, st, cycles);
            Orphan(st') ==> Orphan(st) && |cycles| <= st'.raises && (cycles == [] || st'.raises < cfg.alertsRequired)
  {
    if cycles != [] {
      var front := cycles[..|cycles| - 1];
      CyclesMend(cfg, storage, st, front);
      CycleMends(cfg, storage, AfterCycles(cfg, storage, st, front), cycles[|cycles| - 1]);
    }
  }

  /** Self-stabilisation: from any persisted state with a non-negative raise counter, a name that is active without a
      deliverable context is mended within `alertsRequired` cycles outside maintenance, stays mended, and no cycle that
      starts with it damaged sends a recovery. */
  lemma OrphansAreMended(cfg: Config, storage: bool, st: NameState, cycles: seq<Cycle>, i: nat)
    requires Sound(cfg) && st.raises >= 0 && forall i | 0 <= i < |cycles| :: ProperCycle(cycles[i])
    requires i < |cycles|
    ensures |cycles| >= cfg.alertsRequired ==> !Orphan(AfterCycles(cfg, storage, st, cycles))
    ensures var before := AfterCycles(cfg, storage, st, cycles[..i]);
            Orphan(before) ==> NoRecovery(Notes(cfg, storage, before, EventsOf(cycles[i])))
  {
    CyclesMend(cfg, storage, st, cycles);
    CycleMends(cfg, storage, AfterCycles(cfg, storage, st, cycles[..i]), cycles[i]);
  }
}
