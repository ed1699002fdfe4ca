/** `OpsMonitor._emit`, `_emit_resolutions`, `_repair_orphaned_active_alert` and the tail of `_evaluate_once` over the
    persisted state dictionaries.  Each method is proved to run the machine of `AlertEngine` for every name at once. */
module AlertMonitor {
  import opened Numerals
  import opened AlertEngine

  const STORAGE := "database_storage_growth"

  /** The dictionaries of `self._state` that belong to alert delivery. */
  datatype Saved = Saved(
    active: map<string, int>,
    contexts: map<string, Context>,
    cooldowns: map<string, int>,
    pendingAlerts: map<string, int>,
    pendingResolutions: map<string, int>,
    resolvedAlerts: map<string, int>,
    flapCounts: map<string, int>,
    occurrences: map<string, int>,
    hold: bool,
    recoverySince: Option<int>)

  datatype Delivery = Delivery(name: string, note: Note)

  function Lookup<V>(m: map<string, V>, name: string): Option<V> {
    if name in m then Some(m[name]) else None
  }

  /** `d[name] = v`, seen entry by entry. */
  function With<V>(m: map<string, V>, name: string, v: V): (r: map<string, V>)
    ensures forall n :: Lookup(r, n) == if n == name then Some(v) else Lookup(m, n)
  {
    m[name := v]
  }

  /** `d.pop(name, None)`, seen entry by entry. */
  function Drop<V>(m: map<string, V>, name: string): (r: map<string, V>)
    ensures forall n :: Lookup(r, n) == if n == name then None else Lookup(m, n)
    ensures r.Keys == m.Keys - {name}
  {
    m - {name}
  }

  function NameOf(s: Saved, name: string): NameState {
    NameState(Lookup(s.active, name), Lookup(s.contexts, name), Lookup(s.cooldowns, name),
              OrZero(Lookup(s.pendingAlerts, name)), OrZero(Lookup(s.pendingResolutions, name)),
              Lookup(s.resolvedAlerts, name), OrZero(Lookup(s.flapCounts, name)), Lookup(s.occurrences, name))
  }

  ghost predicate OthersSame(s: Saved, s': Saved, name: string) {
    forall n | n != name :: NameOf(s', n) == NameOf(s, n)
  }

  function NotesOf(sent: seq<Delivery>, name: string): seq<Note> {
    if sent == [] then []
    else
      var last := sent[|sent| - 1];
      NotesOf(sent[..|sent| - 1], name) + if last.name == name then [last.note] else []
  }

  function Delivered(name: string, note: Option<Note>): seq<Delivery> {
    if note.Some? then [Delivery(name, note.value)] else []
  }

  lemma NotesOfOne(sent: seq<Delivery>, name: string, note: Option<Note>, n: string)
    ensures NotesOf(sent + Delivered(name, note), n) == NotesOf(sent, n) + if n == name then Optional(note) else []
  {
    if note.Some? {
      assert (sent + Delivered(name, note))[..|sent|] == sent;
    } else {
      assert sent + Delivered(name, note) == sent;
    }
  }

  /** The storage detector's own entries. */
  predicate SameStorage(s: Saved, s': Saved) {
    s'.hold == s.hold && s'.recoverySince == s.recoverySince
  }

  const NOTHING_SAVED := Saved(map[], map[], map[], map[], map[], map[], map[], map[], false, None)

  /** An alert a cycle found; `postgres` says that its details name the postgres service. */
  datatype Found = Found(name: string, alert: Context, postgres: bool)

  const SILENCED: seq<string> := ["container_missing", "container_unhealthy", "live_heartbeat_stale",
                                  "live_crash_log_archive_failed", "market_task_not_alive"]

  /** `_is_maintenance_noise`. */
  predicate IsNoise(name: string) {
    exists i | 0 <= i < |SILENCED| :: SILENCED[i] <= name
  }

  /** During maintenance, noise is dropped before anything is published. */
  function Audible(alerts: seq<Found>, maintenance: bool): seq<Found> {
    if alerts == [] then []
    else
      var last := alerts[|alerts| - 1];
      Audible(alerts[..|alerts| - 1], maintenance)
      + if !maintenance || last.postgres || !IsNoise(last.name) then [last] else []
  }

  /** Silence does not prove recovery: during maintenance active noise counts as present. */
  function ActiveKeys(alerts: seq<Found>, active: set<string>, maintenance: bool): set<string> {
    (set i | 0 <= i < |alerts| :: alerts[i].name) + if maintenance then set n | n in active && IsNoise(n) else {}
  }

  function RaisesOf(alerts: seq<Found>, name: string, now: int): seq<Event> {
    if alerts == [] then []
    else
      var last := alerts[|alerts| - 1];
      RaisesOf(alerts[..|alerts| - 1], name, now) + if last.name == name then [Raise(last.alert, now)] else []
  }

  /** One monitor cycle as seen by one name. */
  function CycleEvents(alerts: seq<Found>, keys: set<string>, name: string, hold: bool, now: int): seq<Event> {
    RaisesOf(alerts, name, now) + [EndCycle(name in keys, hold, now)]
  }

  class OpsMonitor {
    const cfg: Config
    const initial: Saved
    var state: Saved
    var sent: seq<Delivery>
    /** Per name, the events of all cycles so far. */
    ghost var ran: string -> seq<Event>

    /** Every name's state and notes are those of its machine after its events. */
    ghost predicate Valid()
      reads this
    {
      forall n :: Follows(cfg, NameOf(initial, n), NameOf(state, n), n, ran(n), NotesOf(sent, n))
    }

    constructor (cfg: Config, initial: Saved)
      ensures Valid() && this.cfg == cfg && this.initial == initial && state == initial && sent == []
      ensures forall n :: ran(n) == []
    {
      this.cfg, this.initial, state, sent, ran := cfg, initial, initial, [], (_: string) => [];
    }

    method ClearAbsences(name: string)
      modifies this`state
      ensures NameOf(state, name) == NameOf(old(state), name).(absences := 0)
      ensures OthersSame(old(state), state, name) && SameStorage(old(state), state) && state.active == old(state.active)
    {
      hide Drop;
      state := state.(pendingResolutions := Drop(state.pendingResolutions, name));
    }

    method CountAbsence(name: string) returns (count: int)
      modifies this`state
      ensures NameOf(state, name) == NameOf(old(state), name).(absences := count)
      ensures count == NameOf(old(state), name).absences + 1
      ensures OthersSame(old(state), state, name) && SameStorage(old(state), state) && state.active == old(state.active)
    {
      hide With;
      count := OrZero(Lookup(state.pendingResolutions, name)) + 1;
      state := state.(pendingResolutions := With(state.pendingResolutions, name, count));
    }

    method CountRaise(name: string) returns (count: int)
      modifies this`state
      ensures NameOf(state, name) == NameOf(old(state), name).(raises := count)
      ensures count == NameOf(old(state), name).raises + 1
      ensures OthersSame(old(state), state, name) && SameStorage(old(state), state) && state.active == old(state.active)
    {
      hide With;
      count := OrZero(Lookup(state.pendingAlerts, name)) + 1;
      state := state.(pendingAlerts := With(state.pendingAlerts, name, count));
    }

    method CountOccurrence(name: string) returns (count: int)
      modifies this`state
      ensures NameOf(state, name) == NameOf(old(state), name).(occurrences := Some(count))
      ensures count == OrZero(NameOf(old(state), name).occurrences) + 1
      ensures OthersSame(old(state), state, name) && SameStorage(old(state), state) && state.active == old(state.active)
    {
      hide With;
      count := OrZero(Lookup(state.occurrences, name)) + 1;
      state := state.(occurrences := With(state.occurrences, name, count));
    }

    /** Forgets the name's delivery state; for the storage alert also its recovery bookkeeping. */
    method RepairOrphan(name: string)
      modifies this`state
      ensures NameOf(state, name) == Repair(NameOf(old(state), name)) && OthersSame(old(state), state, name)
      ensures if name == STORAGE then !state.hold && state.recoverySince == None else SameStorage(old(state), state)
      ensures state.active.Keys == old(state.active).Keys - {name}
    {
      hide Drop;
      state := state.(
        pendingAlerts := Drop(state.pendingAlerts, name),
        pendingResolutions := Drop(state.pendingResolutions, name),
        occurrences := Drop(state.occurrences, name),
        active := Drop(state.active, name),
        contexts := Drop(state.contexts, name));
      if name == STORAGE {
        state := state.(hold := false, recoverySince := None);
      }
    }

    /** The name becomes active now unless it is already. */
    method Activate(name: string, now: int) returns (since: int)
      modifies this`state
      ensures since == (if NameOf(old(state), name).active.Some? then NameOf(old(state), name).active.value else now)
      ensures NameOf(state, name) == NameOf(old(state), name).(active := Some(since))
      ensures OthersSame(old(state), state, name) && SameStorage(old(state), state)
    {
      hide With;
      since := now;
      if name in state.active {
        since := state.active[name];
      } else {
        state := state.(active := With(state.active, name, now));
      }
    }

    /** A notification soon after a recovery counts as a flap. */
    method CountFlap(name: string, now: int) returns (flapping: bool, flaps: int)
      modifies this`state
      ensures var p := NameOf(old(state), name);
              && flapping == (p.resolvedAt.Some? && now - p.resolvedAt.value < cfg.flappingWindow)
              && flaps == (if flapping then p.flaps + 1 else p.flaps)
              && NameOf(state, name) == p.(flaps := flaps)
      ensures OthersSame(old(state), state, name) && SameStorage(old(state), state)
    {
      hide With;
      flapping := name in state.resolvedAlerts && now - state.resolvedAlerts[name] < cfg.flappingWindow;
      flaps := OrZero(Lookup(state.flapCounts, name));
      if flapping {
        flaps := flaps + 1;
        state := state.(flapCounts := With(state.flapCounts, name, flaps));
      }
    }

    /** Starts the cooldown and keeps what was sent. */
    method Remember(name: string, alert: Context, now: int)
      modifies this`state
      ensures NameOf(state, name) == NameOf(old(state), name).(lastSent := Some(now), context := Some(alert))
      ensures OthersSame(old(state), state, name) && SameStorage(old(state), state)
    {
      hide With;
      state := state.(cooldowns := With(state.cooldowns, name, now), contexts := With(state.contexts, name, alert));
    }

    /** `_emit`. */
    method EmitAlert(name: string, alert: Context, now: int)
      modifies this`state, this`sent
      ensures NameOf(state, name) == Emit(cfg, name == STORAGE, NameOf(old(state), name), alert, now).0
      ensures sent == old(sent) + Delivered(name, Emit(cfg, name == STORAGE, NameOf(old(state), name), alert, now).1)
      ensures OthersSame(old(state), state, name) && (name == STORAGE || SameStorage(old(state), state))
    {
      hide NameOf, Decide, Deliverable;
      ClearAbsences(name);
      var count := CountRaise(name);
      if count < cfg.alertsRequired {
        return;
      }
      if Orphan(NameOf(state, name)) {
        RepairOrphan(name);
      }
      Deliver(name, alert, now);
    }

    /** The rest of `_emit`, once the debounce is passed and the state repaired. */
    method Deliver(name: string, alert: Context, now: int)
      modifies this`state, this`sent
      ensures var result := Decide(cfg, name == STORAGE, NameOf(old(state), name), alert, now);
              NameOf(state, name) == result.0 && sent == old(sent) + Delivered(name, result.1)
      ensures OthersSame(old(state), state, name) && SameStorage(old(state), state)
    {
      hide NameOf, Rank, Notify;
      var p := NameOf(state, name);
      var previous := if p.context.Some? then p.context.value.severity else "";
      var escalation := previous != "" && Rank(alert.severity) > Rank(previous);
      var downgrade := name == STORAGE && previous != "" && Rank(alert.severity) < Rank(previous);
      var cooldown := if name == STORAGE then cfg.storageCooldown else cfg.cooldown;
      if !(escalation || downgrade) && p.lastSent.Some? && now - p.lastSent.value < cooldown {
        if p.active.Some? {
          var count := CountOccurrence(name);
        }
        return;
      }
      Send(name, alert, now, previous, escalation, downgrade);
    }

    method Send(name: string, alert: Context, now: int, previous: string, escalation: bool, downgrade: bool)
      requires var p := NameOf(state, name);
               && previous == PreviousSeverity(p) && escalation == Escalates(p, alert.severity)
               && downgrade == Downgrades(name == STORAGE, p, alert.severity)
      modifies this`state, this`sent
      ensures var result := Notify(cfg, name == STORAGE, NameOf(old(state), name), alert, now);
              NameOf(state, name) == result.0 && sent == old(sent) + Delivered(name, result.1)
      ensures OthersSame(old(state), state, name) && SameStorage(old(state), state)
    {
      hide NameOf, Escalates, Downgrades, PreviousSeverity;
      var since := Activate(name, now);
      var occurrence := CountOccurrence(name);
      var flapping, flaps := CountFlap(name, now);
      Remember(name, alert, now);
      sent := sent + [Delivery(name, Sent(alert.severity, occurrence, since,
                                          if escalation then Some(previous) else None,
                                          if downgrade then Some(previous) else None,
                                          if flapping && !escalation then Some(flaps) else None, now))];
    }

    /** The resolution pass for one active name. */
    method ResolveOne(name: string, present: bool, now: int)
      requires NameOf(state, name).active.Some?
      modifies this`state, this`sent
      ensures var result := Sweep(cfg, name == STORAGE, NameOf(old(state), name), present, old(state.hold), now);
              NameOf(state, name) == result.0 && sent == old(sent) + Delivered(name, result.1)
      ensures OthersSame(old(state), state, name) && (name == STORAGE || SameStorage(old(state), state))
    {
      hide NameOf, Deliverable;
      if present {
        ClearAbsences(name);
        return;
      }
      DeliverableHasContext(NameOf(state, name).context);
      if !Deliverable(NameOf(state, name).context) {
        RepairOrphan(name);
        return;
      }
      if name == STORAGE && state.hold {
        ClearAbsences(name);
        return;
      }
      var count := CountAbsence(name);
      if count >= cfg.resolutionsRequired {
        Recover(name, now);
      }
    }

    /** The recovery is due: report it and forget the incident. */
    method Recover(name: string, now: int)
      requires NameOf(state, name).active.Some? && NameOf(state, name).context.Some?
      modifies this`state, this`sent
      ensures var p := NameOf(old(state), name);
              && NameOf(state, name) == p.(raises := 0, absences := 0, active := None, context := None,
                                           occurrences := None,
                                           resolvedAt := Some(now))
              && sent == old(sent) + [Delivery(name, Resolved(p.context.value, p.active.value, p.occurrences, now))]
      ensures OthersSame(old(state), state, name) && (name == STORAGE || SameStorage(old(state), state))
    {
      hide With, Drop;
      sent := sent + [Delivery(name, Resolved(state.contexts[name], state.active[name],
                                              Lookup(state.occurrences, name), now))];
      state := state.(
        pendingResolutions := Drop(state.pendingResolutions, name),
        pendingAlerts := Drop(state.pendingAlerts, name),
        occurrences := Drop(state.occurrences, name),
        active := Drop(state.active, name),
        contexts := Drop(state.contexts, name),
        resolvedAlerts := With(state.resolvedAlerts, name, now));
      if name == STORAGE {
        state := state.(hold := false, recoverySince := None);
      }
    }

    /** `_emit_resolutions`: the pending counts of names neither raised nor active lapse, then every active name gets
        its turn, in any order. */
    method EmitResolutions(keys: set<string>, now: int)
      modifies this`state, this`sent
      ensures forall n :: Swept(cfg, NameOf(old(state), n), NameOf(state, n), NotesOf(old(sent), n), NotesOf(sent, n),
                                n, n in keys, old(state.hold), now)
    {
      hide Sweep, NameOf, NotesOf, Progress;
      LapsePending(keys);
      var todo := state.active.Keys;
      ghost var start := state;
      ProgressStarts(cfg, start, sent, keys, now);
      while todo != {}
        invariant Progress(cfg, start, state, old(sent), sent, keys, now, todo)
        decreases todo
      {
        var name :| name in todo;
        ghost var before, notes := state, sent;
        ProgressActive(cfg, start, before, old(sent), notes, keys, now, todo, name);
        ResolveOne(name, name in keys, now);
        ProgressStep(cfg, start, before, old(sent), notes, keys, now, todo, name, state, sent);
        todo := todo - {name};
      }
      ProgressEnds(cfg, old(state), start, state, old(sent), sent, keys, now);
    }

    /** The tail of `_evaluate_once`: emit what the cycle found, then resolve. */
    method FinishCycle(alerts: seq<Found>, maintenance: bool, now: int)
      requires Valid()
      modifies this
      ensures Valid()
      ensures var found := Audible(alerts, maintenance);
              var keys := ActiveKeys(found, old(state).active.Keys, maintenance);
              forall n :: ran(n) == old(ran)(n) + CycleEvents(found, keys, n, old(state.hold), now)
    {
      hide NameOf, After, Notes, NotesOf, Emit, Sweep, Follows;
      var found := Audible(alerts, maintenance);
      var keys := ActiveKeys(found, state.active.Keys, maintenance);
      ghost var hold := state.hold;
      CycleStarts(cfg, state, sent, now);
      for i := 0 to |found|
        invariant Raised(cfg, old(state), state, old(sent), sent, found[..i], now)
        invariant ran == old(ran)
      {
        ghost var before, notes := state, sent;
        EmitAlert(found[i].name, found[i].alert, now);
        RaisedStep(cfg, old(state), before, old(sent), notes, found[..i], found[i], now, state, sent);
        assert found[..i] + [found[i]] == found[..i + 1];
      }
      assert found[..|found|] == found;
      ghost var before, notes := state, sent;
      EmitResolutions(keys, now);
      forall n ensures Follows(cfg, NameOf(initial, n), NameOf(state, n), n,
                               ran(n) + CycleEvents(found, keys, n, hold, now), NotesOf(sent, n)) {
        CycleEnds(cfg, NameOf(initial, n), old(state), before, state, old(sent), notes, sent, found, keys, hold, n,
                  ran(n), now);
      }
      ghost var ran0 := ran;
      ran := n => ran0(n) + CycleEvents(found, keys, n, hold, now);
    }

    method LapsePending(keys: set<string>)
      modifies this`state
      ensures state == old(state).(pendingAlerts := state.pendingAlerts)
      ensures forall n :: NameOf(state, n) ==
                if n in keys || n in old(state).active then NameOf(old(state), n)
                else NameOf(old(state), n).(raises := 0)
    {
      var todo := state.pendingAlerts.Keys;
      while todo != {}
        invariant state == old(state).(pendingAlerts := state.pendingAlerts)
        invariant forall n :: Lookup(state.pendingAlerts, n) ==
                    if n in keys || n in old(state).active || n in todo
                    then Lookup(old(state).pendingAlerts, n) else None
        decreases todo
      {
        var name :| name in todo;
        todo := todo - {name};
        if name !in keys && name !in state.active {
          state := state.(pendingAlerts := Drop(state.pendingAlerts, name));
        }
      }
    }
  }

  lemma DeliverableHasContext(context: Option<Context>)
    ensures Deliverable(context) ==> context.Some?
  {
  }

  ghost predicate Swept(cfg: Config, p: NameState, p': NameState, notes: seq<Note>, notes': seq<Note>,
                        name: string, present: bool, hold: bool, now: int) {
    var result := Sweep(cfg, name == STORAGE, p, present, hold, now);
    p' == result.0 && notes' == notes + Optional(result.1)
  }

  /** Midway through the resolution pass: names still to come are untouched, the others have had their turn. */
  ghost predicate Progress(cfg: Config, start: Saved, s: Saved, sent0: seq<Delivery>, sent: seq<Delivery>,
                           keys: set<string>, now: int, todo: set<string>) {
    && todo <= start.active.Keys
    && (forall n | n in todo || n !in start.active ::
          NameOf(s, n) == NameOf(start, n) && NotesOf(sent, n) == NotesOf(sent0, n))
    && (forall n | n in start.active && n !in todo ::
          Swept(cfg, NameOf(start, n), NameOf(s, n), NotesOf(sent0, n), NotesOf(sent, n), n, n in keys, start.hold,
                now))
    && (STORAGE in todo ==> s.hold == start.hold)
  }

  lemma ProgressStarts(cfg: Config, start: Saved, sent: seq<Delivery>, keys: set<string>, now: int)
    ensures Progress(cfg, start, start, sent, sent, keys, now, start.active.Keys)
  {
  }

  lemma ProgressActive(cfg: Config, start: Saved, s: Saved, sent0: seq<Delivery>, sent: seq<Delivery>,
                       keys: set<string>, now: int, todo: set<string>, name: string)
    requires Progress(cfg, start, s, sent0, sent, keys, now, todo) && name in todo
    ensures NameOf(s, name).active.Some?
  {
    assert NameOf(start, name).active.Some?;
  }

  /** Only the storage alert looks at the hold. */
  lemma HoldIsForStorage(cfg: Config, p: NameState, present: bool, hold: bool, hold': bool, now: int)
    ensures Sweep(cfg, false, p, present, hold, now) == Sweep(cfg, false, p, present, hold', now)
  {
  }

  lemma ProgressStep(cfg: Config, start: Saved, s: Saved, sent0: seq<Delivery>, sent: seq<Delivery>, keys: set<string>,
                     now: int, todo: set<string>, name: string, s': Saved, sent': seq<Delivery>)
    requires Progress(cfg, start, s, sent0, sent, keys, now, todo) && name in todo
    requires var result := Sweep(cfg, name == STORAGE, NameOf(s, name), name in keys, s.hold, now);
             NameOf(s', name) == result.0 && sent' == sent + Delivered(name, result.1)
    requires OthersSame(s, s', name) && (name == STORAGE || SameStorage(s, s'))
    ensures Progress(cfg, start, s', sent0, sent', keys, now, todo - {name})
  {
    hide Sweep, NameOf, NotesOf;
    var note := Sweep(cfg, name == STORAGE, NameOf(s, name), name in keys, s.hold, now).1;
    forall n ensures NotesOf(sent', n) == NotesOf(sent, n) + if n == name then Optional(note) else [] {
      NotesOfOne(sent, name, note, n);
    }
    HoldIsForStorage(cfg, NameOf(s, name), name in keys, s.hold, start.hold, now);
    assert Swept(cfg, NameOf(start, name), NameOf(s', name), NotesOf(sent0, name), NotesOf(sent', name),
                 name, name in keys, start.hold, now);
    forall n | n != name ensures NameOf(s', n) == NameOf(s, n) && NotesOf(sent', n) == NotesOf(sent, n) {
    }
  }

  lemma ProgressEnds(cfg: Config, s0: Saved, start: Saved, s: Saved, sent0: seq<Delivery>, sent: seq<Delivery>,
                     keys: set<string>, now: int)
    requires Progress(cfg, start, s, sent0, sent, keys, now, {})
    requires start.active == s0.active && start.hold == s0.hold
    requires forall n :: NameOf(start, n) ==
               if n in keys || n in s0.active then NameOf(s0, n) else NameOf(s0, n).(raises := 0)
    ensures forall n :: Swept(cfg, NameOf(s0, n), NameOf(s, n), NotesOf(sent0, n), NotesOf(sent, n), n, n in keys,
                              s0.hold, now)
  {
    forall n ensures Swept(cfg, NameOf(s0, n), NameOf(s, n), NotesOf(sent0, n), NotesOf(sent, n), n, n in keys,
                           s0.hold, now) {
      if n !in start.active {
        assert NameOf(s0, n).active.None?;
        assert NotesOf(sent0, n) + [] == NotesOf(sent0, n);
      }
    }
  }

  // ---- A cycle, name by name ----

  ghost predicate Follows(cfg: Config, p: NameState, p': NameState, name: string, events: seq<Event>,
                          notes: seq<Note>) {
    p' == After(cfg, name == STORAGE, p, events) && notes == Notes(cfg, name == STORAGE, p, events)
  }

  /** Midway through the emissions of a cycle. */
  ghost predicate Raised(cfg: Config, s0: Saved, s: Saved, sent0: seq<Delivery>, sent: seq<Delivery>,
                         found: seq<Found>, now: int) {
    && (forall n :: NameOf(s, n) == After(cfg, n == STORAGE, NameOf(s0, n), RaisesOf(found, n, now)))
    && (forall n ::
          NotesOf(sent, n) == NotesOf(sent0, n) + Notes(cfg, n == STORAGE, NameOf(s0, n), RaisesOf(found, n, now)))
    && (s.hold == s0.hold || exists i :: 0 <= i < |found| && found[i].name == STORAGE)
  }

  lemma CycleStarts(cfg: Config, s: Saved, sent: seq<Delivery>, now: int)
    ensures Raised(cfg, s, s, sent, sent, [], now)
  {
  }

  /** One more raise of `next` prolongs the events of its own name alone. */
  lemma RaisesGrow(found: seq<Found>, next: Found, n: string, now: int)
    ensures RaisesOf(found + [next], n, now)
            == RaisesOf(found, n, now) + if n == next.name then [Raise(next.alert, now)] else []
  {
    assert (found + [next])[..|found|] == found;
  }

  lemma RunsGrow(cfg: Config, storage: bool, p: NameState, events: seq<Event>, e: Event)
    ensures After(cfg, storage, p, events + [e]) == Apply(cfg, storage, After(cfg, storage, p, events), e).0
    ensures Notes(cfg, storage, p, events + [e])
            == Notes(cfg, storage, p, events) + Optional(Apply(cfg, storage, After(cfg, storage, p, events), e).1)
  {
    hide Apply;
    assert (events + [e])[..|events|] == events;
  }

  lemma RaisedStepFor(cfg: Config, s0: Saved, s: Saved, sent0: seq<Delivery>, sent: seq<Delivery>, found: seq<Found>,
                      next: Found, now: int, s': Saved, sent': seq<Delivery>, n: string)
    requires Raised(cfg, s0, s, sent0, sent, found, now)
    requires var result := Emit(cfg, next.name == STORAGE, NameOf(s, next.name), next.alert, now);
             NameOf(s', next.name) == result.0 && sent' == sent + Delivered(next.name, result.1)
    requires OthersSame(s, s', next.name)
    ensures NameOf(s', n) == After(cfg, n == STORAGE, NameOf(s0, n), RaisesOf(found + [next], n, now))
    ensures NotesOf(sent', n)
            == NotesOf(sent0, n) + Notes(cfg, n == STORAGE, NameOf(s0, n), RaisesOf(found + [next], n, now))
  {
    hide Emit, NameOf, After, Notes, NotesOf, RaisesOf, Delivered;
    var note := Emit(cfg, next.name == STORAGE, NameOf(s, next.name), next.alert, now).1;
    NotesOfOne(sent, next.name, note, n);
    RaisesGrow(found, next, n, now);
    if n == next.name {
      RunsGrow(cfg, n == STORAGE, NameOf(s0, n), RaisesOf(found, n, now), Raise(next.alert, now));
    } else {
      assert RaisesOf(found, n, now) + [] == RaisesOf(found, n, now);
    }
  }

  lemma RaisedStep(cfg: Config, s0: Saved, s: Saved, sent0: seq<Delivery>, sent: seq<Delivery>, found: seq<Found>,
                   next: Found,
                   now: int, s': Saved, sent': seq<Delivery>)
    requires Raised(cfg, s0, s, sent0, sent, found, now)
    requires var result := Emit(cfg, next.name == STORAGE, NameOf(s, next.name), next.alert, now);
             NameOf(s', next.name) == result.0 && sent' == sent + Delivered(next.name, result.1)
    requires OthersSame(s, s', next.name) && (next.name == STORAGE || SameStorage(s, s'))
    ensures Raised(cfg, s0, s', sent0, sent', found + [next], now)
  {
    hide Emit, NameOf, After, Notes, NotesOf, RaisesOf, Delivered, OthersSame;
    forall n ensures
      && NameOf(s', n) == After(cfg, n == STORAGE, NameOf(s0, n), RaisesOf(found + [next], n, now))
      && NotesOf(sent', n)
         == NotesOf(sent0, n) + Notes(cfg, n == STORAGE, NameOf(s0, n), RaisesOf(found + [next], n, now)) {
      RaisedStepFor(cfg, s0, s, sent0, sent, found, next, now, s', sent', n);
    }
    assert (found + [next])[|found|] == next;
    assert forall i | 0 <= i < |found| :: (found + [next])[i] == found[i];
  }

  /** A held or unheld cycle end is the same for a present name, and for any but the storage alert. */
  lemma HoldDoesNotMatter(cfg: Config, storage: bool, p: NameState, present: bool, hold: bool, hold': bool, now: int)
    requires present || !storage || hold == hold'
    ensures Sweep(cfg, storage, p, present, hold, now) == Sweep(cfg, storage, p, present, hold', now)
  {
  }

  lemma CycleEnds(cfg: Config, p: NameState, s0: Saved, s: Saved, s': Saved, sent0: seq<Delivery>, sent: seq<Delivery>,
                  sent': seq<Delivery>, found: seq<Found>, keys: set<string>, hold: bool, n: string, ran: seq<Event>,
                  now: int)
    requires Follows(cfg, p, NameOf(s0, n), n, ran, NotesOf(sent0, n))
    requires Raised(cfg, s0, s, sent0, sent, found, now) && hold == s0.hold
    requires forall i | 0 <= i < |found| :: found[i].name in keys
    requires Swept(cfg, NameOf(s, n), NameOf(s', n), NotesOf(sent, n), NotesOf(sent', n), n, n in keys, s.hold, now)
    ensures Follows(cfg, p, NameOf(s', n), n, ran + CycleEvents(found, keys, n, hold, now), NotesOf(sent', n))
  {
    hide Sweep, NameOf, NotesOf, After, Notes, RaisesOf, Optional;
    var raises, end := RaisesOf(found, n, now), EndCycle(n in keys, hold, now);
    HoldDoesNotMatter(cfg, n == STORAGE, NameOf(s, n), n in keys, s.hold, hold, now);
    RunsGrow(cfg, n == STORAGE, NameOf(s0, n), raises, end);
    RunsConcatenate(cfg, n == STORAGE, p, ran, raises + [end]);
  }

  // ---- What a cycle passes on ----

  /** Noise is a name that starts with one of five words. */
  lemma WhatIsNoise(name: string)
    ensures IsNoise(name) <==>
              || "container_missing" <= name || "container_unhealthy" <= name || "live_heartbeat_stale" <= name
              || "live_crash_log_archive_failed" <= name || "market_task_not_alive" <= name
  {
    assert SILENCED[0] == "container_missing" && SILENCED[1] == "container_unhealthy";
    assert SILENCED[2] == "live_heartbeat_stale" && SILENCED[3] == "live_crash_log_archive_failed";
    assert SILENCED[4] == "market_task_not_alive";
  }

  /** Outside maintenance every alert is published; during maintenance all but noise that does not name postgres. */
  lemma {:induction false} WhatIsAudible(alerts: seq<Found>, maintenance: bool)
    ensures !maintenance ==> Audible(alerts, maintenance) == alerts
    ensures forall f :: f in Audible(alerts, maintenance)
                        <==> f in alerts && (!maintenance || f.postgres || !IsNoise(f.name))
  {
    hide IsNoise;
    if alerts != [] {
      WhatIsAudible(alerts[..|alerts| - 1], maintenance);
      assert alerts == alerts[..|alerts| - 1] + [alerts[|alerts| - 1]];
    }
  }

  lemma WhatIsActive(alerts: seq<Found>, active: set<string>, maintenance: bool)
    ensures forall n :: n in ActiveKeys(alerts, active, maintenance)
                        <==> (exists f :: f in alerts && f.name == n) || (maintenance && n in active && IsNoise(n))
  {
    hide IsNoise;
    forall n | exists f :: f in alerts && f.name == n ensures n in ActiveKeys(alerts, active, maintenance) {
      var f :| f in alerts && f.name == n;
      var i :| 0 <= i < |alerts| && alerts[i] == f;
    }
  }

  /** A name sees each of its alerts once, in order, and then the end of the cycle. */
  lemma {:induction false} WhatOneNameSees(alerts: seq<Found>, more: seq<Found>, name: string, now: int)
    ensures RaisesOf(alerts + more, name, now) == RaisesOf(alerts, name, now) + RaisesOf(more, name, now)
    decreases |more|
  {
    if more == [] {
      assert alerts + more == alerts;
    } else {
      WhatOneNameSees(alerts, more[..|more| - 1], name, now);
      assert (alerts + more)[..|alerts + more| - 1] == alerts + more[..|more| - 1];
    }
  }

  lemma WhatOneAlertIs(f: Found, name: string, now: int)
    ensures RaisesOf([f], name, now) == if f.name == name then [Raise(f.alert, now)] else []
  {
    assert [f][..0] == [];
  }

  // ---- What a monitor's whole history satisfies ----

  /** Events of a name as cycles with a clock that never goes back produce them. */
  predicate Orderly(events: seq<Event>, now: int) {
    ProperEvents(events) && InOrder(events) && forall i | 0 <= i < |events| :: At(events[i]) <= now
  }

  lemma RaisesAreNow(found: seq<Found>, n: string, now: int)
    requires forall i | 0 <= i < |found| :: ProperAlert(found[i].alert)
    ensures forall e | e in RaisesOf(found, n, now) :: e.Raise? && ProperAlert(e.alert) && e.at == now
  {
  }

  /** Another cycle keeps every name's history orderly. */
  lemma CyclesStayOrderly(events: seq<Event>, found: seq<Found>, keys: set<string>, n: string, hold: bool, before: int,
                          now: int)
    requires Orderly(events, before) && before <= now
    requires forall i | 0 <= i < |found| :: ProperAlert(found[i].alert)
    ensures Orderly(events + CycleEvents(found, keys, n, hold, now), now)
  {
    hide RaisesOf, Deliverable;
    RaisesAreNow(found, n, now);
    var cycle := CycleEvents(found, keys, n, hold, now);
    assert forall e | e in cycle :: At(e) == now && (e.Raise? ==> ProperAlert(e.alert));
    var all := events + cycle;
    forall i | 0 <= i < |all| ensures At(all[i]) <= now && (i >= |events| ==> At(all[i]) == now)
                                      && (all[i].Raise? ==> ProperAlert(all[i].alert)) {
      if i >= |events| {
        assert all[i] == cycle[i - |events|] && all[i] in cycle;
      }
    }
  }

  /** What `OpsMonitor.Valid` means for one name of a monitor that started from nothing: its notifications read
      (alert+ resolved)*, it is active exactly while the last of them is an alert, and active names are exactly those
      with a context. */
  lemma MonitorLifecycle(cfg: Config, st: NameState, name: string, events: seq<Event>, notes: seq<Note>, now: int)
    requires Sound(cfg) && Orderly(events, now) && Follows(cfg, NameOf(NOTHING_SAVED, name), st, name, events, notes)
    ensures Alternates(notes) && (st.active.Some? <==> EndsWithAlert(notes))
    ensures st.active.Some? <==> st.context.Some?
    ensures var cooldown := CooldownOf(cfg, name == STORAGE);
            cooldown > 0 && events != [] ==>
              AlertCount(notes) <= 3 * ((now - At(events[0])) / cooldown + 1 + DowngradeCount(notes))
    ensures name != STORAGE && cfg.cooldown > 0 ==> DowngradeCount(notes) == 0
  {
    hide After, Notes, AlertCount, DowngradeCount, Alternates, EndsWithAlert;
    NotesAlternate(cfg, name == STORAGE, events);
    if CooldownOf(cfg, name == STORAGE) > 0 && events != [] {
      NotificationBound(cfg, name == STORAGE, events, now - At(events[0]));
    } else if events == [] {
      NothingNotified(cfg, name == STORAGE);
    }
  }

  lemma NothingNotified(cfg: Config, storage: bool)
    ensures DowngradeCount(Notes(cfg, storage, EMPTY, [])) == 0
  {
  }
}
