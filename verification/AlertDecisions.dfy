/** Exactly when one alert name is notified: every alert sent, and every raise that stays silent, is told from the
    events and the notifications before it. */
module AlertDecisions {
  import opened Numerals
  import opened AlertEngine
  import opened AlertReports

  /** The latest alert of the name, in whatever incident. */
  function LatestAlert(notes: seq<Note>): (note: Option<Note>)
    ensures note.Some? ==> note.value.Sent? && note.value in notes
  {
    if notes == [] then None
    else if notes[|notes| - 1].Sent? then Some(notes[|notes| - 1])
    else LatestAlert(notes[..|notes| - 1])
  }

  /** Raises since the name last recovered, or last lapsed: ended a cycle absent with no incident open. */
  function PendingRaises(cfg: Config, storage: bool, events: seq<Event>): nat {
    if events == [] then 0
    else
      var front, before := events[..|events| - 1], PendingRaises(cfg, storage, events[..|events| - 1]);
      match events[|events| - 1]
      case Raise(_, _) => before + 1
      case EndCycle(present, _, _) =>
        if EndsWithAlert(Notes(cfg, storage, EMPTY, front))
        then if EndsWithAlert(Notes(cfg, storage, EMPTY, events)) then before else 0
        else if present then before else 0
  }

  lemma StepCountsPending(cfg: Config, storage: bool, st: NameState, e: Event)
    requires Sound(cfg) && Healthy(cfg, st)
    ensures var st' := Apply(cfg, storage, st, e).0;
            st'.raises == match e
                          case Raise(_, _) => st.raises + 1
                          case EndCycle(present, _, _) =>
                            if st.active.Some? then if st'.active.Some? then st.raises else 0
                            else if present then st.raises else 0
  {
  }

  lemma {:induction false} RaisesArePending(cfg: Config, storage: bool, events: seq<Event>)
    requires Sound(cfg) && ProperEvents(events)
    ensures After(cfg, storage, EMPTY, events).raises == PendingRaises(cfg, storage, events)
  {
    hide Apply, Healthy, EndsWithAlert, Deliverable, Alternates;
    if events != [] {
      var front := events[..|events| - 1];
      RaisesArePending(cfg, storage, front);
      RunKeepsHealthy(cfg, storage, front);
      NotesAlternate(cfg, storage, front);
      NotesAlternate(cfg, storage, events);
      StepCountsPending(cfg, storage, After(cfg, storage, EMPTY, front), events[|events| - 1]);
    }
  }

  lemma LatestAppended(notes: seq<Note>, note: Option<Note>)
    ensures LatestAlert(notes + Optional(note)) == if note.Some? && note.value.Sent? then note else LatestAlert(notes)
  {
    if note.Some? {
      assert (notes + [note.value])[..|notes|] == notes;
    } else {
      assert notes + [] == notes;
    }
  }

  /** The cooldown runs from the latest alert sent. */
  lemma {:induction false} CooldownRunsFromLatest(cfg: Config, storage: bool, events: seq<Event>)
    requires Sound(cfg) && ProperEvents(events)
    ensures var (st, latest) := (After(cfg, storage, EMPTY, events), LatestAlert(Notes(cfg, storage, EMPTY, events)));
            st.lastSent == if latest.Some? then Some(latest.value.at) else None
  {
    hide Apply, Healthy;
    if events != [] {
      var front, e := events[..|events| - 1], events[|events| - 1];
      CooldownRunsFromLatest(cfg, storage, front);
      RunKeepsHealthy(cfg, storage, front);
      SentIsRemembered(cfg, storage, After(cfg, storage, EMPTY, front), e);
      LatestAppended(Notes(cfg, storage, EMPTY, front), Apply(cfg, storage, After(cfg, storage, EMPTY, front), e).1);
    }
  }

  lemma SentIsRemembered(cfg: Config, storage: bool, st: NameState, e: Event)
    ensures var (st', note) := Apply(cfg, storage, st, e);
            st'.lastSent == if note.Some? && note.value.Sent? then Some(note.value.at) else st.lastSent
  {
  }

  /** The debounce is passed: an incident is open, or this raise completes the required number. */
  predicate Debounced(cfg: Config, storage: bool, events: seq<Event>) {
    || EndsWithAlert(Notes(cfg, storage, EMPTY, events))
    || PendingRaises(cfg, storage, events) + 1 >= cfg.alertsRequired
  }

  /** Nothing tells against sending: the severity changes in a way that is not made to wait, or no alert of the name
      lies within the cooldown. */
  predicate MaySend(cfg: Config, storage: bool, notes: seq<Note>, severity: string, now: int) {
    var (open, latest) := (Reported(notes), LatestAlert(notes));
    || (open.Some? && Rank(severity) > Rank(open.value))
    || (storage && open.Some? && Rank(severity) < Rank(open.value))
    || latest.None? || now - latest.value.at >= CooldownOf(cfg, storage)
  }

  lemma DecisionIsExact(cfg: Config, storage: bool, st: NameState, notes: seq<Note>, alert: Context, now: int)
    requires Sound(cfg) && Healthy(cfg, st) && Told(cfg, st, notes) && ProperAlert(alert)
    requires st.lastSent == if LatestAlert(notes).Some? then Some(LatestAlert(notes).value.at) else None
    ensures var note := Emit(cfg, storage, st, alert, now).1;
            && (note.Some? <==>
                  && (EndsWithAlert(notes) || st.raises + 1 >= cfg.alertsRequired)
                  && MaySend(cfg, storage, notes, alert.severity, now))
            && (note.Some? ==> note.value.Sent? && note.value.severity == alert.severity && note.value.at == now)
  {
    hide LatestAlert, LatestRecovery, Flaps;
  }

  /** On any proper run a raise is notified if and only if the debounce is passed and nothing tells against it; the note
      carries its severity and time. */
  lemma AlertIsExact(cfg: Config, storage: bool, events: seq<Event>, alert: Context, now: int)
    requires Sound(cfg) && ProperEvents(events) && ProperAlert(alert)
    ensures var notes := Notes(cfg, storage, EMPTY, events);
            var note := Apply(cfg, storage, After(cfg, storage, EMPTY, events), Raise(alert, now)).1;
            && (note.Some? <==>
                  Debounced(cfg, storage, events) && MaySend(cfg, storage, notes, alert.severity, now))
            && (note.Some? ==> note.value.Sent? && note.value.severity == alert.severity && note.value.at == now)
  {
    hide Emit, Healthy, Told, MaySend, EndsWithAlert, LatestAlert;
    RunKeepsHealthy(cfg, storage, events);
    EveryNoteFits(cfg, storage, events, 0);
    RaisesArePending(cfg, storage, events);
    CooldownRunsFromLatest(cfg, storage, events);
    DecisionIsExact(cfg, storage, After(cfg, storage, EMPTY, events), Notes(cfg, storage, EMPTY, events), alert, now);
  }

  /** With a clock that never goes back "the latest alert is a cooldown old" means that none is younger. */
  lemma {:induction false} LatestIsYoungest(cfg: Config, storage: bool, events: seq<Event>)
    requires Sound(cfg) && ProperEvents(events) && InOrder(events)
    ensures var notes := Notes(cfg, storage, EMPTY, events);
            forall note | note in notes && note.Sent? ::
              LatestAlert(notes).Some? && note.at <= LatestAlert(notes).value.at <= At(events[|events| - 1])
  {
    hide Apply, Healthy;
    if events != [] {
      var front, e := events[..|events| - 1], events[|events| - 1];
      LatestIsYoungest(cfg, storage, front);
      var sent := Apply(cfg, storage, After(cfg, storage, EMPTY, front), e).1;
      LatestAppended(Notes(cfg, storage, EMPTY, front), sent);
      SentNow(cfg, storage, After(cfg, storage, EMPTY, front), e);
      assert front != [] ==> front[|front| - 1] == events[|events| - 2] && At(events[|events| - 2]) <= At(e);
    }
  }

  lemma SentNow(cfg: Config, storage: bool, st: NameState, e: Event)
    ensures var note := Apply(cfg, storage, st, e).1; note.Some? && note.value.Sent? ==> note.value.at == At(e)
  {
  }

  // ---- What a recovery says ----

  /** The alert that the latest note of the open incident was sent for. */
  function LatestNotified(cfg: Config, storage: bool, events: seq<Event>): Option<Context> {
    if events == [] then None
    else
      var front, e := events[..|events| - 1], events[|events| - 1];
      if e.Raise? && Apply(cfg, storage, After(cfg, storage, EMPTY, front), e).1.Some? then Some(e.alert)
      else LatestNotified(cfg, storage, front)
  }

  lemma NotifiedIsKept(cfg: Config, storage: bool, st: NameState, e: Event)
    requires Sound(cfg) && Healthy(cfg, st) && (e.Raise? ==> ProperAlert(e.alert))
    ensures var (st', note) := Apply(cfg, storage, st, e);
            && (e.Raise? && note.Some? ==> st'.context == Some(e.alert))
            && (!(e.Raise? && note.Some?) && st'.context.Some? ==> st'.context == st.context)
  {
  }

  lemma {:induction false} ContextIsLatestNotified(cfg: Config, storage: bool, events: seq<Event>)
    requires Sound(cfg) && ProperEvents(events)
    ensures var st := After(cfg, storage, EMPTY, events);
            st.context.Some? ==> st.context == LatestNotified(cfg, storage, events)
  {
    hide Apply, Healthy;
    if events != [] {
      var front, e := events[..|events| - 1], events[|events| - 1];
      ContextIsLatestNotified(cfg, storage, front);
      RunKeepsHealthy(cfg, storage, front);
      NotifiedIsKept(cfg, storage, After(cfg, storage, EMPTY, front), e);
    }
  }

  /** A recovery is dated now and repeats, severity, summary and details, the alert last sent. */
  lemma RecoveryRepeatsAlert(cfg: Config, storage: bool, events: seq<Event>, e: Event)
    requires Sound(cfg) && ProperEvents(events + [e])
    requires var note := Apply(cfg, storage, After(cfg, storage, EMPTY, events), e).1;
             note.Some? && note.value.Resolved?
    ensures var note := Apply(cfg, storage, After(cfg, storage, EMPTY, events), e).1.value;
            note.endedAt == At(e) && Some(note.context) == LatestNotified(cfg, storage, events)
  {
    assert ProperEvents(events) by {
      assert forall i | 0 <= i < |events| :: (events + [e])[i] == events[i];
    }
    RunKeepsHealthy(cfg, storage, events);
    ContextIsLatestNotified(cfg, storage, events);
  }

  /** An alert can be sent just if its severity is one of the three known, its summary not empty and its details a
      mapping; the severities rank in this order. */
  lemma WhatIsProper(alert: Context)
    ensures ProperAlert(alert) <==>
              && (alert.severity == "info" || alert.severity == "warning" || alert.severity == "critical")
              && alert.summary != "" && alert.details.Some?
    ensures Rank("info") < Rank("warning") < Rank("critical")
  {
  }
}
