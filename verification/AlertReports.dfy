/** What the notifications of one alert name say of each other: every field of a notification can be checked against the
    ones sent before, so the stream tells the incident's history truthfully. */
module AlertReports {
  import opened Numerals
  import opened AlertEngine

  /** When the last recovery was reported. */
  function LatestRecovery(notes: seq<Note>): Option<int> {
    if notes == [] then None
    else if notes[|notes| - 1].Resolved? then Some(notes[|notes| - 1].endedAt)
    else LatestRecovery(notes[..|notes| - 1])
  }

  /** A notification this soon after a recovery is a flap. */
  predicate IsFlap(cfg: Config, before: seq<Note>, note: Note) {
    note.Sent? && LatestRecovery(before).Some? && note.at - LatestRecovery(before).value < cfg.flappingWindow
  }

  function Flaps(cfg: Config, notes: seq<Note>): nat {
    if notes == [] then 0
    else
      var front, last := notes[..|notes| - 1], notes[|notes| - 1];
      Flaps(cfg, front) + if IsFlap(cfg, front, last) then 1 else 0
  }

  /** The severity the incident was last reported with, while it is open. */
  function Reported(notes: seq<Note>): Option<string> {
    if EndsWithAlert(notes) then Some(notes[|notes| - 1].severity) else None
  }

  /** An alert is an escalation just when it outranks the one before it in the same incident; of the storage alert it is
      a downgrade just when it ranks below.  It carries on the incident's start, and counts as a flap, with the number
      of flaps so far, unless it escalates.  A recovery repeats start and severity of the last alert. */
  predicate Fits(cfg: Config, storage: bool, before: seq<Note>, note: Note) {
    match note
    case Sent(severity, _, since, escalatedFrom, deescalatedFrom, flapping, at) =>
      var previous := Reported(before);
      && escalatedFrom == (if previous.Some? && Rank(severity) > Rank(previous.value) then previous else None)
      && deescalatedFrom == (if storage && previous.Some? && Rank(severity) < Rank(previous.value)
                             then previous else None)
      && since == (if previous.Some? then before[|before| - 1].since else at)
      && flapping == (if IsFlap(cfg, before, note) && escalatedFrom.None? then Some(Flaps(cfg, before) + 1) else None)
    case Resolved(context, openedAt, _, _) =>
      EndsWithAlert(before) && openedAt == before[|before| - 1].since
        && context.severity == before[|before| - 1].severity
  }

  /** The name's state agrees with what has been sent. */
  predicate Told(cfg: Config, st: NameState, notes: seq<Note>) {
    && (st.active.Some? <==> EndsWithAlert(notes))
    && (st.active.Some? && st.context.Some? ==>
          st.active.value == notes[|notes| - 1].since && st.context.value.severity == notes[|notes| - 1].severity)
    && st.resolvedAt == LatestRecovery(notes) && st.flaps == Flaps(cfg, notes)
  }

  lemma NoteTells(cfg: Config, notes: seq<Note>, note: Note)
    ensures var more := notes + [note];
            && EndsWithAlert(more) == note.Sent?
            && LatestRecovery(more) == (if note.Resolved? then Some(note.endedAt) else LatestRecovery(notes))
            && Flaps(cfg, more) == Flaps(cfg, notes) + if IsFlap(cfg, notes, note) then 1 else 0
  {
    assert (notes + [note])[..|notes|] == notes;
  }

  lemma StepTells(cfg: Config, storage: bool, st: NameState, notes: seq<Note>, e: Event)
    requires Sound(cfg) && Healthy(cfg, st) && Told(cfg, st, notes) && (e.Raise? ==> ProperAlert(e.alert))
    ensures var (st', note) := Apply(cfg, storage, st, e);
            && Told(cfg, st', notes + Optional(note))
            && (note.Some? ==> Fits(cfg, storage, notes, note.value))
            && (note.Some? && note.value.Sent? ==> st'.occurrences == Some(note.value.occurrence))
  {
    hide LatestRecovery, Flaps;
    var (st', note) := Apply(cfg, storage, st, e);
    if note.Some? {
      NoteTells(cfg, notes, note.value);
    } else {
      assert notes + [] == notes;
    }
  }

  /** On every run from an empty state each notification fits the ones before it. */
  lemma {:induction false} EveryNoteFits(cfg: Config, storage: bool, events: seq<Event>, k: nat)
    requires Sound(cfg) && ProperEvents(events)
    ensures var notes := Notes(cfg, storage, EMPTY, events);
            && Told(cfg, After(cfg, storage, EMPTY, events), notes)
            && (k < |notes| ==> Fits(cfg, storage, notes[..k], notes[k]))
  {
    hide Apply, Fits, Healthy, Told;
    if events == [] {
      NothingTold(cfg, storage);
    } else {
      var front, e := events[..|events| - 1], events[|events| - 1];
      EveryNoteFits(cfg, storage, front, k);
      RunKeepsHealthy(cfg, storage, front);
      StepTells(cfg, storage, After(cfg, storage, EMPTY, front), Notes(cfg, storage, EMPTY, front), e);
      var before, notes := Notes(cfg, storage, EMPTY, front), Notes(cfg, storage, EMPTY, events);
      if k < |notes| {
        assert k <= |before| && notes[..k] == before[..k];
        assert before[..|before|] == before;
      }
    }
  }

  lemma NothingTold(cfg: Config, storage: bool)
    ensures Told(cfg, After(cfg, storage, EMPTY, []), Notes(cfg, storage, EMPTY, []))
            && Notes(cfg, storage, EMPTY, []) == []
  {
  }
}
