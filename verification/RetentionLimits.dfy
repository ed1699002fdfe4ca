/** Why the conditions of the safety results are there: runs of the same machine that lose a row without them. */
module RetentionLimits {
  import opened Numerals
  import opened Digest
  import opened Retention

  /** A step that meets no collision and leaves a range alone while its archive is made. */
  ghost predicate Trusted(c: Setting, s: State, e: Event) {
    CollisionFree(c, s, e) && Quiet(s, e)
  }

  ghost predicate TrustedRun(c: Setting, states: seq<State>, events: seq<Event>) {
    Run(c, states, events) && forall i | 0 <= i < |events| :: Trusted(c, states[i], events[i])
  }

  /** No other writer, and no new sync. */
  predicate ByTrimmer(e: Event) {
    !e.Others? && !e.StartSync?
  }

  const FILE := FileName(Stem(0, 1, ""), false)

  ghost predicate Chained(c: Setting, states: seq<State>, events: seq<Event>, first: State, last: State) {
    Run(c, states, events) && states[0] == first && states[|events|] == last
  }

  /** Two runs, the second from where the first ends. */
  function Joined(s1: seq<State>, s2: seq<State>): seq<State>
    requires s2 != []
  {
    s1 + s2[1..]
  }

  lemma ChainRuns(c: Setting, s1: seq<State>, e1: seq<Event>, s2: seq<State>, e2: seq<Event>)
    requires Run(c, s1, e1) && Run(c, s2, e2) && s1[|e1|] == s2[0]
    ensures Chained(c, Joined(s1, s2), e1 + e2, s1[0], s2[|e2|])
    ensures forall i | 0 <= i <= |e1| :: Joined(s1, s2)[i] == s1[i]
    ensures forall i | |e1| <= i <= |e1| + |e2| :: Joined(s1, s2)[i] == s2[i - |e1|]
  {
    var s, e := Joined(s1, s2), e1 + e2;
    forall i | 0 <= i < |e| ensures Step(c, s[i], e[i], s[i + 1]) {
      if i < |e1| {
        assert Step(c, s1[i], e1[i], s1[i + 1]);
      } else {
        assert s[i] == s2[i - |e1|];
        assert Step(c, s2[i - |e1|], e2[i - |e1|], s2[i - |e1| + 1]);
      }
    }
  }

  lemma JoinTrusted(c: Setting, s1: seq<State>, e1: seq<Event>, s2: seq<State>, e2: seq<Event>)
    requires TrustedRun(c, s1, e1) && TrustedRun(c, s2, e2) && s1[|e1|] == s2[0]
    ensures TrustedRun(c, Joined(s1, s2), e1 + e2)
    ensures Joined(s1, s2)[0] == s1[0] && Joined(s1, s2)[|e1 + e2|] == s2[|e2|]
  {
    hide Step, Trusted, Joined;
    ChainRuns(c, s1, e1, s2, e2);
    forall i | 0 <= i < |e1 + e2| ensures Trusted(c, Joined(s1, s2)[i], (e1 + e2)[i]) {
      if i < |e1| {
        assert Trusted(c, s1[i], e1[i]);
      } else {
        assert Trusted(c, s2[i - |e1|], e2[i - |e1|]);
      }
    }
  }

  /** One transaction of another writer while the archiver is not between export and fingerprint. */
  lemma OthersTrusted(c: Setting, s: State, rows: map<Id, Row>, s': State)
    requires Step(c, s, Others(rows), s') && !s.trim.Exported?
    ensures TrustedRun(c, [s, s'], [Others(rows)])
  {
    hide Step;
  }

  lemma OneRow(rows: map<Id, Row>, id: Id)
    requires rows.Keys == {id} && InDays(rows[id], 0, 1)
    ensures RangeOf(rows, 0, 1) == rows && |rows| == 1 && Scans([id], rows)
    ensures RowsAt(rows, [id]) == [rows[id]]
  {
  }

  /** The state after the archiver exported `file` and fingerprinted `row`, ready to be verified. */
  function Attested(c: Setting, s: State, p: Plan, file: seq<Row>, row: Row): State {
    s.(files := s.files[FILE := file],
       manifests := s.manifests[FILE.stem := Manifest(0, 1, 1, HexDigest(c.hash, [row]), c.sha(file), FILE)],
       attested := s.attested[FILE.stem := Attestation(file, [row])],
       trim := Archived(p, FILE.stem))
  }

  const PLAN := Plan(0, 1, DAY, 1)

  lemma ArchiveHead(c: Setting, s: State, id: Id) returns (states: seq<State>, events: seq<Event>)
    requires !c.freshNames && s.trim.Idle? && s.rows.Keys == {id} && InDays(s.rows[id], 0, 1)
    ensures Chained(c, states, events, s,
              s.(files := s.files[FILE := [s.rows[id]]], trim := Exported(PLAN, 1, FILE, [id])))
    ensures |events| == 3 && forall i | 0 <= i < 3 :: Trusted(c, states[i], events[i]) && ByTrimmer(events[i])
  {
    OneRow(s.rows, id);
    var s1 := s.(trim := Planned(PLAN));
    var s2 := s.(trim := Counted(PLAN, 1));
    var s3 := s.(files := s.files[FILE := [s.rows[id]]], trim := Exported(PLAN, 1, FILE, [id]));
    states, events := [s, s1, s2, s3], [MakePlan(PLAN), CountRows, ExportRange(FILE, [id])];
    assert TrimStep(c, s, events[0], s1);
    assert TrimStep(c, s1, events[1], s2);
    assert TrimStep(c, s2, events[2], s3);
  }

  lemma ArchiveTail(c: Setting, s: State, id: Id, file: seq<Row>) returns (states: seq<State>, events: seq<Event>)
    requires s.trim.Exported? && s.trim.plan == PLAN && s.trim.rows == 1 && s.trim.file == FILE
    requires s.rows.Keys == {id} && InDays(s.rows[id], 0, 1) && FILE in s.files && s.files[FILE] == file
    ensures Chained(c, states, events, s, Attested(c, s, PLAN, file, s.rows[id]))
    ensures |events| == 2 && forall i | 0 <= i < 2 :: Trusted(c, states[i], events[i]) && ByTrimmer(events[i])
  {
    OneRow(s.rows, id);
    var s1 := s.(trim := Printed(PLAN, 1, FILE, HexDigest(c.hash, [s.rows[id]]), [s.rows[id]]));
    var s2 := Attested(c, s, PLAN, file, s.rows[id]);
    states, events := [s, s1, s2], [FingerprintRange([id]), WriteManifest];
    assert TrimStep(c, s, events[0], s1);
    assert s.files[FILE := file] == s.files;
    assert TrimStep(c, s1, events[1], s2);
  }

  lemma AcceptSteps(c: Setting, s: State, id: Id, file: seq<Row>)
    requires s.rows.Keys == {id} && InDays(s.rows[id], 0, 1)
    requires s == Attested(c, s, PLAN, file, s.rows[id])
    ensures FILE.stem in s.manifests && s.manifests[FILE.stem].rows == 1
    ensures var (stem, m) := (FILE.stem, s.manifests[FILE.stem]);
            var s1, s2 := s.(trim := Verified(PLAN, stem, m)), s.(trim := Frozen(PLAN, stem, m, {id}));
            && TrimStep(c, s, VerifyManifest, s1) && Trusted(c, s, VerifyManifest)
            && TrimStep(c, s1, FreezeTargets, s2)
            && TrimStep(c, s2, CompareDigest([id]), s.(trim := Deleting(PLAN, stem, m, {id}, {id}, {})))
            && Trusted(c, s2, CompareDigest([id]))
  {
    hide HexDigest, InDays;
    OneRow(s.rows, id);
    var s2 := s.(trim := Frozen(PLAN, FILE.stem, s.manifests[FILE.stem], {id}));
    assert Live(s2) == s.rows;
    assert RowsAt(Live(s2), [id]) == [s.rows[id]];
  }

  lemma PruneTail(c: Setting, s: State, id: Id, file: seq<Row>) returns (states: seq<State>, events: seq<Event>)
    requires c.batchRows > 0 && s.rows.Keys == {id} && InDays(s.rows[id], 0, 1)
    requires s == Attested(c, s, PLAN, file, s.rows[id])
    ensures Chained(c, states, events, s,
              s.(rows := map[], removed := s.removed + {Removal(id, s.rows[id], FILE.stem, DAY)},
                 trim := Idle(Returned(1, 1))))
    ensures |events| == 5 && forall i | 0 <= i < 5 :: Trusted(c, states[i], events[i])
  {
    hide TrimStep, Trusted, HexDigest, InDays, Attested;
    AcceptSteps(c, s, id, file);
    var m := s.manifests[FILE.stem];
    var s1 := s.(trim := Verified(PLAN, FILE.stem, m));
    var s2 := s.(trim := Frozen(PLAN, FILE.stem, m, {id}));
    var s3 := s.(trim := Deleting(PLAN, FILE.stem, m, {id}, {id}, {}));
    DeleteOne(c, s3, id);
    var s4 := s.(rows := map[], removed := s.removed + {Removal(id, s.rows[id], FILE.stem, DAY)},
                 trim := Deleting(PLAN, FILE.stem, m, {id}, {}, {id}));
    FinishOne(c, s4);
    var s5 := s4.(trim := Idle(Returned(1, 1)));
    states, events := [s, s1, s2, s3, s4, s5],
      [VerifyManifest, FreezeTargets, CompareDigest([id]), DeleteBatch({id}), FinishPrune];
    FreezeIsTrusted(c, s1);
  }

  lemma FreezeIsTrusted(c: Setting, s: State)
    ensures Trusted(c, s, FreezeTargets)
  {
  }

  lemma FinishOne(c: Setting, s: State)
    requires s.trim.Deleting? && s.trim.manifest.rows == |s.trim.gone| == 1 && s.trim.targets == {}
    ensures TrimStep(c, s, FinishPrune, s.(trim := Idle(Returned(1, 1)))) && Trusted(c, s, FinishPrune)
  {
  }

  lemma DeleteOne(c: Setting, s: State, id: Id)
    requires c.batchRows > 0 && s.trim.Deleting? && s.trim.stem == FILE.stem && s.trim.plan == PLAN
    requires s.trim.manifest.rows == 1 && s.trim.frozen == s.trim.targets == s.rows.Keys == {id} && s.trim.gone == {}
    ensures var t := s.trim;
            TrimStep(c, s, DeleteBatch({id}),
              s.(rows := map[], removed := s.removed + {Removal(id, s.rows[id], FILE.stem, DAY)},
                 trim := Deleting(t.plan, t.stem, t.manifest, {id}, {}, {id})))
    ensures Trusted(c, s, DeleteBatch({id}))
  {
    assert {id} * s.rows.Keys == {id};
    assert s.rows - {id} == map[];
    assert RemovalsOf({id}, s.rows, FILE.stem, DAY) == {Removal(id, s.rows[id], FILE.stem, DAY)};
    assert {id} - {id} == {} && {} + {id} == {id};
  }

  function Fresh(rows: map<Id, Row>): State {
    State(rows, rows.Keys, map[], map[], map[], {}, Idle(NotRun), NotReading)
  }

  /** If another writer replaces a row between the export and the fingerprint, every check passes and the new row is
      deleted although no file holds it.  Only that one interfering step is untrusted. */
  lemma BusyRangeLosesRow(c: Setting, a: Row, b: Row) returns (states: seq<State>, events: seq<Event>)
    requires !c.freshNames && c.batchRows > 0 && a != b && InDays(a, 0, 1) && InDays(b, 0, 1)
    ensures Run(c, states, events) && Init(states[0])
    ensures |events| == 11 && events[3].Others? && forall i | 0 <= i < 11 && i != 3 :: Trusted(c, states[i], events[i])
    ensures CollisionFree(c, states[3], events[3])
    ensures var last := states[|events|];
            && last.trim == Idle(Returned(1, 1))
            && (exists r :: r in last.removed && r.row == b)
            && (forall f | f in last.files :: b !in last.files[f])
  {
    hide TrimStep, Trusted, HexDigest, Joined;
    var s := Fresh(map[0 := a]);
    var st1, ev1 := ArchiveHead(c, s, 0);
    var mid := st1[3];
    var busy := mid.(rows := map[1 := b], used := {0, 1});
    assert Step(c, mid, Others(map[1 := b]), busy);
    var st2, ev2 := ArchiveTail(c, busy, 1, [a]);
    var st3, ev3 := PruneTail(c, st2[2], 1, [a]);
    JoinTrusted(c, st2, ev2, st3, ev3);
    var rest, evs := Joined(st2, st3), ev2 + ev3;
    ChainRuns(c, [mid, busy], [Others(map[1 := b])], rest, evs);
    var tail, ends := Joined([mid, busy], rest), [Others(map[1 := b])] + evs;
    ChainRuns(c, st1, ev1, tail, ends);
    states, events := Joined(st1, tail), ev1 + ends;
    forall i | 0 <= i < 11 && i != 3 ensures Trusted(c, states[i], events[i]) {
      if i < 3 {
        assert Trusted(c, st1[i], ev1[i]);
      } else {
        assert Trusted(c, rest[i - 4], evs[i - 4]);
      }
    }
    assert Removal(1, b, FILE.stem, DAY) in states[|events|].removed;
  }

  /** When archive names are reused, a row that comes back into a pruned day overwrites the archive of the row pruned
      before: on a fully trusted run of two complete prunes the first row is gone from every file. */
  lemma ReusedNameLosesRow(c: Setting, a: Row, b: Row) returns (states: seq<State>, events: seq<Event>)
    requires !c.freshNames && c.batchRows > 0 && a != b && InDays(a, 0, 1) && InDays(b, 0, 1)
    ensures TrustedRun(c, states, events) && Init(states[0])
    ensures var last := states[|events|];
            && last.trim == Idle(Returned(1, 1))
            && (exists r :: r in last.removed && r.row == a)
            && (forall f | f in last.files :: a !in last.files[f])
  {
    hide TrimStep, HexDigest, Trusted, Joined;
    var s := Fresh(map[0 := a]);
    var st1, ev1 := WholePrune(c, s, 0);
    var mid := st1[10];
    var refilled := mid.(rows := map[1 := b], used := {0, 1});
    assert Step(c, mid, Others(map[1 := b]), refilled);
    OthersTrusted(c, mid, map[1 := b], refilled);
    var st2, ev2 := WholePrune(c, refilled, 1);
    JoinTrusted(c, [mid, refilled], [Others(map[1 := b])], st2, ev2);
    var tail, ends := Joined([mid, refilled], st2), [Others(map[1 := b])] + ev2;
    JoinTrusted(c, st1, ev1, tail, ends);
    states, events := Joined(st1, tail), ev1 + ends;
    assert Removal(0, a, FILE.stem, DAY) in states[|events|].removed;
  }

  lemma WholePrune(c: Setting, s: State, id: Id) returns (states: seq<State>, events: seq<Event>)
    requires !c.freshNames && c.batchRows > 0 && s.trim.Idle? && s.rows.Keys == {id} && InDays(s.rows[id], 0, 1)
    ensures |events| == 10 && TrustedRun(c, states, events) && states[0] == s
    ensures states[10].rows == map[] && states[10].used == s.used && states[10].trim == Idle(Returned(1, 1))
    ensures states[10].files == s.files[FILE := [s.rows[id]]]
    ensures states[10].removed == s.removed + {Removal(id, s.rows[id], FILE.stem, DAY)}
  {
    hide Step, Trusted, HexDigest, Joined;
    var st1, ev1 := ArchiveHead(c, s, id);
    var st2, ev2 := ArchiveTail(c, st1[3], id, [s.rows[id]]);
    var st3, ev3 := PruneTail(c, st2[2], id, [s.rows[id]]);
    JoinTrusted(c, st1, ev1, st2, ev2);
    JoinTrusted(c, Joined(st1, st2), ev1 + ev2, st3, ev3);
    states, events := Joined(Joined(st1, st2), st3), ev1 + ev2 + ev3;
  }

  // ---- An aborted prune and its own retry ----

  const RETRIED := Plan(0, 1, DAY, 2)

  /** The system once two rows of a day have been archived together. */
  function Made(c: Setting, a: Row, b: Row, trim: Trimmer): State {
    State(map[0 := a, 1 := b], {0, 1}, map[FILE := [a, b]], map[FILE.stem := Both(c, a, b)],
          map[FILE.stem := Attestation([a, b], [a, b])], {}, trim, NotReading)
  }

  function Both(c: Setting, a: Row, b: Row): Manifest {
    Manifest(0, 1, 2, HexDigest(c.hash, [a, b]), c.sha([a, b]), FILE)
  }

  lemma TwoRows(a: Row, b: Row)
    requires InDays(a, 0, 1) && InDays(b, 0, 1)
    ensures var rows := map[0 := a, 1 := b];
            && RangeOf(rows, 0, 1) == rows && rows.Keys == {0, 1} && |rows| == 2 && |{0, 1}| == 2
            && Scans([0, 1], rows) && RowsAt(rows, [0, 1]) == [a, b]
  {
    var rows := map[0 := a, 1 := b];
    assert rows.Keys == {0, 1};
    assert |rows| == |rows.Keys|;
  }

  lemma ArchiveBoth(c: Setting, a: Row, b: Row) returns (states: seq<State>, events: seq<Event>)
    requires !c.freshNames && InDays(a, 0, 1) && InDays(b, 0, 1)
    ensures Chained(c, states, events, Fresh(map[0 := a, 1 := b]), Made(c, a, b, Archived(RETRIED, FILE.stem)))
    ensures |events| == 5 && forall i | 0 <= i < 5 :: Trusted(c, states[i], events[i]) && ByTrimmer(events[i])
  {
    hide HexDigest, InDays;
    TwoRows(a, b);
    var s0 := Fresh(map[0 := a, 1 := b]);
    var s1 := s0.(trim := Planned(RETRIED));
    var s2 := s0.(trim := Counted(RETRIED, 2));
    var s3 := s0.(files := map[FILE := [a, b]], trim := Exported(RETRIED, 2, FILE, [0, 1]));
    var s4 := s3.(trim := Printed(RETRIED, 2, FILE, HexDigest(c.hash, [a, b]), [a, b]));
    var s5 := Made(c, a, b, Archived(RETRIED, FILE.stem));
    states := [s0, s1, s2, s3, s4, s5];
    events := [MakePlan(RETRIED), CountRows, ExportRange(FILE, [0, 1]), FingerprintRange([0, 1]), WriteManifest];
    assert TrimStep(c, s0, events[0], s1);
    assert TrimStep(c, s1, events[1], s2);
    assert TrimStep(c, s2, events[2], s3);
    assert TrimStep(c, s3, events[3], s4);
    assert TrimStep(c, s4, events[4], s5);
  }

  lemma AcceptBoth(c: Setting, a: Row, b: Row) returns (states: seq<State>, events: seq<Event>)
    requires InDays(a, 0, 1) && InDays(b, 0, 1)
    ensures Chained(c, states, events, Made(c, a, b, Archived(RETRIED, FILE.stem)),
                    Made(c, a, b, Deleting(RETRIED, FILE.stem, Both(c, a, b), {0, 1}, {0, 1}, {})))
    ensures |events| == 3 && forall i | 0 <= i < 3 :: Trusted(c, states[i], events[i]) && ByTrimmer(events[i])
  {
    hide HexDigest, InDays;
    TwoRows(a, b);
    var m := Both(c, a, b);
    var s0 := Made(c, a, b, Archived(RETRIED, FILE.stem));
    var s1 := Made(c, a, b, Verified(RETRIED, FILE.stem, m));
    var s2 := Made(c, a, b, Frozen(RETRIED, FILE.stem, m, {0, 1}));
    var s3 := Made(c, a, b, Deleting(RETRIED, FILE.stem, m, {0, 1}, {0, 1}, {}));
    assert Live(s2) == s2.rows;
    states, events := [s0, s1, s2, s3], [VerifyManifest, FreezeTargets, CompareDigest([0, 1])];
    assert TrimStep(c, s0, events[0], s1);
    assert TrimStep(c, s1, events[1], s2);
    assert TrimStep(c, s2, events[2], s3);
  }

  /** Then its first row has been pruned, beside a reader in whatever state. */
  function Halfway(c: Setting, a: Row, b: Row, trim: Trimmer, reader: Reader): State {
    Made(c, a, b, trim).(rows := map[1 := b], removed := {Removal(0, a, FILE.stem, DAY)}, reader := reader)
  }

  lemma DeleteFirst(c: Setting, a: Row, b: Row, m: Manifest, reader: Reader)
    requires c.batchRows == 1 && m.rows == 2
    ensures var s := Made(c, a, b, Deleting(RETRIED, FILE.stem, m, {0, 1}, {0, 1}, {})).(reader := reader);
            BatchStep(c, s, {0}, Halfway(c, a, b, Deleting(RETRIED, FILE.stem, m, {0, 1}, {1}, {0}), reader))
  {
    hide HexDigest, Both;
    var rows: map<Id, Row> := map[0 := a, 1 := b];
    assert {0} * rows.Keys == {0} && rows - {0} == map[1 := b] && {0, 1} - {0} == {1} && {} + {0} == {0};
    assert RemovalsOf({0}, rows, FILE.stem, DAY) == {Removal(0, a, FILE.stem, DAY)};
    assert |{0, 1}| == 2;
  }

  lemma DeleteAndAbort(c: Setting, a: Row, b: Row, reader: Reader) returns (states: seq<State>, events: seq<Event>)
    requires c.batchRows == 1
    ensures var trim := Deleting(RETRIED, FILE.stem, Both(c, a, b), {0, 1}, {0, 1}, {});
            Chained(c, states, events, Made(c, a, b, trim).(reader := reader),
                    Halfway(c, a, b, Idle(Raised), reader))
    ensures |events| == 2 && forall i | 0 <= i < 2 :: Trusted(c, states[i], events[i]) && ByTrimmer(events[i])
  {
    hide HexDigest, Both, BatchStep;
    BothAreTwo(c, a, b);
    var m := Both(c, a, b);
    DeleteFirst(c, a, b, m, reader);
    var s0 := Made(c, a, b, Deleting(RETRIED, FILE.stem, m, {0, 1}, {0, 1}, {})).(reader := reader);
    var s1 := Halfway(c, a, b, Deleting(RETRIED, FILE.stem, m, {0, 1}, {1}, {0}), reader);
    var s2 := Halfway(c, a, b, Idle(Raised), reader);
    states, events := [s0, s1, s2], [DeleteBatch({0}), AbortTrim];
    assert TrimStep(c, s1, AbortTrim, s2);
  }

  lemma BothAreTwo(c: Setting, a: Row, b: Row)
    ensures Both(c, a, b).rows == 2
  {
  }

  /** Nobody else need be there: a prune that is cut short after its first batch, and its own retry on the same day,
      lose the row already deleted.  It is in no file and not in the table. */
  lemma AbortedRetryLosesRow(c: Setting, a: Row, b: Row) returns (states: seq<State>, events: seq<Event>)
    requires !c.freshNames && c.batchRows == 1 && a != b && InDays(a, 0, 1) && InDays(b, 0, 1)
    ensures TrustedRun(c, states, events) && Init(states[0]) && forall i | 0 <= i < |events| :: !events[i].Others?
    ensures var last := states[|events|];
            && (exists r :: r in last.removed && r.row == a)
            && (forall id | id in last.rows :: last.rows[id] != a)
            && (forall f | f in last.files :: a !in last.files[f])
  {
    hide TrimStep, HexDigest, Trusted, Step, Made, Halfway, InDays, Joined;
    var st1, ev1 := ArchiveBoth(c, a, b);
    var st2, ev2 := AcceptBoth(c, a, b);
    var st3, ev3 := DeleteAndAbort(c, a, b, NotReading);
    MadeIs(c, a, b, Deleting(RETRIED, FILE.stem, Both(c, a, b), {0, 1}, {0, 1}, {}));
    HalfwayIs(c, a, b, NotReading);
    var st4, ev4 := ArchiveHead(c, Halfway(c, a, b, Idle(Raised), NotReading), 1);
    JoinTrusted(c, st1, ev1, st2, ev2);
    JoinTrusted(c, st3, ev3, st4, ev4);
    JoinTrusted(c, Joined(st1, st2), ev1 + ev2, Joined(st3, st4), ev3 + ev4);
    states, events := Joined(Joined(st1, st2), Joined(st3, st4)), ev1 + ev2 + (ev3 + ev4);
    assert Removal(0, a, FILE.stem, DAY) in states[|events|].removed;
    FreshIsInitial(map[0 := a, 1 := b]);
  }

  lemma MadeIs(c: Setting, a: Row, b: Row, trim: Trimmer)
    ensures var s := Made(c, a, b, trim); s.rows == map[0 := a, 1 := b] && s.trim == trim && s.reader == NotReading
  {
  }

  lemma HalfwayIs(c: Setting, a: Row, b: Row, reader: Reader)
    ensures var s := Halfway(c, a, b, Idle(Raised), reader);
            && s.trim.Idle? && s.reader == reader && s.manifests.Keys == s.attested.Keys == {FILE.stem}
            && s.rows == map[1 := b] && s.rows.Keys == {1} && s.files == map[FILE := [a, b]]
            && s.removed == {Removal(0, a, FILE.stem, DAY)}
  {
  }

  lemma FreshIsInitial(rows: map<Id, Row>)
    ensures Init(Fresh(rows))
  {
  }
}
