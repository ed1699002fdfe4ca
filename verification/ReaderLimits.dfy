/** How a reader misses a key: a retry under a used name replaces the archive of a row already pruned. */
module ReaderLimits {
  import opened Numerals
  import opened Digest
  import opened Retention
  import opened RetentionLimits
  import opened HistoryReader

  /** One archive, with just this row in its file. */
  predicate HoldsOne(c: Setting, s: State, row: Row) {
    && s.files == map[FILE := [row]] && s.manifests.Keys == s.attested.Keys == {FILE.stem}
    && s.manifests[FILE.stem].file == FILE && s.manifests[FILE.stem].sha == c.sha([row])
    && s.attested[FILE.stem].file == [row]
  }

  lemma HotIsRead(c: Setting, s: State, id: Id, row: Row)
    requires s.reader.Started? && s.rows == map[id := row]
    ensures var e := ExportHot([id]);
            Step(c, s, e, s.(reader := HotRead(s.reader.keys, s.reader.dropped, [row]))) && Trusted(c, s, e)
  {
    hide TrimStep;
    assert RowsAt(s.rows, [id]) == [row];
    assert ReadStep(c, s, ExportHot([id]), s.(reader := HotRead(s.reader.keys, s.reader.dropped, [row])));
  }

  lemma ArchivesAreListed(c: Setting, s: State)
    requires s.reader.HotRead?
    ensures var (r, e) := (s.reader, ListArchives(map[]));
            && Step(c, s, e, s.(reader := Listed(r.keys, r.dropped, r.hot, s.manifests, s.attested, map[], {})))
            && Trusted(c, s, e)
  {
    hide TrimStep;
  }

  lemma ArchiveIsFetched(c: Setting, s: State, row: Row)
    requires HoldsOne(c, s, row) && s.reader.Listed? && s.reader.listing == s.manifests && s.reader.truths == s.attested
    requires s.reader.local == map[] && s.reader.fetched == {}
    ensures var (r, e) := (s.reader, FetchArchive(FILE.stem, [row]));
            && Step(c, s, e, s.(reader := r.(local := map[FILE := [row]], fetched := {FILE.stem})))
            && Trusted(c, s, e)
  {
    hide TrimStep;
    var r := s.reader;
    assert r.local[FILE := [row]] == map[FILE := [row]] && {} + {FILE.stem} == {FILE.stem};
  }

  lemma SyncFinishes(c: Setting, s: State)
    requires s.reader.Listed? && s.reader.fetched == s.reader.listing.Keys
    ensures var r := s.reader;
            && Step(c, s, FinishSync,
                    s.(reader := Synced(r.keys, r.dropped, r.hot, r.listing, r.truths, r.local)))
            && Trusted(c, s, FinishSync)
  {
    hide TrimStep;
  }

  /** A sync, once started, of one hot row and one archive that holds just that row. */
  lemma ReadTail(c: Setting, s: State, id: Id, row: Row) returns (states: seq<State>, events: seq<Event>)
    requires s.reader.Started? && s.rows == map[id := row] && HoldsOne(c, s, row)
    ensures TrustedRun(c, states, events) && states[0] == s && |events| == 4
    ensures forall i | 0 <= i < 4 :: ByTrimmer(events[i])
    ensures var last := states[4];
            && last.reader.Synced? && last.reader.hot == [row] && last.reader.local == map[FILE := [row]]
            && last.rows == s.rows && last.removed == s.removed
  {
    hide Step, Trusted;
    var r := s.reader;
    var s1 := s.(reader := HotRead(r.keys, r.dropped, [row]));
    var s2 := s.(reader := Listed(r.keys, r.dropped, [row], s.manifests, s.attested, map[], {}));
    var s3 := s.(reader := s2.reader.(local := map[FILE := [row]], fetched := {FILE.stem}));
    var s4 := s.(reader := Synced(r.keys, r.dropped, [row], s.manifests, s.attested, map[FILE := [row]]));
    states := [s, s1, s2, s3, s4];
    events := [ExportHot([id]), ListArchives(map[]), FetchArchive(FILE.stem, [row]), FinishSync];
    HotIsRead(c, s, id, row);
    ArchivesAreListed(c, s1);
    ArchiveIsFetched(c, s2, row);
    SyncFinishes(c, s3);
  }

  lemma SyncStarts(c: Setting, a: Row, b: Row, trim: Trimmer)
    ensures var s := Made(c, a, b, trim);
            TrustedRun(c, [s, s.(reader := Started({a.key, b.key}, {}))], [StartSync])
  {
    hide TrimStep, HexDigest;
    var s := Made(c, a, b, trim);
    assert s.rows[0] == a && s.rows[1] == b;
    assert KeysOf(s.rows) == {a.key, b.key};
    assert ReadStep(c, s, StartSync, s.(reader := Started({a.key, b.key}, {})));
  }

  lemma AttestedIs(c: Setting, s: State, p: Plan, row: Row)
    requires s.manifests.Keys == s.attested.Keys == {FILE.stem} && s.files.Keys == {FILE}
    ensures var s' := Attested(c, s, p, [row], row);
            s'.reader == s.reader && s'.rows == s.rows && HoldsOne(c, s', row)
  {
    hide HexDigest;
    var s' := Attested(c, s, p, [row], row);
    assert s'.files == map[FILE := [row]];
  }

  /** The sync together with the abort and the retry, from the moment both rows may be deleted. */
  lemma RetryAndSync(c: Setting, a: Row, b: Row, s: State) returns (states: seq<State>, events: seq<Event>)
    requires !c.freshNames && c.batchRows == 1 && InDays(a, 0, 1) && InDays(b, 0, 1)
    requires s == Made(c, a, b, Deleting(RETRIED, FILE.stem, Both(c, a, b), {0, 1}, {0, 1}, {}))
    ensures TrustedRun(c, states, events) && states[0] == s && events != [] && events[0] == StartSync
    ensures forall i | 0 <= i < |events| :: !events[i].Others?
    ensures forall i | 0 < i < |events| :: !events[i].StartSync?
    ensures var last := states[|events|];
            last.reader.Synced? && last.reader.hot == [b] && last.reader.local == map[FILE := [b]]
  {
    hide TrimStep, HexDigest, Trusted, Step, Made, Halfway, InDays, Joined, Attested, Both, HoldsOne;
    var reader := Started({a.key, b.key}, {});
    SyncStarts(c, a, b, Deleting(RETRIED, FILE.stem, Both(c, a, b), {0, 1}, {0, 1}, {}));
    var st1, ev1 := DeleteAndAbort(c, a, b, reader);
    HalfwayIs(c, a, b, reader);
    var st2, ev2 := ArchiveHead(c, Halfway(c, a, b, Idle(Raised), reader), 1);
    var st3, ev3 := ArchiveTail(c, st2[3], 1, [b]);
    AttestedIs(c, st2[3], PLAN, b);
    var st4, ev4 := ReadTail(c, st3[2], 1, b);
    var s0, e0 := [s, s.(reader := reader)], [StartSync];
    JoinTrusted(c, s0, e0, st1, ev1);
    JoinTrusted(c, st2, ev2, st3, ev3);
    JoinTrusted(c, Joined(s0, st1), e0 + ev1, Joined(st2, st3), ev2 + ev3);
    JoinTrusted(c, Joined(Joined(s0, st1), Joined(st2, st3)), e0 + ev1 + (ev2 + ev3), st4, ev4);
    states := Joined(Joined(Joined(s0, st1), Joined(st2, st3)), st4);
    events := e0 + ev1 + (ev2 + ev3) + ev4;
  }

  lemma SynchronizedFile(s: State, row: Row, key: string)
    requires s.reader.Synced? && s.reader.local == map[FILE := [row]] && row.key != key
    ensures ArchiveOrder(s, [FILE], [[row]]) && key !in Build([[row]], [row])
  {
    BuildKeepsOneRowPerKey([[row]], [row], key);
  }

  /** Beside a trimmer that aborts after one batch and retries, and with nobody else there, a sync from an empty local
      directory finishes without a key that was in the table when it started. */
  lemma AbortedRetryHidesKey(c: Setting, a: Row, b: Row)
    returns (states: seq<State>, events: seq<Event>, start: nat)
    requires !c.freshNames && c.batchRows == 1 && a.key != b.key && InDays(a, 0, 1) && InDays(b, 0, 1)
    ensures TrustedRun(c, states, events) && Init(states[0]) && forall i | 0 <= i < |events| :: !events[i].Others?
    ensures start < |events| && events[start] == StartSync && a.key in KeysOf(states[start].rows)
    ensures forall i | start < i < |events| :: !events[i].StartSync?
    ensures var last := states[|events|];
            && last.reader.Synced? && ArchiveOrder(last, [FILE], [[b]])
            && a.key !in Build([[b]], last.reader.hot)
  {
    hide HexDigest, Trusted, Step, Made, InDays, Joined, Build, Both, ArchiveOrder, KeysOf;
    var st1, ev1 := ArchiveBoth(c, a, b);
    var st2, ev2 := AcceptBoth(c, a, b);
    JoinTrusted(c, st1, ev1, st2, ev2);
    FreshIsInitial(map[0 := a, 1 := b]);
    start := |ev1 + ev2|;
    var made := Joined(st1, st2)[start];
    MadeHasKey(c, a, b, Deleting(RETRIED, FILE.stem, Both(c, a, b), {0, 1}, {0, 1}, {}));
    var st3, ev3 := RetryAndSync(c, a, b, made);
    JoinTrusted(c, Joined(st1, st2), ev1 + ev2, st3, ev3);
    ChainRuns(c, Joined(st1, st2), ev1 + ev2, st3, ev3);
    states, events := Joined(Joined(st1, st2), st3), ev1 + ev2 + ev3;
    SynchronizedFile(states[|events|], b, a.key);
  }

  lemma MadeHasKey(c: Setting, a: Row, b: Row, trim: Trimmer)
    ensures a.key in KeysOf(Made(c, a, b, trim).rows)
  {
    assert Made(c, a, b, trim).rows[0] == a;
  }
}
