/** What every run of the retention machine keeps: nothing is deleted by the trimmer unless the very same row was
    fingerprinted for a stored archive, no matter how other writers interleave or where the run stops.  Whether it is in
    the archive's file depends on what that archive was made from, and how long it stays there on whether the archive's
    name is used again. */
module RetentionSafety {
  import opened Numerals
  import opened Digest
  import opened Retention
  import opened ArchiveOrigins

  lemma InitIsSafe(c: Setting, s: State)
    requires Init(s)
    ensures Inv(c, s)
  {
  }

  // ---- Each step keeps the invariant ----

  lemma OthersKeepInv(c: Setting, s: State, e: Event, s': State)
    requires Inv(c, s) && e.Others? && Step(c, s, e, s')
    ensures Inv(c, s')
  {
    hide ManifestsTrue, HexDigest, Accounted;
    if s.trim.Deleting? {
      var t := s.trim;
      OthersKeepAccounts(s.rows, s.used, e.rows, s.attested[t.stem].printed, s.removed, t.stem, t.plan.cutoff,
                         t.frozen, t.gone);
    }
  }

  lemma OthersKeepAccounts(rows: map<Id, Row>, used: set<Id>, rows': map<Id, Row>, printed: seq<Row>,
                           removed: set<Removal>,
                           stem: Stem, cutoff: int, frozen: set<Id>, gone: set<Id>)
    requires Accounted(rows, printed, removed, stem, cutoff, frozen, gone) && frozen <= used
    requires forall id | id in rows' :: (id in rows && rows'[id] == rows[id]) || id !in used
    ensures Accounted(rows', printed, removed, stem, cutoff, frozen, gone)
  {
    forall row | row in printed ensures exists id :: AccountsFor(rows', removed, stem, cutoff, frozen, gone, id, row) {
      var id :| AccountsFor(rows, removed, stem, cutoff, frozen, gone, id, row);
      assert AccountsFor(rows', removed, stem, cutoff, frozen, gone, id, row);
    }
  }

  lemma ExportKeepsInv(c: Setting, s: State, e: Event, s': State)
    requires Inv(c, s) && e.ExportRange? && Step(c, s, e, s')
    ensures Inv(c, s')
  {
    hide ManifestsTrue, RemovalsOk, HexDigest;
    // The overwritten file may belong to an older manifest; no manifest claims what its file now holds until it is
    // verified again.
    ScanStaysInRange(s.rows, s.trim.plan.from, s.trim.plan.to, e.scan);
  }

  lemma ScanStaysInRange(rows: map<Id, Row>, from: int, to: int, scan: seq<Id>)
    requires Scans(scan, RangeOf(rows, from, to))
    ensures forall r | r in RowsAt(RangeOf(rows, from, to), scan) :: InDays(r, from, to)
  {
    var range := RangeOf(rows, from, to);
    forall r | r in RowsAt(range, scan) ensures InDays(r, from, to) {
      var i :| 0 <= i < |scan| && r == RowsAt(range, scan)[i];
      assert scan[i] in scan;
    }
  }

  lemma FingerprintKeepsInv(c: Setting, s: State, e: Event, s': State)
    requires Inv(c, s) && e.FingerprintRange? && Step(c, s, e, s')
    ensures Inv(c, s')
  {
    hide ManifestsTrue, RemovalsOk, HexDigest;
    ScanStaysInRange(s.rows, s.trim.plan.from, s.trim.plan.to, e.scan);
  }

  lemma WriteManifestKeepsInv(c: Setting, s: State, e: Event, s': State)
    requires Inv(c, s) && e.WriteManifest? && Step(c, s, e, s')
    ensures Inv(c, s')
  {
    hide RemovalsOk, HexDigest, InDays;
  }

  lemma VerifyKeepsInv(c: Setting, s: State, e: Event, s': State)
    requires Inv(c, s) && e.VerifyManifest? && Step(c, s, e, s') && CollisionFree(c, s, e)
    ensures Inv(c, s')
  {
    hide RemovalsOk, HexDigest;
    assert Describes(c, s.trim.stem, s.manifests[s.trim.stem], s.attested[s.trim.stem]);
  }

  /** An accepted digest means that the row versions still standing among the targets are those fingerprinted. */
  lemma MatchingDigestMeansPrinted(c: Setting, s: State, scan: seq<Id>)
    requires Inv(c, s) && s.trim.Frozen? && Scans(scan, Live(s))
    requires HexDigest(c.hash, RowsAt(Live(s), scan)) == s.trim.manifest.fingerprint
    requires NoDigestCollision(c, RowsAt(Live(s), scan), s.attested[s.trim.stem].printed)
    ensures var printed := s.attested[s.trim.stem].printed;
            && (forall id | id in s.trim.targets && id in s.rows :: s.rows[id] in printed)
            && (forall row | row in printed :: exists id :: id in s.trim.targets && id in s.rows && s.rows[id] == row)
  {
    hide RemovalsOk, HexDigest, SameFigures;
    var live, a := RowsAt(Live(s), scan), s.attested[s.trim.stem];
    assert Describes(c, s.trim.stem, s.trim.manifest, a);
    DigestTellsFigures(c.hash, live, a.printed);
    forall id | id in s.trim.targets && id in s.rows ensures s.rows[id] in a.printed {
      assert id in scan;
      var i :| 0 <= i < |scan| && scan[i] == id;
      assert live[i] == s.rows[id];
      assert s.rows[id] in multiset(live);
    }
    forall row | row in a.printed ensures exists id :: id in s.trim.targets && id in s.rows && s.rows[id] == row {
      assert row in multiset(live);
      var i :| 0 <= i < |live| && live[i] == row;
      assert scan[i] in scan;
    }
  }

  /** They are all in the archive file if and only if what was fingerprinted is; a quiet range is enough for that. */
  lemma MatchingDigestMeansArchived(c: Setting, s: State, scan: seq<Id>)
    requires Inv(c, s) && s.trim.Frozen? && Scans(scan, Live(s))
    requires HexDigest(c.hash, RowsAt(Live(s), scan)) == s.trim.manifest.fingerprint
    requires NoDigestCollision(c, RowsAt(Live(s), scan), s.attested[s.trim.stem].printed)
    ensures var (a, file) := (s.attested[s.trim.stem], s.files[s.trim.manifest.file]);
            && ((forall id | id in s.trim.targets && id in s.rows :: s.rows[id] in file)
                <==> forall row | row in a.printed :: row in file)
            && (Faithful(a) ==> forall id | id in s.trim.targets && id in s.rows :: s.rows[id] in file)
  {
    hide RemovalsOk, HexDigest, ManifestsTrue, Faithful;
    MatchingDigestMeansPrinted(c, s, scan);
    if Faithful(s.attested[s.trim.stem]) {
      FaithfulHolds(s.attested[s.trim.stem]);
    }
  }

  lemma CompareKeepsInv(c: Setting, s: State, e: Event, s': State)
    requires Inv(c, s) && e.CompareDigest? && Step(c, s, e, s') && CollisionFree(c, s, e)
    ensures Inv(c, s')
  {
    hide ManifestsTrue, RemovalsOk, HexDigest, Accounted;
    MatchingDigestMeansPrinted(c, s, e.scan);
    var t := s.trim;
    StartAccounts(s.rows, s.removed, s.attested[t.stem].printed, t.stem, t.plan.cutoff, t.targets);
  }

  lemma StartAccounts(rows: map<Id, Row>, removed: set<Removal>, printed: seq<Row>, stem: Stem, cutoff: int,
                      targets: set<Id>)
    requires forall row | row in printed :: exists id :: id in targets && id in rows && rows[id] == row
    ensures Accounted(rows, printed, removed, stem, cutoff, targets, {})
  {
    forall row | row in printed ensures exists id :: AccountsFor(rows, removed, stem, cutoff, targets, {}, id, row) {
      var id :| id in targets && id in rows && rows[id] == row;
      assert AccountsFor(rows, removed, stem, cutoff, targets, {}, id, row);
    }
  }

  lemma FreezeKeepsInv(c: Setting, s: State, e: Event, s': State)
    requires Inv(c, s) && e.FreezeTargets? && Step(c, s, e, s')
    ensures Inv(c, s')
  {
    hide ManifestsTrue, HexDigest;
  }

  lemma BatchKeepsLog(rows: map<Id, Row>, used: set<Id>, removed: set<Removal>, hit: set<Id>, stem: Stem, cutoff: int)
    requires RemovalsOk(rows, used, removed) && hit <= rows.Keys && stem.to * DAY <= cutoff
    requires forall id | id in hit :: InDays(rows[id], stem.from, stem.to)
    ensures RemovalsOk(rows - hit, used, removed + RemovalsOf(hit, rows, stem, cutoff))
  {
  }

  lemma BatchKeepsTargets(rows: map<Id, Row>, used: set<Id>, printed: seq<Row>, removed: set<Removal>, stem: Stem,
                          cutoff: int, frozen: set<Id>, targets: set<Id>, gone: set<Id>, picked: set<Id>)
    requires TargetsOk(rows, used, printed, removed, stem, cutoff, frozen, targets, gone) && picked <= targets
    ensures var hit := picked * rows.Keys;
            TargetsOk(rows - hit, used, printed, removed + RemovalsOf(hit, rows, stem, cutoff), stem, cutoff,
                      frozen, targets - picked, gone + hit)
  {
    var hit := picked * rows.Keys;
    var removed' := removed + RemovalsOf(hit, rows, stem, cutoff);
    forall id | id in gone + hit ensures exists row :: Removal(id, row, stem, cutoff) in removed' {
      if id in hit {
        assert Removal(id, rows[id], stem, cutoff) in removed';
      } else {
        var row :| Removal(id, row, stem, cutoff) in removed;
        assert Removal(id, row, stem, cutoff) in removed';
      }
    }
  }

  lemma BatchKeepsAccounts(rows: map<Id, Row>, printed: seq<Row>, removed: set<Removal>, stem: Stem, cutoff: int,
                           frozen: set<Id>, gone: set<Id>, hit: set<Id>)
    requires Accounted(rows, printed, removed, stem, cutoff, frozen, gone) && hit <= rows.Keys
    ensures Accounted(rows - hit, printed, removed + RemovalsOf(hit, rows, stem, cutoff), stem, cutoff, frozen,
                      gone + hit)
  {
    var removed' := removed + RemovalsOf(hit, rows, stem, cutoff);
    forall row | row in printed
      ensures exists id :: AccountsFor(rows - hit, removed', stem, cutoff, frozen, gone + hit, id, row) {
      var id :| AccountsFor(rows, removed, stem, cutoff, frozen, gone, id, row);
      assert id in hit ==> Removal(id, rows[id], stem, cutoff) in removed';
      assert AccountsFor(rows - hit, removed', stem, cutoff, frozen, gone + hit, id, row);
    }
  }

  lemma TargetsInDays(c: Setting, s: State, id: Id)
    requires Inv(c, s) && s.trim.Deleting? && id in s.trim.targets && id in s.rows
    ensures s.rows[id] in s.attested[s.trim.stem].printed
    ensures InDays(s.rows[id], s.trim.stem.from, s.trim.stem.to) && s.trim.stem.to * DAY <= s.trim.plan.cutoff
  {
    hide RemovalsOk, HexDigest, Accounted;
    assert Describes(c, s.trim.stem, s.trim.manifest, s.attested[s.trim.stem]);
  }

  lemma BatchKeepsInv(c: Setting, s: State, picked: set<Id>, s': State)
    requires Inv(c, s) && BatchStep(c, s, picked, s')
    ensures Inv(c, s')
  {
    var (t, hit) := (s.trim, picked * s.rows.Keys);
    hide ManifestsTrue, RemovalsOk, TargetsOk, RemovalsOf, InDays, Accounted;
    var printed := s.attested[t.stem].printed;
    BatchKeepsTargets(s.rows, s.used, printed, s.removed, t.stem, t.plan.cutoff, t.frozen, t.targets, t.gone, picked);
    BatchKeepsAccounts(s.rows, printed, s.removed, t.stem, t.plan.cutoff, t.frozen, t.gone, hit);
    forall id | id in hit ensures InDays(s.rows[id], t.stem.from, t.stem.to) && t.stem.to * DAY <= t.plan.cutoff {
      TargetsInDays(c, s, id);
    }
    BatchKeepsLog(s.rows, s.used, s.removed, hit, t.stem, t.plan.cutoff);
  }

  lemma BookkeepingKeepsInv(c: Setting, s: State, e: Event, s': State)
    requires Inv(c, s) && TrimStep(c, s, e, s')
    requires e.MakePlan? || e.CountRows? || e.NothingToArchive? || e.FinishPrune? || e.AbortTrim?
    ensures Inv(c, s')
  {
    hide ManifestsTrue, RemovalsOk, HexDigest;
  }

  lemma ReaderKeepsInv(c: Setting, s: State, e: Event, s': State)
    requires Inv(c, s) && ReadStep(c, s, e, s')
    ensures Inv(c, s')
  {
    hide ManifestsTrue, RemovalsOk, HexDigest;
    assert s' == s.(reader := s'.reader);
    assert TrimOk(c, s');
  }

  /** Every step without a hash collision keeps the invariant, however busy the range. */
  lemma StepKeepsInv(c: Setting, s: State, e: Event, s': State)
    requires Inv(c, s) && Step(c, s, e, s') && CollisionFree(c, s, e)
    ensures Inv(c, s')
  {
    hide Inv, CollisionFree;
    match e
    case Others(_) => OthersKeepInv(c, s, e, s');
    case ExportRange(_, _) => ExportKeepsInv(c, s, e, s');
    case FingerprintRange(_) => FingerprintKeepsInv(c, s, e, s');
    case WriteManifest => WriteManifestKeepsInv(c, s, e, s');
    case VerifyManifest => VerifyKeepsInv(c, s, e, s');
    case FreezeTargets => FreezeKeepsInv(c, s, e, s');
    case CompareDigest(_) => CompareKeepsInv(c, s, e, s');
    case DeleteBatch(picked) => BatchKeepsInv(c, s, picked, s');
    case MakePlan(_) => BookkeepingKeepsInv(c, s, e, s');
    case CountRows => BookkeepingKeepsInv(c, s, e, s');
    case NothingToArchive => BookkeepingKeepsInv(c, s, e, s');
    case FinishPrune => BookkeepingKeepsInv(c, s, e, s');
    case AbortTrim => BookkeepingKeepsInv(c, s, e, s');
    case StartSync => ReaderKeepsInv(c, s, e, s');
    case ExportHot(_) => ReaderKeepsInv(c, s, e, s');
    case ListArchives(_) => ReaderKeepsInv(c, s, e, s');
    case FetchArchive(_, _) => ReaderKeepsInv(c, s, e, s');
    case FinishSync => ReaderKeepsInv(c, s, e, s');
    case AbortSync => ReaderKeepsInv(c, s, e, s');
  }

  lemma {:induction false} RunKeepsInv(c: Setting, states: seq<State>, events: seq<Event>, i: nat)
    requires CollisionFreeRun(c, states, events) && Init(states[0]) && i < |states|
    ensures Inv(c, states[i])
  {
    hide Step, CollisionFree, Inv, Init;
    if i == 0 {
      InitIsSafe(c, states[0]);
    } else {
      RunKeepsInv(c, states, events, i - 1);
      StepKeepsInv(c, states[i - 1], events[i - 1], states[i]);
    }
  }

  // ---- Main results for one prune ----

  /** `row` is in a stored archive file whose checksum, name and days its manifest states truthfully. */
  ghost predicate InArchive(c: Setting, s: State, row: Row, stem: Stem) {
    && stem in s.manifests && s.manifests[stem].file in s.files
    && c.sha(s.files[s.manifests[stem].file]) == s.manifests[stem].sha
    && row in s.files[s.manifests[stem].file]
    && InDays(row, stem.from, stem.to)
  }

  /** A row a delete batch removes was frozen, was fingerprinted for the verified archive, and is in it exactly when it
      was exported to it too. */
  lemma BatchDeletesArchivedRows(c: Setting, s: State, picked: set<Id>, s': State, id: Id)
    requires Inv(c, s) && BatchStep(c, s, picked, s')
    requires id in s.rows && id !in s'.rows
    ensures s.trim.stem in s.attested && s.rows[id] in s.attested[s.trim.stem].printed
    ensures InArchive(c, s, s.rows[id], s.trim.stem) <==> s.rows[id] in s.attested[s.trim.stem].file
    ensures InArchive(c, s', s.rows[id], s.trim.stem) <==> s.rows[id] in s.attested[s.trim.stem].file
    ensures Faithful(s.attested[s.trim.stem]) ==> s.rows[id] in s.attested[s.trim.stem].file
    ensures id in s.trim.frozen
    ensures s.trim.plan.from * DAY <= s.rows[id].at < s.trim.plan.to * DAY <= s.trim.plan.cutoff
    ensures Removal(id, s.rows[id], s.trim.stem, s.trim.plan.cutoff) in s'.removed
  {
    hide RemovalsOk, HexDigest, Accounted, Faithful;
    TargetsInDays(c, s, id);
    var a := s.attested[s.trim.stem];
    if Faithful(a) {
      FaithfulHolds(a);
    }
    assert Describes(c, s.trim.stem, s.trim.manifest, a);
  }

  /** Prune safety: on every run, whatever the others do and wherever it stops, a row version that vanishes in a step of
      ours vanishes in a delete batch and lies before the day on which the effective cutoff falls.  If its own archive
      was made from a quiet range, it is in that verified archive at that moment. */
  lemma PruneSafety(c: Setting, states: seq<State>, events: seq<Event>, i: nat, id: Id)
    requires CollisionFreeRun(c, states, events) && Init(states[0]) && i < |events|
    requires id in states[i].rows && id !in states[i + 1].rows && !events[i].Others?
    ensures events[i].DeleteBatch? && states[i].trim.Deleting?
    ensures var (s, t) := (states[i], states[i].trim);
            && (MadeQuietly(states, events, i, t.stem) ==>
                  InArchive(c, s, s.rows[id], t.stem) && InArchive(c, states[i + 1], s.rows[id], t.stem))
            && t.stem in s.attested && s.rows[id] in s.attested[t.stem].printed
            && id in t.frozen
            && t.plan.from * DAY <= s.rows[id].at < t.plan.to * DAY <= t.plan.cutoff
            && Removal(id, s.rows[id], t.stem, t.plan.cutoff) in states[i + 1].removed
  {
    hide Step, CollisionFree, Inv, Init, InArchive, MadeQuietly, Faithful;
    RunKeepsInv(c, states, events, i);
    StepFrame(c, states[i], events[i], states[i + 1]);
    BatchDeletesArchivedRows(c, states[i], events[i].picked, states[i + 1], id);
    if MadeQuietly(states, events, i, states[i].trim.stem) {
      QuietArchiveIsFaithful(c, states, events, i, states[i].trim.stem);
    }
  }

  /** The exact condition for each single deletion, of a prune finished or cut short, over a range quiet or busy: the
      deleted row is in the archive if and only if a row of its content was in the range when the archive was
      exported. */
  lemma DeletionIsSafeIff(c: Setting, states: seq<State>, events: seq<Event>, i: nat, id: Id)
    requires CollisionFreeRun(c, states, events) && Init(states[0]) && i < |events|
    requires id in states[i].rows && id !in states[i + 1].rows && !events[i].Others?
    ensures states[i].trim.Deleting? && MadeFrom(states, events, i, states[i].trim.stem).Some?
    ensures var (row, stem) := (states[i].rows[id], states[i].trim.stem);
            var x := MadeFrom(states, events, i, stem).value;
            && (InArchive(c, states[i], row, stem) <==> InRange(states[x], stem, row))
            && (InArchive(c, states[i + 1], row, stem) <==> InRange(states[x], stem, row))
  {
    hide Step, CollisionFree, Inv, Init, InArchive, MadeFrom, Exportable, Scans, RowsAt, Faithful;
    RunKeepsInv(c, states, events, i);
    StepFrame(c, states[i], events[i], states[i + 1]);
    BatchDeletesArchivedRows(c, states[i], events[i].picked, states[i + 1], id);
    var stem := states[i].trim.stem;
    ArchiveIsExport(c, states, events, i, stem);
    var x := MadeFrom(states, events, i, stem).value;
    ScanHolds(Exportable(states[x], stem), events[x].scan, states[i].rows[id]);
  }

  lemma {:induction false} RetiredIdsStayRetired(c: Setting, states: seq<State>, events: seq<Event>, i: nat, j: nat,
                                                 id: Id)
    requires Run(c, states, events) && i <= j < |states|
    requires id in states[i].used && id !in states[i].rows
    ensures id in states[j].used && id !in states[j].rows
  {
    hide Step;
    if i < j {
      RetiredIdsStayRetired(c, states, events, i, j - 1, id);
      StepKeepsRetired(c, states[j - 1], events[j - 1], states[j], id);
    }
  }

  lemma StepKeepsRetired(c: Setting, s: State, e: Event, s': State, id: Id)
    requires Step(c, s, e, s') && id in s.used && id !in s.rows
    ensures id in s'.used && id !in s'.rows
  {
    StepFrame(c, s, e, s');
  }

  /** A normal return reports the manifest's row count, deleted exactly the frozen row versions, and none of them is
      left then or ever after.  Quiet range or not. */
  lemma ReturnMeansFrozenSetGone(c: Setting, states: seq<State>, events: seq<Event>, i: nat, j: nat)
    requires CollisionFreeRun(c, states, events) && Init(states[0])
    requires i < |events| && events[i].FinishPrune? && i < j < |states|
    ensures states[i].trim.Deleting?
    ensures var t := states[i].trim;
            && states[i + 1].trim == Idle(Returned(t.manifest.rows, t.manifest.rows))
            && t.gone == t.frozen && |t.frozen| == t.manifest.rows
            && (forall id | id in t.frozen ::
                  && id !in states[j].rows
                  && exists row :: Removal(id, row, t.stem, t.plan.cutoff) in states[i + 1].removed)
  {
    hide CollisionFree, Accounted;
    RunKeepsInv(c, states, events, i);
    var t := states[i].trim;
    assert Step(c, states[i], events[i], states[i + 1]);
    SameSizeSubset(t.gone, t.frozen);
    forall id | id in t.frozen ensures id !in states[j].rows {
      RetiredIdsStayRetired(c, states, events, i, j, id);
    }
  }

  lemma SameSizeSubset(a: set<Id>, b: set<Id>)
    requires a <= b && |a| == |b|
    ensures a == b
  {
    var rest := b - a;
    assert b == a + rest;
    assert |rest| == 0;
  }

  /** What a completed prune deletes is, row for row, what was fingerprinted for its manifest. */
  lemma CompletedPruneDeletesPrinted(c: Setting, states: seq<State>, events: seq<Event>, i: nat, row: Row)
    requires CollisionFreeRun(c, states, events) && Init(states[0]) && i < |events| && events[i].FinishPrune?
    ensures states[i].trim.Deleting? && states[i].trim.stem in states[i].attested
    ensures var t := states[i].trim;
            row in states[i].attested[t.stem].printed
            <==> exists id :: id in t.frozen && Removal(id, row, t.stem, t.plan.cutoff) in states[i].removed
  {
    hide CollisionFree, ManifestsTrue, RemovalsOk;
    RunKeepsInv(c, states, events, i);
    ReturnMeansFrozenSetGone(c, states, events, i, i + 1);
    var s, t := states[i], states[i].trim;
    if row in s.attested[t.stem].printed {
      var id :| AccountsFor(s.rows, s.removed, t.stem, t.plan.cutoff, t.frozen, t.gone, id, row);
      assert id in t.frozen && Removal(id, row, t.stem, t.plan.cutoff) in s.removed;
    }
  }

  /** The exact condition for a busy range: every row a completed prune deletes is in the archive file if and only if
      the rows fingerprinted are all among those exported. */
  lemma CompletedPruneIsSafeIff(c: Setting, states: seq<State>, events: seq<Event>, i: nat)
    requires CollisionFreeRun(c, states, events) && Init(states[0]) && i < |events| && events[i].FinishPrune?
    ensures states[i].trim.Deleting? && states[i].trim.stem in states[i].attested
    ensures var (s, t) := (states[i], states[i].trim);
            var a := s.attested[t.stem];
            && t.manifest.file in s.files && s.files[t.manifest.file] == a.file
            && ((forall id, row | id in t.frozen && Removal(id, row, t.stem, t.plan.cutoff) in s.removed ::
                 row in a.file)
                <==> forall row | row in a.printed :: row in a.file)
  {
    hide CollisionFree, ManifestsTrue, RemovalsOk, TargetsOk, Accounted;
    RunKeepsInv(c, states, events, i);
    var s := states[i];
    assert Step(c, s, events[i], states[i + 1]);
    var t := s.trim;
    var a := s.attested[t.stem];
    forall row ensures row in a.printed
                       <==> exists id :: id in t.frozen && Removal(id, row, t.stem, t.plan.cutoff) in s.removed {
      CompletedPruneDeletesPrinted(c, states, events, i, row);
    }
  }

  /** The digest comparison is exact: without a hash collision it accepts just when the row versions still standing
      among the targets are, as a multiset, the rows fingerprinted at archive time, which with a quiet range are those
      in the file. */
  lemma ComparisonIsExact(c: Setting, s: State, scan: seq<Id>)
    requires Inv(c, s) && s.trim.Frozen? && Scans(scan, Live(s))
    requires NoDigestCollision(c, RowsAt(Live(s), scan), s.attested[s.trim.stem].printed)
    ensures var (live, a, file) := (RowsAt(Live(s), scan), s.attested[s.trim.stem], s.files[s.trim.manifest.file]);
            && (HexDigest(c.hash, live) == s.trim.manifest.fingerprint <==> multiset(live) == multiset(a.printed))
            && (Faithful(a) ==>
                  (HexDigest(c.hash, live) == s.trim.manifest.fingerprint <==> multiset(live) == multiset(file)))
  {
    hide RemovalsOk;
    var live, a := RowsAt(Live(s), scan), s.attested[s.trim.stem];
    assert Describes(c, s.trim.stem, s.trim.manifest, a);
    DigestTellsFigures(c.hash, live, a.printed);
    if multiset(live) == multiset(a.printed) {
      DigestIgnoresOrder(c.hash, live, a.printed);
    }
  }

  // ---- Whole histories: an archive lasts until its name is used again ----

  predicate Exports(e: Event, stem: Stem) {
    e.ExportRange? && e.file.stem == stem
  }

  /** No export in steps `i` up to `j` has this name. */
  predicate NotExported(events: seq<Event>, i: nat, j: nat, stem: Stem) {
    forall k | i <= k < j <= |events| :: !Exports(events[k], stem)
  }

  predicate Rewriting(t: Trimmer, stem: Stem) {
    (t.Exported? || t.Printed?) && t.file.stem == stem
  }

  /** The archive is complete: its file holds what its manifest was written for, and nothing is about to replace it. */
  predicate Stored(s: State, stem: Stem) {
    && stem in s.manifests && stem in s.attested && s.manifests[stem].file in s.files
    && s.files[s.manifests[stem].file] == s.attested[stem].file
    && !Rewriting(s.trim, stem)
  }

  predicate SameArchive(s: State, s': State, stem: Stem)
    requires Stored(s, stem)
  {
    && Stored(s', stem) && s'.manifests[stem] == s.manifests[stem] && s'.attested[stem] == s.attested[stem]
    && s'.files[s.manifests[stem].file] == s.files[s.manifests[stem].file]
  }

  lemma StepKeepsStored(c: Setting, s: State, e: Event, s': State, stem: Stem)
    requires Inv(c, s) && Step(c, s, e, s') && Stored(s, stem) && !Exports(e, stem)
    ensures SameArchive(s, s', stem)
  {
    hide Inv, Step, TrimStep;
    StepFrame(c, s, e, s');
    StepStartsNoRewrite(c, s, e, s', stem);
    if e.ExportRange? {
      ExportElsewhere(c, s, e, s', stem);
    } else if e.WriteManifest? {
      ManifestElsewhere(c, s, s', stem);
    }
  }

  lemma StepStartsNoRewrite(c: Setting, s: State, e: Event, s': State, stem: Stem)
    requires Step(c, s, e, s') && !Rewriting(s.trim, stem) && !Exports(e, stem)
    ensures !Rewriting(s'.trim, stem)
  {
    hide RangeOf, Scans, KeysOf, BatchState, HexDigest;
    if e.DeleteBatch? {
      StepFrame(c, s, e, s');
      BatchIsNoRewrite(c, s, e.picked, s', stem);
    } else if !e.Others? && !TrimStep(c, s, e, s') {
      ReadFrame(c, s, e, s');
    }
  }

  lemma ExportElsewhere(c: Setting, s: State, e: Event, s': State, stem: Stem)
    requires Inv(c, s) && TrimStep(c, s, e, s') && e.ExportRange? && Stored(s, stem) && e.file.stem != stem
    ensures s.manifests[stem].file in s'.files
    ensures s'.files[s.manifests[stem].file] == s.files[s.manifests[stem].file]
  {
    hide TrimOk, RemovalsOk, HexDigest, RangeOf, Scans;
    assert Describes(c, stem, s.manifests[stem], s.attested[stem]);
  }

  lemma ManifestElsewhere(c: Setting, s: State, s': State, stem: Stem)
    requires TrimStep(c, s, WriteManifest, s') && Stored(s, stem)
    ensures stem in s'.manifests && s'.manifests[stem] == s.manifests[stem]
    ensures stem in s'.attested && s'.attested[stem] == s.attested[stem]
  {
    hide HexDigest;
  }

  lemma BatchIsNoRewrite(c: Setting, s: State, picked: set<Id>, s': State, stem: Stem)
    requires BatchStep(c, s, picked, s')
    ensures !Rewriting(s'.trim, stem)
  {
  }

  /** A stored archive stays as it is, over any run, while no export has its name. */
  lemma {:induction false} RunGrowsArchives(c: Setting, states: seq<State>, events: seq<Event>, i: nat, j: nat,
                                            stem: Stem)
    requires CollisionFreeRun(c, states, events) && Init(states[0]) && i <= j < |states|
    requires Stored(states[i], stem) && NotExported(events, i, j, stem)
    ensures SameArchive(states[i], states[j], stem)
    decreases j
  {
    hide Step, CollisionFree, Inv, Init, Stored;
    if i < j {
      RunGrowsArchives(c, states, events, i, j - 1, stem);
      RunKeepsInv(c, states, events, j - 1);
      StepKeepsStored(c, states[j - 1], events[j - 1], states[j], stem);
    }
  }

  /** What the exporter can check beforehand: there is no manifest of that name. */
  predicate Unused(s: State, e: Event) {
    e.ExportRange? ==> e.file.stem !in s.manifests
  }

  ghost predicate FilesKept(s: State) {
    && (forall stem | stem in s.manifests :: Stored(s, stem))
    && LogHolds(s.attested, s.removed)
  }

  predicate LogHolds(attested: map<Stem, Attestation>, removed: set<Removal>) {
    forall r | r in removed :: r.stem in attested && r.row in attested[r.stem].printed
  }

  lemma StepKeepsFiles(c: Setting, s: State, e: Event, s': State)
    requires Inv(c, s) && FilesKept(s) && Step(c, s, e, s') && Unused(s, e)
    ensures FilesKept(s')
  {
    hide Inv, Step, Stored, LogHolds;
    forall stem | stem in s'.manifests ensures Stored(s', stem) {
      if stem in s.manifests {
        StepKeepsStored(c, s, e, s', stem);
      } else {
        NewManifestIsStored(c, s, e, s', stem);
      }
    }
    StepKeepsLog(c, s, e, s');
  }

  lemma NewManifestIsStored(c: Setting, s: State, e: Event, s': State, stem: Stem)
    requires Inv(c, s) && Step(c, s, e, s') && stem !in s.manifests && stem in s'.manifests
    ensures Stored(s', stem) && e.WriteManifest?
  {
    hide ManifestsTrue, RemovalsOk, HexDigest;
    StepFrame(c, s, e, s');
  }

  lemma StepKeepsLog(c: Setting, s: State, e: Event, s': State)
    requires Inv(c, s) && FilesKept(s) && Step(c, s, e, s')
    ensures LogHolds(s'.attested, s'.removed)
  {
    hide Step, Inv;
    StepFrame(c, s, e, s');
    if e.WriteManifest? {
      ManifestIsNew(c, s, s');
    } else if e.DeleteBatch? {
      BatchIsLogged(c, s, e.picked, s');
    }
  }

  lemma ManifestIsNew(c: Setting, s: State, s': State)
    requires Inv(c, s) && (forall stem | stem in s.manifests :: Stored(s, stem)) && TrimStep(c, s, WriteManifest, s')
    ensures s'.removed == s.removed
    ensures forall stem | stem in s.attested :: stem in s'.attested && s'.attested[stem] == s.attested[stem]
  {
    hide TrimOk, RemovalsOk, HexDigest, Describes;
    assert s.trim.file.stem in s.manifests ==> Stored(s, s.trim.file.stem);
  }

  lemma BatchIsLogged(c: Setting, s: State, picked: set<Id>, s': State)
    requires Inv(c, s) && LogHolds(s.attested, s.removed) && BatchStep(c, s, picked, s')
    ensures LogHolds(s'.attested, s'.removed)
  {
    hide ManifestsTrue, RemovalsOk, InDays, TargetsOk, Accounted, RemovalsOf, LogHolds;
    var t, hit := s.trim, picked * s.rows.Keys;
    forall id | id in hit ensures s.rows[id] in s.attested[t.stem].printed {
      TargetsInDays(c, s, id);
    }
    LogGrows(s.attested, s.removed, hit, s.rows, t.stem, t.plan.cutoff);
  }

  lemma LogGrows(attested: map<Stem, Attestation>, removed: set<Removal>, hit: set<Id>, rows: map<Id, Row>, stem: Stem,
                 cutoff: int)
    requires LogHolds(attested, removed) && stem in attested && hit <= rows.Keys
    requires forall id | id in hit :: rows[id] in attested[stem].printed
    ensures LogHolds(attested, removed + RemovalsOf(hit, rows, stem, cutoff))
  {
  }

  lemma InitKeepsFiles(s: State)
    requires Init(s)
    ensures FilesKept(s)
  {
  }

  /** While every export finds its name unused, all archives stay complete, and every row ever deleted is among those
      its archive's fingerprint was made of. */
  lemma {:induction false} RunKeepsFiles(c: Setting, states: seq<State>, events: seq<Event>, j: nat)
    requires CollisionFreeRun(c, states, events) && Init(states[0]) && j < |states|
    requires forall k | 0 <= k < j :: Unused(states[k], events[k])
    ensures FilesKept(states[j])
  {
    hide Step, CollisionFree, Inv, FilesKept, Init, Unused;
    if j == 0 {
      InitKeepsFiles(states[0]);
    } else {
      RunKeepsFiles(c, states, events, j - 1);
      RunKeepsInv(c, states, events, j - 1);
      StepKeepsFiles(c, states[j - 1], events[j - 1], states[j]);
    }
  }

  lemma DeletionKeepsArchive(c: Setting, states: seq<State>, events: seq<Event>, i: nat, id: Id)
    requires CollisionFreeRun(c, states, events) && Init(states[0]) && i < |events|
    requires id in states[i].rows && id !in states[i + 1].rows && !events[i].Others?
    ensures states[i].trim.Deleting?
    ensures var (stem, row) := (states[i].trim.stem, states[i].rows[id]);
            && Stored(states[i + 1], stem) && states[i + 1].manifests[stem] == states[i].trim.manifest
            && states[i + 1].attested == states[i].attested
            && (InArchive(c, states[i], row, stem) <==> InArchive(c, states[i + 1], row, stem))
            && (InArchive(c, states[i], row, stem) <==>
                  row in states[i + 1].files[states[i + 1].manifests[stem].file])
  {
    hide CollisionFree, Init, InArchive, ManifestsTrue, RemovalsOk, TargetsOk, Accounted, ReadStep, Faithful;
    RunKeepsInv(c, states, events, i);
    StepFrame(c, states[i], events[i], states[i + 1]);
    BatchDeletesArchivedRows(c, states[i], events[i].picked, states[i + 1], id);
  }

  /** Whole-history retention: over any sequence of archive and prune runs, finished or cut short anywhere, a row
      version the trimmer once deleted is in its checksummed archive for as long as no export has the archive's name,
      if it was there to begin with; and with a quiet range it was. */
  lemma DeletedRowsStayArchived(c: Setting, states: seq<State>, events: seq<Event>, i: nat, j: nat, id: Id)
    requires CollisionFreeRun(c, states, events) && Init(states[0]) && i < |events| && i < j < |states|
    requires id in states[i].rows && id !in states[i + 1].rows && !events[i].Others?
    requires states[i].trim.Deleting? ==> NotExported(events, i + 1, j, states[i].trim.stem)
    ensures states[i].trim.Deleting?
    ensures var (row, stem) := (states[i].rows[id], states[i].trim.stem);
            && (InArchive(c, states[j], row, stem) <==> InArchive(c, states[i], row, stem))
            && (MadeQuietly(states, events, i, stem) ==> InArchive(c, states[j], row, stem))
  {
    hide Step, CollisionFree, Inv, Init, Stored, InArchive, SameArchive, MadeQuietly, NotExported;
    PruneSafety(c, states, events, i, id);
    DeletionKeepsArchive(c, states, events, i, id);
    RunGrowsArchives(c, states, events, i + 1, j, states[i].trim.stem);
    SameArchiveHolds(c, states[i + 1], states[j], states[i].rows[id], states[i].trim.stem);
  }

  lemma SameArchiveHolds(c: Setting, s: State, s': State, row: Row, stem: Stem)
    requires Stored(s, stem) && SameArchive(s, s', stem)
    ensures InArchive(c, s', row, stem) <==> InArchive(c, s, row, stem)
  {
  }

  /** Where every archive gets a name of its own there is no such export, and so no end to it. */
  lemma {:induction false} FreshNamesAreNotReused(c: Setting, states: seq<State>, events: seq<Event>, i: nat, j: nat,
                                                  stem: Stem)
    requires c.freshNames && CollisionFreeRun(c, states, events) && Init(states[0]) && i <= j < |states|
    requires Stored(states[i], stem)
    ensures NotExported(events, i, j, stem)
    decreases j
  {
    hide Step, CollisionFree, Inv, Init, Stored;
    if i < j {
      FreshNamesAreNotReused(c, states, events, i, j - 1, stem);
      RunGrowsArchives(c, states, events, i, j - 1, stem);
      FreshExportIsNew(c, states[j - 1], events[j - 1], states[j], stem);
    }
  }

  lemma FreshExportIsNew(c: Setting, s: State, e: Event, s': State, stem: Stem)
    requires c.freshNames && Step(c, s, e, s') && Stored(s, stem)
    ensures !Exports(e, stem)
  {
    hide RangeOf, Scans, KeysOf;
    StepFrame(c, s, e, s');
  }

  lemma FreshNamesKeepDeletedRows(c: Setting, states: seq<State>, events: seq<Event>, i: nat, j: nat, id: Id)
    requires c.freshNames && CollisionFreeRun(c, states, events) && Init(states[0]) && i < |events| && i < j < |states|
    requires id in states[i].rows && id !in states[i + 1].rows && !events[i].Others?
    ensures states[i].trim.Deleting?
    ensures var (row, stem) := (states[i].rows[id], states[i].trim.stem);
            && (InArchive(c, states[j], row, stem) <==> InArchive(c, states[i], row, stem))
            && (MadeQuietly(states, events, i, stem) ==> InArchive(c, states[j], row, stem))
  {
    hide Step, CollisionFree, Inv, Init, Stored, InArchive, MadeQuietly, NotExported;
    DeletionKeepsArchive(c, states, events, i, id);
    FreshNamesAreNotReused(c, states, events, i + 1, j, states[i].trim.stem);
    DeletedRowsStayArchived(c, states, events, i, j, id);
  }

  /** Where a logged removal happened. */
  lemma {:induction false} RemovalComesFrom(c: Setting, states: seq<State>, events: seq<Event>, n: nat, r: Removal)
    returns (i: nat)
    requires Run(c, states, events) && Init(states[0]) && n < |states| && r in states[n].removed
    ensures i < n && RemovedAt(states, events, i, r)
  {
    hide Step;
    assert Step(c, states[n - 1], events[n - 1], states[n]);
    if r in states[n - 1].removed {
      i := RemovalComesFrom(c, states, events, n - 1, r);
    } else {
      i := n - 1;
      StepFrame(c, states[i], events[i], states[n]);
    }
  }

  /** Step `i` deletes this row version. */
  predicate RemovedAt(states: seq<State>, events: seq<Event>, i: nat, r: Removal) {
    && i < |events| && i + 1 < |states| && events[i].DeleteBatch? && states[i].trim.Deleting?
    && r.id in states[i].rows && r.id !in states[i + 1].rows && states[i].rows[r.id] == r.row
    && states[i].trim.stem == r.stem && r in states[i + 1].removed
  }

  /** The exact fate of a deleted row: its archive's file holds it at a later moment if and only if the last export into
      that file since found a row of the same content in the range, or there was none and the row was archived at its
      deletion. */
  lemma DeletedRowSurvivesIff(c: Setting, states: seq<State>, events: seq<Event>, i: nat, j: nat, id: Id)
    requires CollisionFreeRun(c, states, events) && Init(states[0]) && i < |events| && i < j < |states|
    requires id in states[i].rows && id !in states[i + 1].rows && !events[i].Others?
    ensures states[i].trim.Deleting? && states[i].trim.manifest.file in states[j].files
    ensures var (row, file) := (states[i].rows[id], states[i].trim.manifest.file);
            row in states[j].files[file] <==>
              match LastExport(events, i + 1, j, file)
              case None => InArchive(c, states[i], row, states[i].trim.stem)
              case Some(k) => InRange(states[k], file.stem, row)
    ensures MadeQuietly(states, events, i, states[i].trim.stem) ==>
              InArchive(c, states[i], states[i].rows[id], states[i].trim.stem)
  {
    hide Step, CollisionFree, Inv, Init, Exportable, MadeQuietly, InArchive;
    PruneSafety(c, states, events, i, id);
    DeletionKeepsArchive(c, states, events, i, id);
    var row, file := states[i].rows[id], states[i].trim.manifest.file;
    FileIsLastScan(c, states, events, i + 1, j, file);
    match LastExport(events, i + 1, j, file) {
      case None =>
      case Some(k) => ScanHolds(Exportable(states[k], file.stem), events[k].scan, row);
    }
  }
}
