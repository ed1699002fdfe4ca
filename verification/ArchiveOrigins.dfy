/** Where a file and a manifest come from: every file is the scan of the last export into it, every manifest was written
    for one file, and so behind each archive there is one export step.  Nothing here depends on the hash functions. */
module ArchiveOrigins {
  import opened Numerals
  import opened Digest
  import opened Retention

  // ---- What each kind of step leaves alone ----

  lemma TrimFrame(c: Setting, s: State, e: Event, s': State)
    requires TrimStep(c, s, e, s')
    ensures !e.DeleteBatch? ==> s'.rows == s.rows && s'.removed == s.removed
    ensures !e.ExportRange? ==> s'.files == s.files
    ensures !e.WriteManifest? ==> s'.manifests == s.manifests && s'.attested == s.attested
    ensures s'.used == s.used && s'.reader == s.reader
  {
  }

  lemma ReadFrame(c: Setting, s: State, e: Event, s': State)
    requires ReadStep(c, s, e, s')
    ensures s' == s.(reader := s'.reader)
  {
  }

  lemma StepFrame(c: Setting, s: State, e: Event, s': State)
    requires Step(c, s, e, s')
    ensures !e.DeleteBatch? && !e.Others? ==> s'.rows == s.rows
    ensures !e.DeleteBatch? ==> s'.removed == s.removed
    ensures !e.ExportRange? ==> s'.files == s.files
    ensures !e.WriteManifest? ==> s'.manifests == s.manifests && s'.attested == s.attested
    ensures s.used <= s'.used && (e.Others? || s'.used == s.used)
    ensures e.ExportRange? || e.WriteManifest? ==> TrimStep(c, s, e, s')
    ensures e.DeleteBatch? ==> BatchStep(c, s, e.picked, s')
  {
    if !e.Others? {
      if TrimStep(c, s, e, s') {
        TrimFrame(c, s, e, s');
      } else {
        ReadFrame(c, s, e, s');
      }
    }
  }

  // ---- The export behind a file ----

  /** The last step from `i` up to `j` that exports into this very file. */
  function LastExport(events: seq<Event>, i: nat, j: nat, file: FileName): (k: Option<nat>)
    requires i <= j <= |events|
    ensures k.Some? ==> i <= k.value < j && events[k.value].ExportRange? && events[k.value].file == file
    decreases j
  {
    if i == j then None
    else if events[j - 1].ExportRange? && events[j - 1].file == file then Some(j - 1)
    else LastExport(events, i, j - 1, file)
  }

  /** The rows that an export under this name reads. */
  function Exportable(s: State, stem: Stem): map<Id, Row> {
    RangeOf(s.rows, stem.from, stem.to)
  }

  /** A row of this content is in the range. */
  predicate InRange(s: State, stem: Stem, row: Row) {
    exists id :: id in Exportable(s, stem) && Exportable(s, stem)[id] == row
  }

  /** An export leaves its file holding exactly its own scan, whatever the file held before. */
  lemma ExportOverwrites(c: Setting, s: State, e: Event, s': State)
    requires Step(c, s, e, s') && e.ExportRange?
    ensures Scans(e.scan, Exportable(s, e.file.stem))
    ensures s'.files == s.files[e.file := RowsAt(Exportable(s, e.file.stem), e.scan)]
  {
    hide RangeOf, Scans;
  }

  /** So a row that has left the range leaves a file whose name is used again: the guard against it is to look for the
      name. */
  lemma ReuseDropsRow(c: Setting, s: State, e: Event, s': State, row: Row)
    requires Step(c, s, e, s') && e.ExportRange?
    ensures e.file in s'.files
    ensures row in s'.files[e.file] <==> InRange(s, e.file.stem, row)
  {
    hide Step, Exportable, Scans, RowsAt;
    ExportOverwrites(c, s, e, s');
    ScanHolds(Exportable(s, e.file.stem), e.scan, row);
  }

  /** A file holds exactly the scan of the last export into it. */
  lemma {:induction false} FileIsLastScan(c: Setting, states: seq<State>, events: seq<Event>, i: nat, j: nat,
                                          file: FileName)
    requires Run(c, states, events) && i <= j < |states|
    ensures match LastExport(events, i, j, file)
            case None => (file in states[j].files <==> file in states[i].files)
                         && (file in states[i].files ==> states[j].files[file] == states[i].files[file])
            case Some(k) =>
              && Scans(events[k].scan, Exportable(states[k], file.stem))
              && file in states[j].files
              && states[j].files[file] == RowsAt(Exportable(states[k], file.stem), events[k].scan)
    decreases j
  {
    hide Step, Scans, Exportable, RowsAt;
    if i < j {
      var s, e, s' := states[j - 1], events[j - 1], states[j];
      FileIsLastScan(c, states, events, i, j - 1, file);
      StepFrame(c, s, e, s');
      if e.ExportRange? {
        ExportOverwrites(c, s, e, s');
      }
    }
  }

  lemma ScanHolds(rows: map<Id, Row>, scan: seq<Id>, row: Row)
    requires Scans(scan, rows)
    ensures row in RowsAt(rows, scan) <==> exists id :: id in rows && rows[id] == row
  {
    if id :| id in rows && rows[id] == row {
      assert id in scan;
      var i :| 0 <= i < |scan| && scan[i] == id;
      assert RowsAt(rows, scan)[i] == row;
    }
    if row in RowsAt(rows, scan) {
      var i :| 0 <= i < |scan| && RowsAt(rows, scan)[i] == row;
      assert scan[i] in scan;
    }
  }

  // ---- The export behind a manifest ----

  predicate Manifests(s: State, e: Event, stem: Stem) {
    e.WriteManifest? && s.trim.Printed? && s.trim.file.stem == stem
  }

  /** The last step before `j` that writes a manifest under this name. */
  function LastManifest(states: seq<State>, events: seq<Event>, j: nat, stem: Stem): (k: Option<nat>)
    requires j <= |events| < |states|
    ensures k.Some? ==> k.value < j && Manifests(states[k.value], events[k.value], stem)
    ensures forall m | (if k.Some? then k.value + 1 else 0) <= m < j :: !Manifests(states[m], events[m], stem)
    decreases j
  {
    if j == 0 then None
    else if Manifests(states[j - 1], events[j - 1], stem) then Some(j - 1)
    else LastManifest(states, events, j - 1, stem)
  }

  /** The export step behind the manifest that stands under this name at step `j`. */
  function MadeFrom(states: seq<State>, events: seq<Event>, j: nat, stem: Stem): (x: Option<nat>)
    requires j <= |events| < |states|
    ensures x.Some? ==> x.value < j && events[x.value].ExportRange?
  {
    match LastManifest(states, events, j, stem)
    case None => None
    case Some(k) => LastExport(events, 0, k, states[k].trim.file)
  }

  lemma WriteAttests(c: Setting, s: State, e: Event, s': State, stem: Stem)
    requires Step(c, s, e, s')
    ensures if Manifests(s, e, stem)
            then s.trim.file in s.files && stem in s'.attested
                 && s'.attested[stem] == Attestation(s.files[s.trim.file], s.trim.printed)
            else (stem in s'.attested <==> stem in s.attested)
                 && (stem in s.attested ==> s'.attested[stem] == s.attested[stem])
  {
    hide HexDigest;
    StepFrame(c, s, e, s');
  }

  /** What is attested under a name is what the last manifest of that name was written for. */
  lemma {:induction false} AttestedIsLastManifest(c: Setting, states: seq<State>, events: seq<Event>, j: nat,
                                                  stem: Stem)
    requires Run(c, states, events) && Init(states[0]) && j < |states|
    ensures match LastManifest(states, events, j, stem)
            case None => stem !in states[j].attested
            case Some(k) =>
              && states[k].trim.file in states[k].files && stem in states[j].attested
              && states[j].attested[stem]
                 == Attestation(states[k].files[states[k].trim.file], states[k].trim.printed)
    decreases j
  {
    hide Step, Manifests;
    if j > 0 {
      AttestedIsLastManifest(c, states, events, j - 1, stem);
      WriteAttests(c, states[j - 1], events[j - 1], states[j], stem);
    }
  }

  /** An archive was made from what its range held at one export step. */
  lemma ArchiveIsExport(c: Setting, states: seq<State>, events: seq<Event>, j: nat, stem: Stem)
    requires Run(c, states, events) && Init(states[0]) && j < |states|
    ensures match MadeFrom(states, events, j, stem)
            case None => stem !in states[j].attested
            case Some(x) =>
              && stem in states[j].attested && Scans(events[x].scan, Exportable(states[x], stem))
              && states[j].attested[stem].file == RowsAt(Exportable(states[x], stem), events[x].scan)
  {
    hide Step, Scans, RowsAt, Exportable;
    AttestedIsLastManifest(c, states, events, j, stem);
    match LastManifest(states, events, j, stem) {
      case None =>
      case Some(k) => FileIsLastScan(c, states, events, 0, k, states[k].trim.file);
    }
  }

  // ---- Quiet ranges ----

  predicate InMaking(t: Trimmer) {
    t.Exported? || t.Printed?
  }

  /** What a quiet range adds: the table still holds what was exported, and then the fingerprint is that of the very
      rows in the file. */
  ghost predicate QuietSoFar(t: Trimmer, rows: map<Id, Row>, files: map<FileName, seq<Row>>) {
    match t
    case Exported(plan, _, file, scan) =>
      var range := RangeOf(rows, plan.from, plan.to);
      Scans(scan, range) && file in files && files[file] == RowsAt(range, scan)
    case Printed(_, _, file, _, printed) => file in files && multiset(files[file]) == multiset(printed)
    case _ => true
  }

  lemma ExportStartsQuiet(c: Setting, s: State, e: Event, s': State)
    requires e.ExportRange? && TrimStep(c, s, e, s')
    ensures s'.trim.Exported? && s'.trim.file == e.file && QuietSoFar(s'.trim, s'.rows, s'.files)
  {
    hide RangeOf, Scans;
  }

  lemma FingerprintStaysQuiet(c: Setting, s: State, e: Event, s': State)
    requires e.FingerprintRange? && TrimStep(c, s, e, s') && QuietSoFar(s.trim, s.rows, s.files)
    ensures QuietSoFar(s'.trim, s'.rows, s'.files)
  {
    hide HexDigest;
    ScansAgree(RangeOf(s.rows, s.trim.plan.from, s.trim.plan.to), s.trim.scan, e.scan);
  }

  lemma OthersStayQuiet(c: Setting, s: State, e: Event, s': State)
    requires e.Others? && Step(c, s, e, s') && QuietSoFar(s.trim, s.rows, s.files) && Quiet(s, e)
    ensures QuietSoFar(s'.trim, s'.rows, s'.files)
  {
    hide RangeOf, Scans;
  }

  /** A step that leaves an archive in the making continues the one before, unless it exports. */
  lemma MakingContinues(c: Setting, s: State, e: Event, s': State)
    requires Step(c, s, e, s') && InMaking(s'.trim) && !e.ExportRange?
    ensures InMaking(s.trim) && s.trim.file == s'.trim.file
    ensures if e.FingerprintRange? then TrimStep(c, s, e, s') else s'.trim == s.trim && s'.files == s.files
    ensures !e.FingerprintRange? && !e.Others? ==> s'.rows == s.rows
  {
    hide RangeOf, Scans, HexDigest;
    StepFrame(c, s, e, s');
  }

  lemma {:induction false} MakingStaysQuiet(c: Setting, states: seq<State>, events: seq<Event>, k: nat)
    requires Run(c, states, events) && Init(states[0]) && k < |states| && InMaking(states[k].trim)
    ensures LastExport(events, 0, k, states[k].trim.file).Some?
    ensures QuietFrom(states, events, LastExport(events, 0, k, states[k].trim.file).value + 1, k) ==>
              QuietSoFar(states[k].trim, states[k].rows, states[k].files)
  {
    hide Step, Quiet, QuietSoFar;
    var s, e, s' := states[k - 1], events[k - 1], states[k];
    assert Step(c, s, e, s');
    StepFrame(c, s, e, s');
    if e.ExportRange? {
      ExportStartsQuiet(c, s, e, s');
    } else {
      MakingContinues(c, s, e, s');
      MakingStaysQuiet(c, states, events, k - 1);
      var x := LastExport(events, 0, k, s'.trim.file).value;
      if QuietFrom(states, events, x + 1, k) {
        assert QuietFrom(states, events, x + 1, k - 1) && Quiet(s, e);
        if e.FingerprintRange? {
          FingerprintStaysQuiet(c, s, e, s');
        } else if e.Others? {
          OthersStayQuiet(c, s, e, s');
        }
      }
    }
  }

  ghost predicate QuietFrom(states: seq<State>, events: seq<Event>, i: nat, j: nat) {
    forall m | i <= m < j <= |events| < |states| :: Quiet(states[m], events[m])
  }

  /** Nobody else touched the range while the archive that stands under this name at step `j` was made. */
  ghost predicate MadeQuietly(states: seq<State>, events: seq<Event>, j: nat, stem: Stem)
    requires j <= |events| < |states|
  {
    var (k, x) := (LastManifest(states, events, j, stem), MadeFrom(states, events, j, stem));
    x.Some? ==> QuietFrom(states, events, x.value + 1, k.value)
  }

  /** The fingerprint is that of the very rows in the file. */
  predicate Faithful(a: Attestation) {
    multiset(a.file) == multiset(a.printed)
  }

  lemma FaithfulHolds(a: Attestation)
    requires Faithful(a)
    ensures forall row :: row in a.printed <==> row in a.file
  {
    forall row ensures row in a.printed <==> row in a.file {
      assert row in multiset(a.printed) <==> row in multiset(a.file);
    }
  }

  lemma QuietArchiveIsFaithful(c: Setting, states: seq<State>, events: seq<Event>, j: nat, stem: Stem)
    requires Run(c, states, events) && Init(states[0]) && j < |states| && MadeQuietly(states, events, j, stem)
    ensures stem in states[j].attested ==> Faithful(states[j].attested[stem])
  {
    hide Step, Quiet, QuietFrom;
    AttestedIsLastManifest(c, states, events, j, stem);
    match LastManifest(states, events, j, stem) {
      case None =>
      case Some(k) => MakingStaysQuiet(c, states, events, k);
    }
  }
}
