/** `scripts/analysis_history.py`: `sync` reads the hot table first and lists the archives second, then `build` keeps
    one row per primary key.  The trimmer and every other writer run on while it reads. */
module HistoryReader {
  import opened Numerals
  import opened Digest
  import opened Retention
  import opened ArchiveOrigins
  import opened RetentionSafety

  // ---- Nothing hides from a reader that reads hot rows before it lists archives ----

  /** Some manifest was written for a file with this key. */
  ghost predicate KeyArchived(attested: map<Stem, Attestation>, key: string) {
    exists stem :: stem in attested && HasKey(attested[stem].file, key)
  }

  /** Where a key that the sync started with is: hot, exported, archived, or dropped by somebody else. */
  ghost predicate ReaderKnows(s: State, key: string) {
    match s.reader
    case NotReading => true
    case Started(keys, dropped) =>
      key in keys ==> key in KeysOf(s.rows) || key in dropped || KeyArchived(s.attested, key)
    case HotRead(keys, dropped, hot) =>
      key in keys ==> HasKey(hot, key) || key in dropped || KeyArchived(s.attested, key)
    case Listed(keys, dropped, hot, _, truths, _, _) =>
      key in keys ==> HasKey(hot, key) || key in dropped || KeyArchived(truths, key)
    case Synced(keys, dropped, hot, _, truths, _) =>
      key in keys ==> HasKey(hot, key) || key in dropped || KeyArchived(truths, key)
  }

  /** Before the archives are listed, no manifest with this key is replaced by one without. */
  ghost predicate ReplacesWell(s: State, e: Event, key: string) {
    (s.reader.Started? || s.reader.HotRead?) && e.WriteManifest? && s.trim.Printed? && s.trim.file in s.files
    && s.trim.file.stem in s.attested && HasKey(s.attested[s.trim.file.stem].file, key)
    ==> HasKey(s.files[s.trim.file], key)
  }

  /** A manifest written under a used name takes the place of the old one, and of its keys. */
  lemma ReplacementForgets(c: Setting, s: State, s': State, key: string)
    requires TrimStep(c, s, WriteManifest, s')
    ensures KeyArchived(s'.attested, key) <==>
              || HasKey(s.files[s.trim.file], key)
              || exists stem :: stem in s.attested && stem != s.trim.file.stem && HasKey(s.attested[stem].file, key)
  {
    hide HexDigest, HasKey;
    assert s'.attested[s.trim.file.stem].file == s.files[s.trim.file];
    if stem :| stem in s.attested && stem != s.trim.file.stem && HasKey(s.attested[stem].file, key) {
      assert s'.attested[stem].file == s.attested[stem].file;
    }
  }

  lemma ManifestKeepsReader(c: Setting, s: State, s': State, key: string)
    requires ReaderKnows(s, key) && ReplacesWell(s, WriteManifest, key) && TrimStep(c, s, WriteManifest, s')
    ensures ReaderKnows(s', key)
  {
    hide HasKey, HexDigest, KeyArchived;
    TrimFrame(c, s, WriteManifest, s');
    ReplacementForgets(c, s, s', key);
    ArchivedSomewhere(s.attested, s.trim.file.stem, key);
  }

  lemma ArchivedSomewhere(attested: map<Stem, Attestation>, stem: Stem, key: string)
    ensures KeyArchived(attested, key) <==>
              || (stem in attested && HasKey(attested[stem].file, key))
              || exists other :: other in attested && other != stem && HasKey(attested[other].file, key)
  {
    hide HasKey;
  }

  predicate DropsKey(s: State, s': State, key: string) {
    key in KeysOf(s.rows) && key !in KeysOf(s'.rows)
  }

  /** A batch takes a key out of the table only into its archive, if that was made from a quiet range. */
  lemma BatchKeepsReader(c: Setting, s: State, picked: set<Id>, s': State, key: string)
    requires Inv(c, s) && ReaderKnows(s, key) && BatchStep(c, s, picked, s') && s.trim.stem in s.attested
    requires DropsKey(s, s', key) ==> Faithful(s.attested[s.trim.stem])
    ensures ReaderKnows(s', key)
  {
    hide Inv, HasKey, BatchStep, KeyArchived, Faithful;
    BatchFrame(c, s, picked, s');
    if s.reader.Started? && key in KeysOf(s.rows) && key !in KeysOf(s'.rows) {
      var id :| id in s.rows && s.rows[id].key == key;
      DeletedKeyIsArchived(c, s, picked, s', id);
    }
  }

  lemma BatchFrame(c: Setting, s: State, picked: set<Id>, s': State)
    requires BatchStep(c, s, picked, s')
    ensures s'.reader == s.reader && s'.attested == s.attested
    ensures forall id | id in s.rows && id in s'.rows :: s'.rows[id] == s.rows[id]
  {
  }

  lemma DeletedKeyIsArchived(c: Setting, s: State, picked: set<Id>, s': State, id: Id)
    requires Inv(c, s) && BatchStep(c, s, picked, s') && id in s.rows && id !in s'.rows
    requires s.trim.stem in s.attested && Faithful(s.attested[s.trim.stem])
    ensures KeyArchived(s.attested, s.rows[id].key)
  {
    hide Inv, Faithful, InArchive;
    BatchDeletesArchivedRows(c, s, picked, s', id);
    var file, row := s.attested[s.trim.stem].file, s.rows[id];
    var i :| 0 <= i < |file| && file[i] == row;
    assert HasKey(file, row.key);
  }

  lemma OthersKeepReader(c: Setting, s: State, e: Event, s': State, key: string)
    requires ReaderKnows(s, key) && e.Others? && Step(c, s, e, s')
    ensures ReaderKnows(s', key)
  {
    hide HasKey, KeyArchived, KeysOf;
  }

  lemma TrimKeepsReader(c: Setting, s: State, e: Event, s': State, key: string)
    requires ReaderKnows(s, key) && TrimStep(c, s, e, s') && !e.WriteManifest? && !e.DeleteBatch?
    ensures ReaderKnows(s', key)
  {
    hide TrimStep, HasKey, KeyArchived, KeysOf;
    TrimFrame(c, s, e, s');
  }

  lemma ExportHotKeepsReader(c: Setting, s: State, e: Event, s': State, key: string)
    requires ReaderKnows(s, key) && e.ExportHot? && ReadStep(c, s, e, s')
    ensures ReaderKnows(s', key)
  {
    hide KeyArchived;
    if key in KeysOf(s.rows) {
      var id :| id in s.rows && s.rows[id].key == key;
      assert id in e.scan;
      var i :| 0 <= i < |e.scan| && e.scan[i] == id;
      assert RowsAt(s.rows, e.scan)[i].key == key;
    }
  }

  lemma ListKeepsReader(c: Setting, s: State, e: Event, s': State, key: string)
    requires ReaderKnows(s, key) && e.ListArchives? && ReadStep(c, s, e, s')
    ensures ReaderKnows(s', key)
  {
    hide HasKey, KeyArchived;
  }

  lemma ReadKeepsReader(c: Setting, s: State, e: Event, s': State, key: string)
    requires ReaderKnows(s, key) && ReadStep(c, s, e, s')
    ensures ReaderKnows(s', key)
  {
    hide HasKey, KeyArchived;
    match e
    case ExportHot(_) => ExportHotKeepsReader(c, s, e, s', key);
    case ListArchives(_) => ListKeepsReader(c, s, e, s', key);
    case _ =>
  }

  lemma StepKeepsReader(c: Setting, s: State, e: Event, s': State, key: string)
    requires Inv(c, s) && ReaderKnows(s, key) && Step(c, s, e, s') && ReplacesWell(s, e, key)
    requires e.DeleteBatch? && DropsKey(s, s', key) ==>
               s.trim.Deleting? && s.trim.stem in s.attested && Faithful(s.attested[s.trim.stem])
    ensures ReaderKnows(s', key)
  {
    hide TrimStep, ReadStep, Inv, ReaderKnows, ReplacesWell, Interferes, Faithful, DropsKey;
    if e.Others? {
      OthersKeepReader(c, s, e, s', key);
    } else if ReadStep(c, s, e, s') {
      ReadKeepsReader(c, s, e, s', key);
    } else if e.WriteManifest? {
      ManifestKeepsReader(c, s, s', key);
    } else if e.DeleteBatch? {
      StepFrame(c, s, e, s');
      DeletingIsAttested(c, s);
      BatchKeepsReader(c, s, e.picked, s', key);
    } else {
      TrimKeepsReader(c, s, e, s', key);
    }
  }

  lemma StartKnows(c: Setting, s: State, s': State, key: string)
    requires Step(c, s, StartSync, s')
    ensures ReaderKnows(s', key)
  {
    hide KeyArchived, KeysOf;
  }

  lemma DeletingIsAttested(c: Setting, s: State)
    requires Inv(c, s) && s.trim.Deleting?
    ensures s.trim.stem in s.attested
  {
    hide ManifestsTrue, RemovalsOk, TargetsOk, Accounted;
  }

  /** A batch that takes the last row of this key out of the table has an archive made from a quiet range. */
  ghost predicate DropsQuietly(states: seq<State>, events: seq<Event>, k: nat, key: string)
    requires k < |events| < |states|
  {
    events[k].DeleteBatch? && states[k].trim.Deleting? && DropsKey(states[k], states[k + 1], key) ==>
      MadeQuietly(states, events, k, states[k].trim.stem)
  }

  lemma QuietDropIsFaithful(c: Setting, states: seq<State>, events: seq<Event>, k: nat, key: string)
    requires Run(c, states, events) && Init(states[0]) && k < |events| && Inv(c, states[k])
    requires DropsQuietly(states, events, k, key) && events[k].DeleteBatch? && DropsKey(states[k], states[k + 1], key)
    ensures var s := states[k]; s.trim.Deleting? && s.trim.stem in s.attested && Faithful(s.attested[s.trim.stem])
  {
    hide Inv, Init, MadeQuietly, Faithful, DropsKey;
    StepFrame(c, states[k], events[k], states[k + 1]);
    DeletingIsAttested(c, states[k]);
    QuietArchiveIsFaithful(c, states, events, k, states[k].trim.stem);
  }

  /** From the start of a sync on, each key it started with stays known to it, unless a manifest with the key is
      replaced by one without before the archives are listed. */
  lemma {:induction false} RunKeepsReader(c: Setting, states: seq<State>, events: seq<Event>, b: nat, i: nat,
                                          key: string)
    requires CollisionFreeRun(c, states, events) && Init(states[0]) && b < i < |states| && events[b].StartSync?
    requires forall k | b < k < i :: ReplacesWell(states[k], events[k], key) && DropsQuietly(states, events, k, key)
    ensures ReaderKnows(states[i], key)
  {
    hide Step, CollisionFree, Inv, ReaderKnows, Init, ReplacesWell, DropsQuietly, Faithful, DropsKey;
    assert Step(c, states[i - 1], events[i - 1], states[i]);
    if b == i - 1 {
      StartKnows(c, states[b], states[i], key);
    } else {
      RunKeepsReader(c, states, events, b, i - 1, key);
      RunKeepsInv(c, states, events, i - 1);
      if events[i - 1].DeleteBatch? && DropsKey(states[i - 1], states[i], key) {
        QuietDropIsFaithful(c, states, events, i - 1, key);
      }
      StepKeepsReader(c, states[i - 1], events[i - 1], states[i], key);
    }
  }

  // ---- What a listing leads to ----

  /** Every listed manifest states name and checksum of the file it was written for. */
  ghost predicate ListingTrue(c: Setting, listing: map<Stem, Manifest>, truths: map<Stem, Attestation>) {
    && listing.Keys == truths.Keys
    && forall stem | stem in listing ::
         listing[stem].file.stem == stem && listing[stem].sha == c.sha(truths[stem].file)
  }

  /** One of these manifests is for this file; a file's name says which it could be. */
  predicate Names(listing: map<Stem, Manifest>, stems: set<Stem>, f: FileName) {
    f.stem in stems && f.stem in listing && listing[f.stem].file == f
  }

  /** The local directory is what was found in it, overlaid with the files the manifests of `stems` were written
      for. */
  ghost predicate LocalFrom(listing: map<Stem, Manifest>, truths: map<Stem, Attestation>,
                            found: map<FileName, seq<Row>>, local: map<FileName, seq<Row>>, stems: set<Stem>) {
    && stems <= listing.Keys == truths.Keys
    && (forall f :: f in local <==> Names(listing, stems, f) || f in found)
    && (forall f | f in local ::
          local[f] == if Names(listing, stems, f) then truths[f.stem].file else found[f])
  }

  predicate HasListed(r: Reader) {
    r.Listed? || r.Synced?
  }

  /** The reader's data come from the listing it made in state `listed` beside the local files `found`. */
  ghost predicate SyncFrom(c: Setting, r: Reader, listed: State, found: map<FileName, seq<Row>>) {
    && HasListed(r) && listed.reader.HotRead? && r.hot == listed.reader.hot
    && r.listing == listed.manifests && r.truths == listed.attested && ListingTrue(c, r.listing, r.truths)
    && LocalFrom(r.listing, r.truths, found, r.local, if r.Listed? then r.fetched else r.listing.Keys)
  }

  lemma ListStarts(c: Setting, s: State, e: Event, s': State)
    requires Inv(c, s) && e.ListArchives? && ReadStep(c, s, e, s')
    ensures SyncFrom(c, s'.reader, s, e.local)
  {
    hide TrimOk, RemovalsOk, HexDigest;
  }

  /** A body with the listed checksum is the file the manifest was written for, wherever it came from. */
  lemma FetchKeepsSync(c: Setting, s: State, e: Event, s': State, listed: State, found: map<FileName, seq<Row>>)
    requires e.FetchArchive? && ReadStep(c, s, e, s') && CollisionFree(c, s, e) && SyncFrom(c, s.reader, listed, found)
    ensures SyncFrom(c, s'.reader, listed, found)
  {
    assert e.body == s.reader.truths[e.stem].file;
  }

  lemma TrimIsNoRead(c: Setting, s: State, e: Event, s': State)
    requires TrimStep(c, s, e, s')
    ensures !e.ExportHot? && !e.ListArchives? && !e.StartSync?
  {
  }

  lemma StepKeepsSync(c: Setting, s: State, e: Event, s': State, listed: State, found: map<FileName, seq<Row>>)
    requires Step(c, s, e, s') && CollisionFree(c, s, e) && HasListed(s'.reader) && !e.ListArchives?
    ensures HasListed(s.reader) && !e.ExportHot? && !e.StartSync?
    ensures SyncFrom(c, s.reader, listed, found) ==> SyncFrom(c, s'.reader, listed, found)
  {
    hide TrimStep, LocalFrom, ListingTrue, CollisionFree, KeysOf;
    if !e.Others? && TrimStep(c, s, e, s') {
      TrimFrame(c, s, e, s');
      TrimIsNoRead(c, s, e, s');
    } else if e.FetchArchive? && SyncFrom(c, s.reader, listed, found) {
      FetchKeepsSync(c, s, e, s', listed, found);
    }
  }

  /** The step at which a reader listed the archives. */
  lemma {:induction false} ListedAt(c: Setting, states: seq<State>, events: seq<Event>, i: nat) returns (l: nat)
    requires CollisionFreeRun(c, states, events) && Init(states[0]) && i < |states| && HasListed(states[i].reader)
    ensures l < i && events[l].ListArchives? && SyncFrom(c, states[i].reader, states[l], events[l].local)
    ensures forall k | l < k < i :: !events[k].ListArchives? && !events[k].ExportHot? && !events[k].StartSync?
  {
    hide Step, CollisionFree, Inv, SyncFrom;
    var s, e, s' := states[i - 1], events[i - 1], states[i];
    assert Step(c, s, e, s') && CollisionFree(c, s, e);
    if e.ListArchives? {
      l := i - 1;
      RunKeepsInv(c, states, events, l);
      ListIsRead(c, s, e, s');
      ListStarts(c, s, e, s');
    } else {
      StepKeepsSync(c, s, e, s', s, map[]);
      l := ListedAt(c, states, events, i - 1);
      StepKeepsSync(c, s, e, s', states[l], events[l].local);
    }
  }

  lemma ListIsRead(c: Setting, s: State, e: Event, s': State)
    requires Step(c, s, e, s') && (e.ListArchives? || e.ExportHot?)
    ensures ReadStep(c, s, e, s')
  {
  }

  /** The step at which it had exported the hot table. */
  lemma {:induction false} HotReadAt(c: Setting, states: seq<State>, events: seq<Event>, l: nat) returns (h: nat)
    requires Run(c, states, events) && Init(states[0]) && l < |states| && states[l].reader.HotRead?
    ensures h < l && events[h].ExportHot? && Scans(events[h].scan, states[h].rows)
    ensures states[l].reader.hot == RowsAt(states[h].rows, events[h].scan)
    ensures forall k | h < k < l :: !events[k].ListArchives? && !events[k].ExportHot? && !events[k].StartSync?
  {
    hide Step, Scans, RowsAt;
    var s, e, s' := states[l - 1], events[l - 1], states[l];
    assert Step(c, s, e, s');
    HotReadContinues(c, s, e, s');
    if e.ExportHot? {
      h := l - 1;
    } else {
      h := HotReadAt(c, states, events, l - 1);
    }
  }

  lemma HotReadContinues(c: Setting, s: State, e: Event, s': State)
    requires Step(c, s, e, s') && s'.reader.HotRead?
    ensures if e.ExportHot?
            then Scans(e.scan, s.rows) && s'.reader.hot == RowsAt(s.rows, e.scan)
            else s.reader.HotRead? && s'.reader.hot == s.reader.hot && !e.ListArchives? && !e.StartSync?
  {
    hide TrimStep, Scans, KeysOf;
    if !e.Others? && TrimStep(c, s, e, s') {
      TrimFrame(c, s, e, s');
      TrimIsNoRead(c, s, e, s');
    }
  }

  // ---- Build: one row per key, hot rows win, then the archive with the greatest name ----

  /** The relation read by `build`: archives in ascending file-name order, the hot export last, later rows winning. */
  function Overlay(history: map<string, Row>, rows: seq<Row>): map<string, Row>
    decreases |rows|
  {
    if rows == [] then history
    else Overlay(history, rows[..|rows| - 1])[rows[|rows| - 1].key := rows[|rows| - 1]]
  }

  function OverlayAll(archives: seq<seq<Row>>): map<string, Row> {
    if archives == [] then map[] else Overlay(OverlayAll(archives[..|archives| - 1]), archives[|archives| - 1])
  }

  function Build(archives: seq<seq<Row>>, hot: seq<Row>): map<string, Row> {
    Overlay(OverlayAll(archives), hot)
  }

  lemma {:induction false} OverlayKeeps(history: map<string, Row>, rows: seq<Row>, key: string)
    ensures key in Overlay(history, rows) <==> key in history || HasKey(rows, key)
    ensures HasKey(rows, key) ==> Overlay(history, rows)[key] in rows && Overlay(history, rows)[key].key == key
    ensures !HasKey(rows, key) && key in history ==> Overlay(history, rows)[key] == history[key]
    decreases |rows|
  {
    if rows != [] {
      var front, last := rows[..|rows| - 1], rows[|rows| - 1];
      OverlayKeeps(history, front, key);
      if HasKey(front, key) {
        var i :| 0 <= i < |front| && front[i].key == key;
        assert rows[i].key == key;
      }
      assert last.key == rows[|rows| - 1].key;
    }
  }

  /** `build` has exactly one row for each key of its sources.  It comes from the hot export if that has the key,
      and otherwise from the last archive, in name order, that has it. */
  lemma {:induction false} BuildKeepsOneRowPerKey(archives: seq<seq<Row>>, hot: seq<Row>, key: string)
    ensures key in Build(archives, hot)
            <==> HasKey(hot, key) || exists i | 0 <= i < |archives| :: HasKey(archives[i], key)
    ensures HasKey(hot, key) ==> Build(archives, hot)[key] in hot
    ensures !HasKey(hot, key) ==>
              forall i | 0 <= i < |archives| && HasKey(archives[i], key)
                         && forall j | i < j < |archives| :: !HasKey(archives[j], key) ::
                Build(archives, hot)[key] in archives[i]
    ensures key in Build(archives, hot) ==> Build(archives, hot)[key].key == key
    decreases |archives|
  {
    OverlayKeeps(OverlayAll(archives), hot, key);
    if archives != [] {
      var front, last := archives[..|archives| - 1], archives[|archives| - 1];
      BuildKeepsOneRowPerKey(front, [], key);
      OverlayKeeps(OverlayAll(front), [], key);
      OverlayKeeps(OverlayAll(front), last, key);
      assert forall i | 0 <= i < |front| :: archives[i] == front[i];
      assert archives[|archives| - 1] == last;
    }
  }

  /** Every file in the local archive directory, listed just now or left from before, in the order of `names`. */
  ghost predicate ArchiveOrder(s: State, names: seq<FileName>, archives: seq<seq<Row>>)
    requires s.reader.Synced?
  {
    && |names| == |archives|
    && (forall name :: name in names <==> name in s.reader.local)
    && (forall i | 0 <= i < |names| :: names[i] in s.reader.local && archives[i] == s.reader.local[names[i]])
  }

  ghost predicate KeepsKey(s: State, e: Event, s': State, key: string) {
    e.Others? && key in KeysOf(s.rows) ==> key in KeysOf(s'.rows)
  }

  lemma StepKeepsReaderKeys(c: Setting, s: State, e: Event, s': State, key: string)
    requires Step(c, s, e, s') && KeepsKey(s, e, s', key) && !s'.reader.NotReading?
    ensures e.StartSync? ==> s'.reader.keys == KeysOf(s.rows) && s'.reader.dropped == {}
    ensures !e.StartSync? ==>
              && !s.reader.NotReading? && s'.reader.keys == s.reader.keys
              && (key !in s.reader.dropped ==> key !in s'.reader.dropped)
  {
    hide KeysOf, RangeOf, Below, HexDigest;
    if !e.Others? && TrimStep(c, s, e, s') {
      TrimFrame(c, s, e, s');
    }
  }

  lemma {:induction false} KeysComeFromStart(c: Setting, states: seq<State>, events: seq<Event>, b: nat, i: nat,
                                             key: string)
    requires Run(c, states, events) && b < i < |states|
    requires events[b].StartSync? && forall j | b < j < i :: !events[j].StartSync?
    requires forall j | b < j < i :: KeepsKey(states[j], events[j], states[j + 1], key)
    requires !states[i].reader.NotReading?
    ensures states[i].reader.keys == KeysOf(states[b].rows) && key !in states[i].reader.dropped
  {
    hide Step, KeysOf;
    StepKeepsReaderKeys(c, states[i - 1], events[i - 1], states[i], key);
    if b < i - 1 {
      KeysComeFromStart(c, states, events, b, i - 1, key);
    }
  }

  /** Some file that was in the local directory before, and that no listed manifest is for, has this key. */
  ghost predicate Leftover(listing: map<Stem, Manifest>, found: map<FileName, seq<Row>>, key: string) {
    exists f :: f in found && !Names(listing, listing.Keys, f) && HasKey(found[f], key)
  }

  /** A finished sync builds exactly the keys of the hot export, of the files its manifests were written for, and of the
      local files that no manifest is for. */
  lemma BuildOfSync(c: Setting, s: State, listed: State, found: map<FileName, seq<Row>>, names: seq<FileName>,
                    archives: seq<seq<Row>>, key: string)
    requires s.reader.Synced? && SyncFrom(c, s.reader, listed, found) && ArchiveOrder(s, names, archives)
    ensures var r := s.reader;
            key in Build(archives, r.hot)
            <==> HasKey(r.hot, key) || KeyArchived(r.truths, key) || Leftover(r.listing, found, key)
  {
    hide HasKey, Build;
    var r := s.reader;
    BuildKeepsOneRowPerKey(archives, r.hot, key);
    if i :| 0 <= i < |archives| && HasKey(archives[i], key) {
      var f := names[i];
      assert f in r.local;
      if Names(r.listing, r.listing.Keys, f) {
        assert HasKey(r.truths[f.stem].file, key);
      } else {
        assert HasKey(found[f], key);
      }
    }
    if stem :| stem in r.truths && HasKey(r.truths[stem].file, key) {
      var f := r.listing[stem].file;
      assert f.stem == stem && Names(r.listing, r.listing.Keys, f) && f in r.local;
      var i :| 0 <= i < |names| && names[i] == f;
      assert HasKey(archives[i], key);
    }
    if f :| f in found && !Names(r.listing, r.listing.Keys, f) && HasKey(found[f], key) {
      assert f in r.local;
      var i :| 0 <= i < |names| && names[i] == f;
      assert HasKey(archives[i], key);
    }
  }

  /** An archive with this key stands at step `l`: the key was in its range at the export step it was made from. */
  ghost predicate ExportedBefore(states: seq<State>, events: seq<Event>, l: nat, key: string)
    requires l <= |events| < |states|
  {
    exists stem :: ExportedUnder(states, events, l, stem, key)
  }

  predicate ExportedUnder(states: seq<State>, events: seq<Event>, l: nat, stem: Stem, key: string)
    requires l <= |events| < |states|
  {
    var x := MadeFrom(states, events, l, stem);
    x.Some? && key in KeysOf(Exportable(states[x.value], stem))
  }

  lemma ScanHasKey(rows: map<Id, Row>, scan: seq<Id>, key: string)
    requires Scans(scan, rows)
    ensures HasKey(RowsAt(rows, scan), key) <==> key in KeysOf(rows)
  {
    if key in KeysOf(rows) {
      var id :| id in rows && rows[id].key == key;
      assert id in scan;
      var i :| 0 <= i < |scan| && scan[i] == id;
      assert RowsAt(rows, scan)[i].key == key;
    }
    if i :| 0 <= i < |scan| && RowsAt(rows, scan)[i].key == key {
      assert scan[i] in scan;
    }
  }

  lemma ArchivedIsExported(c: Setting, states: seq<State>, events: seq<Event>, l: nat, key: string)
    requires Run(c, states, events) && Init(states[0]) && l < |states|
    ensures KeyArchived(states[l].attested, key) <==> ExportedBefore(states, events, l, key)
  {
    hide Step, Scans, RowsAt, Exportable, KeysOf, HasKey, MadeFrom;
    forall stem ensures stem in states[l].attested && HasKey(states[l].attested[stem].file, key)
                        <==> ExportedUnder(states, events, l, stem, key) {
      ArchiveIsExport(c, states, events, l, stem);
      var x := MadeFrom(states, events, l, stem);
      if x.Some? {
        ScanHasKey(Exportable(states[x.value], stem), events[x.value].scan, key);
      }
    }
  }

  /** Exactly which keys a finished sync builds, beside the trimmer and all other writers, whatever the names and
      however busy the ranges.  It exported the hot table at step `h` and listed the archives at step `l`.  A key is
      built if and only if it was in the table at `h`, or was in an archive's range when the archive standing at `l` was
      exported, or is in a file left over in the local directory. */
  lemma SyncedHistoryIsExact(c: Setting, states: seq<State>, events: seq<Event>, i: nat,
                             names: seq<FileName>, archives: seq<seq<Row>>, key: string)
    returns (h: nat, l: nat)
    requires CollisionFreeRun(c, states, events) && Init(states[0]) && i < |states|
    requires states[i].reader.Synced? && ArchiveOrder(states[i], names, archives)
    ensures h < l < i && events[h].ExportHot? && events[l].ListArchives?
    ensures forall k | h < k < i && k != l ::
              !events[k].ListArchives? && !events[k].ExportHot? && !events[k].StartSync?
    ensures key in Build(archives, states[i].reader.hot)
            <==> || key in KeysOf(states[h].rows)
                 || ExportedBefore(states, events, l, key)
                 || Leftover(states[l].manifests, events[l].local, key)
  {
    hide Step, CollisionFree, Init, Scans, RowsAt, KeysOf, HasKey, Build, ArchiveOrder, KeyArchived, Leftover,
      ExportedBefore, LocalFrom, ListingTrue;
    l := ListedAt(c, states, events, i);
    h := HotReadAt(c, states, events, l);
    BuildOfSync(c, states[i], states[l], events[l].local, names, archives, key);
    ScanHasKey(states[h].rows, events[h].scan, key);
    ArchivedIsExported(c, states, events, l, key);
  }

  /** Reader completeness: a sync that starts at step `b` and is finished at `i`, beside the trimmer and all other
      writers.  Every key in the hot table at its start, which no other writer removed since and no replaced manifest
      forgot before the listing, has exactly one row in the built history; the hot row where the hot export has the
      key. */
  lemma SyncedHistoryIsComplete(c: Setting, states: seq<State>, events: seq<Event>, b: nat, i: nat,
                                names: seq<FileName>, archives: seq<seq<Row>>, key: string)
    requires CollisionFreeRun(c, states, events) && Init(states[0]) && b < i < |states|
    requires events[b].StartSync? && forall j | b < j < i :: !events[j].StartSync?
    requires states[i].reader.Synced? && ArchiveOrder(states[i], names, archives)
    requires key in KeysOf(states[b].rows)
    requires forall j | b < j < i ::
               && KeepsKey(states[j], events[j], states[j + 1], key)
               && ReplacesWell(states[j], events[j], key) && DropsQuietly(states, events, j, key)
    ensures var built := Build(archives, states[i].reader.hot);
            && key in built && built[key].key == key
            && (HasKey(states[i].reader.hot, key) ==> built[key] in states[i].reader.hot)
  {
    hide Step, CollisionFree, Init, KeysOf, KeepsKey, ReplacesWell, DropsQuietly, HasKey, ArchiveOrder, Build,
      KeyArchived, Leftover, LocalFrom, ListingTrue;
    KeysComeFromStart(c, states, events, b, i, key);
    RunKeepsReader(c, states, events, b, i, key);
    var l := ListedAt(c, states, events, i);
    BuildOfSync(c, states[i], states[l], events[l].local, names, archives, key);
    BuildKeepsOneRowPerKey(archives, states[i].reader.hot, key);
  }

  /** Looking for a manifest of the name before each export is enough: then none is ever replaced. */
  lemma GuardedReplacesNothing(c: Setting, s: State, e: Event, key: string)
    requires Inv(c, s) && FilesKept(s)
    ensures ReplacesWell(s, e, key)
  {
    hide TrimOk, RemovalsOk, HasKey, Describes, LogHolds;
    assert s.trim.Printed? && s.trim.file.stem in s.manifests ==> Stored(s, s.trim.file.stem);
  }

  lemma GuardedSyncIsComplete(c: Setting, states: seq<State>, events: seq<Event>, b: nat, i: nat,
                              names: seq<FileName>, archives: seq<seq<Row>>, key: string)
    requires CollisionFreeRun(c, states, events) && Init(states[0]) && b < i < |states|
    requires events[b].StartSync? && forall j | b < j < i :: !events[j].StartSync?
    requires states[i].reader.Synced? && ArchiveOrder(states[i], names, archives)
    requires key in KeysOf(states[b].rows)
    requires forall j | 0 <= j < i :: Unused(states[j], events[j])
    requires forall j | b < j < i ::
               KeepsKey(states[j], events[j], states[j + 1], key) && DropsQuietly(states, events, j, key)
    ensures var built := Build(archives, states[i].reader.hot);
            && key in built && built[key].key == key
            && (HasKey(states[i].reader.hot, key) ==> built[key] in states[i].reader.hot)
  {
    hide Step, CollisionFree, Init, KeysOf, KeepsKey, ReplacesWell, DropsQuietly, HasKey, Inv, FilesKept, Build,
      ArchiveOrder, Unused;
    forall j | b < j < i ensures ReplacesWell(states[j], events[j], key) {
      RunKeepsInv(c, states, events, j);
      RunKeepsFiles(c, states, events, j);
      GuardedReplacesNothing(c, states[j], events[j], key);
    }
    SyncedHistoryIsComplete(c, states, events, b, i, names, archives, key);
  }

  /** With a name of its own every archive passes that guard. */
  lemma FreshExportIsUnused(c: Setting, s: State, e: Event, s': State)
    requires c.freshNames && Step(c, s, e, s')
    ensures Unused(s, e)
  {
    hide RangeOf, Scans, KeysOf;
    StepFrame(c, s, e, s');
  }

  lemma FreshSyncIsComplete(c: Setting, states: seq<State>, events: seq<Event>, b: nat, i: nat,
                            names: seq<FileName>, archives: seq<seq<Row>>, key: string)
    requires c.freshNames && CollisionFreeRun(c, states, events) && Init(states[0]) && b < i < |states|
    requires events[b].StartSync? && forall j | b < j < i :: !events[j].StartSync?
    requires states[i].reader.Synced? && ArchiveOrder(states[i], names, archives)
    requires key in KeysOf(states[b].rows)
    requires forall j | b < j < i ::
               KeepsKey(states[j], events[j], states[j + 1], key) && DropsQuietly(states, events, j, key)
    ensures var built := Build(archives, states[i].reader.hot);
            && key in built && built[key].key == key
            && (HasKey(states[i].reader.hot, key) ==> built[key] in states[i].reader.hot)
  {
    hide Step, CollisionFree, Init, KeysOf, KeepsKey, DropsQuietly, HasKey, Build, ArchiveOrder, Unused;
    forall j | 0 <= j < i ensures Unused(states[j], events[j]) {
      FreshExportIsUnused(c, states[j], events[j], states[j + 1]);
    }
    GuardedSyncIsComplete(c, states, events, b, i, names, archives, key);
  }
}
