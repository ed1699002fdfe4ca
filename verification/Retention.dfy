/** One hot table, its archive directory, the trimmer that archives and prunes it, the reader that synchronizes a copy
    of it, and every other writer, as one state machine.  A step is one SQL statement, one file write or one
    transaction of another writer, so a run is any interleaving of them. */
module Retention {
  import opened Numerals
  import opened Digest

  /** Microseconds in a UTC day; instants and timestamps count microseconds. */
  const DAY: int := 86_400_000_000

  /** A physical row version: an update leaves a new version behind, and no version's id is given out twice. */
  type Id = nat

  datatype Row = Row(key: string, at: int, body: string)

  /** `<table>_<from>_<to>` with the random tag that only decision archives carry; days count from the epoch. */
  datatype Stem = Stem(from: int, to: int, tag: string)

  datatype FileName = FileName(stem: Stem, json: bool)

  datatype Manifest = Manifest(from: int, to: int, rows: nat, fingerprint: string, sha: nat, file: FileName)

  /** What the trimmer decided for this table: the archived days and the effective cutoff instant behind them. */
  datatype Plan = Plan(from: int, to: int, cutoff: int, pending: nat)

  datatype Outcome = NotRun | Raised | Returned(recorded: nat, deleted: nat)

  datatype Trimmer =
    | Idle(last: Outcome)
    | Planned(plan: Plan)
    | Counted(plan: Plan, rows: nat)
    | Exported(plan: Plan, rows: nat, file: FileName, scan: seq<Id>)
    | Printed(plan: Plan, rows: nat, file: FileName, text: string, printed: seq<Row>)
    | Archived(plan: Plan, stem: Stem)
    | Verified(plan: Plan, stem: Stem, manifest: Manifest)
    | Frozen(plan: Plan, stem: Stem, manifest: Manifest, targets: set<Id>)
    | Deleting(plan: Plan, stem: Stem, manifest: Manifest, frozen: set<Id>, targets: set<Id>, gone: set<Id>)

  datatype Reader =
    | NotReading
    | Started(keys: set<string>, dropped: set<string>)
    | HotRead(keys: set<string>, dropped: set<string>, hot: seq<Row>)
    | Listed(keys: set<string>, dropped: set<string>, hot: seq<Row>, listing: map<Stem, Manifest>,
             truths: map<Stem, Attestation>, local: map<FileName, seq<Row>>, fetched: set<Stem>)
    | Synced(keys: set<string>, dropped: set<string>, hot: seq<Row>, listing: map<Stem, Manifest>,
             truths: map<Stem, Attestation>, local: map<FileName, seq<Row>>)

  /** History, not program state: the rows a manifest's file and fingerprint were computed from.  A reader's `truths`
      are those of the manifests it listed. */
  datatype Attestation = Attestation(file: seq<Row>, printed: seq<Row>)

  /** History: one row version deleted by the trimmer, with the archive and cutoff it was deleted under. */
  datatype Removal = Removal(id: Id, row: Row, stem: Stem, cutoff: int)

  datatype State = State(
    rows: map<Id, Row>,
    used: set<Id>,
    files: map<FileName, seq<Row>>,
    manifests: map<Stem, Manifest>,
    attested: map<Stem, Attestation>,
    removed: set<Removal>,
    trim: Trimmer,
    reader: Reader)

  /** The two hash functions, the batch size, and whether every archive gets a name of its own. */
  datatype Setting = Setting(hash: Row -> Word, sha: seq<Row> -> nat, batchRows: int, freshNames: bool)

  datatype Event =
    | Others(rows: map<Id, Row>)
    | MakePlan(plan: Plan)
    | CountRows
    | ExportRange(file: FileName, scan: seq<Id>)
    | NothingToArchive
    | FingerprintRange(scan: seq<Id>)
    | WriteManifest
    | VerifyManifest
    | FreezeTargets
    | CompareDigest(scan: seq<Id>)
    | DeleteBatch(picked: set<Id>)
    | FinishPrune
    | AbortTrim
    | StartSync
    | ExportHot(scan: seq<Id>)
    | ListArchives(local: map<FileName, seq<Row>>)
    | FetchArchive(stem: Stem, body: seq<Row>)
    | FinishSync
    | AbortSync

  // ---- Rows, ranges and scans ----

  predicate InDays(r: Row, from: int, to: int) {
    from * DAY <= r.at < to * DAY
  }

  function RangeOf(rows: map<Id, Row>, from: int, to: int): map<Id, Row> {
    map id | id in rows && InDays(rows[id], from, to) :: rows[id]
  }

  function Below(rows: map<Id, Row>, to: int): map<Id, Row> {
    map id | id in rows && rows[id].at < to * DAY :: rows[id]
  }

  function KeysOf(rows: map<Id, Row>): set<string> {
    set id | id in rows :: rows[id].key
  }

  /** `scan` visits every row version of `m` once, in some order. */
  ghost predicate Scans(scan: seq<Id>, m: map<Id, Row>) {
    && (forall id :: id in scan <==> id in m)
    && (forall i, j | 0 <= i < j < |scan| :: scan[i] != scan[j])
  }

  function RowsAt(m: map<Id, Row>, scan: seq<Id>): (rows: seq<Row>)
    requires forall id | id in scan :: id in m
    ensures |rows| == |scan|
  {
    seq(|scan|, i requires 0 <= i < |scan| => m[scan[i]])
  }

  predicate HasKey(rows: seq<Row>, key: string) {
    exists i | 0 <= i < |rows| :: rows[i].key == key
  }

  // ---- One step ----

  /** Other writers may delete, update and insert whatever they like, but never revive a used row id. */
  ghost predicate Interferes(s: State, rows: map<Id, Row>) {
    forall id | id in rows :: (id in s.rows && rows[id] == s.rows[id]) || id !in s.used
  }

  /** The plan ends with the day on which the effective cutoff falls.  Its first day and its row count were read
      earlier, each in a query of its own, so nothing is known of them here. */
  predicate PlanFits(p: Plan) {
    p.from < p.to && p.to * DAY <= p.cutoff < (p.to + 1) * DAY
  }

  function MinInt(a: int, b: int): (r: int)
    ensures r <= a && r <= b && (r == a || r == b)
  {
    if a < b then a else b
  }

  function Live(s: State): map<Id, Row>
    requires s.trim.Frozen? || s.trim.Deleting?
  {
    map id | id in s.trim.targets && id in s.rows :: s.rows[id]
  }

  function Dropped(s: State, rows: map<Id, Row>): Reader {
    if s.reader.Started?
    then Started(s.reader.keys, s.reader.dropped + (KeysOf(s.rows) - KeysOf(rows)))
    else s.reader
  }

  /** One delete statement: `picked` leaves the temp table, and what of it still exists leaves the table. */
  ghost predicate BatchStep(c: Setting, s: State, picked: set<Id>, s': State) {
    && s.trim.Deleting? && |s.trim.gone| < s.trim.manifest.rows
    && var limit := MinInt(c.batchRows, s.trim.manifest.rows - |s.trim.gone|);
    && 0 < limit
    && picked <= s.trim.targets && |picked| == MinInt(limit, |s.trim.targets|)
    && s' == BatchState(s, picked)
  }

  function BatchState(s: State, picked: set<Id>): State
    requires s.trim.Deleting?
  {
    var hit := picked * s.rows.Keys;
    s.(rows := s.rows - hit,
       removed := s.removed + RemovalsOf(hit, s.rows, s.trim.stem, s.trim.plan.cutoff),
       trim := Deleting(s.trim.plan, s.trim.stem, s.trim.manifest, s.trim.frozen, s.trim.targets - picked,
                        s.trim.gone + hit))
  }

  function RemovalsOf(hit: set<Id>, rows: map<Id, Row>, stem: Stem, cutoff: int): set<Removal>
    requires hit <= rows.Keys
  {
    set id | id in hit :: Removal(id, rows[id], stem, cutoff)
  }

  ghost predicate TrimStep(c: Setting, s: State, e: Event, s': State) {
    match e
    case MakePlan(plan) =>
      && s.trim.Idle? && PlanFits(plan)
      && s' == s.(trim := Planned(plan))
    case CountRows =>
      && s.trim.Planned?
      && s' == s.(trim := Counted(s.trim.plan, |RangeOf(s.rows, s.trim.plan.from, s.trim.plan.to)|))
    case NothingToArchive =>
      // The archiver exits cleanly without writing; a manifest of that name may be there from an earlier run.
      && s.trim.Counted? && s.trim.rows == 0 && !c.freshNames
      && s' == s.(trim := Archived(s.trim.plan, Stem(s.trim.plan.from, s.trim.plan.to, "")))
    case ExportRange(file, scan) =>
      && s.trim.Counted? && s.trim.rows != 0
      && file.stem.from == s.trim.plan.from && file.stem.to == s.trim.plan.to
      && (if c.freshNames
          then file.stem !in s.manifests && forall json: bool :: FileName(file.stem, json) !in s.files
          else file.stem.tag == "")
      && var range := RangeOf(s.rows, s.trim.plan.from, s.trim.plan.to);
      && Scans(scan, range)
      && s' == s.(files := s.files[file := RowsAt(range, scan)],
                  trim := Exported(s.trim.plan, s.trim.rows, file, scan))
    case FingerprintRange(scan) =>
      && s.trim.Exported?
      && var range := RangeOf(s.rows, s.trim.plan.from, s.trim.plan.to);
      && Scans(scan, range)
      && var printed := RowsAt(range, scan);
      && s' == s.(trim := Printed(s.trim.plan, s.trim.rows, s.trim.file, HexDigest(c.hash, printed), printed))
    case WriteManifest =>
      && s.trim.Printed? && s.trim.file in s.files
      && var (p, file) := (s.trim.plan, s.trim.file);
      && s' == s.(manifests := s.manifests[file.stem :=
                    Manifest(p.from, p.to, s.trim.rows, s.trim.text, c.sha(s.files[file]), file)],
                  attested := s.attested[file.stem := Attestation(s.files[file], s.trim.printed)],
                  trim := Archived(p, file.stem))
    case VerifyManifest =>
      && s.trim.Archived? && s.trim.stem in s.manifests
      && var m := s.manifests[s.trim.stem];
      && m.rows == s.trim.plan.pending
      && m.file in s.files && c.sha(s.files[m.file]) == m.sha
      && s' == s.(trim := Verified(s.trim.plan, s.trim.stem, m))
    case FreezeTargets =>
      && s.trim.Verified?
      && var m := s.trim.manifest;
      && var targets := RangeOf(s.rows, m.from, m.to).Keys;
      && |targets| == m.rows
      && s' == s.(trim := Frozen(s.trim.plan, s.trim.stem, m, targets))
    case CompareDigest(scan) =>
      && s.trim.Frozen? && Scans(scan, Live(s))
      && HexDigest(c.hash, RowsAt(Live(s), scan)) == s.trim.manifest.fingerprint
      && s' == s.(trim := Deleting(s.trim.plan, s.trim.stem, s.trim.manifest, s.trim.targets, s.trim.targets, {}))
    case DeleteBatch(picked) => BatchStep(c, s, picked, s')
    case FinishPrune =>
      && s.trim.Deleting? && |s.trim.gone| == s.trim.manifest.rows && s.trim.targets == {}
      && s' == s.(trim := Idle(Returned(s.trim.manifest.rows, |s.trim.gone|)))
    case AbortTrim =>
      && !s.trim.Idle? && s' == s.(trim := Idle(Raised))
    case _ => false
  }

  ghost predicate ReadStep(c: Setting, s: State, e: Event, s': State) {
    match e
    case StartSync =>
      && !s.reader.Started? && !s.reader.HotRead? && !s.reader.Listed?
      && s' == s.(reader := Started(KeysOf(s.rows), {}))
    case ExportHot(scan) =>
      && s.reader.Started? && Scans(scan, s.rows)
      && s' == s.(reader := HotRead(s.reader.keys, s.reader.dropped, RowsAt(s.rows, scan)))
    case ListArchives(local) =>
      && s.reader.HotRead?
      && s' == s.(reader := Listed(s.reader.keys, s.reader.dropped, s.reader.hot, s.manifests, s.attested, local, {}))
    case FetchArchive(stem, body) =>
      && s.reader.Listed? && stem in s.reader.listing
      && var m := s.reader.listing[stem];
      // A local copy with the right checksum is kept; otherwise the remote file is downloaded and checked.
      && (if m.file in s.reader.local && c.sha(s.reader.local[m.file]) == m.sha
          then body == s.reader.local[m.file]
          else m.file in s.files && body == s.files[m.file])
      && c.sha(body) == m.sha
      && s' == s.(reader := Listed(s.reader.keys, s.reader.dropped, s.reader.hot, s.reader.listing, s.reader.truths,
                                   s.reader.local[m.file := body], s.reader.fetched + {stem}))
    case FinishSync =>
      && s.reader.Listed? && s.reader.fetched == s.reader.listing.Keys
      && s' == s.(reader := Synced(s.reader.keys, s.reader.dropped, s.reader.hot, s.reader.listing, s.reader.truths,
                                   s.reader.local))
    case AbortSync =>
      && !s.reader.NotReading? && s' == s.(reader := NotReading)
    case _ => false
  }

  ghost predicate Step(c: Setting, s: State, e: Event, s': State) {
    if e.Others? then
      && Interferes(s, e.rows)
      && s' == s.(rows := e.rows, used := s.used + e.rows.Keys, reader := Dropped(s, e.rows))
    else TrimStep(c, s, e, s') || ReadStep(c, s, e, s')
  }

  ghost predicate Init(s: State) {
    && s.rows.Keys <= s.used
    && s.files == map[] && s.manifests == map[] && s.attested == map[] && s.removed == {}
    && s.trim == Idle(NotRun) && s.reader == NotReading
  }

  // ---- Runs, and what is asked of them ----

  /** The hash comparisons of this step meet no collision. */
  ghost predicate CollisionFree(c: Setting, s: State, e: Event) {
    match e
    case VerifyManifest =>
      s.trim.Archived? && s.trim.stem in s.manifests && s.manifests[s.trim.stem].file in s.files &&
      s.trim.stem in s.attested ==>
        NoFileCollision(c, s.files[s.manifests[s.trim.stem].file], s.attested[s.trim.stem].file)
    case CompareDigest(scan) =>
      s.trim.Frozen? && Scans(scan, Live(s)) && s.trim.stem in s.attested ==>
        NoDigestCollision(c, RowsAt(Live(s), scan), s.attested[s.trim.stem].printed)
    case FetchArchive(stem, body) =>
      s.reader.Listed? && stem in s.reader.truths ==> NoFileCollision(c, body, s.reader.truths[stem].file)
    case _ => true
  }

  /** Nobody else touches the archived range between its export and its fingerprint. */
  ghost predicate Quiet(s: State, e: Event) {
    e.Others? && s.trim.Exported? ==>
      RangeOf(e.rows, s.trim.plan.from, s.trim.plan.to) == RangeOf(s.rows, s.trim.plan.from, s.trim.plan.to)
  }

  ghost predicate NoFileCollision(c: Setting, a: seq<Row>, b: seq<Row>) {
    c.sha(a) == c.sha(b) ==> a == b
  }

  /** Said of the hashes alone: they do not agree in number, total and every bit's parity unless the rows are the
      same. */
  ghost predicate NoDigestCollision(c: Setting, a: seq<Row>, b: seq<Row>) {
    SameFigures(c.hash, a, b) ==> multiset(a) == multiset(b)
  }

  ghost predicate Run(c: Setting, states: seq<State>, events: seq<Event>) {
    && |states| == |events| + 1
    && (forall i | 0 <= i < |events| :: Step(c, states[i], events[i], states[i + 1]))
  }

  ghost predicate CollisionFreeRun(c: Setting, states: seq<State>, events: seq<Event>) {
    && Run(c, states, events)
    && (forall i | 0 <= i < |events| :: CollisionFree(c, states[i], events[i]))
  }

  // ---- The invariant ----

  /** A manifest with the truth about the file and the scan it was written for. */
  ghost predicate Describes(c: Setting, stem: Stem, m: Manifest, a: Attestation) {
    && m.from == stem.from && m.to == stem.to && m.file.stem == stem
    && m.sha == c.sha(a.file)
    && m.fingerprint == HexDigest(c.hash, a.printed)
    && (forall r | r in a.file :: InDays(r, stem.from, stem.to))
    && (forall r | r in a.printed :: InDays(r, stem.from, stem.to))
  }

  ghost predicate ManifestsTrue(c: Setting, manifests: map<Stem, Manifest>, attested: map<Stem, Attestation>) {
    && manifests.Keys == attested.Keys
    && (forall stem | stem in manifests :: Describes(c, stem, manifests[stem], attested[stem]))
  }

  /** The plan's last archived day ends at or before the effective cutoff. */
  ghost predicate PlanSound(p: Plan) {
    p.to * DAY <= p.cutoff
  }

  ghost predicate Accepted(s: State, plan: Plan, stem: Stem, m: Manifest) {
    && PlanSound(plan)
    && stem.from == plan.from && stem.to == plan.to
    && stem in s.manifests && s.manifests[stem] == m && stem in s.attested
    && m.file in s.files && s.files[m.file] == s.attested[stem].file
  }

  ghost predicate TrimOk(c: Setting, s: State) {
    match s.trim
    case Idle(_) => true
    case Planned(plan) => PlanSound(plan)
    case Counted(plan, _) => PlanSound(plan)
    case Exported(plan, _, file, _) =>
      && PlanSound(plan) && file.stem.from == plan.from && file.stem.to == plan.to
      && (c.freshNames ==> file.stem !in s.manifests)
      && file in s.files && (forall r | r in s.files[file] :: InDays(r, plan.from, plan.to))
    case Printed(plan, _, file, text, printed) =>
      && PlanSound(plan) && file.stem.from == plan.from && file.stem.to == plan.to
      && (c.freshNames ==> file.stem !in s.manifests)
      && file in s.files && (forall r | r in s.files[file] :: InDays(r, plan.from, plan.to))
      && text == HexDigest(c.hash, printed) && (forall r | r in printed :: InDays(r, plan.from, plan.to))
    case Archived(plan, stem) => PlanSound(plan) && stem.from == plan.from && stem.to == plan.to
    case Verified(plan, stem, m) => Accepted(s, plan, stem, m)
    case Frozen(plan, stem, m, targets) =>
      && Accepted(s, plan, stem, m)
      && targets <= s.used && |targets| == m.rows && (forall r | r in s.removed :: r.id !in targets)
    case Deleting(plan, stem, m, frozen, targets, gone) =>
      && Accepted(s, plan, stem, m)
      && |frozen| == m.rows
      && TargetsOk(s.rows, s.used, s.attested[stem].printed, s.removed, stem, plan.cutoff, frozen, targets, gone)
      && Accounted(s.rows, s.attested[stem].printed, s.removed, stem, plan.cutoff, frozen, gone)
  }

  /** Mid-prune: frozen row versions that still exist are targets still, and were fingerprinted; those gone by our hand
      are logged, and were fingerprinted too. */
  ghost predicate TargetsOk(rows: map<Id, Row>, used: set<Id>, printed: seq<Row>, removed: set<Removal>,
                            stem: Stem, cutoff: int, frozen: set<Id>, targets: set<Id>, gone: set<Id>) {
    && targets <= frozen && gone <= frozen && frozen <= used
    && (forall id | id in frozen && id in rows :: id in targets && rows[id] in printed)
    && (forall id | id in gone :: exists row :: Removal(id, row, stem, cutoff) in removed)
    && (forall r | r in removed && r.id in frozen :: r.row in printed)
  }

  /** Conversely every fingerprinted row belongs to a frozen version, which we delete with that content or not at
      all. */
  ghost predicate Accounted(rows: map<Id, Row>, printed: seq<Row>, removed: set<Removal>,
                            stem: Stem, cutoff: int, frozen: set<Id>, gone: set<Id>) {
    forall row | row in printed :: exists id :: AccountsFor(rows, removed, stem, cutoff, frozen, gone, id, row)
  }

  ghost predicate AccountsFor(rows: map<Id, Row>, removed: set<Removal>, stem: Stem, cutoff: int,
                              frozen: set<Id>, gone: set<Id>, id: Id, row: Row) {
    && id in frozen && (id in rows ==> rows[id] == row)
    && (id in gone ==> Removal(id, row, stem, cutoff) in removed)
  }

  ghost predicate RemovalsOk(rows: map<Id, Row>, used: set<Id>, removed: set<Removal>) {
    && rows.Keys <= used
    && (forall r | r in removed ::
          && r.id in used && r.id !in rows
          && InDays(r.row, r.stem.from, r.stem.to) && r.stem.to * DAY <= r.cutoff)
  }

  ghost predicate Inv(c: Setting, s: State) {
    && ManifestsTrue(c, s.manifests, s.attested)
    && TrimOk(c, s)
    && RemovalsOk(s.rows, s.used, s.removed)
  }

  // ---- Scans of the same rows ----

  lemma {:induction false} ScansAgree(m: map<Id, Row>, a: seq<Id>, b: seq<Id>)
    requires Scans(a, m) && Scans(b, m)
    ensures multiset(RowsAt(m, a)) == multiset(RowsAt(m, b))
    decreases |a|
  {
    if a == [] {
      if b != [] {
        FirstScanned(b, m);
      }
    } else {
      assert a[0] in b;
      var k :| 0 <= k < |b| && b[k] == a[0];
      ScanWithout(m, a, 0);
      ScanWithout(m, b, k);
      ScansAgree(m - {a[0]}, Without(a, 0), Without(b, k));
      Reassemble(RowsAt(m, a), 0, RowsAt(m, b), k);
    }
  }

  lemma FirstScanned(scan: seq<Id>, m: map<Id, Row>)
    requires Scans(scan, m) && scan != []
    ensures scan[0] in m
  {
    assert scan[0] in scan;
  }

  lemma ScanWithout(m: map<Id, Row>, scan: seq<Id>, k: nat)
    requires Scans(scan, m) && k < |scan|
    ensures Scans(Without(scan, k), m - {scan[k]})
    ensures RowsAt(m - {scan[k]}, Without(scan, k)) == Without(RowsAt(m, scan), k)
  {
    hide RowsAt;
    WithoutScans(m, scan, k);
    WithoutRows(m, scan, k);
  }

  lemma WithoutAt<T>(s: seq<T>, k: nat)
    requires k < |s|
    ensures |Without(s, k)| == |s| - 1
    ensures forall i | 0 <= i < |s| - 1 :: Without(s, k)[i] == s[if i < k then i else i + 1]
  {
  }

  lemma WithoutScans(m: map<Id, Row>, scan: seq<Id>, k: nat)
    requires Scans(scan, m) && k < |scan|
    ensures Scans(Without(scan, k), m - {scan[k]})
  {
    hide Without;
    var rest := Without(scan, k);
    WithoutAt(scan, k);
    forall id | id in rest ensures id in m && id != scan[k] {
      var i :| 0 <= i < |rest| && rest[i] == id;
      assert id == scan[if i < k then i else i + 1];
    }
    forall id | id in m && id != scan[k] ensures id in rest {
      var i :| 0 <= i < |scan| && scan[i] == id;
      assert id == rest[if i < k then i else i - 1];
    }
  }

  lemma WithoutRows(m: map<Id, Row>, scan: seq<Id>, k: nat)
    requires Scans(scan, m) && k < |scan|
    requires Scans(Without(scan, k), m - {scan[k]})
    ensures RowsAt(m - {scan[k]}, Without(scan, k)) == Without(RowsAt(m, scan), k)
  {
    hide Without;
    WithoutAt(scan, k);
    WithoutAt(RowsAt(m, scan), k);
  }
}
