/** The trimmer's code over the mutable host: the hot table, the archive directory and the `prune_targets` temp table
    are fields, and between any two statements the other writers take the turns of an arbitrary schedule.  Each method
    is proved to be a stretch of a run of the retention machine, so the results about all runs hold of the code. */
module TrimHost {
  import opened Numerals
  import opened Digest
  import opened Retention
  import opened ArchiveOrigins
  import opened RetentionSafety

  /** Reads the ids of `m` in whatever order the scan returns them. */
  method Scan(m: map<Id, Row>) returns (scan: seq<Id>)
    ensures Scans(scan, m)
  {
    var rest := m.Keys;
    scan := [];
    while rest != {}
      invariant rest <= m.Keys
      invariant forall id :: id in scan <==> id in m && id !in rest
      invariant forall i, j | 0 <= i < j < |scan| :: scan[i] != scan[j]
      decreases rest
    {
      var id :| id in rest;
      rest := rest - {id};
      scan := scan + [id];
    }
  }

  lemma {:induction false} SubsetOfSize(s: set<Id>, n: nat) returns (t: set<Id>)
    requires n <= |s|
    ensures t <= s && |t| == n
  {
    if n == 0 {
      t := {};
    } else {
      var x :| x in s;
      t := SubsetOfSize(s - {x}, n - 1);
      t := t + {x};
    }
  }

  /** `LIMIT`: any `n` of the members. */
  method Pick(s: set<Id>, n: nat) returns (picked: set<Id>)
    requires n <= |s|
    ensures picked <= s && |picked| == n
  {
    ghost var some := SubsetOfSize(s, n);
    picked :| picked <= s && |picked| == n;
  }

  lemma {:induction false} ScanCovers(scan: seq<Id>, m: map<Id, Row>)
    requires Scans(scan, m)
    ensures |scan| == |m|
    decreases |scan|
  {
    if scan == [] {
      assert m.Keys == {};
    } else {
      assert scan[0] in scan;
      ScanWithout(m, scan, 0);
      ScanCovers(Without(scan, 0), m - {scan[0]});
      assert (m - {scan[0]}).Keys == m.Keys - {scan[0]};
      assert |m.Keys| == |m|;
    }
  }

  /** One transaction of another writer: rows it takes out, and row versions it puts in. */
  datatype Move = Move(gone: set<Id>, added: map<Id, Row>)

  type Turn = seq<Move>

  predicate Undisturbed(turns: seq<Turn>) {
    forall i | 0 <= i < |turns| :: turns[i] == []
  }

  /** The others write elsewhere: they take out none of these rows and put nothing into these days. */
  predicate Spares(m: Move, ids: set<Id>, from: int, to: int) {
    m.gone !! ids && forall id | id in m.added :: !InDays(m.added[id], from, to)
  }

  predicate TurnSpares(turn: Turn, ids: set<Id>, from: int, to: int) {
    forall k | 0 <= k < |turn| :: Spares(turn[k], ids, from, to)
  }

  predicate AllSpare(turns: seq<Turn>, ids: set<Id>, from: int, to: int) {
    forall i | 0 <= i < |turns| :: TurnSpares(turns[i], ids, from, to)
  }

  predicate FencesHold(fences: seq<bool>) {
    forall i | 0 <= i < |fences| :: fences[i]
  }

  /** One fence check: how many steps had been taken before it, and whether it passed. */
  datatype Check = Check(at: nat, passed: bool)

  /** History of the host: the machine state beyond the host's own fields, the trace so far, and every fence check. */
  datatype History = History(attested: map<Stem, Attestation>, removed: set<Removal>, trim: Trimmer,
                             states: seq<State>, events: seq<Event>, checks: seq<Check>)

  function Advance(h: History, e: Event, s: State): History {
    History(s.attested, s.removed, s.trim, h.states + [s], h.events + [e], h.checks)
  }

  ghost predicate Traces(c: Setting, h: History, s: State) {
    && Run(c, h.states, h.events) && h.states[|h.events|] == s
    && h.attested == s.attested && h.removed == s.removed && h.trim == s.trim
  }

  lemma AdvanceTraces(c: Setting, h: History, s: State, e: Event, s': State)
    requires Traces(c, h, s) && Step(c, s, e, s')
    ensures Traces(c, Advance(h, e, s'), s') && Continues(h, Advance(h, e, s'))
    ensures !e.DeleteBatch? ==> Plain(h, Advance(h, e, s'))
  {
    hide Step;
  }

  ghost predicate Continues(h: History, h': History) {
    h.states <= h'.states && h.events <= h'.events && h.checks <= h'.checks
  }

  // ---- Fence checks and deletions ----

  /** A stretch without fence check and without deletion. */
  ghost predicate Plain(h: History, h': History) {
    && Continues(h, h') && h'.checks == h.checks
    && forall k | |h.events| <= k < |h'.events| :: !h'.events[k].DeleteBatch?
  }

  /** Step `k` comes directly after a check of its own that passed; check number `n` is the first that may be it. */
  ghost predicate Checked(h: History, n: nat, k: nat) {
    exists i | n <= i < |h.checks| :: h.checks[i] == Check(k, true)
  }

  ghost predicate DeletesChecked(h: History, h': History) {
    Continues(h, h')
    && forall k | |h.events| <= k < |h'.events| && h'.events[k].DeleteBatch? :: Checked(h', |h.checks|, k)
  }

  /** Every deletion comes directly after a check of its own, and all checks passed. */
  ghost predicate Guarded(h: History, h': History) {
    DeletesChecked(h, h') && forall i | |h.checks| <= i < |h'.checks| :: h'.checks[i].passed
  }

  /** The same up to a last check that failed, and nothing since but `since`. */
  ghost predicate Stopped(h: History, h': History, since: seq<Event>) {
    && DeletesChecked(h, h') && |h.checks| < |h'.checks|
    && (forall i | |h.checks| <= i < |h'.checks| - 1 :: h'.checks[i].passed)
    && var last := h'.checks[|h'.checks| - 1];
       !last.passed && |h.events| <= last.at <= |h'.events| && h'.events[last.at..] == since
  }

  /** The checks made since `h` answered as scheduled, one answer each; past the end of the schedule they pass. */
  ghost predicate Scheduled(h: History, fences: seq<bool>, h': History, fences': seq<bool>) {
    && h.checks <= h'.checks
    && var n := |h'.checks| - |h.checks|;
       && fences' == fences[if n < |fences| then n else |fences|..]
       && forall k | |h.checks| <= k < |h'.checks| :: h'.checks[k].passed == Answer(fences, k - |h.checks|)
  }

  predicate Answer(fences: seq<bool>, i: nat) {
    i < |fences| ==> fences[i]
  }

  lemma PlainIsGuarded(h: History, h': History)
    requires Plain(h, h')
    ensures Guarded(h, h')
  {
  }

  lemma DeletesJoin(a: History, b: History, c: History)
    requires DeletesChecked(a, b) && DeletesChecked(b, c)
    ensures DeletesChecked(a, c)
  {
    forall k | |a.events| <= k < |c.events| && c.events[k].DeleteBatch? ensures Checked(c, |a.checks|, k) {
      if k < |b.events| {
        assert b.events[k] == c.events[k];
        var i :| |a.checks| <= i < |b.checks| && b.checks[i] == Check(k, true);
        assert c.checks[i] == Check(k, true);
      } else {
        var i :| |b.checks| <= i < |c.checks| && c.checks[i] == Check(k, true);
        assert c.checks[i] == Check(k, true);
      }
    }
  }

  lemma PlainJoin(a: History, b: History, c: History)
    requires Plain(a, b) && Plain(b, c)
    ensures Plain(a, c)
  {
    assert forall k | |a.events| <= k < |b.events| :: c.events[k] == b.events[k];
  }

  lemma GuardedJoin(a: History, b: History, c: History)
    requires Guarded(a, b)
    ensures Guarded(b, c) ==> Guarded(a, c)
    ensures forall since | Stopped(b, c, since) :: Stopped(a, c, since)
  {
    hide DeletesChecked;
    if DeletesChecked(b, c) {
      DeletesJoin(a, b, c);
      DeletesContinue(a, b);
      DeletesContinue(b, c);
    }
  }

  lemma DeletesContinue(h: History, h': History)
    requires DeletesChecked(h, h')
    ensures Continues(h, h')
  {
  }

  lemma ScheduledJoin(a: History, fa: seq<bool>, b: History, fb: seq<bool>, c: History, fc: seq<bool>)
    requires Scheduled(a, fa, b, fb) && Scheduled(b, fb, c, fc)
    ensures Scheduled(a, fa, c, fc)
  {
    forall k | |a.checks| <= k < |c.checks| ensures c.checks[k].passed == Answer(fa, k - |a.checks|) {
      if k < |b.checks| {
        assert c.checks[k] == b.checks[k];
      } else {
        assert c.checks[k].passed == Answer(fb, k - |b.checks|);
      }
    }
  }

  lemma PlainIsScheduled(h: History, h': History, fences: seq<bool>)
    requires Plain(h, h')
    ensures Scheduled(h, fences, h', fences)
  {
  }

  /** A failed check followed by the abort. */
  lemma StopThenAbort(h: History, h': History, s: State)
    requires Stopped(h, h', [])
    ensures Stopped(h, Advance(h', AbortTrim, s), [AbortTrim])
  {
    var all := Advance(h', AbortTrim, s);
    assert all.checks == h'.checks;
    assert all.events[|h'.events|..] == [AbortTrim];
    forall k | |h.events| <= k < |all.events| && all.events[k].DeleteBatch? ensures Checked(all, |h.checks|, k) {
      assert k < |h'.events| && all.events[k] == h'.events[k];
      assert Checked(h', |h.checks|, k);
    }
  }

  /** A check and then, if it passed, one deletion. */
  lemma CheckThenDelete(h: History, passed: bool, picked: set<Id>, s: State)
    ensures var checked := h.(checks := h.checks + [Check(|h.events|, passed)]);
            && (!passed ==> Stopped(h, checked, []))
            && (passed ==> Guarded(h, checked) && Guarded(h, Advance(checked, DeleteBatch(picked), s)))
  {
    var checked := h.(checks := h.checks + [Check(|h.events|, passed)]);
    assert checked.events[|h.events|..] == [];
    if passed {
      var deleted := Advance(checked, DeleteBatch(picked), s);
      assert deleted.checks[|h.checks|] == Check(|h.events|, true);
    }
  }

  /** Every deletion behind its own passed check, and if a check failed it was the last: the outcome is `Raised`, and
      nothing but the abort came after. */
  ghost predicate Fenced(h: History, h': History, outcome: Outcome) {
    Guarded(h, h') || (outcome == Raised && Stopped(h, h', [AbortTrim]))
  }

  /** There was a check, and before the first only the others had a turn. */
  ghost predicate AskedFirst(h: History, h': History) {
    && h.events <= h'.events && h.checks < h'.checks && h'.checks[|h.checks|].at <= |h'.events|
    && forall k | |h.events| <= k < h'.checks[|h.checks|].at :: h'.events[k].Others?
  }

  lemma GuardedIsFenced(h: History, h': History, outcome: Outcome)
    requires Guarded(h, h')
    ensures Fenced(h, h', outcome)
  {
  }

  lemma FencedJoin(a: History, b: History, c: History, outcome: Outcome)
    requires Guarded(a, b) && Fenced(b, c, outcome)
    ensures Fenced(a, c, outcome)
  {
    hide Guarded, Stopped;
    GuardedJoin(a, b, c);
  }

  lemma FencedContinues(h: History, h': History, outcome: Outcome)
    requires Fenced(h, h', outcome)
    ensures Continues(h, h')
  {
    hide Checked;
  }

  lemma CheckComesFirst(h: History, waited: History, checked: History)
    requires Plain(h, waited) && forall k | |h.events| <= k < |waited.events| :: waited.events[k].Others?
    requires exists passed :: checked == waited.(checks := waited.checks + [Check(|waited.events|, passed)])
    ensures AskedFirst(h, checked)
  {
  }

  lemma StillFirst(h: History, h1: History, h2: History)
    requires AskedFirst(h, h1) && Continues(h1, h2)
    ensures AskedFirst(h, h2)
  {
    assert forall k | 0 <= k < |h1.events| :: h1.events[k] == h2.events[k];
  }

  lemma NothingHappened(h: History, fences: seq<bool>)
    ensures Guarded(h, h) && Scheduled(h, fences, h, fences)
  {
  }

  lemma PlainThenCheck(h: History, waited: History, fences: seq<bool>, checked: History, fences': seq<bool>)
    requires Plain(h, waited) && Scheduled(waited, fences, checked, fences')
    ensures Guarded(h, waited) && Scheduled(h, fences, checked, fences')
  {
    hide Scheduled;
    PlainIsGuarded(h, waited);
    PlainIsScheduled(h, waited, fences);
    ScheduledJoin(h, fences, waited, fences, checked, fences');
  }

  lemma SameChecks(h: History, fences: seq<bool>, h1: History, fences1: seq<bool>, h2: History)
    requires Scheduled(h, fences, h1, fences1) && h2.checks == h1.checks
    ensures Scheduled(h, fences, h2, fences1)
  {
  }

  lemma PlainJoins(h: History, fences: seq<bool>, h1: History, fences1: seq<bool>, h2: History)
    requires Guarded(h, h1) && Scheduled(h, fences, h1, fences1) && Plain(h1, h2)
    ensures Guarded(h, h2) && Scheduled(h, fences, h2, fences1) && Continues(h1, h2)
  {
    hide Guarded, Scheduled;
    PlainIsGuarded(h1, h2);
    GuardedJoin(h, h1, h2);
    SameChecks(h, fences, h1, fences1, h2);
  }

  /** The last step of a prune: the abort, or the one that finishes it. */
  lemma EndsFenced(h: History, fences: seq<bool>, h1: History, fences1: seq<bool>, h2: History, since: seq<Event>)
    requires Scheduled(h, fences, h1, fences1) && Plain(h1, h2)
    requires if since == [] then Guarded(h, h1) else since == [AbortTrim] && Stopped(h, h1, [])
    requires since != [] ==> exists s :: h2 == Advance(h1, AbortTrim, s)
    ensures Fenced(h, h2, Raised) && (since == [] ==> forall outcome :: Fenced(h, h2, outcome))
    ensures Scheduled(h, fences, h2, fences1)
    ensures Continues(h1, h2)
  {
    hide Guarded, Scheduled, Stopped;
    SameChecks(h, fences, h1, fences1, h2);
    if since == [] {
      PlainJoins(h, fences, h1, fences1, h2);
    } else {
      var s :| h2 == Advance(h1, AbortTrim, s);
      StopThenAbort(h, h1, s);
    }
  }

  lemma NoFenceFails(h: History, fences: seq<bool>, h': History, fences': seq<bool>)
    requires Scheduled(h, fences, h', fences') && FencesHold(fences)
    ensures forall since :: !Stopped(h, h', since)
    ensures FencesHold(fences')
  {
    forall k | |h.checks| <= k < |h'.checks| ensures h'.checks[k].passed {
      assert h'.checks[k].passed == Answer(fences, k - |h.checks|);
    }
  }

  /** What it comes to when the very first answer is no: the prune raises and has deleted nothing. */
  lemma FirstRefusalDeletesNothing(h: History, fences: seq<bool>, h': History, fences': seq<bool>, outcome: Outcome)
    requires Fenced(h, h', outcome) && AskedFirst(h, h') && Scheduled(h, fences, h', fences')
    requires fences != [] && !fences[0]
    ensures outcome == Raised && |h'.checks| == |h.checks| + 1
    ensures forall k | |h.events| <= k < |h'.events| :: h'.events[k].Others? || h'.events[k] == AbortTrim
  {
    hide DeletesChecked;
    var first := |h.checks|;
    assert h'.checks[first].passed == Answer(fences, 0);
    assert Stopped(h, h', [AbortTrim]);
    assert first == |h'.checks| - 1;
    var at := h'.checks[first].at;
    assert forall k | at <= k < |h'.events| :: h'.events[k] == h'.events[at..][k - at];
  }

  // ---- What sparing writers leave as it is ----

  lemma NothingBelow(rows: map<Id, Row>, to: int)
    requires rows == map[]
    ensures Below(rows, to) == map[]
  {
  }

  lemma SameBelowSameRange(rows: map<Id, Row>, rows': map<Id, Row>, from: int, to: int)
    requires Below(rows, to) == Below(rows', to)
    ensures RangeOf(rows, from, to) == RangeOf(rows', from, to)
  {
    forall id ensures id in RangeOf(rows, from, to) <==> id in RangeOf(rows', from, to) {
      assert id in RangeOf(rows, from, to) ==> id in Below(rows, to);
      assert id in RangeOf(rows', from, to) ==> id in Below(rows', to);
    }
    forall id | id in RangeOf(rows, from, to) ensures rows[id] == rows'[id] {
      assert Below(rows, to)[id] == Below(rows', to)[id];
    }
  }

  function Played(rows: map<Id, Row>, m: Move): map<Id, Row> {
    (rows - m.gone) + m.added
  }

  lemma MoveSpares(rows: map<Id, Row>, used: set<Id>, m: Move, ids: set<Id>, from: int, to: int)
    requires Spares(m, ids, from, to) && RangeOf(rows, from, to).Keys <= ids
    requires rows.Keys <= used && m.added.Keys !! used
    ensures RangeOf(Played(rows, m), from, to) == RangeOf(rows, from, to)
  {
    var after := Played(rows, m);
    forall id ensures id in RangeOf(after, from, to) <==> id in RangeOf(rows, from, to) {
      if id in RangeOf(rows, from, to) {
        assert id in ids && id !in m.gone && id in after && after[id] == rows[id];
      }
    }
  }

  predicate SparedBelow(turns: seq<Turn>, ids: set<Id>, to: int) {
    forall i, k | 0 <= i < |turns| && 0 <= k < |turns[i]| ::
      var m := turns[i][k]; m.gone !! ids && forall id | id in m.added :: to * DAY <= m.added[id].at
  }

  /** Writers that only add rows of later days spare every range before. */
  lemma BelowSparesRange(turns: seq<Turn>, ids: set<Id>, from: int, to: int)
    requires SparedBelow(turns, ids, to)
    ensures AllSpare(turns, ids, from, to)
  {
    forall i, k | 0 <= i < |turns| && 0 <= k < |turns[i]| ensures Spares(turns[i][k], ids, from, to) {
    }
  }

  /** Ranges that the others spare change only by what was deleted, and the turns to come spare them too. */
  ghost predicate LeftAlone(turns: seq<Turn>, rows: map<Id, Row>, turns': seq<Turn>, rows': map<Id, Row>,
                            gone: set<Id>) {
    forall ids, from, to | AllSpare(turns, ids, from, to) ::
      && AllSpare(turns', ids, from, to)
      && (RangeOf(rows, from, to).Keys <= ids ==> RangeOf(rows', from, to) == RangeOf(rows, from, to) - gone)
  }

  lemma SameIsLeftAlone(turns: seq<Turn>, rows: map<Id, Row>)
    ensures LeftAlone(turns, rows, turns, rows, {})
  {
    hide RangeOf, AllSpare;
    forall from, to ensures RangeOf(rows, from, to) == RangeOf(rows, from, to) - {} {
    }
  }

  lemma TurnLeavesAlone(turns: seq<Turn>, rows: map<Id, Row>, rows': map<Id, Row>)
    requires turns != []
    requires forall ids, from, to | TurnSpares(turns[0], ids, from, to) && RangeOf(rows, from, to).Keys <= ids ::
               RangeOf(rows', from, to) == RangeOf(rows, from, to)
    ensures LeftAlone(turns, rows, turns[1..], rows', {})
  {
    hide RangeOf, TurnSpares;
    forall ids, from, to | AllSpare(turns, ids, from, to)
      ensures AllSpare(turns[1..], ids, from, to) && TurnSpares(turns[0], ids, from, to) {
    }
    forall from, to ensures RangeOf(rows, from, to) - {} == RangeOf(rows, from, to) {
    }
  }

  lemma LeftAloneJoins(turns0: seq<Turn>, rows0: map<Id, Row>, turns1: seq<Turn>, rows1: map<Id, Row>, gone: set<Id>,
                       turns2: seq<Turn>, rows2: map<Id, Row>, more: set<Id>)
    requires LeftAlone(turns0, rows0, turns1, rows1, gone) && LeftAlone(turns1, rows1, turns2, rows2, more)
    ensures LeftAlone(turns0, rows0, turns2, rows2, gone + more)
    ensures gone == {} ==> LeftAlone(turns0, rows0, turns2, rows2, more)
    ensures more == {} ==> LeftAlone(turns0, rows0, turns2, rows2, gone)
  {
    hide RangeOf, AllSpare;
    forall ids, from, to | AllSpare(turns0, ids, from, to)
      ensures AllSpare(turns2, ids, from, to)
      ensures RangeOf(rows0, from, to).Keys <= ids ==>
                RangeOf(rows2, from, to) == RangeOf(rows0, from, to) - (gone + more) {
      assert AllSpare(turns1, ids, from, to);
      var range := RangeOf(rows0, from, to);
      assert range - gone - more == range - (gone + more);
    }
    assert gone == {} ==> gone + more == more;
    assert more == {} ==> gone + more == gone;
  }

  lemma SparedRange(turns: seq<Turn>, rows: map<Id, Row>, turns': seq<Turn>, rows': map<Id, Row>, gone: set<Id>,
                    ids: set<Id>, from: int, to: int)
    requires LeftAlone(turns, rows, turns', rows', gone) && AllSpare(turns, ids, from, to)
    requires RangeOf(rows, from, to).Keys <= ids
    ensures AllSpare(turns', ids, from, to)
    ensures RangeOf(rows', from, to) == RangeOf(rows, from, to) - gone
    ensures gone == {} ==> RangeOf(rows', from, to) == RangeOf(rows, from, to)
  {
    hide RangeOf, AllSpare;
  }

  lemma SparedTwice(turns0: seq<Turn>, rows0: map<Id, Row>, turns1: seq<Turn>, rows1: map<Id, Row>, turns2: seq<Turn>,
                    rows2: map<Id, Row>, from: int, to: int)
    requires LeftAlone(turns0, rows0, turns1, rows1, {}) && LeftAlone(turns0, rows0, turns2, rows2, {})
    requires AllSpare(turns0, RangeOf(rows0, from, to).Keys, from, to)
    ensures var range := RangeOf(rows0, from, to);
            && AllSpare(turns1, range.Keys, from, to) && RangeOf(rows1, from, to) == range
            && AllSpare(turns2, range.Keys, from, to) && RangeOf(rows2, from, to) == range
  {
    hide LeftAlone;
    var ids := RangeOf(rows0, from, to).Keys;
    SparedRange(turns0, rows0, turns1, rows1, {}, ids, from, to);
    SparedRange(turns0, rows0, turns2, rows2, {}, ids, from, to);
  }

  /** The rows below a day, as long as the others only add later ones. */
  lemma SparedStays(turns: seq<Turn>, rows: map<Id, Row>, turns': seq<Turn>, rows': map<Id, Row>, gone: set<Id>,
                    to: int)
    requires LeftAlone(turns, rows, turns', rows', gone) && SparedBelow(turns, Below(rows, to).Keys, to)
    ensures Below(rows', to) == Below(rows, to) - gone
    ensures gone == {} ==> Below(rows', to) == Below(rows, to)
    ensures SparedBelow(turns', Below(rows, to).Keys, to)
  {
    hide LeftAlone, SparedBelow;
    var ids := Below(rows, to).Keys;
    forall from
      ensures RangeOf(rows', from, to) == RangeOf(rows, from, to) - gone && AllSpare(turns', ids, from, to) {
      BelowSparesRange(turns, ids, from, to);
      assert RangeOf(rows, from, to).Keys <= ids;
      SparedRange(turns, rows, turns', rows', gone, ids, from, to);
    }
    BelowFromRanges(rows, rows', gone, to);
    RangesSpareBelow(turns', ids, to);
  }

  lemma BelowFromRanges(rows: map<Id, Row>, rows': map<Id, Row>, gone: set<Id>, to: int)
    requires forall from :: RangeOf(rows', from, to) == RangeOf(rows, from, to) - gone
    ensures Below(rows', to) == Below(rows, to) - gone
    ensures gone == {} ==> Below(rows', to) == Below(rows, to)
  {
    forall id ensures id in Below(rows', to) <==> id in Below(rows, to) - gone {
      if id in Below(rows', to) {
        assert id in RangeOf(rows', rows'[id].at / DAY, to);
      }
      if id in Below(rows, to) - gone {
        assert id in RangeOf(rows, rows[id].at / DAY, to) - gone;
      }
    }
    forall id | id in Below(rows, to) - gone ensures rows'[id] == rows[id] {
      assert id in RangeOf(rows, rows[id].at / DAY, to) - gone;
    }
  }

  lemma RangesSpareBelow(turns: seq<Turn>, ids: set<Id>, to: int)
    requires forall from :: AllSpare(turns, ids, from, to)
    ensures SparedBelow(turns, ids, to)
  {
    forall i, k | 0 <= i < |turns| && 0 <= k < |turns[i]|
      ensures turns[i][k].gone !! ids && forall id | id in turns[i][k].added :: to * DAY <= turns[i][k].added[id].at {
      assert AllSpare(turns, ids, 0, to) && TurnSpares(turns[i], ids, 0, to) && Spares(turns[i][k], ids, 0, to);
      forall id | id in turns[i][k].added ensures to * DAY <= turns[i][k].added[id].at {
        var from := turns[i][k].added[id].at / DAY;
        assert AllSpare(turns, ids, from, to) && TurnSpares(turns[i], ids, from, to);
        assert Spares(turns[i][k], ids, from, to);
      }
    }
  }

  /** Undisturbed, the table has lost just what was deleted. */
  lemma UndisturbedRows(turns: seq<Turn>, rows: map<Id, Row>, turns': seq<Turn>, rows': map<Id, Row>, gone: set<Id>)
    requires LeftAlone(turns, rows, turns', rows', gone) && Undisturbed(turns)
    ensures rows' == rows - gone
  {
    hide LeftAlone;
    forall from, to ensures RangeOf(rows', from, to) == RangeOf(rows, from, to) - gone {
      var ids := RangeOf(rows, from, to).Keys;
      assert AllSpare(turns, ids, from, to);
      SparedRange(turns, rows, turns', rows', gone, ids, from, to);
    }
    forall id ensures id in rows' <==> id in rows - gone {
      if id in rows' {
        assert id in RangeOf(rows', rows'[id].at / DAY, rows'[id].at / DAY + 1);
      }
      if id in rows - gone {
        assert id in RangeOf(rows, rows[id].at / DAY, rows[id].at / DAY + 1) - gone;
      }
    }
    forall id | id in rows - gone ensures rows'[id] == rows[id] {
      assert id in RangeOf(rows, rows[id].at / DAY, rows[id].at / DAY + 1) - gone;
    }
  }

  /** What it means that everything due went into an archive. */
  ghost predicate AllDueArchived(rows: map<Id, Row>, rows': map<Id, Row>, files: map<FileName, seq<Row>>, to: int) {
    && (forall id | id in rows' :: to * DAY <= rows'[id].at)
    && forall id | id in rows && rows[id].at < to * DAY :: exists f :: f in files && rows[id] in files[f]
  }

  lemma AllDueGone(turns: seq<Turn>, rows: map<Id, Row>, turns': seq<Turn>, rows': map<Id, Row>, gone: set<Id>, to: int,
                   files: map<FileName, seq<Row>>)
    requires LeftAlone(turns, rows, turns', rows', gone) && SparedBelow(turns, Below(rows, to).Keys, to)
    requires gone == Below(rows, to).Keys
    requires Below(rows, to) == map[] || exists f :: f in files && HoldsRange(Below(rows, to), files[f])
    ensures AllDueArchived(rows, rows', files, to)
    ensures Undisturbed(turns) ==> rows' == rows - Below(rows, to).Keys
  {
    hide LeftAlone, SparedBelow, Below, HoldsRange, AllDueArchived, Undisturbed;
    SparedStays(turns, rows, turns', rows', gone, to);
    assert Below(rows, to) - gone == map[];
    if Undisturbed(turns) {
      UndisturbedRows(turns, rows, turns', rows', gone);
    }
    if Below(rows, to) == map[] {
      NothingDueLeft(rows, to);
    } else {
      AllDueFiled(rows, files, to);
    }
    NothingDueLeft(rows', to);
    AllDueArchivedIs(rows, rows', files, to);
  }

  lemma AllDueArchivedIs(rows: map<Id, Row>, rows': map<Id, Row>, files: map<FileName, seq<Row>>, to: int)
    ensures AllDueArchived(rows, rows', files, to) <==>
              && (forall id | id in rows' :: to * DAY <= rows'[id].at)
              && forall id | id in rows && rows[id].at < to * DAY :: exists f :: f in files && rows[id] in files[f]
  {
  }

  lemma NothingDueLeft(rows: map<Id, Row>, to: int)
    requires Below(rows, to) == map[]
    ensures forall id | id in rows :: to * DAY <= rows[id].at
  {
    forall id | id in rows ensures to * DAY <= rows[id].at {
      assert id !in Below(rows, to);
    }
  }

  lemma AllDueFiled(rows: map<Id, Row>, files: map<FileName, seq<Row>>, to: int)
    requires exists f :: f in files && HoldsRange(Below(rows, to), files[f])
    ensures forall id | id in rows && rows[id].at < to * DAY :: exists f :: f in files && rows[id] in files[f]
  {
    var due := Below(rows, to);
    var f :| f in files && HoldsRange(due, files[f]);
    var scan :| Scans(scan, due) && files[f] == RowsAt(due, scan);
    forall id | id in rows && rows[id].at < to * DAY ensures rows[id] in files[f] {
      assert id in due;
      ScanHolds(due, scan, rows[id]);
    }
  }

  /** A delete statement takes nothing from a spared range but what it picked. */
  lemma BatchLeavesRest(turns: seq<Turn>, rows0: map<Id, Row>, turns': seq<Turn>, rows: map<Id, Row>, picked: set<Id>)
    requires LeftAlone(turns, rows0, turns', rows, {})
    ensures var hit := picked * rows.Keys;
            LeftAlone(turns, rows0, turns', rows - hit, hit) && TakesSpared(turns, rows0, picked, hit)
  {
    hide AllSpare;
    var hit := picked * rows.Keys;
    forall ids, from, to | AllSpare(turns, ids, from, to) && RangeOf(rows0, from, to).Keys <= ids
      ensures RangeOf(rows - hit, from, to) == RangeOf(rows0, from, to) - hit
      ensures picked * RangeOf(rows0, from, to).Keys <= hit {
      assert RangeOf(rows, from, to) == RangeOf(rows0, from, to);
      assert RangeOf(rows0, from, to).Keys <= rows.Keys;
    }
  }

  function Beginning(rows: map<Id, Row>): State {
    State(rows, rows.Keys, map[], map[], map[], {}, Idle(NotRun), NotReading)
  }

  class Host {
    const c: Setting
    var rows: map<Id, Row>
    var used: set<Id>
    var files: map<FileName, seq<Row>>
    var manifests: map<Stem, Manifest>
    /** The temp table `prune_targets`. */
    var targets: set<Id>
    /** What the other writers do at each coming opportunity, and how each coming fence check ends. */
    var turns: seq<Turn>
    var fences: seq<bool>
    ghost var log: History

    ghost function View(): State
      reads this
    {
      State(rows, used, files, manifests, log.attested, log.removed, log.trim, NotReading)
    }

    /** The logged trace is a run of the machine that ends in the present state. */
    ghost predicate Valid()
      reads this
    {
      Traces(c, log, View()) && rows.Keys <= used
    }

    /** A host with these rows, before anything was archived. */
    constructor (setting: Setting, table: map<Id, Row>, schedule: seq<Turn>, checks: seq<bool>)
      ensures Valid() && Init(View()) && c == setting && rows == table && turns == schedule && fences == checks
    {
      c := setting;
      rows, used := table, table.Keys;
      files, manifests, targets := map[], map[], {};
      turns, fences := schedule, checks;
      log := History(map[], {}, Idle(NotRun), [Beginning(table)], [], []);
    }

    /** One transaction of another writer; one that would give out a used row id again is none. */
    method Commit(move: Move)
      requires Valid()
      modifies this`rows, this`used, this`log
      ensures Valid() && Plain(old(log), log) && log.trim == old(log.trim)
      ensures forall k | |old(log.events)| <= k < |log.events| :: log.events[k].Others?
      ensures rows == old(rows) || (rows == Played(old(rows), move) && move.added.Keys !! old(used))
    {
      hide Step, Traces;
      if move.added.Keys !! used {
        ghost var before := View();
        rows, used := (rows - move.gone) + move.added, used + ((rows - move.gone) + move.added).Keys;
        ghost var after := View();
        CommitIsStep(c, before, rows, after);
        AdvanceTraces(c, log, before, Others(rows), after);
        log := Advance(log, Others(rows), after);
      }
    }

    /** The other writers take their next turn. */
    method Interfere()
      requires Valid()
      modifies this`rows, this`used, this`turns, this`log
      ensures Valid() && Plain(old(log), log) && log.trim == old(log.trim)
      ensures forall k | |old(log.events)| <= k < |log.events| :: log.events[k].Others?
      ensures LeftAlone(old(turns), old(rows), turns, rows, {})
    {
      hide Step, Traces, RangeOf, Spares, LeftAlone;
      SameIsLeftAlone(turns, rows);
      if turns != [] {
        var moves := turns[0];
        turns := turns[1..];
        for i := 0 to |moves|
          invariant Valid() && Plain(old(log), log) && log.trim == old(log.trim)
          invariant forall k | |old(log.events)| <= k < |log.events| :: log.events[k].Others?
          invariant turns == old(turns)[1..]
          invariant forall ids, from, to
                      | TurnSpares(moves, ids, from, to) && RangeOf(old(rows), from, to).Keys <= ids ::
                      RangeOf(rows, from, to) == RangeOf(old(rows), from, to)
        {
          ghost var before, usedBefore := rows, used;
          Commit(moves[i]);
          if rows != before {
            forall ids, from, to | TurnSpares(moves, ids, from, to) && RangeOf(old(rows), from, to).Keys <= ids
              ensures RangeOf(rows, from, to) == RangeOf(old(rows), from, to) {
              MoveSpares(before, usedBefore, moves[i], ids, from, to);
            }
          }
        }
        TurnLeavesAlone(old(turns), old(rows), rows);
      }
    }

    /** `authority.verify_fence` either passes or raises: the next scheduled answer. */
    method VerifyFence() returns (holds: bool)
      requires Valid()
      modifies this`fences, this`log
      ensures Valid() && log == old(log).(checks := old(log).checks + [Check(|old(log).events|, holds)])
      ensures Scheduled(old(log), old(fences), log, fences)
    {
      hide Run;
      holds := true;
      if fences != [] {
        holds := fences[0];
        fences := fences[1..];
      }
      log := log.(checks := log.checks + [Check(|log.events|, holds)]);
    }

    /** Moves the trimmer on without touching the host's own fields. */
    ghost method Enter(e: Event, trim: Trimmer)
      requires Valid() && !e.Others? && !e.DeleteBatch? && TrimStep(c, View(), e, View().(trim := trim))
      modifies this`log
      ensures Valid() && Plain(old(log), log)
      ensures View() == old(View()).(trim := trim) && log == Advance(old(log), e, View())
    {
      hide TrimStep, Traces;
      ghost var after := View().(trim := trim);
      AdvanceTraces(c, log, View(), e, after);
      log := Advance(log, e, after);
    }

    /** The statement or check failed: the prune raises, and its session and temp table go. */
    method Raise() returns (outcome: Outcome)
      requires Valid() && !log.trim.Idle?
      modifies this`log
      ensures Valid() && Plain(old(log), log) && outcome == Raised && log.trim == Idle(outcome)
      ensures log == Advance(old(log), AbortTrim, View())
    {
      Enter(AbortTrim, Idle(Raised));
      outcome := Raised;
    }

    /** One delete statement: at most `limit` of the frozen targets leave the temp table, and those of them that still
        exist leave the table. */
    method DeleteBatchOf(limit: nat) returns (count: nat, ghost picked: set<Id>)
      requires Valid() && log.trim.Deleting? && targets == log.trim.targets
      requires var t := log.trim;
               |t.gone| < t.manifest.rows && 0 < limit == MinInt(c.batchRows, t.manifest.rows - |t.gone|)
      modifies this`rows, this`targets, this`log
      ensures Valid() && log == Advance(old(log), DeleteBatch(picked), View())
      ensures log.trim.Deleting? && targets == log.trim.targets
      ensures picked <= old(targets) && |picked| == MinInt(limit, |old(targets)|)
      ensures View() == BatchState(old(View()), picked)
      ensures count == |picked * old(rows).Keys|
    {
      hide Traces, Step, BatchState;
      ghost var before := View();
      var chosen := Pick(targets, MinInt(limit, |targets|));
      picked := chosen;
      ghost var after := BatchState(before, picked);
      BatchIsStep(c, before, picked);
      BatchFields(before, picked);
      AdvanceTraces(c, log, before, DeleteBatch(picked), after);
      count := |chosen * rows.Keys|;
      rows := rows - chosen * rows.Keys;
      targets := targets - chosen;
      log := Advance(log, DeleteBatch(picked), after);
    }

    /** Compares the content of the frozen rows that still stand with the manifest's fingerprint. */
    method CompareFrozen(expected: string) returns (accepted: bool)
      requires Valid() && log.trim.Frozen? && targets == log.trim.targets && expected == log.trim.manifest.fingerprint
      modifies this`log
      ensures Valid() && Plain(old(log), log)
      ensures var t := old(log.trim);
              log.trim == if accepted then Deleting(t.plan, t.stem, t.manifest, targets, targets, {}) else t
      ensures accepted <==> HasDigest(c, Live(old(View())), expected)
    {
      hide Traces, TrimStep, HexDigest, HasDigest;
      ghost var t := log.trim;
      if !(ALGORITHM + ":" <= expected) {
        if HasDigest(c, Live(View()), expected) {
          DigestHasPrefix(c, Live(View()), expected);
        }
        return false;
      }
      var live := map id | id in targets && id in rows :: rows[id];
      assert live == Live(View());
      var scan := Scan(live);
      var text := StreamDigest(c.hash, RowsAt(live, scan));
      DigestOfScan(c, live, expected, scan);
      if text != expected {
        return false;
      }
      CompareIsStep(c, View(), scan);
      Enter(CompareDigest(scan), Deleting(t.plan, t.stem, t.manifest, targets, targets, {}));
      accepted := true;
    }

    /** Freezes the targets and compares their number and their content with the manifest. */
    method FreezeAndCompare(recorded: nat, fromDay: int, toDay: int, expected: string) returns (accepted: bool)
      requires Valid() && log.trim.Verified?
      requires var m := log.trim.manifest;
               recorded == m.rows && fromDay == m.from && toDay == m.to && expected == m.fingerprint
      modifies this`rows, this`used, this`turns, this`targets, this`log
      ensures Valid() && Plain(old(log), log) && !log.trim.Idle?
      ensures accepted ==> Compared(old(log.trim), log.trim, targets)
      ensures accepted ==> targets == RangeOf(old(rows), fromDay, toDay).Keys
      ensures LeftAlone(old(turns), old(rows), turns, rows, {})
      ensures var range := RangeOf(old(rows), fromDay, toDay);
              AllSpare(old(turns), range.Keys, fromDay, toDay) && Expects(c, range, recorded, expected) ==> accepted
    {
      hide Traces, TrimStep, HexDigest, AllSpare;
      ghost var range := RangeOf(rows, fromDay, toDay);
      SameIsLeftAlone(turns, rows);
      targets := RangeOf(rows, fromDay, toDay).Keys;
      if |targets| != recorded {
        return false;
      }
      ghost var t := log.trim;
      FreezeIsStep(c, View(), targets);
      Enter(FreezeTargets, Frozen(t.plan, t.stem, t.manifest, targets));
      Interfere();
      if AllSpare(old(turns), range.Keys, fromDay, toDay) {
        SparedRange(old(turns), old(rows), turns, rows, {}, range.Keys, fromDay, toDay);
        LiveIsRange(View(), range, fromDay, toDay);
      }
      accepted := CompareFrozen(expected);
    }

    /** One turn of the delete loop: the fence, then one delete statement.  `hit` is what the statement removed. */
    method FencedBatch(limit: nat) returns (holds: bool, count: nat, ghost picked: set<Id>, ghost hit: set<Id>)
      requires Valid() && log.trim.Deleting? && targets == log.trim.targets
      requires var t := log.trim;
               |t.gone| < t.manifest.rows && 0 < limit == MinInt(c.batchRows, t.manifest.rows - |t.gone|)
      modifies this`rows, this`used, this`turns, this`fences, this`targets, this`log
      ensures Valid() && log.trim.Deleting? && targets == log.trim.targets
      ensures if holds then Guarded(old(log), log) else Stopped(old(log), log, [])
      ensures Scheduled(old(log), old(fences), log, fences)
      ensures LeftAlone(old(turns), old(rows), turns, rows, hit)
      ensures !holds ==> log.trim == old(log.trim) && hit == {}
      ensures holds ==> Batched(old(log.trim), log.trim, limit, picked, hit, count)
      ensures holds ==> TakesSpared(old(turns), old(rows), picked, hit)
    {
      hide Traces, RemovalsOf, RangeOf, LeftAlone, AllSpare, Guarded, Stopped, Scheduled, Plain, BatchStep;
      Interfere();
      ghost var before, h := rows, log;
      holds := VerifyFence();
      ghost var checked := log;
      PlainThenCheck(old(log), h, old(fences), checked, fences);
      if holds {
        count, picked := DeleteBatchOf(limit);
        hit := picked * before.Keys;
        CheckThenDelete(h, true, picked, View());
        GuardedJoin(old(log), h, log);
        SameChecks(old(log), old(fences), checked, fences, log);
        BatchLeavesRest(old(turns), old(rows), turns, before, picked);
      } else {
        count, picked, hit := 0, {}, {};
        CheckThenDelete(h, false, picked, View());
        GuardedJoin(old(log), h, log);
      }
    }

    /** The delete loop: batch by batch, with the fence checked again before each batch.  It stops early when a batch
        finds nothing left to remove, and `fenced` says that a fence check raised. */
    method DeleteLoop(recorded: nat, batchRows: int) returns (fenced: bool, deleted: nat)
      requires Valid() && batchRows == c.batchRows && Pruning(log.trim, log.trim, targets) && log.trim.gone == {}
      requires recorded == log.trim.manifest.rows
      modifies this`rows, this`used, this`turns, this`fences, this`targets, this`log
      ensures Valid()
      ensures if fenced then Stopped(old(log), log, []) else Guarded(old(log), log)
      ensures Scheduled(old(log), old(fences), log, fences)
      ensures Pruning(old(log.trim), log.trim, targets) && (!fenced ==> deleted == |log.trim.gone|)
      ensures LeftAlone(old(turns), old(rows), turns, rows, log.trim.gone)
      ensures old(Spared(turns, rows, log.trim)) && old(FencesHold(fences)) && batchRows > 0
              && |old(log.trim.targets)| == recorded ==>
                !fenced && deleted == recorded
    {
      hide Traces, TrimStep, Batched, TakesSpared, LeftAlone, Spared, RangeOf, Guarded, Stopped, Scheduled;
      ghost var calm := Spared(turns, rows, log.trim) && FencesHold(fences) && batchRows > 0
                        && |log.trim.targets| == recorded;
      deleted, fenced := 0, false;
      NothingHappened(log, fences);
      SameIsLeftAlone(turns, rows);
      while deleted < recorded
        invariant Valid() && !fenced && Guarded(old(log), log) && Scheduled(old(log), old(fences), log, fences)
        invariant Pruning(old(log.trim), log.trim, targets) && deleted == |log.trim.gone| <= recorded
        invariant LeftAlone(old(turns), old(rows), turns, rows, log.trim.gone)
        invariant calm ==> Spared(turns, rows, log.trim) && |log.trim.targets| == recorded - deleted
      {
        var limit := MinInt(batchRows, recorded - deleted);
        if limit <= 0 {
          break;
        }
        ghost var t, turns1, before, h, f := log.trim, turns, rows, log, fences;
        var holds, removed, picked, hit := FencedBatch(limit);
        GuardedJoin(old(log), h, log);
        ScheduledJoin(old(log), old(fences), h, f, log, fences);
        LeftAloneJoins(old(turns), old(rows), turns1, before, t.gone, turns, rows, hit);
        if !holds {
          fenced := true;
          if calm {
            NoFenceFails(old(log), old(fences), log, fences);
          }
          return;
        }
        BatchAccounts(t, log.trim, limit, picked, hit, removed);
        if calm {
          CalmBatch(turns1, before, t, turns, rows, log.trim, limit, picked, hit, removed);
        }
        if removed == 0 {
          break;
        }
        deleted := deleted + removed;
      }
    }

    /** Deletes the frozen targets, and returns only if it removed the recorded number and none is left.  `gone` is what
        it deleted. */
    method DeleteFrozen(recorded: nat, batchRows: int) returns (outcome: Outcome, ghost gone: set<Id>)
      requires Valid() && log.trim.Deleting? && batchRows == c.batchRows
      requires var t := log.trim;
               targets == t.targets == t.frozen && t.gone == {} && |targets| == recorded == t.manifest.rows
      modifies this`rows, this`used, this`turns, this`fences, this`targets, this`log
      ensures Valid() && log.trim == Idle(outcome)
      ensures Fenced(old(log), log, outcome) && Scheduled(old(log), old(fences), log, fences)
      ensures outcome == Raised || (Finished(outcome, recorded, log.events) && gone == old(targets))
      ensures gone <= old(targets) && LeftAlone(old(turns), old(rows), turns, rows, gone)
      ensures old(Spared(turns, rows, log.trim)) && old(FencesHold(fences)) && batchRows > 0 ==> outcome != Raised
    {
      hide Traces, TrimStep, LeftAlone, Spared, RangeOf, Guarded, Stopped, Scheduled, Fenced;
      var fenced, deleted := DeleteLoop(recorded, batchRows);
      ghost var h := log;
      gone := log.trim.gone;
      if |gone| == |log.trim.frozen| {
        SameSizeSubset(gone, log.trim.frozen);
      }
      if fenced || deleted != recorded || targets != {} {
        outcome := Raise();
        EndsFenced(old(log), old(fences), h, fences, log, if fenced then [AbortTrim] else []);
        return;
      }
      outcome := Returned(recorded, deleted);
      FinishIsStep(c, View());
      Enter(FinishPrune, Idle(outcome));
      EndsFenced(old(log), old(fences), h, fences, log, []);
      assert log.events[|log.events| - 1] == FinishPrune;
    }

    /** The first fence check of a prune, before anything but the others' turn. */
    method AskFence() returns (holds: bool)
      requires Valid()
      modifies this`rows, this`used, this`turns, this`fences, this`log
      ensures Valid() && log.trim == old(log.trim)
      ensures if holds then Guarded(old(log), log) else Stopped(old(log), log, [])
      ensures AskedFirst(old(log), log) && Scheduled(old(log), old(fences), log, fences)
      ensures LeftAlone(old(turns), old(rows), turns, rows, {})
    {
      hide Traces, LeftAlone, Guarded, Stopped, Scheduled, AskedFirst, Plain;
      Interfere();
      ghost var h := log;
      holds := VerifyFence();
      PlainThenCheck(old(log), h, old(fences), log, fences);
      CheckThenDelete(h, holds, {}, View());
      GuardedJoin(old(log), h, log);
      CheckComesFirst(old(log), h, log);
    }

    /** `run_locked_prune`: locks, fence, freeze, comparison, delete loop and final checks.  Every way through it is a
        run of the machine.  The fence is asked before anything else, and again directly before each deletion; the first
        answer that is not yes ends it, with nothing deleted since.  It returns normally only by a `FinishPrune` step,
        and if the others leave the range alone, the fences hold and the range is still what the manifest promises, then
        it does and the range is gone. */
    method RunLockedPrune(recorded: nat, fromDay: int, toDay: int, batchRows: int, expected: string)
      returns (outcome: Outcome, ghost gone: set<Id>)
      requires Valid() && log.trim.Verified? && batchRows == c.batchRows
      requires var m := log.trim.manifest;
               recorded == m.rows && fromDay == m.from && toDay == m.to && expected == m.fingerprint
      modifies this`rows, this`used, this`turns, this`fences, this`targets, this`log
      ensures Valid() && log.trim == Idle(outcome)
      ensures Fenced(old(log), log, outcome) && AskedFirst(old(log), log)
      ensures Scheduled(old(log), old(fences), log, fences)
      ensures outcome == Raised || (Finished(outcome, recorded, log.events) && |gone| == recorded)
      ensures LeftAlone(old(turns), old(rows), turns, rows, gone)
      ensures var range := RangeOf(old(rows), fromDay, toDay);
              AllSpare(old(turns), range.Keys, fromDay, toDay) ==>
                && (outcome != Raised ==> gone == range.Keys)
                && (old(FencesHold(fences)) && batchRows > 0 && Expects(c, range, recorded, expected) ==>
                      outcome != Raised)
    {
      hide Traces, TrimStep, Expects, LeftAlone, Spared, AllSpare, RangeOf, Guarded, Stopped, Scheduled, Fenced,
        AskedFirst, Plain, Finished, FencesHold;
      gone := {};
      var holds := AskFence();
      ghost var asked, f, turns1, rows1 := log, fences, turns, rows;
      if FencesHold(old(fences)) {
        NoFenceFails(old(log), old(fences), asked, fences);
      }
      if !holds {
        outcome := Raise();
        EndsFenced(old(log), old(fences), asked, f, log, [AbortTrim]);
        StillFirst(old(log), asked, log);
        return;
      }
      var accepted := FreezeAndCompare(recorded, fromDay, toDay, expected);
      LeftAloneJoins(old(turns), old(rows), turns1, rows1, {}, turns, rows, {});
      ghost var frozen, turns2, rows2 := log, turns, rows;
      PlainJoins(old(log), old(fences), asked, f, frozen);
      StillFirst(old(log), asked, frozen);
      if accepted {
        outcome, gone := DeleteFrozen(recorded, batchRows);
        LeftAloneJoins(old(turns), old(rows), turns2, rows2, {}, turns, rows, gone);
        FencedJoin(old(log), frozen, log, outcome);
        ScheduledJoin(old(log), old(fences), frozen, f, log, fences);
        FencedContinues(frozen, log, outcome);
      } else {
        outcome := Raise();
        EndsFenced(old(log), old(fences), frozen, f, log, []);
      }
      StillFirst(old(log), frozen, log);
      if AllSpare(old(turns), RangeOf(old(rows), fromDay, toDay).Keys, fromDay, toDay) {
        SparedTwice(old(turns), old(rows), turns1, rows1, turns2, rows2, fromDay, toDay);
        if accepted {
          TargetsAreSpared(turns2, rows2, frozen.trim, RangeOf(old(rows), fromDay, toDay));
        }
      }
    }

    // ---- The archiver, and the whole treatment of one table ----

    /** `export_range`: one scan of the range, streamed into `file`. */
    method ExportTo(plan: Plan, count: nat, file: FileName)
      requires Valid() && log.trim == Counted(plan, count) && count != 0 && NameAllowed(c, plan, manifests, files, file)
      modifies this`files, this`log
      ensures Valid() && Plain(old(log), log) && file in files
      ensures HoldsRange(RangeOf(rows, plan.from, plan.to), files[file])
      ensures exists scan :: log.trim == Exported(plan, count, file, scan)
    {
      hide Traces;
      ghost var before := View();
      var range := RangeOf(rows, plan.from, plan.to);
      var scan := Scan(range);
      ghost var after := before.(files := files[file := RowsAt(range, scan)],
                                 trim := Exported(plan, count, file, scan));
      AdvanceTraces(c, log, before, ExportRange(file, scan), after);
      log := Advance(log, ExportRange(file, scan), after);
      files := files[file := RowsAt(range, scan)];
    }

    /** `compute_range_fingerprint`: a second scan of the range, in an order of its own. */
    method Fingerprint(plan: Plan) returns (text: string)
      requires Valid() && log.trim.Exported? && log.trim.plan == plan
      modifies this`log
      ensures Valid() && Plain(old(log), log)
      ensures exists printed :: log.trim == Printed(plan, old(log.trim).rows, old(log.trim).file, text, printed)
      ensures var range := RangeOf(rows, plan.from, plan.to);
              Expects(c, range, |range|, text)
    {
      hide Traces, HexDigest;
      var range := RangeOf(rows, plan.from, plan.to);
      var scan := Scan(range);
      text := StreamDigest(c.hash, RowsAt(range, scan));
      ghost var t := log.trim;
      Enter(FingerprintRange(scan), Printed(plan, t.rows, t.file, text, RowsAt(range, scan)));
    }

    /** Writes the manifest; from here on the archive counts as made. */
    method PutManifest(plan: Plan, count: nat, file: FileName, text: string)
      requires Valid() && log.trim.Printed? && log.trim == Printed(plan, count, file, text, log.trim.printed)
      requires file in files
      modifies this`manifests, this`log
      ensures Valid() && Plain(old(log), log)
      ensures log.trim == Archived(plan, file.stem)
      ensures var m := Manifest(plan.from, plan.to, count, text, c.sha(files[file]), file);
              manifests == old(manifests)[file.stem := m]
    {
      hide Traces;
      ghost var before := View();
      var m := Manifest(plan.from, plan.to, count, text, c.sha(files[file]), file);
      ghost var after := before.(manifests := manifests[file.stem := m],
                                 attested := log.attested[file.stem := Attestation(files[file], log.trim.printed)],
                                 trim := Archived(plan, file.stem));
      AdvanceTraces(c, log, before, WriteManifest, after);
      log := Advance(log, WriteManifest, after);
      manifests := manifests[file.stem := m];
    }

    /** Export, fingerprint and manifest.  `turns2` and `rows2` are as of the export. */
    method ExportAndPrint(plan: Plan, count: nat, file: FileName)
      returns (ghost turns2: seq<Turn>, ghost rows2: map<Id, Row>)
      requires Valid() && log.trim == Counted(plan, count) && count != 0 && NameAllowed(c, plan, manifests, files, file)
      modifies this`rows, this`used, this`turns, this`files, this`manifests, this`log
      ensures Valid() && Plain(old(log), log)
      ensures log.trim == Archived(plan, file.stem) && HasManifest(c, plan, file, manifests, files)
      ensures manifests[file.stem].rows == count
      ensures LeftAlone(old(turns), old(rows), turns2, rows2, {}) && LeftAlone(old(turns), old(rows), turns, rows, {})
      ensures HoldsRange(RangeOf(rows2, plan.from, plan.to), files[file])
      ensures var range := RangeOf(rows, plan.from, plan.to);
              Expects(c, range, |range|, manifests[file.stem].fingerprint)
    {
      hide Traces, TrimStep, HexDigest, Expects, LeftAlone, AllSpare, RangeOf, HoldsRange, NameAllowed, Plain;
      Interfere();
      ghost var h := log;
      turns2, rows2 := turns, rows;
      ExportTo(plan, count, file);
      PlainJoin(old(log), h, log);
      h := log;
      Interfere();
      PlainJoin(old(log), h, log);
      LeftAloneJoins(old(turns), old(rows), turns2, rows2, {}, turns, rows, {});
      h := log;
      var text := Fingerprint(plan);
      PlainJoin(old(log), h, log);
      h := log;
      PutManifest(plan, count, file, text);
      PlainJoin(old(log), h, log);
    }

    /** `archive_table.main`: count, export, fingerprint and manifest, with other writers in between.  Reports failure
        when there is nothing in the range and so no manifest to trust. */
    method ArchiveTable(plan: Plan, file: FileName) returns (made: bool)
      requires Valid() && log.trim == Planned(plan) && NameAllowed(c, plan, manifests, files, file)
      modifies this`rows, this`used, this`turns, this`files, this`manifests, this`log
      ensures Valid() && Plain(old(log), log)
      ensures made ==> log.trim == Archived(plan, file.stem) && HasManifest(c, plan, file, manifests, files)
      ensures !made ==> !log.trim.Idle?
      ensures LeftAlone(old(turns), old(rows), turns, rows, {})
      ensures var range := RangeOf(old(rows), plan.from, plan.to);
              AllSpare(old(turns), range.Keys, plan.from, plan.to) ==>
                && (made <==> range != map[])
                && (made ==> manifests[file.stem].rows == |range|
                             && Expects(c, range, |range|, manifests[file.stem].fingerprint)
                             && HoldsRange(range, files[file]))
    {
      hide Traces, TrimStep, HexDigest, Expects, LeftAlone, AllSpare, RangeOf, HoldsRange, NameAllowed, Plain;
      ghost var calm := AllSpare(turns, RangeOf(rows, plan.from, plan.to).Keys, plan.from, plan.to);
      Interfere();
      ghost var h1, turns1, rows1 := log, turns, rows;
      var count := |RangeOf(rows, plan.from, plan.to)|;
      CountIsStep(c, View());
      Enter(CountRows, Counted(plan, count));
      PlainJoin(old(log), h1, log);
      made := count != 0;
      if made {
        ghost var h2 := log;
        ghost var turns2, rows2 := ExportAndPrint(plan, count, file);
        PlainJoin(old(log), h2, log);
        LeftAloneJoins(old(turns), old(rows), turns1, rows1, {}, turns2, rows2, {});
        LeftAloneJoins(old(turns), old(rows), turns1, rows1, {}, turns, rows, {});
        if calm {
          SparedTwice(old(turns), old(rows), turns2, rows2, turns, rows, plan.from, plan.to);
        }
      }
      if calm {
        SparedTwice(old(turns), old(rows), turns1, rows1, turns1, rows1, plan.from, plan.to);
      }
    }

    /** The checks of `main` on the manifest and the archive file, before anything is removed. */
    method VerifyArchive(plan: Plan, stem: Stem) returns (accepted: bool)
      requires Valid() && log.trim == Archived(plan, stem)
      modifies this`log
      ensures Valid() && Plain(old(log), log)
      ensures accepted <==> (stem in manifests && manifests[stem].rows == plan.pending && manifests[stem].file in files
                             && c.sha(files[manifests[stem].file]) == manifests[stem].sha)
      ensures accepted ==> log.trim == Verified(plan, stem, manifests[stem])
      ensures !accepted ==> log.trim == Archived(plan, stem)
    {
      hide Traces;
      accepted := stem in manifests && manifests[stem].rows == plan.pending && manifests[stem].file in files
                  && c.sha(files[manifests[stem].file]) == manifests[stem].sha;
      if accepted {
        Enter(VerifyManifest, Verified(plan, stem, manifests[stem]));
      }
    }

    /** Archives the planned days, verifies the archive and prunes.  If the others leave the range alone, a planned
        range that is not empty and has the planned number of rows is moved out of the table into the archive file, row
        by row. */
    method ArchiveAndPrune(plan: Plan, file: FileName, batchRows: int) returns (outcome: Outcome, ghost gone: set<Id>)
      requires Valid() && log.trim == Planned(plan) && batchRows == c.batchRows
               && NameAllowed(c, plan, manifests, files, file)
      modifies this`rows, this`used, this`turns, this`fences, this`files, this`manifests, this`targets, this`log
      ensures Valid() && log.trim == Idle(outcome)
      ensures Fenced(old(log), log, outcome) && Scheduled(old(log), old(fences), log, fences)
      ensures LeftAlone(old(turns), old(rows), turns, rows, gone)
      ensures var range := RangeOf(old(rows), plan.from, plan.to);
              AllSpare(old(turns), range.Keys, plan.from, plan.to) ==>
                && (outcome != Raised ==> gone == range.Keys)
                && (old(FencesHold(fences)) && batchRows > 0 && range != map[] && plan.pending == |range| ==>
                      && Finished(outcome, |range|, log.events)
                      && file in files && HoldsRange(range, files[file]))
    {
      hide Traces, TrimStep, HexDigest, Expects, RangeOf, HoldsRange, LeftAlone, AllSpare, NameAllowed, Finished, Plain,
        Guarded, Stopped, Scheduled, AskedFirst;
      ghost var range := RangeOf(rows, plan.from, plan.to);
      ghost var calm := AllSpare(turns, range.Keys, plan.from, plan.to);
      NothingHappened(log, fences);
      gone := {};
      var made := ArchiveTable(plan, file);
      ghost var h, turns1, rows1 := log, turns, rows;
      PlainJoins(old(log), fences, old(log), fences, h);
      if calm {
        SparedRange(old(turns), old(rows), turns, rows, {}, range.Keys, plan.from, plan.to);
      }
      if !made {
        outcome := Raise();
        EndsFenced(old(log), fences, h, fences, log, []);
        return;
      }
      var accepted := VerifyArchive(plan, file.stem);
      ghost var verified, f := log, fences;
      PlainJoins(old(log), fences, h, fences, verified);
      if !accepted {
        outcome := Raise();
        EndsFenced(old(log), fences, verified, fences, log, []);
        return;
      }
      var m := manifests[file.stem];
      outcome, gone := RunLockedPrune(m.rows, m.from, m.to, batchRows, m.fingerprint);
      LeftAloneJoins(old(turns), old(rows), turns1, rows1, {}, turns, rows, gone);
      FencedJoin(old(log), verified, log, outcome);
      ScheduledJoin(old(log), f, verified, f, log, fences);
    }

    /** The plan for one table: its oldest day, read first, and the number of rows due, counted later. */
    method PlanTable(cutoff: int) returns (plan: Option<Plan>)
      requires Valid() && log.trim.Idle?
      modifies this`rows, this`used, this`turns, this`log
      ensures Valid() && Plain(old(log), log)
      ensures plan.None? ==> log.trim == old(log.trim)
      ensures plan.Some? ==>
                log.trim == Planned(plan.value) && plan.value.to == cutoff / DAY && plan.value.cutoff == cutoff
      ensures LeftAlone(old(turns), old(rows), turns, rows, {})
      ensures var due := Below(old(rows), cutoff / DAY);
              SparedBelow(old(turns), due.Keys, cutoff / DAY) ==>
                if due == map[] then plan.None?
                else plan.Some? && plan.value.pending == |due| && RangeOf(rows, plan.value.from, plan.value.to) == due
    {
      hide Traces, TrimStep, LeftAlone, SparedBelow, RangeOf, Below;
      var to := cutoff / DAY;
      ghost var due := Below(rows, to);
      ghost var calm := SparedBelow(turns, due.Keys, to);
      Interfere();
      if calm {
        SparedStays(old(turns), old(rows), turns, rows, {}, to);
      }
      if rows == map[] {
        NothingBelow(rows, to);
        return None;
      }
      var oldest := OldestDay(rows);
      ghost var seen, turns1 := rows, turns;
      Interfere();
      LeftAloneJoins(old(turns), old(rows), turns1, seen, {}, turns, rows, {});
      if calm {
        SparedStays(turns1, seen, turns, rows, {}, to);
      }
      if oldest >= to {
        NothingDue(seen, oldest, to);
        return None;
      }
      var p := Plan(oldest, to, cutoff, |Below(rows, to)|);
      PlanIsStep(c, View(), p);
      Enter(MakePlan(p), Planned(p));
      DueRange(seen, oldest, to);
      if calm {
        SameBelowSameRange(seen, rows, oldest, to);
      }
      plan := Some(p);
    }

    /** One table of the main loop: find the oldest day, count what is due, archive it, verify the archive, prune.  If
        the others only add rows of later days, it removes all rows before the day of the effective cutoff, and the
        archive file holds every one of them; undisturbed, it removes nothing else. */
    method TrimTable(cutoff: int, tag: string, json: bool, batchRows: int) returns (outcome: Outcome)
      requires Valid() && log.trim.Idle? && batchRows == c.batchRows
      requires if c.freshNames
               then (forall f | f in files :: f.stem.tag != tag) && (forall stem | stem in manifests :: stem.tag != tag)
               else tag == ""
      modifies this`rows, this`used, this`turns, this`fences, this`files, this`manifests, this`targets, this`log
      ensures Valid() && log.trim.Idle?
      ensures Fenced(old(log), log, outcome) && Scheduled(old(log), old(fences), log, fences)
      ensures var due := Below(old(rows), cutoff / DAY);
              SparedBelow(old(turns), due.Keys, cutoff / DAY) && old(FencesHold(fences)) && batchRows > 0 ==>
                && AllDueArchived(old(rows), rows, files, cutoff / DAY)
                && (old(Undisturbed(turns)) ==> rows == old(rows) - due.Keys)
                && (due != map[] ==> exists f :: f in files && HoldsRange(due, files[f]))
    {
      hide Traces, TrimStep, HoldsRange, RangeOf, Below, Undisturbed, LeftAlone, AllSpare, SparedBelow, Plain, Guarded,
        Stopped, Scheduled, Fenced, AllDueArchived;
      outcome := NotRun;
      NothingHappened(log, fences);
      var to := cutoff / DAY;
      ghost var due := Below(rows, to);
      ghost var calm, gone := SparedBelow(turns, due.Keys, to), {};
      var plan := PlanTable(cutoff);
      ghost var h, f, turns1, rows1 := log, fences, turns, rows;
      PlainJoins(old(log), fences, old(log), fences, h);
      GuardedIsFenced(old(log), h, outcome);
      if calm {
        SparedStays(old(turns), old(rows), turns, rows, {}, to);
      }
      if plan.Some? {
        var p := plan.value;
        var file := FileName(Stem(p.from, p.to, tag), json);
        if calm {
          BelowSparesRange(turns, due.Keys, p.from, to);
        }
        outcome, gone := ArchiveAndPrune(p, file, batchRows);
        FencedJoin(old(log), h, log, outcome);
        ScheduledJoin(old(log), f, h, f, log, fences);
        LeftAloneJoins(old(turns), old(rows), turns1, rows1, {}, turns, rows, gone);
      }
      if calm && old(FencesHold(fences)) && batchRows > 0 {
        AllDueGone(old(turns), old(rows), turns, rows, gone, to, files);
      }
    }
  }

  /** The day of the oldest row. */
  method OldestDay(rows: map<Id, Row>) returns (day: int)
    requires rows != map[]
    ensures OldestIn(rows, day)
  {
    var scan := Scan(rows);
    ScanCovers(scan, rows);
    assert |rows.Keys| == |rows|;
    var oldest := rows[scan[0]].at;
    for i := 1 to |scan|
      invariant exists k :: 0 <= k < i && rows[scan[k]].at == oldest
      invariant forall k | 0 <= k < i :: oldest <= rows[scan[k]].at
    {
      assert scan[i] in scan;
      if rows[scan[i]].at < oldest {
        oldest := rows[scan[i]].at;
      }
    }
    day := oldest / DAY;
    forall id | id in rows ensures day * DAY <= rows[id].at {
      assert id in scan;
    }
  }

  ghost predicate OldestIn(rows: map<Id, Row>, day: int) {
    && (forall id | id in rows :: day * DAY <= rows[id].at)
    && (exists id :: id in rows && rows[id].at < (day + 1) * DAY)
  }

  lemma NothingDue(rows: map<Id, Row>, day: int, to: int)
    requires OldestIn(rows, day) && day >= to
    ensures Below(rows, to) == map[]
  {
  }

  lemma DueRange(rows: map<Id, Row>, day: int, to: int)
    requires OldestIn(rows, day) && day < to
    ensures RangeOf(rows, day, to) == Below(rows, to) && Below(rows, to) != map[]
  {
    var id :| id in rows && rows[id].at < (day + 1) * DAY;
    assert id in Below(rows, to);
  }

  lemma PlanIsStep(c: Setting, s: State, plan: Plan)
    requires s.trim.Idle? && PlanFits(plan)
    ensures TrimStep(c, s, MakePlan(plan), s.(trim := Planned(plan)))
  {
  }

  /** What a finished stretch of this code means on any history: whatever it deleted, in full or in part, was
      fingerprinted for its archive.  If that archive was made from a quiet range, the row is in it now unless the name
      was exported again since; with fresh names it always is. */
  lemma HostLosesNothing(c: Setting, h: History, s: State, r: Removal) returns (i: nat)
    requires Traces(c, h, s) && CollisionFreeRun(c, h.states, h.events) && Init(h.states[0]) && r in s.removed
    ensures i < |h.events| && RemovedAt(h.states, h.events, i, r)
    ensures r.stem in h.states[i].attested && r.row in h.states[i].attested[r.stem].printed
    ensures MadeQuietly(h.states, h.events, i, r.stem) ==>
              && (NotExported(h.events, i + 1, |h.events|, r.stem) ==> InArchive(c, s, r.row, r.stem))
              && (c.freshNames ==> InArchive(c, s, r.row, r.stem))
  {
    hide Step, CollisionFree, Init, InArchive, NotExported, MadeQuietly;
    var last := |h.events|;
    i := RemovalComesFrom(c, h.states, h.events, last, r);
    PruneSafety(c, h.states, h.events, i, r.id);
    if NotExported(h.events, i + 1, last, r.stem) {
      DeletedRowsStayArchived(c, h.states, h.events, i, last, r.id);
    }
    if c.freshNames {
      FreshNamesKeepDeletedRows(c, h.states, h.events, i, last, r.id);
    }
  }

  /** The archive gets its day range as name; with fresh names it must be new, else it has no tag. */
  ghost predicate NameAllowed(c: Setting, p: Plan, manifests: map<Stem, Manifest>, files: map<FileName, seq<Row>>,
                              file: FileName) {
    && file.stem.from == p.from && file.stem.to == p.to
    && (if c.freshNames
        then file.stem !in manifests && forall json: bool :: FileName(file.stem, json) !in files
        else file.stem.tag == "")
  }

  predicate HasManifest(c: Setting, plan: Plan, file: FileName, manifests: map<Stem, Manifest>,
                        files: map<FileName, seq<Row>>) {
    && file.stem in manifests && file in files
    && var m := manifests[file.stem];
       m == Manifest(plan.from, plan.to, m.rows, m.fingerprint, c.sha(files[file]), file)
  }

  ghost predicate HoldsRange(range: map<Id, Row>, file: seq<Row>) {
    exists scan :: Scans(scan, range) && file == RowsAt(range, scan)
  }

  lemma CountIsStep(c: Setting, s: State)
    requires s.trim.Planned?
    ensures TrimStep(c, s, CountRows,
              s.(trim := Counted(s.trim.plan, |RangeOf(s.rows, s.trim.plan.from, s.trim.plan.to)|)))
  {
  }

  /** The effect of one delete statement on the trimmer. */
  ghost predicate Batched(t: Trimmer, t': Trimmer, limit: nat, picked: set<Id>, hit: set<Id>, count: nat) {
    && t.Deleting? && hit <= picked <= t.targets && |picked| == MinInt(limit, |t.targets|) && count == |hit|
    && t' == Deleting(t.plan, t.stem, t.manifest, t.frozen, t.targets - picked, t.gone + hit)
  }

  /** Every picked row in a range the others spare is removed. */
  ghost predicate TakesSpared(turns: seq<Turn>, rows: map<Id, Row>, picked: set<Id>, hit: set<Id>) {
    forall ids, from, to | AllSpare(turns, ids, from, to) && RangeOf(rows, from, to).Keys <= ids ::
      picked * RangeOf(rows, from, to).Keys <= hit
  }

  ghost predicate Finished(outcome: Outcome, recorded: nat, events: seq<Event>) {
    outcome == Returned(recorded, recorded) && events != [] && events[|events| - 1] == FinishPrune
  }

  ghost predicate Pruning(t0: Trimmer, t: Trimmer, targets: set<Id>) {
    && t0.Deleting? && t.Deleting?
    && t == Deleting(t0.plan, t0.stem, t0.manifest, t0.frozen, targets, t.gone)
    && targets <= t.frozen && t.gone <= t.frozen && targets !! t.gone
  }

  lemma BatchAccounts(t: Trimmer, t': Trimmer, limit: nat, picked: set<Id>, hit: set<Id>, count: nat)
    requires Batched(t, t', limit, picked, hit, count) && t.targets !! t.gone
    requires t.targets <= t.frozen && t.gone <= t.frozen
    ensures t'.Deleting? && |t'.gone| == |t.gone| + count && count <= limit && t'.gone == t.gone + hit
    ensures t' == Deleting(t.plan, t.stem, t.manifest, t.frozen, t'.targets, t'.gone)
    ensures t'.targets <= t'.frozen && t'.gone <= t'.frozen && t'.targets !! t'.gone
  {
    assert t.gone !! hit;
    SubsetSize(hit, picked);
  }

  /** The others leave the manifest's days alone, and all targets are still in them. */
  ghost predicate Spared(turns: seq<Turn>, rows: map<Id, Row>, t: Trimmer) {
    t.Deleting? && exists ids ::
      && AllSpare(turns, ids, t.manifest.from, t.manifest.to)
      && t.targets <= RangeOf(rows, t.manifest.from, t.manifest.to).Keys <= ids
  }

  lemma TargetsAreSpared(turns: seq<Turn>, rows: map<Id, Row>, t: Trimmer, range: map<Id, Row>)
    requires t.Deleting? && t.targets <= range.Keys && RangeOf(rows, t.manifest.from, t.manifest.to) == range
    requires AllSpare(turns, range.Keys, t.manifest.from, t.manifest.to)
    ensures Spared(turns, rows, t)
  {
  }

  lemma SubsetSize(a: set<Id>, b: set<Id>)
    requires a <= b
    ensures |a| <= |b|
  {
    assert b == a + (b - a);
  }

  /** Left alone, a batch removes as many rows as it picks. */
  lemma CalmBatch(turns: seq<Turn>, rows: map<Id, Row>, t: Trimmer, turns': seq<Turn>, rows': map<Id, Row>, t': Trimmer,
                  limit: nat, picked: set<Id>, hit: set<Id>, count: nat)
    requires Spared(turns, rows, t) && Batched(t, t', limit, picked, hit, count)
    requires TakesSpared(turns, rows, picked, hit) && LeftAlone(turns, rows, turns', rows', hit)
    requires 0 < limit <= |t.targets|
    ensures Spared(turns', rows', t') && count == limit && |t'.targets| == |t.targets| - count
  {
    hide RangeOf, AllSpare;
    var (from, to) := (t.manifest.from, t.manifest.to);
    var ids :| AllSpare(turns, ids, from, to) && t.targets <= RangeOf(rows, from, to).Keys <= ids;
    assert picked * RangeOf(rows, from, to).Keys == picked;
    assert hit == picked;
    assert RangeOf(rows', from, to) == RangeOf(rows, from, to) - hit;
    assert t.targets == t'.targets + picked;
  }

  lemma LiveIsRange(s: State, range: map<Id, Row>, from: int, to: int)
    requires s.trim.Frozen? && s.trim.targets == range.Keys && RangeOf(s.rows, from, to) == range
    ensures Live(s) == range
  {
    forall id | id in range ensures id in s.rows && s.rows[id] == range[id] {
      assert id in RangeOf(s.rows, from, to);
    }
  }

  lemma FinishIsStep(c: Setting, s: State)
    requires s.trim.Deleting? && |s.trim.gone| == s.trim.manifest.rows && s.trim.targets == {}
    ensures TrimStep(c, s, FinishPrune, s.(trim := Idle(Returned(s.trim.manifest.rows, |s.trim.gone|))))
  {
  }

  /** Everything the trimmer carries from the verified manifest into the delete loop. */
  ghost predicate Compared(t: Trimmer, t': Trimmer, targets: set<Id>) {
    t.Verified? && |targets| == t.manifest.rows
    && t' == Deleting(t.plan, t.stem, t.manifest, targets, targets, {})
  }

  /** The range still holds exactly what the manifest promises. */
  ghost predicate Expects(c: Setting, range: map<Id, Row>, recorded: nat, expected: string) {
    |range| == recorded && HasDigest(c, range, expected)
  }

  ghost predicate HasDigest(c: Setting, range: map<Id, Row>, text: string) {
    exists scan :: Scans(scan, range) && HexDigest(c.hash, RowsAt(range, scan)) == text
  }

  /** Any one scan tells. */
  lemma DigestOfScan(c: Setting, range: map<Id, Row>, text: string, scan: seq<Id>)
    requires Scans(scan, range)
    ensures HasDigest(c, range, text) <==> HexDigest(c.hash, RowsAt(range, scan)) == text
  {
    hide HexDigest;
    if HasDigest(c, range, text) {
      var other :| Scans(other, range) && HexDigest(c.hash, RowsAt(range, other)) == text;
      ScansAgree(range, scan, other);
      DigestIgnoresOrder(c.hash, RowsAt(range, scan), RowsAt(range, other));
    }
  }

  lemma DigestHasPrefix(c: Setting, range: map<Id, Row>, expected: string)
    requires HasDigest(c, range, expected)
    ensures ALGORITHM + ":" <= expected
  {
    hide Render, DigestOf;
    var scan :| Scans(scan, range) && HexDigest(c.hash, RowsAt(range, scan)) == expected;
    RenderStartsWithAlgorithm(DigestOf(c.hash, RowsAt(range, scan)));
  }

  lemma RenderStartsWithAlgorithm(acc: Accumulator)
    ensures ALGORITHM + ":" <= Render(acc)
  {
    var fields := Decimal(acc.count) + ":" + FixedHex(acc.sum, 64) + ":" + FixedHex(acc.xor, 64);
    assert Render(acc) == (ALGORITHM + ":") + fields;
  }

  lemma FreezeIsStep(c: Setting, s: State, targets: set<Id>)
    requires s.trim.Verified?
    requires var m := s.trim.manifest; targets == RangeOf(s.rows, m.from, m.to).Keys && |targets| == m.rows
    ensures TrimStep(c, s, FreezeTargets, s.(trim := Frozen(s.trim.plan, s.trim.stem, s.trim.manifest, targets)))
  {
  }

  lemma CompareIsStep(c: Setting, s: State, scan: seq<Id>)
    requires s.trim.Frozen? && Scans(scan, Live(s))
    requires HexDigest(c.hash, RowsAt(Live(s), scan)) == s.trim.manifest.fingerprint
    ensures var t := s.trim;
            TrimStep(c, s, CompareDigest(scan),
                     s.(trim := Deleting(t.plan, t.stem, t.manifest, t.targets, t.targets, {})))
  {
    hide HexDigest;
  }

  lemma BatchIsStep(c: Setting, s: State, picked: set<Id>)
    requires s.trim.Deleting? && |s.trim.gone| < s.trim.manifest.rows
    requires var limit := MinInt(c.batchRows, s.trim.manifest.rows - |s.trim.gone|);
             0 < limit && picked <= s.trim.targets && |picked| == MinInt(limit, |s.trim.targets|)
    ensures Step(c, s, DeleteBatch(picked), BatchState(s, picked))
  {
    hide BatchState;
    assert BatchStep(c, s, picked, BatchState(s, picked));
    TakenAsStep(c, s, picked, BatchState(s, picked));
  }

  lemma BatchFields(s: State, picked: set<Id>)
    requires s.trim.Deleting?
    ensures var (t, hit, s') := (s.trim, picked * s.rows.Keys, BatchState(s, picked));
            && s'.trim == Deleting(t.plan, t.stem, t.manifest, t.frozen, t.targets - picked, t.gone + hit)
            && s' == s.(rows := s.rows - hit, removed := s'.removed, trim := s'.trim)
  {
    hide RemovalsOf;
  }

  lemma TakenAsStep(c: Setting, s: State, picked: set<Id>, s': State)
    requires BatchStep(c, s, picked, s')
    ensures Step(c, s, DeleteBatch(picked), s')
  {
    hide BatchStep;
  }

  lemma CommitIsStep(c: Setting, s: State, proposal: map<Id, Row>, s': State)
    requires Interferes(s, proposal) && s.reader == NotReading
    requires s' == s.(rows := proposal, used := s.used + proposal.Keys)
    ensures Step(c, s, Others(proposal), s')
  {
  }
}
