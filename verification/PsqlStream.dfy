/** `PsqlSession.run` and `stream_digest` of `deploy/ops/archive_and_trim.py`: statements share one output stream, and a
    numbered marker ends the output of each. */
module PsqlStream {
  import opened Numerals
  import opened Digest
  import opened CsvRecords

  function Marker(n: nat): string {
    "__cml_done_" + Decimal(n) + "__"
  }

  /** Every statement has a marker of its own. */
  lemma MarkersDiffer(n: nat, m: nat)
    ensures Marker(n) == Marker(m) <==> n == m
  {
    hide Decimal, ParseDecimal;
    DecimalRoundTrip(n);
    DecimalRoundTrip(m);
    if Marker(n) == Marker(m) {
      var prefix := |"__cml_done_"|;
      assert Marker(n)[prefix..|Marker(n)| - 2] == Decimal(n);
      assert Marker(m)[prefix..|Marker(m)| - 2] == Decimal(m);
    }
  }

  /** The lines before the first one that is the marker; `None` without such a line. */
  function Until(lines: seq<string>, marker: string): (k: Option<nat>)
    ensures k.Some? ==> k.value < |lines| && lines[k.value] == marker
    ensures forall i | 0 <= i < |lines| && (k.None? || i < k.value) :: lines[i] != marker
  {
    if lines == [] then None
    else match Until(lines[..|lines| - 1], marker)
      case Some(k) => Some(k)
      case None => if lines[|lines| - 1] == marker then Some(|lines| - 1) else None
  }

  class Session {
    var sequence: nat
    /** Lines of the process that have not been read. */
    var stdout: seq<string>

    constructor ()
      ensures sequence == 0 && stdout == []
    {
      sequence, stdout := 0, [];
    }

    /** `output` is what the server answers to the statement; the answer to the marker query follows it. */
    method Run(output: seq<string>) returns (lines: seq<string>)
      modifies this
      ensures sequence == old(sequence) + 1
      ensures var (all, k) := Exchange(old(stdout), output, sequence);
              lines == all[..k] && stdout == all[k + 1..]
    {
      hide Marker, Until;
      sequence := sequence + 1;
      var marker := Marker(sequence);
      var all := stdout + output + [marker];
      lines := [];
      MarkerComes(stdout, output, sequence);
      ghost var k := Exchange(stdout, output, sequence).1;
      stdout := all;
      while stdout[0] != marker
        invariant sequence == old(sequence) + 1
        invariant |lines| <= k && lines == all[..|lines|] && stdout == all[|lines|..]
        decreases |stdout|
      {
        lines, stdout := lines + [stdout[0]], stdout[1..];
      }
      stdout := stdout[1..];
    }

    /** `output` is what the server answers to the `COPY`.  The rows are hashed as they are read; `None` when a record
        is not a single field, or the reader or the stream fails. */
    method CopyDigest(hash: string -> Word, output: seq<string>) returns (text: Option<string>)
      modifies this
      ensures sequence == old(sequence) + 1
      ensures var (rows, rest) := ReadUntil(old(stdout) + output + [Marker(sequence)], Marker(sequence));
              && stdout == rest
              && text == if rows.Some? then Some(HexDigest(hash, rows.value)) else None
    {
      hide ReadRecord, HexDigest, ReadUntil, Behind, Marker;
      sequence := sequence + 1;
      var marker := Marker(sequence);
      stdout := stdout + output + [marker];
      ghost var all := stdout;
      var digest := new StreamingContentDigest(hash);
      BehindNothing(ReadUntil(all, marker));
      while true
        invariant fresh(digest) && digest.Valid() && digest.hash == hash && sequence == old(sequence) + 1
        invariant ReadUntil(all, marker) == Behind(digest.fed, ReadUntil(stdout, marker))
        decreases |stdout|
      {
        ReadUntilStep(stdout, marker);
        BehindEnds(digest.fed, ReadRecord(START, stdout).1);
        var (row, rest) := ReadRecord(START, stdout);
        stdout := rest;
        if row.None? || |row.value| != 1 {
          return None;
        }
        if row.value[0] == marker {
          var printed := digest.Hexdigest();
          return Some(printed);
        }
        BehindTwice(digest.fed, [row.value[0]], ReadUntil(rest, marker));
        digest.Update(row.value[0]);
      }
    }
  }

  /** The rows of a copied answer up to the record that is the marker, and the lines behind. */
  function ReadUntil(lines: seq<string>, marker: string): (Option<seq<string>>, seq<string>)
    decreases |lines|
  {
    var (row, rest) := ReadRecord(START, lines);
    if row.None? || |row.value| != 1 then (None, rest)
    else if row.value[0] == marker then (Some([]), rest)
    else Behind([row.value[0]], ReadUntil(rest, marker))
  }

  function Behind(front: seq<string>, r: (Option<seq<string>>, seq<string>)): (Option<seq<string>>, seq<string>) {
    (if r.0.Some? then Some(front + r.0.value) else None, r.1)
  }

  /** All lines there are to read, and which of them is the first marker. */
  function Exchange(pending: seq<string>, output: seq<string>, n: nat): (seq<string>, nat) {
    var all := pending + output + [Marker(n)];
    var k := Until(all, Marker(n));
    (all, if k.Some? then k.value else 0)
  }

  lemma MarkerComes(pending: seq<string>, output: seq<string>, n: nat)
    ensures Until(pending + output + [Marker(n)], Marker(n)).Some?
    ensures var (all, k) := Exchange(pending, output, n);
            k < |all| && all[k] == Marker(n) && forall i | 0 <= i < k :: all[i] != Marker(n)
  {
    var all := pending + output + [Marker(n)];
    assert all[|all| - 1] == Marker(n);
  }

  /** A statement on a clean stream gets exactly its own output, and leaves the stream clean, just when no line of it
      reads like its own marker. */
  lemma RunIsExact(output: seq<string>, n: nat)
    ensures var (all, k) := Exchange([], output, n);
            all[..k] == output && all[k + 1..] == [] <==> Marker(n) !in output
  {
    MarkerComes([], output, n);
    var (all, k) := Exchange([], output, n);
    assert all == output + [Marker(n)];
    if Marker(n) in output {
      var i :| 0 <= i < |output| && output[i] == Marker(n);
      assert all[i] == Marker(n);
    } else {
      assert forall i | 0 <= i < |output| :: all[i] == output[i];
      assert k == |output|;
    }
  }

  // ---- Copied rows ----

  /** The rows as the text stream shows them. */
  function Unified(values: seq<string>): (unified: seq<string>)
    ensures |unified| == |values|
  {
    seq(|values|, i requires 0 <= i < |values| => Universal(values[i]))
  }

  lemma MarkerRecord(n: nat, rest: seq<string>)
    ensures ReadRecord(START, [Marker(n)] + rest) == (Some([Marker(n)]), rest)
    ensures Plain(Marker(n)) && Universal(Marker(n)) == Marker(n)
  {
    hide ReadRecord, Universal;
    MarkerIsPlain(n);
    UniversalKeeps(Marker(n));
    OneLine(Marker(n));
    ValueRoundTrip(Marker(n), false, rest);
  }

  lemma MarkerIsPlain(n: nat)
    ensures Plain(Marker(n)) && '\r' !in Marker(n) && '\n' !in Marker(n)
  {
    DecimalRoundTrip(n);
    var digits := Decimal(n);
    assert forall i | 0 <= i < |digits| :: IsDigit(digits[i]);
  }

  lemma {:induction false} OneLine(s: string)
    requires '\n' !in s
    ensures SplitLines(s) == [s]
  {
    if s != "" {
      OneLine(s[1..]);
      assert s == [s[0]] + s[1..];
    }
  }

  /** A value looks like the marker in the stream just if it is the marker. */
  lemma OnlyMarkerLooksLikeIt(value: string, n: nat)
    ensures Universal(value) == Marker(n) <==> value == Marker(n)
  {
    hide Universal;
    MarkerIsPlain(n);
    UniversalKeeps(value);
    UniversalKeeps(Marker(n));
    NewlineRemains(value);
  }

  lemma {:induction false} NewlineRemains(s: string)
    ensures '\r' in s ==> '\n' in Universal(s)
    decreases |s|
  {
    if s != "" && s[0] != '\r' {
      NewlineRemains(s[1..]);
    }
  }

  /** Copied rows come back one by one, line breaks unified, up to the first that is the marker itself: lines inside a
      quoted value may look like it. */
  lemma {:induction false} CopyReadsBack(values: seq<string>, quoted: seq<bool>, n: nat, rest: seq<string>)
    requires Writable(values, quoted) && Marker(n) !in values
    ensures ReadUntil(CopyLines(values, quoted) + rest, Marker(n))
            == Behind(Unified(values), ReadUntil(rest, Marker(n)))
    decreases |values|
  {
    hide ReadRecord, Universal, SplitLines, ReadUntil, Field, Plain;
    if values == [] {
      assert CopyLines(values, quoted) + rest == rest;
      BehindNothing(ReadUntil(rest, Marker(n)));
    } else {
      var first := SplitLines(Universal(Field(values[0], quoted[0])));
      var tail := CopyLines(values[1..], quoted[1..]) + rest;
      assert CopyLines(values, quoted) + rest == first + tail;
      ValueRoundTrip(values[0], quoted[0], tail);
      OnlyMarkerLooksLikeIt(values[0], n);
      ReadUntilStep(first + tail, Marker(n));
      CopyReadsBack(values[1..], quoted[1..], n, rest);
      BehindTwice([Universal(values[0])], Unified(values[1..]), ReadUntil(rest, Marker(n)));
      assert Unified(values) == [Universal(values[0])] + Unified(values[1..]);
    }
  }

  lemma BehindNothing(r: (Option<seq<string>>, seq<string>))
    ensures Behind([], r) == r
  {
    if r.0.Some? {
      assert [] + r.0.value == r.0.value;
    }
  }

  lemma BehindTwice(a: seq<string>, b: seq<string>, r: (Option<seq<string>>, seq<string>))
    ensures Behind(a, Behind(b, r)) == Behind(a + b, r)
  {
    if r.0.Some? {
      assert a + (b + r.0.value) == a + b + r.0.value;
    }
  }

  lemma BehindEnds(front: seq<string>, rest: seq<string>)
    ensures Behind(front, (Some([]), rest)) == (Some(front), rest) && Behind(front, (None, rest)) == (None, rest)
  {
    assert front + [] == front;
  }

  lemma ReadUntilStep(lines: seq<string>, marker: string)
    ensures var (row, rest) := ReadRecord(START, lines);
            ReadUntil(lines, marker)
            == if row.None? || |row.value| != 1 then (None, rest)
               else if row.value[0] == marker then (Some([]), rest)
               else Behind([row.value[0]], ReadUntil(rest, marker))
  {
  }

  lemma ReadMarker(n: nat, rest: seq<string>)
    ensures ReadUntil([Marker(n)] + rest, Marker(n)) == (Some([]), rest)
  {
    hide ReadRecord, Marker;
    MarkerRecord(n, rest);
    ReadUntilStep([Marker(n)] + rest, Marker(n));
  }

  lemma {:induction false} FirstIndex(values: seq<string>, s: string) returns (i: nat)
    requires s in values
    ensures i < |values| && values[i] == s && s !in values[..i]
  {
    var front := values[..|values| - 1];
    if s in front {
      i := FirstIndex(front, s);
      assert front[..i] == values[..i];
    } else {
      i := |values| - 1;
    }
  }

  /** On a clean stream exactly the rows are digested, line breaks unified, and the stream is left clean, just when no
      row is the marker of its own statement. */
  lemma CopyIsExact(values: seq<string>, quoted: seq<bool>, n: nat)
    requires Writable(values, quoted)
    ensures var (rows, rest) := ReadUntil(CopyLines(values, quoted) + [Marker(n)], Marker(n));
            && (rows == Some(Unified(values)) <==> Marker(n) !in values)
            && (rows == Some(Unified(values)) ==> rest == [])
  {
    hide ReadRecord, ReadUntil, Marker, CopyLines, Universal;
    if Marker(n) in values {
      var i := FirstIndex(values, Marker(n));
      CopySplits(values, quoted, i);
      var more := SplitLines(Universal(Field(values[i], quoted[i]))) + CopyLines(values[i + 1..], quoted[i + 1..]);
      CopyReadsBack(values[..i], quoted[..i], n, more + [Marker(n)]);
      var tail := CopyLines(values[i + 1..], quoted[i + 1..]) + [Marker(n)];
      MarkerRecord(n, []);
      ValueRoundTrip(values[i], quoted[i], tail);
      assert more + [Marker(n)] == SplitLines(Universal(Field(values[i], quoted[i]))) + tail;
      ReadUntilStep(more + [Marker(n)], Marker(n));
      assert CopyLines(values, quoted) + [Marker(n)]
          == CopyLines(values[..i], quoted[..i]) + (more + [Marker(n)]);
      assert |Unified(values[..i]) + []| < |Unified(values)|;
    } else {
      CopyReadsBack(values, quoted, n, [Marker(n)]);
      assert [Marker(n)] + [] == [Marker(n)];
      ReadMarker(n, []);
      assert Unified(values) + [] == Unified(values);
    }
  }

  /** Behind rows of the copy, none of them its marker, a record of no field or of several fails the digest. */
  lemma OtherRecordsFail(values: seq<string>, quoted: seq<bool>, n: nat, rest: seq<string>)
    requires Writable(values, quoted) && Marker(n) !in values
    requires var row := ReadRecord(START, rest).0; row.None? || |row.value| != 1
    ensures ReadUntil(CopyLines(values, quoted) + rest, Marker(n)) == (None, ReadRecord(START, rest).1)
  {
    hide ReadRecord, ReadUntil, Marker, CopyLines;
    CopyReadsBack(values, quoted, n, rest);
    ReadUntilStep(rest, Marker(n));
  }

  /** Rows that are JSON objects, with no raw carriage return, are digested to the last and as they are. */
  lemma ObjectRowsAreExact(values: seq<string>, quoted: seq<bool>, n: nat)
    requires Writable(values, quoted)
    requires forall i | 0 <= i < |values| :: values[i] != "" && values[i][0] == '{' && '\r' !in values[i]
    ensures ReadUntil(CopyLines(values, quoted) + [Marker(n)], Marker(n)) == (Some(values), [])
  {
    hide ReadUntil, CopyLines, Universal;
    forall i | 0 <= i < |values| ensures values[i] != Marker(n) && Universal(values[i]) == values[i] {
      UniversalKeeps(values[i]);
    }
    assert Unified(values) == values;
    CopyIsExact(values, quoted, n);
  }

  lemma {:induction false} CopySplits(values: seq<string>, quoted: seq<bool>, i: nat)
    requires |quoted| == |values| && i < |values|
    ensures CopyLines(values, quoted)
            == CopyLines(values[..i], quoted[..i])
               + (SplitLines(Universal(Field(values[i], quoted[i]))) + CopyLines(values[i + 1..], quoted[i + 1..]))
    decreases i
  {
    hide Universal, SplitLines, Field;
    if i > 0 {
      CopySplits(values[1..], quoted[1..], i - 1);
      assert values[1..][..i - 1] == values[..i][1..] && quoted[1..][..i - 1] == quoted[..i][1..];
      assert values[1..][i..] == values[i + 1..] && quoted[1..][i..] == quoted[i + 1..];
    }
  }

  // ---- Whole sessions ----

  /** What the server answers to one statement, the marker aside. */
  datatype Answer = Printed(lines: seq<string>) | Copied(values: seq<string>, quoted: seq<bool>)

  predicate Possible(answers: seq<Answer>) {
    forall i | 0 <= i < |answers| && answers[i].Copied? :: Writable(answers[i].values, answers[i].quoted)
  }

  /** What the `n`-th statement of the session gets, and what it leaves unread. */
  function Reply(pending: seq<string>, answer: Answer, n: nat): (Option<seq<string>>, seq<string>)
    requires answer.Copied? ==> |answer.quoted| == |answer.values|
  {
    match answer
    case Printed(lines) =>
      MarkerComes(pending, lines, n);
      var (all, k) := Exchange(pending, lines, n);
      (Some(all[..k]), all[k + 1..])
    case Copied(values, quoted) => ReadUntil(pending + CopyLines(values, quoted) + [Marker(n)], Marker(n))
  }

  function Own(answer: Answer): seq<string> {
    if answer.Printed? then answer.lines else Unified(answer.values)
  }

  /** No line of a printed answer, and no row of a copied one, is the statement's own marker; other statements' markers
      do no harm. */
  predicate OwnMarkerAbsent(answer: Answer, n: nat) {
    if answer.Printed? then Marker(n) !in answer.lines else Marker(n) !in answer.values
  }

  /** What is left unread after a session. */
  function Unread(answers: seq<Answer>): seq<string>
    requires Possible(answers)
  {
    if answers == [] then []
    else
      var n := |answers|;
      Reply(Unread(answers[..n - 1]), answers[n - 1], n).1
  }

  /** The `i`-th statement gets its own answer. */
  predicate Answered(answers: seq<Answer>, i: nat)
    requires Possible(answers) && i < |answers|
  {
    Reply(Unread(answers[..i]), answers[i], i + 1).0 == Some(Own(answers[i]))
  }

  lemma ReplyIsExact(answer: Answer, n: nat)
    requires answer.Copied? ==> Writable(answer.values, answer.quoted)
    ensures Reply([], answer, n).0 == Some(Own(answer)) <==> OwnMarkerAbsent(answer, n)
    ensures OwnMarkerAbsent(answer, n) ==> Reply([], answer, n).1 == []
  {
    hide ReadUntil, Marker, CopyLines, Unified;
    match answer
    case Printed(lines) => RunIsExact(lines, n);
    case Copied(values, quoted) =>
      assert [] + CopyLines(values, quoted) == CopyLines(values, quoted);
      CopyIsExact(values, quoted, n);
  }

  lemma {:induction false} SessionStaysClean(answers: seq<Answer>)
    requires Possible(answers) && forall i | 0 <= i < |answers| :: OwnMarkerAbsent(answers[i], i + 1)
    ensures Unread(answers) == []
    ensures forall i | 0 <= i < |answers| :: Answered(answers, i)
  {
    hide Reply, OwnMarkerAbsent, Own;
    if answers != [] {
      var n := |answers|;
      var front := answers[..n - 1];
      SessionStaysClean(front);
      ReplyIsExact(answers[n - 1], n);
      forall i | 0 <= i < n ensures Answered(answers, i) {
        if i < n - 1 {
          assert Answered(front, i) && front[..i] == answers[..i];
        }
      }
    }
  }

  lemma {:induction false} FirstOwnMarker(answers: seq<Answer>) returns (i: nat)
    requires exists k :: 0 <= k < |answers| && !OwnMarkerAbsent(answers[k], k + 1)
    ensures i < |answers| && !OwnMarkerAbsent(answers[i], i + 1)
    ensures forall j | 0 <= j < i :: OwnMarkerAbsent(answers[..i][j], j + 1)
  {
    hide OwnMarkerAbsent;
    var n := |answers| - 1;
    if k :| 0 <= k < n && !OwnMarkerAbsent(answers[k], k + 1) {
      assert !OwnMarkerAbsent(answers[..n][k], k + 1);
      i := FirstOwnMarker(answers[..n]);
      assert answers[..n][..i] == answers[..i];
    } else {
      i := n;
    }
  }

  predicate AllAnswered(answers: seq<Answer>)
    requires Possible(answers)
  {
    forall i | 0 <= i < |answers| :: Answered(answers, i)
  }

  /** Every statement of a session, printed or copied, gets its own answer if and only if no answer has its own marker
      as a line or a row; then nothing is left unread either. */
  lemma SessionStaysInStep(answers: seq<Answer>)
    requires Possible(answers)
    ensures AllAnswered(answers) <==> forall i | 0 <= i < |answers| :: OwnMarkerAbsent(answers[i], i + 1)
    ensures AllAnswered(answers) ==> Unread(answers) == []
  {
    hide Reply, OwnMarkerAbsent, Own, Unread, Possible, Writable;
    if k :| 0 <= k < |answers| && !OwnMarkerAbsent(answers[k], k + 1) {
      var i := FirstOwnMarker(answers);
      NotAnswered(answers, i);
    } else {
      SessionStaysClean(answers);
    }
  }

  lemma NotAnswered(answers: seq<Answer>, i: nat)
    requires Possible(answers) && i < |answers| && !OwnMarkerAbsent(answers[i], i + 1)
    requires forall j | 0 <= j < i :: OwnMarkerAbsent(answers[..i][j], j + 1)
    ensures !Answered(answers, i)
  {
    hide Reply, OwnMarkerAbsent, Own, Unread, Writable;
    SessionStaysClean(answers[..i]);
    ReplyIsExact(answers[i], i + 1);
  }
}
