/** The length-prefixed frames of `scripts/download_tradingview_futures_15m_klines.py`: `frame` and `parse_frames`. */
module Framing {
  import opened Numerals

  const MARK := "~m~"
  const HEARTBEAT := "~h~"

  /** Python's `int` and `json.loads`, which may raise, and `isinstance(…, dict)`. */
  datatype Reader<!J> = Reader(toInt: string -> Option<int>, decode: string -> Option<J>, isObject: J -> bool)

  /** The empty string is no JSON text. */
  ghost predicate ReadsJson<J>(r: Reader<J>) {
    r.decode("").None?
  }

  /** Plain numerals are read as what they say; signs, spaces and the like may be read as anything. */
  ghost predicate ReadsNumerals<J>(r: Reader<J>) {
    forall s | s != "" && AllDigits(s) :: r.toInt(s) == ParseDecimal(s)
  }

  function Frame(payload: string): string {
    MARK + Decimal(|payload|) + MARK + payload
  }

  // ---- `str.find`, and indices that may be negative ----

  predicate MarkAt(s: string, i: int) {
    0 <= i && i + 3 <= |s| && s[i..i + 3] == MARK
  }

  /** The first mark at or after `from`, or -1. */
  function Find(s: string, from: nat): (i: int)
    ensures i == -1 || (from <= i && MarkAt(s, i))
    ensures forall k | from <= k && (i == -1 || k < i) :: !MarkAt(s, k)
    decreases |s| - from
  {
    if from + 3 > |s| then -1 else if MarkAt(s, from) then from else Find(s, from + 1)
  }

  /** Where an index that may be negative points. */
  function Index(s: string, i: int): nat {
    if i >= 0 then i else if |s| + i >= 0 then |s| + i else 0
  }

  /** `s[a:b]`. */
  function Slice(s: string, a: nat, b: int): string {
    var end := if Index(s, b) < |s| then Index(s, b) else |s|;
    if a <= end then s[a..end] else ""
  }

  // ---- Parsing ----

  datatype Found = End | BadLength | Body(text: string, next: int)

  /** The frame that starts at the first mark from the cursor on. */
  function Next<J>(r: Reader<J>, s: string, cursor: int): Found {
    var start := Find(s, Index(s, cursor));
    if start < 0 then End
    else
      var lengthEnd := Find(s, start + 3);
      if lengthEnd < 0 then End
      else match r.toInt(s[start + 3..lengthEnd])
        case None => BadLength
        case Some(size) => Body(Slice(s, lengthEnd + 3, lengthEnd + 3 + size), lengthEnd + 3 + size)
  }

  /** Whatever the length field says, a cursor behind a non-empty body points further on. */
  lemma CursorAdvances<J>(r: Reader<J>, s: string, cursor: int)
    ensures var f := Next(r, s, cursor);
            f.Body? && f.text != "" ==> Index(s, f.next) >= Index(s, cursor) + 6
  {
  }

  /** The objects yielded from the cursor on, and whether the generator ends by raising. */
  function Parse<J>(r: Reader<J>, s: string, cursor: int): (seq<J>, bool)
    requires ReadsJson(r)
    decreases |s| - Index(s, cursor)
  {
    if cursor >= |s| then ([], false)
    else match Next(r, s, cursor)
      case End => ([], false)
      case BadLength => ([], true)
      case Body(text, next) =>
        CursorAdvances(r, s, cursor);
        if HEARTBEAT <= text then Parse(r, s, next)
        else match r.decode(text)
          case None => ([], true)
          case Some(value) =>
            var (rest, raised) := Parse(r, s, next);
            (if r.isObject(value) then [value] + rest else rest, raised)
  }

  method ParseFrames<J>(r: Reader<J>, s: string) returns (objects: seq<J>, raised: bool)
    requires ReadsJson(r)
    ensures (objects, raised) == Parse(r, s, 0)
  {
    hide Next, Index;
    objects := [];
    var cursor: int := 0;
    assert [] + Parse(r, s, 0).0 == Parse(r, s, 0).0;
    while cursor < |s|
      invariant Parse(r, s, 0) == (objects + Parse(r, s, cursor).0, Parse(r, s, cursor).1)
      decreases |s| - Index(s, cursor)
    {
      CursorAdvances(r, s, cursor);
      CursorInside(s, cursor);
      match Next(r, s, cursor) {
        case End =>
          assert objects + [] == objects;
          return objects, false;
        case BadLength =>
          assert objects + [] == objects;
          return objects, true;
        case Body(body, next) =>
          cursor := next;
          if HEARTBEAT <= body {
            continue;
          }
          var decoded := r.decode(body);
          if decoded.None? {
            assert objects + [] == objects;
            return objects, true;
          }
          if r.isObject(decoded.value) {
            Reassociate(objects, decoded.value, Parse(r, s, cursor).0);
            objects := objects + [decoded.value];
          }
      }
    }
    assert objects + [] == objects;
    raised := false;
  }

  lemma CursorInside(s: string, cursor: int)
    requires cursor < |s|
    ensures Index(s, cursor) <= |s|
  {
  }

  lemma Reassociate<J>(a: seq<J>, x: J, b: seq<J>)
    ensures a + ([x] + b) == a + [x] + b
  {
  }

  // ---- Round trip ----

  function Frames(payloads: seq<string>): string {
    if payloads == [] then "" else Frame(payloads[0]) + Frames(payloads[1..])
  }

  /** What a reader of the bare payloads would yield: heartbeats skipped, objects kept, up to the first that is no
      JSON. */
  function ReadAll<J>(r: Reader<J>, payloads: seq<string>): (seq<J>, bool) {
    if payloads == [] then ([], false)
    else if HEARTBEAT <= payloads[0] then ReadAll(r, payloads[1..])
    else match r.decode(payloads[0])
      case None => ([], true)
      case Some(value) =>
        var (rest, raised) := ReadAll(r, payloads[1..]);
        (if r.isObject(value) then [value] + rest else rest, raised)
  }

  lemma FindStops(s: string, from: nat, at: nat)
    requires from <= at && MarkAt(s, at) && forall i | from <= i < at :: s[i] != '~'
    ensures Find(s, from) == at
  {
    forall k | from <= k < at ensures !MarkAt(s, k) {
      assert k + 3 <= |s| ==> s[k..k + 3][0] == s[k];
    }
  }

  lemma NextOfFrame<J>(r: Reader<J>, before: string, payload: string, after: string)
    requires ReadsNumerals(r)
    ensures Next(r, before + Frame(payload) + after, |before|) == Body(payload, |before + Frame(payload)|)
  {
    hide Decimal, ParseDecimal, Find, Next, Frame, AllDigits;
    var s := before + Frame(payload) + after;
    var digits := Decimal(|payload|);
    var start, lengthEnd := |before|, |before| + 3 + |digits|;
    FrameLayout(before, payload, after);
    FindStops(s, start, start);
    DecimalRoundTrip(|payload|);
    NoMarkInDigits(s, start + 3, lengthEnd);
    FindStops(s, start + 3, lengthEnd);
    NextIs(r, s, start, lengthEnd, |payload|);
  }

  lemma NoMarkInDigits(s: string, from: nat, to: nat)
    requires from <= to <= |s| && AllDigits(s[from..to])
    ensures forall i | from <= i < to :: s[i] != '~'
  {
    assert forall i | from <= i < to :: s[i] == s[from..to][i - from];
  }

  lemma NextIs<J>(r: Reader<J>, s: string, start: nat, lengthEnd: nat, size: nat)
    requires start + 3 <= lengthEnd <= lengthEnd + 3 + size <= |s|
    requires Find(s, start) == start && Find(s, start + 3) == lengthEnd
    requires r.toInt(s[start + 3..lengthEnd]) == Some(size)
    ensures Next(r, s, start) == Body(s[lengthEnd + 3..lengthEnd + 3 + size], lengthEnd + 3 + size)
  {
    hide Find;
  }

  lemma FrameLayout(before: string, payload: string, after: string)
    ensures var (s, digits) := (before + Frame(payload) + after, Decimal(|payload|));
            var lengthEnd := |before| + 3 + |digits|;
            && MarkAt(s, |before|) && MarkAt(s, lengthEnd)
            && s[|before| + 3..lengthEnd] == digits
            && s[lengthEnd + 3..lengthEnd + 3 + |payload|] == payload
            && lengthEnd + 3 + |payload| == |before + Frame(payload)| <= |s|
  {
    hide Decimal;
  }

  /** Frames with something before each: text in which no delimiter can begin. */
  function NoisyFrames(noise: seq<string>, payloads: seq<string>): string
    requires |noise| == |payloads|
  {
    if payloads == [] then "" else noise[0] + Frame(payloads[0]) + NoisyFrames(noise[1..], payloads[1..])
  }

  predicate NoDelimiter(noise: seq<string>) {
    forall i | 0 <= i < |noise| :: '~' !in noise[i]
  }

  /** What comes before the next delimiter is skipped. */
  lemma NextSkipsNoise<J>(r: Reader<J>, before: string, noise: string, rest: string)
    requires '~' !in noise && MarkAt(before + noise + rest, |before + noise|)
    ensures Next(r, before + noise + rest, |before|) == Next(r, before + noise + rest, |before + noise|)
  {
    hide Find, MarkAt;
    var s := before + noise + rest;
    forall i | |before| <= i < |before + noise| ensures s[i] != '~' {
      assert s[i] == noise[i - |before|];
    }
    FindStops(s, |before|, |before + noise|);
    FindStops(s, |before + noise|, |before + noise|);
    SameMarkSameFrame(r, s, |before|, |before + noise|);
  }

  lemma SameMarkSameFrame<J>(r: Reader<J>, s: string, a: nat, b: nat)
    requires Find(s, a) == Find(s, b)
    ensures Next(r, s, a) == Next(r, s, b)
  {
    hide Find, Slice;
  }

  lemma {:induction false} ParseFrom<J>(r: Reader<J>, before: string, noise: seq<string>, payloads: seq<string>)
    requires ReadsJson(r) && ReadsNumerals(r) && |noise| == |payloads| && NoDelimiter(noise)
    ensures Parse(r, before + NoisyFrames(noise, payloads), |before|) == ReadAll(r, payloads)
    decreases |payloads|
  {
    hide Next, Frame, ReadsNumerals, Index;
    if payloads == [] {
      assert before + NoisyFrames(noise, payloads) == before;
    } else {
      var payload, rest := payloads[0], NoisyFrames(noise[1..], payloads[1..]);
      var s, skipped := before + NoisyFrames(noise, payloads), before + noise[0];
      NextOfFrame(r, skipped, payload, rest);
      assert s == skipped + Frame(payload) + rest == before + noise[0] + (Frame(payload) + rest);
      FrameBegins(skipped, payload, rest);
      NextSkipsNoise(r, before, noise[0], Frame(payload) + rest);
      FrameIsLong(payload);
      ParseFrom(r, skipped + Frame(payload), noise[1..], payloads[1..]);
    }
  }

  lemma FrameBegins(before: string, payload: string, rest: string)
    ensures MarkAt(before + Frame(payload) + rest, |before|)
  {
    FrameLayout(before, payload, rest);
  }

  lemma FrameIsLong(payload: string)
    ensures |Frame(payload)| > |payload|
  {
  }

  /** Parsing any concatenation of frames yields exactly the object payloads that are no heartbeats, in order, even
      where payloads contain the delimiter, and whatever else stands between the frames. */
  lemma NoisyRoundTrip<J>(r: Reader<J>, noise: seq<string>, payloads: seq<string>)
    requires ReadsJson(r) && ReadsNumerals(r) && |noise| == |payloads| && NoDelimiter(noise)
    ensures Parse(r, NoisyFrames(noise, payloads), 0) == ReadAll(r, payloads)
  {
    ParseFrom(r, "", noise, payloads);
    assert "" + NoisyFrames(noise, payloads) == NoisyFrames(noise, payloads);
  }

  lemma {:induction false} FramesAreNoiseless(payloads: seq<string>)
    ensures Frames(payloads) == NoisyFrames(seq(|payloads|, _ => ""), payloads)
  {
    if payloads != [] {
      FramesAreNoiseless(payloads[1..]);
      var quiet := seq(|payloads|, _ => "");
      assert quiet[1..] == seq(|payloads[1..]|, _ => "");
      assert "" + Frame(payloads[0]) == Frame(payloads[0]);
    }
  }

  lemma RoundTrip<J>(r: Reader<J>, payloads: seq<string>)
    requires ReadsJson(r) && ReadsNumerals(r)
    ensures Parse(r, Frames(payloads), 0) == ReadAll(r, payloads)
  {
    FramesAreNoiseless(payloads);
    NoisyRoundTrip(r, seq(|payloads|, _ => ""), payloads);
  }
}
