/** How `COPY … (FORMAT csv)` writes one column and how `csv.reader` reads it back from a text stream of lines: the
    reader's state machine for its default dialect, and the round trip. */
module CsvRecords {
  import opened Numerals

  // ---- Writing ----

  function Doubled(s: string): string {
    if s == "" then "" else (if s[0] == '"' then "\"\"" else [s[0]]) + Doubled(s[1..])
  }

  /** A value that may stand without quotes. */
  predicate Plain(value: string) {
    value != "" && forall i | 0 <= i < |value| :: value[i] !in ",\"\n\r"
  }

  function Field(value: string, quoted: bool): string {
    if quoted then "\"" + Doubled(value) + "\"" else value
  }

  /** Universal newlines: a text stream turns both "\r\n" and "\r" into "\n". */
  function Universal(s: string): string {
    if s == "" then ""
    else if s[0] != '\r' then [s[0]] + Universal(s[1..])
    else if |s| > 1 && s[1] == '\n' then "\n" + Universal(s[2..])
    else "\n" + Universal(s[1..])
  }

  function SplitLines(s: string): (lines: seq<string>)
    ensures lines != []
  {
    if s == "" then [""]
    else
      var rest := SplitLines(s[1..]);
      if s[0] == '\n' then [""] + rest else [[s[0]] + rest[0]] + rest[1..]
  }

  /** The lines the stream shows for a column of values, each written with or without quotes. */
  function CopyLines(values: seq<string>, quoted: seq<bool>): seq<string>
    requires |quoted| == |values|
  {
    if values == [] then []
    else SplitLines(Universal(Field(values[0], quoted[0]))) + CopyLines(values[1..], quoted[1..])
  }

  predicate Writable(values: seq<string>, quoted: seq<bool>) {
    |quoted| == |values| && forall i | 0 <= i < |values| :: quoted[i] || Plain(values[i])
  }

  // ---- Reading ----

  datatype Mode = RecordStart | FieldStart | InField | InQuotes | QuoteInQuotes | NewlineEaten | Failed

  datatype Parser = Parser(mode: Mode, field: string, fields: seq<string>) {
    function Save(mode: Mode): Parser {
      Parser(mode, "", fields + [field])
    }

    function Add(c: char, mode: Mode): Parser {
      Parser(mode, field + [c], fields)
    }
  }

  const START := Parser(RecordStart, "", [])

  predicate IsNewline(c: char) {
    c == '\n' || c == '\r'
  }

  function OnChar(p: Parser, c: char): Parser {
    match p.mode
    case RecordStart => if IsNewline(c) then p.(mode := NewlineEaten) else OnFieldStart(p, c)
    case FieldStart => OnFieldStart(p, c)
    case InField =>
      if IsNewline(c) then p.Save(NewlineEaten) else if c == ',' then p.Save(FieldStart) else p.Add(c, InField)
    case InQuotes => if c == '"' then p.(mode := QuoteInQuotes) else p.Add(c, InQuotes)
    case QuoteInQuotes =>
      if c == '"' then p.Add(c, InQuotes)
      else if c == ',' then p.Save(FieldStart)
      else if IsNewline(c) then p.Save(NewlineEaten)
      else p.Add(c, InField)
    case NewlineEaten => if IsNewline(c) then p else p.(mode := Failed)
    case Failed => p
  }

  function OnFieldStart(p: Parser, c: char): Parser {
    if IsNewline(c) then p.Save(NewlineEaten)
    else if c == '"' then p.(mode := InQuotes)
    else if c == ',' then p.Save(FieldStart)
    else p.Add(c, InField)
  }

  /** The end of a line, after its newline character. */
  function OnLineEnd(p: Parser): Parser {
    match p.mode
    case FieldStart => p.Save(RecordStart)
    case InField => p.Save(RecordStart)
    case QuoteInQuotes => p.Save(RecordStart)
    case NewlineEaten => p.(mode := RecordStart)
    case _ => p
  }

  /** One record and the lines behind it; `None` when the reader raises or the lines end. */
  function ReadRecord(p: Parser, lines: seq<string>): (r: (Option<seq<string>>, seq<string>))
    ensures r.0.Some? ==> |r.1| < |lines|
    decreases |lines|, if lines == [] then 0 else |lines[0]|
  {
    if lines == [] then (None, [])
    else if lines[0] != "" then ReadRecord(OnChar(p, lines[0][0]), [lines[0][1..]] + lines[1..])
    else
      var q := OnLineEnd(OnChar(p, '\n'));
      if q.mode.RecordStart? then (Some(q.fields), lines[1..])
      else if q.mode.Failed? then (None, lines[1..])
      else ReadRecord(q, lines[1..])
  }

  // ---- The round trip ----

  lemma SplitStep(c: char, s: string, rest: seq<string>)
    ensures c != '\n' ==> var lines := SplitLines([c] + s) + rest;
                          lines[0] == [c] + SplitLines(s)[0]
                          && [lines[0][1..]] + lines[1..] == SplitLines(s) + rest
    ensures c == '\n' ==> SplitLines([c] + s) + rest == [""] + (SplitLines(s) + rest)
  {
    assert ([c] + s)[1..] == s;
    var lines := SplitLines(s);
    assert lines == [lines[0]] + lines[1..];
  }

  /** Reading on within a line, or over the end of one that does not end the record. */
  lemma ReadChar(p: Parser, c: char, s: string, rest: seq<string>)
    ensures c != '\n' ==> ReadRecord(p, SplitLines([c] + s) + rest) == ReadRecord(OnChar(p, c), SplitLines(s) + rest)
    ensures c == '\n' && p.mode.InQuotes? ==>
              ReadRecord(p, SplitLines([c] + s) + rest) == ReadRecord(p.Add(c, InQuotes), SplitLines(s) + rest)
  {
    hide SplitLines;
    SplitStep(c, s, rest);
    if c == '\n' && p.mode.InQuotes? {
      var lines := [""] + (SplitLines(s) + rest);
      assert lines[1..] == SplitLines(s) + rest;
      assert OnLineEnd(OnChar(p, '\n')) == p.Add('\n', InQuotes);
    }
  }

  lemma ReadEnd(p: Parser, rest: seq<string>)
    requires p.mode.InField? || p.mode.QuoteInQuotes?
    ensures ReadRecord(p, SplitLines("") + rest) == (Some(p.fields + [p.field]), rest)
  {
    assert (SplitLines("") + rest)[1..] == rest;
  }

  /** From inside the quotes on: what was doubled is read once, newlines included, up to the closing quote. */
  lemma {:induction false} ReadQuoted(field: string, value: string, rest: seq<string>)
    ensures ReadRecord(Parser(InQuotes, field, []), SplitLines(Doubled(value) + "\"") + rest)
            == (Some([field + value]), rest)
    decreases |value|
  {
    hide ReadRecord, SplitLines;
    var p := Parser(InQuotes, field, []);
    if value == "" {
      assert Doubled(value) + "\"" == ['"'] + "" && field + value == field && [] + [field] == [field];
      ReadChar(p, '"', "", rest);
      ReadEnd(OnChar(p, '"'), rest);
    } else {
      var c, tail := value[0], Doubled(value[1..]) + "\"";
      ReadQuoted(field + [c], value[1..], rest);
      assert field + [c] + value[1..] == field + value;
      if c == '"' {
        assert Doubled(value) + "\"" == [c] + ([c] + tail);
        ReadChar(p, c, [c] + tail, rest);
        ReadChar(OnChar(p, c), c, tail, rest);
      } else {
        assert Doubled(value) + "\"" == [c] + tail;
        ReadChar(p, c, tail, rest);
      }
    }
  }

  lemma {:induction false} ReadPlain(field: string, fields: seq<string>, value: string, rest: seq<string>)
    requires forall i | 0 <= i < |value| :: value[i] !in ",\"\n\r"
    ensures ReadRecord(Parser(InField, field, fields), SplitLines(value) + rest)
            == (Some(fields + [field + value]), rest)
    decreases |value|
  {
    hide ReadRecord, SplitLines;
    var p := Parser(InField, field, fields);
    if value == "" {
      assert field + value == field;
      ReadEnd(p, rest);
    } else {
      var c := value[0];
      assert c !in ",\"\n\r" && value == [c] + value[1..];
      ReadChar(p, c, value[1..], rest);
      ReadPlain(field + [c], fields, value[1..], rest);
      assert field + [c] + value[1..] == field + value;
    }
  }

  lemma UniversalStep(c: char, s: string)
    ensures c != '\r' ==> Universal([c] + s) == [c] + Universal(s)
    ensures s == "" || s[0] != '\n' ==> Universal("\r" + s) == "\n" + Universal(s)
    ensures Universal("\r\n" + s) == "\n" + Universal(s)
  {
    assert ([c] + s)[1..] == s && ("\r" + s)[1..] == s && ("\r\n" + s)[2..] == s;
  }

  lemma DoubledStep(c: char, s: string)
    ensures Doubled([c] + s) == (if c == '"' then ['"', '"'] else [c]) + Doubled(s)
  {
    assert ([c] + s)[1..] == s;
  }

  lemma {:induction false} UniversalDoubled(value: string)
    ensures Universal(Doubled(value) + "\"") == Doubled(Universal(value)) + "\""
    decreases |value|
  {
    hide Universal, Doubled;
    if value == "" {
      NothingDoubled();
    } else {
      var c, tail := value[0], value[1..];
      var s := Doubled(tail) + "\"";
      assert value == [c] + tail;
      UniversalDoubled(tail);
      DoubledStep(c, tail);
      UniversalStep(c, tail);
      if c == '"' {
        assert Doubled(value) + "\"" == [c] + ([c] + s);
        UniversalStep(c, [c] + s);
        UniversalStep(c, s);
        DoubledStep(c, Universal(tail));
      } else if c != '\r' {
        assert Doubled(value) + "\"" == [c] + s;
        UniversalStep(c, s);
        DoubledStep(c, Universal(tail));
      } else if tail != "" && tail[0] == '\n' {
        var rest := tail[1..];
        assert tail == ['\n'] + rest && value == "\r\n" + rest;
        UniversalDoubled(rest);
        DoubledStep('\n', rest);
        assert Doubled(value) + "\"" == "\r\n" + (Doubled(rest) + "\"");
        UniversalStep(c, Doubled(rest) + "\"");
        UniversalStep(c, rest);
        DoubledStep('\n', Universal(rest));
      } else {
        FirstDoubled(tail);
        assert value == "\r" + tail && Doubled(value) + "\"" == "\r" + s;
        UniversalStep(c, s);
        DoubledStep('\n', Universal(tail));
      }
    }
  }

  lemma NothingDoubled()
    ensures Universal(Doubled("") + "\"") == Doubled(Universal("")) + "\""
  {
    assert Doubled("") + "\"" == ['"'] + "";
    UniversalStep('"', "");
  }

  lemma FirstDoubled(s: string)
    requires s == "" || s[0] != '\n'
    ensures (Doubled(s) + "\"")[0] != '\n'
  {
  }

  lemma {:induction false} UniversalKeeps(value: string)
    ensures Universal(value) == value <==> '\r' !in value
    ensures '\r' !in Universal(value)
    decreases |value|
  {
    if value != "" {
      UniversalKeeps(value[1..]);
      if value[0] == '\r' && |value| > 1 && value[1] == '\n' {
        UniversalKeeps(value[2..]);
      }
    }
  }

  /** One value, written in either way, is read back as one record of one field, line breaks unified, and the reader
      stops right behind its last line. */
  lemma ValueRoundTrip(value: string, quoted: bool, rest: seq<string>)
    requires quoted || Plain(value)
    ensures ReadRecord(START, SplitLines(Universal(Field(value, quoted))) + rest) == (Some([Universal(value)]), rest)
  {
    hide ReadRecord, SplitLines, Doubled;
    if quoted {
      var body := Doubled(value) + "\"";
      UniversalDoubled(value);
      assert Field(value, quoted) == ['"'] + body && (['"'] + body)[1..] == body;
      assert Universal(Field(value, quoted)) == ['"'] + Universal(body);
      ReadChar(START, '"', Universal(body), rest);
      ReadQuoted("", Universal(value), rest);
      assert "" + Universal(value) == Universal(value);
    } else {
      assert value[0] !in ",\"\n\r" && value == [value[0]] + value[1..];
      UniversalKeeps(value);
      assert Universal(Field(value, quoted)) == value;
      ReadChar(START, value[0], value[1..], rest);
      assert OnChar(START, value[0]) == Parser(InField, [value[0]], []) by {
        assert "" + [value[0]] == [value[0]];
      }
      ReadPlain([value[0]], [], value[1..], rest);
      assert [] + [[value[0]] + value[1..]] == [value];
    }
  }

  lemma {:induction false} ReadToComma(field: string, value: string, tail: string, rest: seq<string>)
    requires forall i | 0 <= i < |value| :: value[i] !in ",\"\n\r"
    ensures ReadRecord(Parser(InField, field, []), SplitLines(value + "," + tail) + rest)
            == ReadRecord(Parser(FieldStart, "", [field + value]), SplitLines(tail) + rest)
    decreases |value|
  {
    hide ReadRecord, SplitLines;
    var p := Parser(InField, field, []);
    if value == "" {
      assert value + "," + tail == [','] + tail && field + value == field && [] + [field] == [field];
      ReadChar(p, ',', tail, rest);
    } else {
      var c := value[0];
      assert c !in ",\"\n\r" && value + "," + tail == [c] + (value[1..] + "," + tail);
      ReadChar(p, c, value[1..] + "," + tail, rest);
      ReadToComma(field + [c], value[1..], tail, rest);
      assert field + [c] + value[1..] == field + value;
    }
  }

  /** Two columns are read as two fields, and an empty line as none. */
  lemma OtherRecords(a: string, b: string, rest: seq<string>)
    requires Plain(a) && Plain(b)
    ensures ReadRecord(START, SplitLines(a + "," + b) + rest) == (Some([a, b]), rest)
    ensures ReadRecord(START, [""] + rest) == (Some([]), rest)
  {
    BlankLine(rest);
    hide ReadRecord, SplitLines;
    var tail := a[1..] + "," + b;
    assert a[0] !in ",\"\n\r" && b[0] !in ",\"\n\r";
    assert a + "," + b == [a[0]] + tail && b == [b[0]] + b[1..];
    ReadChar(START, a[0], tail, rest);
    assert "" + [a[0]] == [a[0]] && "" + [b[0]] == [b[0]];
    ReadToComma([a[0]], a[1..], b, rest);
    assert [a[0]] + a[1..] == a && [b[0]] + b[1..] == b;
    ReadChar(Parser(FieldStart, "", [a]), b[0], b[1..], rest);
    ReadPlain([b[0]], [a], b[1..], rest);
    assert [a] + [b] == [a, b];
  }

  lemma BlankLine(rest: seq<string>)
    ensures ReadRecord(START, [""] + rest) == (Some([]), rest)
  {
    assert ([""] + rest)[1..] == rest;
  }
}
