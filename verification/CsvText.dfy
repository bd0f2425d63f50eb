/**
 Comma-separated records: what `csv.writer` prints for a row and what `csv.reader` in strict mode
 reads from one logical record.  Quoting follows section 2 of RFC 4180.
 */
module CsvText {
  import opened Wrappers

  type Row = seq<string>

  // ---------- printing ----------

  /** A field is quoted if it holds a comma, a quote or a newline. */
  predicate Special(c: char) {
    c == ',' || c == '"' || c == '\n'
  }

  predicate Quoted(field: string) {
    exists k :: 0 <= k < |field| && Special(field[k])
  }

  function Doubled(s: string): string {
    if s == "" then "" else (if s[0] == '"' then "\"\"" else [s[0]]) + Doubled(s[1..])
  }

  function FieldText(field: string): string {
    if Quoted(field) then "\"" + Doubled(field) + "\"" else field
  }

  function RowText(row: Row): string {
    if row == [] then ""
    else if |row| == 1 then FieldText(row[0])
    else FieldText(row[0]) + "," + RowText(row[1..])
  }

  // ---------- reading ----------

  datatype State = StartRecord | StartField | InField | InQuoted | QuoteInQuoted | EatNewline

  /** The reader: the field being read, the finished fields of the record, the finished records. */
  datatype Reader = Reader(state: State, field: string, fields: Row, rows: seq<Row>)

  const FRESH := Reader(StartRecord, "", [], [])

  function Saved(r: Reader, state: State): Reader {
    r.(state := state, field := "", fields := r.fields + [r.field])
  }

  function Added(r: Reader, state: State, c: char): Reader {
    r.(state := state, field := r.field + [c])
  }

  /** One character; `None` is an error of strict mode. */
  function Feed(r: Reader, c: char): Option<Reader> {
    match r.state
    case StartRecord => Some(if c == '\n' then r.(state := EatNewline) else FeedField(r, c))
    case StartField => Some(FeedField(r, c))
    case InField =>
      Some(if c == '\n' then Saved(r, EatNewline) else if c == ',' then Saved(r, StartField) else Added(r, InField, c))
    case InQuoted => Some(if c == '"' then r.(state := QuoteInQuoted) else Added(r, InQuoted, c))
    case QuoteInQuoted =>
      if c == '"' then Some(Added(r, InQuoted, c))
      else if c == ',' then Some(Saved(r, StartField))
      else if c == '\n' then Some(Saved(r, EatNewline))
      else None
    case EatNewline => if c == '\n' then Some(r) else None
  }

  /** The first character of a field. */
  function FeedField(r: Reader, c: char): Reader {
    if c == '\n' then Saved(r, EatNewline)
    else if c == '"' then r.(state := InQuoted)
    else if c == ',' then Saved(r, StartField)
    else Added(r, InField, c)
  }

  /** The end of a line: a record is finished unless a quoted field is open. */
  function EndLine(r: Reader): Reader {
    match r.state
    case InQuoted => r
    case StartRecord => Finished(r)
    case EatNewline => Finished(r)
    case StartField => Finished(Saved(r, StartRecord))
    case InField => Finished(Saved(r, StartRecord))
    case QuoteInQuoted => Finished(Saved(r, StartRecord))
  }

  function Finished(r: Reader): Reader {
    Reader(StartRecord, r.field, [], r.rows + [r.fields])
  }

  /** Characters, with the end of a line after every newline. */
  function FeedAll(r: Reader, text: string): Option<Reader>
    decreases |text|
  {
    if text == "" then Some(r)
    else
      var next := Feed(r, text[0]);
      if next.None? then None
      else FeedAll(if text[0] == '\n' then EndLine(next.value) else next.value, text[1..])
  }

  /** `list(csv.reader(io.StringIO(text), strict=True))`. */
  function Rows(text: string): Option<seq<Row>> {
    var r := FeedAll(FRESH, text);
    if r.None? then None
    else
      var end := if text == "" || text[|text| - 1] == '\n' then r.value else EndLine(r.value);
      if end.state == InQuoted || end.field != "" then None else Some(end.rows)
  }

  // ---------- a printed row is read back ----------

  lemma {:induction false} FeedAppend(r: Reader, a: string, b: string)
    ensures FeedAll(r, a + b) == if FeedAll(r, a).None? then None else FeedAll(FeedAll(r, a).value, b)
    decreases |a|
  {
    if a == "" {
      assert a + b == b;
    } else {
      assert (a + b)[1..] == a[1..] + b;
      var next := Feed(r, a[0]);
      if next.Some? { FeedAppend(if a[0] == '\n' then EndLine(next.value) else next.value, a[1..], b); }
    }
  }

  lemma PlainTail(s: string)
    requires !Quoted(s) && s != ""
    ensures !Special(s[0]) && !Quoted(s[1..])
  {
    assert !Special(s[0]);
    forall k | 0 <= k < |s[1..]| ensures !Special(s[1..][k]) { assert s[1..][k] == s[k + 1]; }
  }

  /** Characters without special meaning are added to an unquoted field. */
  lemma {:induction false} FeedPlain(r: Reader, s: string)
    requires r.state == InField && !Quoted(s)
    ensures FeedAll(r, s) == Some(r.(field := r.field + s))
    decreases |s|
  {
    if s == "" {
      assert r.field + s == r.field;
    } else {
      PlainTail(s);
      FeedPlain(Added(r, InField, s[0]), s[1..]);
      assert r.field + [s[0]] + s[1..] == r.field + s;
    }
  }

  /** A quoted field's content is added with every doubled quote undone. */
  lemma {:induction false} FeedDoubled(r: Reader, s: string)
    requires r.state == InQuoted
    ensures FeedAll(r, Doubled(s)) == Some(r.(field := r.field + s))
    decreases |s|
  {
    if s == "" {
      assert r.field + s == r.field;
    } else {
      FeedDoubled(Added(r, InQuoted, s[0]), s[1..]);
      assert r.field + [s[0]] + s[1..] == r.field + s;
      if s[0] == '"' {
        var d := "\"\"" + Doubled(s[1..]);
        assert d[1..][1..] == Doubled(s[1..]);
      } else {
        assert ([s[0]] + Doubled(s[1..]))[1..] == Doubled(s[1..]);
      }
    }
  }

  predicate AtField(r: Reader) {
    (r.state == StartRecord || r.state == StartField) && r.field == ""
  }

  /** What the reader is like after the text of a field. */
  function FieldRead(r: Reader, field: string): Reader {
    if Quoted(field) then r.(state := QuoteInQuoted, field := field)
    else if field == "" then r
    else r.(state := InField, field := field)
  }

  lemma FeedQuoted(r: Reader, field: string)
    requires AtField(r)
    ensures FeedAll(r, "\"" + Doubled(field) + "\"") == Some(r.(state := QuoteInQuoted, field := field))
  {
    var d := Doubled(field);
    var open := r.(state := InQuoted);
    assert ("\"" + (d + "\""))[1..] == d + "\"";
    assert "\"" + d + "\"" == "\"" + (d + "\"");
    FeedDoubled(open, field);
    assert open.field + field == field;
    FeedAppend(open, d, "\"");
    var full := open.(field := field);
    assert "\""[1..] == "";
    assert FeedAll(full, "\"") == Some(full.(state := QuoteInQuoted));
  }

  lemma FeedFieldText(r: Reader, field: string)
    requires AtField(r)
    ensures FeedAll(r, FieldText(field)) == Some(FieldRead(r, field))
  {
    if Quoted(field) {
      FeedQuoted(r, field);
    } else if field != "" {
      PlainTail(field);
      var begun := Added(r, InField, field[0]);
      assert Feed(r, field[0]) == Some(begun);
      FeedPlain(begun, field[1..]);
      assert begun.field + field[1..] == field;
    }
  }

  lemma FeedComma(r: Reader, field: string, rest: string)
    requires AtField(r)
    ensures FeedAll(r, FieldText(field) + "," + rest) == FeedAll(r.(state := StartField, fields := r.fields + [field]), rest)
  {
    var first := FieldText(field);
    FeedFieldText(r, field);
    assert first + "," + rest == first + ("," + rest);
    FeedAppend(r, first, "," + rest);
    assert ("," + rest)[1..] == rest;
  }

  function LastRead(r: Reader, row: Row): Reader
    requires row != []
  {
    FieldRead(r.(state := StartField, fields := r.fields + row[..|row| - 1]), row[|row| - 1])
  }

  lemma LastOfTail(r: Reader, row: Row)
    requires |row| >= 2
    ensures LastRead(r.(state := StartField, fields := r.fields + [row[0]]), row[1..]) == LastRead(r, row)
  {
    assert r.fields + [row[0]] + row[1..][..|row| - 2] == r.fields + row[..|row| - 1];
  }

  /** After the text of a row all fields but the last are saved. */
  lemma {:induction false} FeedRowText(r: Reader, row: Row)
    requires AtField(r) && row != [] && (|row| >= 2 || r.state == StartField)
    ensures FeedAll(r, RowText(row)) == Some(LastRead(r, row))
    decreases |row|
  {
    if |row| == 1 {
      FeedFieldText(r, row[0]);
      assert r.fields + row[..0] == r.fields;
    } else {
      var saved := r.(state := StartField, fields := r.fields + [row[0]]);
      FeedComma(r, row[0], RowText(row[1..]));
      FeedRowText(saved, row[1..]);
      LastOfTail(r, row);
    }
  }

  lemma RowFed(row: Row) returns (last: Reader)
    requires |row| >= 2
    ensures FeedAll(FRESH, RowText(row)) == Some(last)
    ensures last.state == StartField || last.state == InField || last.state == QuoteInQuoted
    ensures last.field == row[|row| - 1] && last.fields == row[..|row| - 1] && last.rows == []
  {
    FeedRowText(FRESH, row);
    last := LastRead(FRESH, row);
    assert [] + row[..|row| - 1] == row[..|row| - 1];
  }

  lemma RowTextEnds(row: Row)
    requires |row| >= 2
    ensures RowText(row) != "" && RowText(row)[|RowText(row)| - 1] != '\n'
  {
    if |row| == 2 {
      var last := row[1];
      if !Quoted(last) && last != "" { assert !Special(last[|last| - 1]); }
      assert RowText(row[1..]) == FieldText(last);
    } else {
      RowTextEnds(row[1..]);
    }
  }

  lemma LineEnds(r: Reader, row: Row)
    requires r.state == StartField || r.state == InField || r.state == QuoteInQuoted
    requires row != [] && r.field == row[|row| - 1] && r.fields == row[..|row| - 1] && r.rows == []
    ensures EndLine(r) == Reader(StartRecord, "", [], [row])
    ensures FeedAll(r, "\n") == Some(EndLine(r))
  {
    assert row[..|row| - 1] + [row[|row| - 1]] == row;
    assert [] + [row] == [row];
    assert "\n"[1..] == "";
  }

  /** A printed row, with its newline or without, is read back as that row alone. */
  lemma RowIsRead(row: Row)
    requires |row| >= 2
    ensures Rows(RowText(row) + "\n") == Some([row])
    ensures Rows(RowText(row)) == Some([row])
  {
    var last := RowFed(row);
    LineEnds(last, row);
    FeedAppend(FRESH, RowText(row), "\n");
    RowTextEnds(row);
  }
}
