/** Documents that formatting does not preserve. */
module ExclusionsLoss {
  import opened Wrappers
  import opened Text
  import opened CsvText
  import opened CsvLines
  import opened CsvRows
  import opened CsvSafe
  import opened ExclusionsCsv
  import opened ExclusionsFormat
  import opened ExclusionsReparse
  import opened ExclusionsRoundTrip
  import opened ExclusionsExact

  // ---------- documents that are not preserved ----------

  lemma CommentLineIsSkipped(line: string, rest: string, count: nat)
    requires OneLine(line) && Broken(line) && StartsComment(line) && '=' !in line
    ensures Rest(line + rest, count) == Rest(rest, count)
  {
    SplitFirst(line, rest);
    assert ([line] + SplitLines(rest))[1..] == SplitLines(rest);
    RStripKeepsFirst(LStrip(line));
    NoMeta(line);
  }

  lemma RowLineIsComment(row: Row, line: string)
    requires |row| >= 2 && !Quoted(row[0]) && StartsComment(row[0]) && NoBreak(RowText(row)) && line == RowText(row) + "\n"
    ensures OneLine(line) && Broken(line) && StartsComment(line)
  {
    RowTextFirst(row);
    var more := "," + RowText(row[1..]) + "\n";
    assert line == row[0] + more;
    LStripMore(row[0], more);
    assert line[..|line| - 1] == RowText(row);
  }

  /** A row whose first field begins with a number sign is printed as a comment: reading skips it. */
  lemma CommentedRowIsLost(row: Row, rest: string, count: nat)
    requires |row| >= 2 && !Quoted(row[0]) && StartsComment(row[0]) && NoBreak(RowText(row)) && '=' !in RowText(row)
    ensures Rest(RowText(row) + "\n" + rest, count) == Rest(rest, count)
  {
    RowLineIsComment(row, RowText(row) + "\n");
    CommentLineIsSkipped(RowText(row) + "\n", rest, count);
  }

  lemma {:induction false} LStripMore(s: string, more: string)
    requires LStrip(s) != ""
    ensures LStrip(s + more) == LStrip(s) + more
  {
    if IsSpace(s[0]) {
      LStripMore(s[1..], more);
      assert (s + more)[1..] == s[1..] + more;
    }
  }

  lemma {:induction false} UpToNowhere(s: string, c: char)
    requires c !in s
    ensures UpTo(s, c) == |s|
  {
    if s != "" { UpToNowhere(s[1..], c); }
  }

  lemma NoMeta(line: string)
    requires StartsComment(line) && '=' !in line
    ensures MetaOf(line).None?
  {
    LStripIsSuffix(line);
    var rest := LStrip(line)[1..];
    LStripIsSuffix(rest);
    var meta := Strip(rest);
    forall k | 0 <= k < |meta| ensures meta[k] != '=' {
      assert meta[k] == LStrip(rest)[k] == rest[|rest| - |LStrip(rest)| + k];
      assert rest[|rest| - |LStrip(rest)| + k] in LStrip(line);
      assert LStrip(line)[1 + (|rest| - |LStrip(rest)| + k)] in line;
    }
    UpToNowhere(meta, '=');
  }

  lemma NamedGroupIsRead(p: Parser, g: Group, body: string, count: nat)
    requires p.header && IdsInFiles(p) && GroupFits(Acceptable(Container), Named, g) && g.sourceFile !in p.files
    requires count + |g.rows| <= MAX_RECORDS && body == "\n" + MetaText("source_file", g.sourceFile) + (RowsText(g.rows) + "")
    ensures Resuming(Container)(p, body, count) == Ok(Loaded(p, g))
  {
    RowLawHolds(Container);
    FileLawHolds(Container);
    NamedGroupIsParsed(Resuming(Container), Acceptable(Container), Named, p, g, "", count);
    NothingIsLeft(Container, Loaded(p, g), count + |g.rows|);
  }

  lemma NamedContainerIsParsed(g: Group, text: string)
    requires Named(g.sourceFile) && GroupFits(Acceptable(Container), Named, g) && g.rows != [] && 1 + |g.rows| <= MAX_RECORDS
    requires text == HeadText(Container) + ("\n" + MetaText("source_file", g.sourceFile) + (RowsText(g.rows) + ""))
    requires Bytes(text) <= MAX_BYTES
    ensures Parse(Container, text) == Ok([g])
  {
    var body := "\n" + MetaText("source_file", g.sourceFile) + (RowsText(g.rows) + "");
    var p := Loaded(Headed(Container), g);
    NamedGroupIsRead(Headed(Container), g, body, 1);
    assert [] + [g] == [g];
    BodyEndsDocument(Container, text, body, Headed(Container), 1, [g], p);
  }

  /** A container file may name its group; formatting drops the name, so the document is not preserved. */
  lemma NamedContainerGroupIsLost(g: Group, text: string)
    requires Named(g.sourceFile) && GroupFits(Acceptable(Container), Named, g) && g.rows != [] && 1 + |g.rows| <= MAX_RECORDS
    requires text == HeadText(Container) + ("\n" + MetaText("source_file", g.sourceFile) + (RowsText(g.rows) + ""))
    requires Bytes(text) <= MAX_BYTES
    ensures Parse(Container, text) == Ok([g])
    ensures !(Format(Container, [g]).Some? && Parse(Container, Format(Container, [g]).value) == Ok(Sorted(Container, [g])))
  {
    NamedContainerIsParsed(g, text);
    RoundTripIff(Container, text, [g]);
    assert g in [g] && !GroupPrintable(Container, g);
  }

  // ---------- every unsafe row can be read, and is then lost ----------

  function InQuotes(field: string): string {
    "\"" + Doubled(field) + "\""
  }

  /** A row with every field in quotes, which any row may be written as. */
  function QuotedText(row: Row): string {
    if row == [] then ""
    else if |row| == 1 then InQuotes(row[0])
    else InQuotes(row[0]) + "," + QuotedText(row[1..])
  }

  lemma QuotedComma(r: Reader, field: string, rest: string)
    requires AtField(r)
    ensures FeedAll(r, InQuotes(field) + "," + rest) == FeedAll(r.(state := StartField, fields := r.fields + [field]), rest)
  {
    FeedQuoted(r, field);
    assert InQuotes(field) + "," + rest == InQuotes(field) + ("," + rest);
    FeedAppend(r, InQuotes(field), "," + rest);
    assert ("," + rest)[1..] == rest;
  }

  function QuotedLast(r: Reader, row: Row): Reader
    requires row != []
  {
    r.(state := QuoteInQuoted, field := row[|row| - 1], fields := r.fields + row[..|row| - 1])
  }

  lemma {:induction false} FeedQuotedText(r: Reader, row: Row)
    requires AtField(r) && row != []
    ensures FeedAll(r, QuotedText(row)) == Some(QuotedLast(r, row))
    decreases |row|
  {
    if |row| == 1 {
      FeedQuoted(r, row[0]);
      assert r.fields + row[..0] == r.fields;
    } else {
      var saved := r.(state := StartField, fields := r.fields + [row[0]]);
      QuotedComma(r, row[0], QuotedText(row[1..]));
      FeedQuotedText(saved, row[1..]);
      assert r.fields + [row[0]] + row[1..][..|row| - 2] == r.fields + row[..|row| - 1];
    }
  }

  lemma QuotedRowIsRead(row: Row)
    requires row != []
    ensures Rows(QuotedText(row) + "\n") == Some([row])
  {
    var last := QuotedLast(FRESH, row);
    FeedQuotedText(FRESH, row);
    assert [] + row[..|row| - 1] == row[..|row| - 1];
    LineEnds(last, row);
    FeedAppend(FRESH, QuotedText(row), "\n");
  }

  lemma {:induction false} QuotedRowIsClosed(row: Row)
    ensures !Parity(QuotedText(row), false) && BreaksQuoted(QuotedText(row), false)
  {
    if row != [] {
      QuotedIsClosed(row[0]);
      if |row| > 1 {
        var first := InQuotes(row[0]);
        QuotedRowIsClosed(row[1..]);
        OneComma();
        ParityAppend(first, ",", false);
        BreaksAppend(first, ",", false);
        ParityAppend(first + ",", QuotedText(row[1..]), false);
        BreaksAppend(first + ",", QuotedText(row[1..]), false);
      }
    }
  }

  lemma QuotedRowStarts(row: Row)
    requires row != []
    ensures Starts(FirstLine(QuotedText(row) + ['\n']))
  {
    var t := QuotedText(row) + ['\n'];
    assert t[0] == '"';
    assert t == "" + ['"'] + t[1..];
    VisibleStarts(t, "", '"', t[1..]);
  }

  /** A row in quotes, whatever its fields, is read and taken. */
  lemma QuotedRowIsTaken(kind: Kind, p: Parser, row: Row, next: Parser, rest: string, count: nat)
    requires row != [] && SmallFields(row) && count < MAX_RECORDS && TakeRow(kind, p, row) == Ok(next)
    ensures Resuming(kind)(p, QuotedText(row) + "\n" + rest, count) == Resuming(kind)(next, rest, count + 1)
  {
    QuotedRowIsClosed(row);
    QuotedRowStarts(row);
    ScanFirst(QuotedText(row), '\n', rest, count);
    QuotedRowIsRead(row);
    ResumeCons(kind, p, QuotedText(row) + "\n" + rest, count, Record(QuotedText(row) + "\n"), next, rest, count + 1);
  }

  /** A file with one group and one row, every field in quotes. */
  function OneRowFile(kind: Kind, name: string, row: Row): string {
    HeadText(kind) + ("\n" + MetaText("source_file", name) + (QuotedText(row) + "\n"))
  }

  lemma RowIsAdded(kind: Kind, p: Parser, name: string, row: Row)
    requires p.header && p.groups == [] && p.ids == {} && RowOk(kind, row) && row != []
    ensures TakeRow(kind, Opened(p, name), row)
            == Ok(Opened(p, name).(groups := [Group(name, [row])], ids := {Identity(name, row)}))
  {
    var q := p.(files := p.files + {name});
    TakeOneRow(kind, q, Group(name, []), row, Opened(p, name));
    assert [] + [row] == [row];
    assert q.groups + [Group(name, [row])] == [Group(name, [row])];
    assert q.ids + {Identity(name, row)} == {Identity(name, row)};
  }

  lemma OneRowIsParsed(kind: Kind, name: string, row: Row, p: Parser, body: string, count: nat)
    requires Named(name) && RowOk(kind, row) && row != [] && p.header && p.groups == [] && p.ids == {} && name !in p.files
    requires count < MAX_RECORDS && body == "\n" + MetaText("source_file", name) + (QuotedText(row) + "\n")
    ensures Resuming(kind)(p, body, count) == Ok(Opened(p, name).(groups := [Group(name, [row])], ids := {Identity(name, row)}))
  {
    var q := Opened(p, name).(groups := [Group(name, [row])], ids := {Identity(name, row)});
    FileLawHolds(kind);
    assert FileLawAt(Resuming(kind), Named, p, name, QuotedText(row) + "\n", count);
    RowIsAdded(kind, p, name, row);
    QuotedRowIsTaken(kind, Opened(p, name), row, q, "", count);
    assert QuotedText(row) + "\n" + "" == QuotedText(row) + "\n";
    NothingIsLeft(kind, q, count + 1);
  }

  lemma OneRowIsComplete(kind: Kind, name: string, row: Row)
    requires row != []
    ensures var g := Group(name, [row]);
            var q := Opened(Headed(kind), name).(groups := [g], ids := {Identity(name, row)});
            Read(kind, [g], q) && Complete(kind, q)
  {
  }

  lemma OneRowFileIsParsed(kind: Kind, name: string, row: Row)
    requires Named(name) && RowOk(kind, row) && row != [] && Bytes(OneRowFile(kind, name, row)) <= MAX_BYTES
    ensures Parse(kind, OneRowFile(kind, name, row)) == Ok([Group(name, [row])])
  {
    var body := "\n" + MetaText("source_file", name) + (QuotedText(row) + "\n");
    var q := Opened(Headed(kind), name).(groups := [Group(name, [row])], ids := {Identity(name, row)});
    var headed, one: nat := Headed(kind), 1;
    OneRowIsParsed(kind, name, row, headed, body, one);
    OneRowIsComplete(kind, name, row);
    BodyEndsDocument(kind, OneRowFile(kind, name, row), body, headed, one, [Group(name, [row])], q);
  }

  /** What formatting and parsing make of a document is not the document in order. */
  predicate NotPreserved(kind: Kind, groups: seq<Group>) {
    !(Format(kind, groups).Some? && Parse(kind, Format(kind, groups).value) == Ok(Sorted(kind, groups)))
  }

  /** Every row that is valid but not safe can be read from a file, and formatting that file loses it. */
  lemma UnsafeRowIsLost(kind: Kind, name: string, row: Row)
    requires Named(name) && RowOk(kind, row) && row != [] && !RowSafe(row) && Bytes(OneRowFile(kind, name, row)) <= MAX_BYTES
    ensures Parse(kind, OneRowFile(kind, name, row)) == Ok([Group(name, [row])])
    ensures NotPreserved(kind, [Group(name, [row])])
  {
    var g := Group(name, [row]);
    OneRowFileIsParsed(kind, name, row);
    RoundTripIff(kind, OneRowFile(kind, name, row), [g]);
    assert row in g.rows && g in [g] && !GroupPrintable(kind, g);
  }

  lemma UnsortableFails(kind: Kind, g: Group, row: Row)
    requires row in g.rows && !Sortable(kind, row)
    ensures Format(kind, [g]).None?
  {
    assert g in [g];
  }

  /** Every row whose line field is blank but not empty can be read, and formatting its file fails. */
  lemma UnsortableIsLost(kind: Kind, name: string, row: Row)
    requires Named(name) && RowOk(kind, row) && row != [] && !Sortable(kind, row) && Bytes(OneRowFile(kind, name, row)) <= MAX_BYTES
    ensures Parse(kind, OneRowFile(kind, name, row)) == Ok([Group(name, [row])])
    ensures Format(kind, [Group(name, [row])]).None?
  {
    OneRowFileIsParsed(kind, name, row);
    UnsortableFails(kind, Group(name, [row]), row);
  }

  // ---------- three such files ----------

  lemma {:induction false} FewBytes(s: string)
    ensures Bytes(s) <= 4 * |s|
  {
    if s != "" { FewBytes(s[1..]); }
  }

  lemma {:induction false} DoubledLength(s: string)
    ensures |Doubled(s)| <= 2 * |s|
  {
    if s != "" { DoubledLength(s[1..]); }
  }

  predicate ShortFields(row: Row) {
    forall i :: 0 <= i < |row| ==> |row[i]| <= 10
  }

  lemma ShortField(field: string)
    requires |field| <= 10
    ensures |FieldText(field)| <= 22 && |InQuotes(field)| <= 22
  {
    DoubledLength(field);
  }

  lemma {:induction false} RowTextLength(row: Row)
    requires ShortFields(row)
    ensures |RowText(row)| <= 23 * |row| && |QuotedText(row)| <= 23 * |row|
  {
    if row != [] {
      ShortField(row[0]);
      if |row| > 1 { RowTextLength(row[1..]); }
    }
  }

  lemma MetaTextLength(key: string, value: string)
    ensures |MetaText(key, value)| == |key| + |value| + 4
  {
  }

  lemma CodeFieldsAreShort()
    ensures |Fields(Code)| == 6 && ShortFields(Fields(Code))
  {
  }

  lemma CodeHeadIsShort()
    ensures |HeadText(Code)| <= 300
  {
    MetaTextLength("schema_version", SchemaVersion(Code));
    MetaTextLength("coverage_kind", KindName(Code));
    CodeFieldsAreShort();
    RowTextLength(Fields(Code));
    assert |"schema_version"| == 14 && |"coverage_kind"| == 13 && |"xcov-"| == 5 && |"-exclusions.v1"| == 14 && |"code"| == 4;
  }

  lemma SmallFile(name: string, row: Row)
    requires |name| <= 10 && |row| == 6 && ShortFields(row)
    ensures Bytes(OneRowFile(Code, name, row)) <= MAX_BYTES
  {
    CodeHeadIsShort();
    MetaTextLength("source_file", name);
    assert |"source_file"| == 11;
    RowTextLength(row);
    FewBytes(OneRowFile(Code, name, row));
  }

  lemma SourceIsNamed()
    ensures Named("a")
  {
    assert PlainWord("a");
    PlainWordIsTight("a");
    assert "a"[1..] == "" && Components("") == [""];
    assert ['a'] + "" == "a" && [""][1..] == [];
    assert Components("a") == ["a"] && |".."| == 2;
  }

  lemma VisibleIsNotEmpty(s: string)
    requires Tight(s)
    ensures !Empty(s) && Strip(s) == s
  {
    TightIsStripped(s);
  }

  function LineRow(scope: string, reason: string): Row {
    [scope, "line", "1", "", "", reason]
  }

  lemma LineRowIsOk(scope: string, reason: string)
    requires Tight(scope) && Tight(reason) && |scope| <= 10 && |reason| <= 10
    ensures RowOk(Code, LineRow(scope, reason)) && |LineRow(scope, reason)| == 6 && ShortFields(LineRow(scope, reason))
  {
    VisibleIsNotEmpty(scope);
    VisibleIsNotEmpty(reason);
    VisibleIsNotEmpty("1");
    assert Canonical("1");
    assert Strip("") == "";
  }

  lemma HashedScope()
    ensures Tight("#top") && !Quoted("#top") && StartsComment("#top")
  {
    assert LStrip("#top") == "#top";
  }

  lemma BrokenReason()
    ensures Tight("a\U{85}b") && !Quoted("a\U{85}b") && !LastWhole("a\U{85}b")
  {
    var s := "a\U{85}b";
    assert s[..2][1] == '\U{85}' && IsBreak(s[..2][1]);
  }

  /** A file whose scope is `"#top"`, in quotes, is read, and formatting loses the row. */
  lemma HashedScopeIsLost()
    ensures var row := LineRow("#top", "why");
            Parse(Code, OneRowFile(Code, "a", row)) == Ok([Group("a", [row])]) && NotPreserved(Code, [Group("a", [row])])
  {
    var row := LineRow("#top", "why");
    HashedScope();
    assert Tight("why");
    LineRowIsOk("#top", "why");
    SourceIsNamed();
    SmallFile("a", row);
    assert !RowSafe(row);
    UnsafeRowIsLost(Code, "a", row);
  }

  /** A file whose reason holds U+0085, in quotes, is read, and formatting cuts the row there. */
  lemma BrokenReasonIsLost()
    ensures var row := LineRow("top", "a\U{85}b");
            Parse(Code, OneRowFile(Code, "a", row)) == Ok([Group("a", [row])]) && NotPreserved(Code, [Group("a", [row])])
  {
    var row := LineRow("top", "a\U{85}b");
    BrokenReason();
    assert Tight("top");
    LineRowIsOk("top", "a\U{85}b");
    SourceIsNamed();
    SmallFile("a", row);
    assert row[|row| - 1] == "a\U{85}b" && !RowSafe(row);
    UnsafeRowIsLost(Code, "a", row);
  }

  lemma BlankLineIsUnsortable()
    ensures var row := ["top", "toggle", " ", "o", "b", "why"];
            !Sortable(Code, row) && RowSafe(row) && |row| == 6 && ShortFields(row)
  {
    assert Strip(" ") == "";
  }

  lemma BlankLineIsOk()
    ensures RowOk(Code, ["top", "toggle", " ", "o", "b", "why"])
  {
    assert Tight("top") && Tight("o") && Tight("b") && Tight("why");
    VisibleIsNotEmpty("top");
    VisibleIsNotEmpty("o");
    VisibleIsNotEmpty("b");
    VisibleIsNotEmpty("why");
    assert Strip(" ") == "";
  }

  /** A file with a toggle row whose line field is a blank is read, and formatting it fails. */
  lemma BlankLineIsLost()
    ensures var row := ["top", "toggle", " ", "o", "b", "why"];
            Parse(Code, OneRowFile(Code, "a", row)) == Ok([Group("a", [row])]) && Format(Code, [Group("a", [row])]).None?
  {
    var row := ["top", "toggle", " ", "o", "b", "why"];
    BlankLineIsOk();
    BlankLineIsUnsortable();
    SourceIsNamed();
    SmallFile("a", row);
    UnsortableIsLost(Code, "a", row);
  }
}
