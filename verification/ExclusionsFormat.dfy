/**
 Formatting an exclusion document: groups and rows in order, printed so that parsing gives them back.
 */
module ExclusionsFormat {
  import opened Wrappers
  import opened Text
  import opened KeySort
  import opened CsvText
  import opened CsvLines
  import opened CsvRows
  import opened ExclusionsCsv

  // ---------- order ----------

  function Decimal(s: string): int {
    if s == "" then 0 else Decimal(s[..|s| - 1]) * 10 + (s[|s| - 1] as int - '0' as int)
  }

  /** The number a line field is sorted by: `int` fails on a field of blanks. */
  function LineNumber(s: string): Option<int> {
    if s == "" then Some(0) else if Empty(s) then None else Some(Decimal(Strip(s)))
  }

  predicate Sortable(kind: Kind, row: Row) {
    var at := LineAt(kind);
    at.Some? && at.value < |row| ==> LineNumber(row[at.value]).Some?
  }

  function LinePart(s: string): Part {
    match LineNumber(s)
    case Some(n) => Number(n)
    case None => Number(0)
  }

  /** The sort key: a line counts as a number, and the reason does not matter. */
  function RowKey(kind: Kind, row: Row): Key {
    if |row| != Width(kind) then []
    else
      match kind
      case Code => [Word(row[0]), LinePart(row[2]), Word(row[1]), Word(row[3]), Word(row[4])]
      case Functional => [Word(row[0]), LinePart(row[1]), Word(row[2]), Word(row[3]), Word(row[4]), Word(row[5])]
      case Assertion => [Word(row[0]), LinePart(row[1]), Word(row[2]), Word(row[3])]
      case Container => [Word(row[0]), Word(row[1]), Word(row[2]), Word(row[3]), Word(row[4])]
  }

  function ByKey(kind: Kind): Row -> Key {
    row => RowKey(kind, row)
  }

  function ByFile(): Group -> Key {
    (g: Group) => [Word(g.sourceFile)]
  }

  function SortedGroup(kind: Kind, g: Group): Group {
    g.(rows := Sort(g.rows, ByKey(kind)))
  }

  function SortedRows(kind: Kind, groups: seq<Group>): (r: seq<Group>)
    ensures |r| == |groups| && forall i :: 0 <= i < |r| ==> r[i] == SortedGroup(kind, groups[i])
  {
    if groups == [] then [] else [SortedGroup(kind, groups[0])] + SortedRows(kind, groups[1..])
  }

  /** The document in order. */
  function Sorted(kind: Kind, groups: seq<Group>): seq<Group> {
    SortedRows(kind, Sort(groups, ByFile()))
  }

  // ---------- text ----------

  function RowsText(rows: seq<Row>): string {
    if rows == [] then "" else RowText(rows[0]) + "\n" + RowsText(rows[1..])
  }

  function MetaText(key: string, value: string): string {
    "# " + key + "=" + value + "\n"
  }

  /** Container files have no source file lines. */
  function GroupHead(kind: Kind, sourceFile: string): string {
    if kind == Container then "" else "\n" + MetaText("source_file", sourceFile)
  }

  function BodyText(kind: Kind, groups: seq<Group>): string {
    if groups == [] then ""
    else GroupHead(kind, groups[0].sourceFile) + (RowsText(groups[0].rows) + BodyText(kind, groups[1..]))
  }

  function HeadText(kind: Kind): string {
    MetaText("schema_version", SchemaVersion(kind)) + (MetaText("coverage_kind", KindName(kind)) + (RowText(Fields(kind)) + "\n"))
  }

  /** `format_document`; `None` when a line field of blanks makes it fail. */
  function Format(kind: Kind, groups: seq<Group>): Option<string> {
    if forall g, row :: g in groups && row in g.rows ==> Sortable(kind, row)
    then Some(HeadText(kind) + BodyText(kind, Sorted(kind, groups)))
    else None
  }

  // ---------- parsing printed text ----------

  /** Parsing the text from here on. */
  function Resume(kind: Kind, p: Parser, text: string, count: nat): Result<Parser, Failure> {
    var items := Rest(text, count);
    if items.Err? then Err(items.error) else TakeAll(kind, p, items.value)
  }

  lemma ResumeCons(kind: Kind, p: Parser, text: string, count: nat, item: Item, next: Parser, rest: string, count': nat)
    requires Rest(text, count) == Cons(item, Rest(rest, count')) && Take(kind, p, item) == Ok(next)
    ensures Resume(kind, p, text, count) == Resume(kind, next, rest, count')
  {
    var more := Rest(rest, count');
    if more.Ok? { assert ([item] + more.value)[1..] == more.value; }
  }

  lemma ResumeMeta(kind: Kind, p: Parser, key: string, value: string, next: Parser, rest: string, count: nat)
    requires Tight(key) && NoBreak(key) && (forall k :: 0 <= k < |key| ==> key[k] != '=')
    requires Tight(value) && NoBreak(value)
    requires TakeMeta(p, key, value) == Ok(next)
    ensures Resume(kind, p, MetaText(key, value) + rest, count) == Resume(kind, next, rest, count)
  {
    ScanMeta(key, value, rest, count);
    ResumeCons(kind, p, MetaText(key, value) + rest, count, Meta(key, value), next, rest, count);
  }

  lemma ResumeRow(kind: Kind, p: Parser, row: Row, next: Parser, rest: string, count: nat)
    requires RowSafe(row) && SmallFields(row) && count < MAX_RECORDS
    requires TakeRow(kind, p, row) == Ok(next)
    ensures Resume(kind, p, RowText(row) + "\n" + rest, count) == Resume(kind, next, rest, count + 1)
  {
    RowIsScanned(row, rest, count);
    RecordIsRow(row);
    ResumeCons(kind, p, RowText(row) + "\n" + rest, count, Record(RecordText(row)), next, rest, count + 1);
  }

  lemma ResumeBlank(kind: Kind, p: Parser, rest: string, count: nat)
    ensures Resume(kind, p, "\n" + rest, count) == Resume(kind, p, rest, count)
  {
    ScanBlank(rest, count);
  }

  // ---------- well-formed documents ----------

  predicate RowOk(kind: Kind, row: Row) {
    |row| == Width(kind) && ValidRow(kind, row) && SmallFields(row)
  }

  function Unreasoned(row: Row): Row {
    if row == [] then [] else row[..|row| - 1]
  }

  function IdOf(): Row -> Row {
    row => Unreasoned(row)
  }

  predicate RowsOk(kind: Kind, rows: seq<Row>) {
    rows != [] && (forall row :: row in rows ==> RowOk(kind, row)) && Distinct(rows, IdOf())
  }

  predicate NameOk(kind: Kind, name: string) {
    (Tight(name) && NoBreak(name) && Portable(name)) || (kind == Container && name == "")
  }

  function FileOf(): Group -> string {
    (g: Group) => g.sourceFile
  }

  function Total(groups: seq<Group>): nat {
    if groups == [] then 0 else Total(groups[..|groups| - 1]) + |groups[|groups| - 1].rows|
  }

  /** What parsing guarantees of a document. */
  predicate WellFormed(kind: Kind, groups: seq<Group>) {
    && (forall g :: g in groups ==> RowsOk(kind, g.rows) && NameOk(kind, g.sourceFile))
    && Distinct(groups, FileOf())
    && 1 + Total(groups) <= MAX_RECORDS
  }

  predicate GroupPrintable(kind: Kind, g: Group) {
    && (forall row :: row in g.rows ==> Sortable(kind, row) && RowSafe(row))
    && (kind == Container ==> g.sourceFile == "")
  }

  /** What formatting needs besides: rows that survive printing, and no named group it would drop. */
  predicate Printable(kind: Kind, groups: seq<Group>) {
    forall g :: g in groups ==> GroupPrintable(kind, g)
  }

  // ---------- rows and groups are parsed back ----------

  function RowIds(name: string, rows: seq<Row>): set<Row> {
    set row | row in rows && row != [] :: Identity(name, row)
  }

  /** The parser in a group, with more rows in it. */
  function Extended(p: Parser, g: Group, rows: seq<Row>): Parser {
    p.(groups := p.groups + [g.(rows := g.rows + rows)], ids := p.ids + RowIds(g.sourceFile, rows))
  }

  lemma TakeOneRow(kind: Kind, p: Parser, g: Group, row: Row, q: Parser)
    requires p.header && RowOk(kind, row) && Identity(g.sourceFile, row) !in p.ids
    requires q == p.(groups := p.groups + [g])
    ensures TakeRow(kind, q, row) == Ok(p.(groups := p.groups + [WithRow(g, row)], ids := p.ids + {Identity(g.sourceFile, row)}))
  {
    assert q.groups[..|q.groups| - 1] == p.groups;
  }

  lemma RowIdsMore(name: string, row: Row, rows: seq<Row>, more: seq<Row>)
    requires rows == [row] + more && row != []
    ensures RowIds(name, rows) == {Identity(name, row)} + RowIds(name, more)
  {
    assert row in rows;
    forall x | x in more ensures x in rows { }
  }

  lemma IdentityIsFaithful(name: string, a: Row, b: Row)
    requires a != [] && b != [] && Identity(name, a) == Identity(name, b)
    ensures Unreasoned(a) == Unreasoned(b)
  {
    assert Identity(name, a)[1..] == Unreasoned(a) && Identity(name, b)[1..] == Unreasoned(b);
  }

  /** Rows that may be added to a group. */
  predicate Addable(ok: Row -> bool, p: Parser, name: string, rows: seq<Row>) {
    && (forall row :: row in rows ==> ok(row) && row != [] && Identity(name, row) !in p.ids)
    && Distinct(rows, IdOf())
  }

  lemma AddableRow(ok: Row -> bool, p: Parser, name: string, rows: seq<Row>, k: nat)
    requires Addable(ok, p, name, rows) && 0 < k < |rows|
    ensures rows[0] != [] && rows[k] != [] && Identity(name, rows[k]) !in p.ids + {Identity(name, rows[0])}
  {
    assert rows[0] in rows && rows[k] in rows;
    assert IdOf()(rows[0]) != IdOf()(rows[k]);
    if Identity(name, rows[0]) == Identity(name, rows[k]) { IdentityIsFaithful(name, rows[0], rows[k]); }
  }

  lemma AddableMore(ok: Row -> bool, p: Parser, name: string, rows: seq<Row>, p': Parser)
    requires Addable(ok, p, name, rows) && rows != []
    requires rows[0] != [] && p'.ids == p.ids + {Identity(name, rows[0])}
    ensures Addable(ok, p', name, rows[1..])
  {
    forall row | row in rows[1..] ensures ok(row) && row != [] && Identity(name, row) !in p'.ids {
      var k :| 1 <= k < |rows| && rows[k] == row;
      AddableRow(ok, p, name, rows, k);
    }
    assert forall i :: 0 <= i < |rows[1..]| ==> rows[1..][i] == rows[i + 1];
  }

  lemma RowsTextFirst(rows: seq<Row>, rest: string)
    requires rows != []
    ensures RowsText(rows) + rest == RowText(rows[0]) + "\n" + (RowsText(rows[1..]) + rest)
  {
  }

  lemma ExtendedMore(p: Parser, g: Group, row: Row, more: seq<Row>)
    requires row != []
    ensures Extended(p.(ids := p.ids + {Identity(g.sourceFile, row)}), WithRow(g, row), more) == Extended(p, g, [row] + more)
  {
    RowIdsMore(g.sourceFile, row, [row] + more, more);
    assert g.rows + [row] + more == g.rows + ([row] + more);
  }

  /** One row: the parser goes on with the row added. */
  lemma RowIsParsed(kind: Kind, p: Parser, g: Group, row: Row, rest: string, count: nat)
    requires p.header && RowOk(kind, row) && RowSafe(row) && Identity(g.sourceFile, row) !in p.ids && count < MAX_RECORDS
    ensures Resume(kind, p.(groups := p.groups + [g]), RowText(row) + "\n" + rest, count)
            == Resume(kind, p.(groups := p.groups + [WithRow(g, row)], ids := p.ids + {Identity(g.sourceFile, row)}), rest, count + 1)
  {
    var q := p.(groups := p.groups + [g]);
    TakeOneRow(kind, p, g, row, q);
    ResumeRow(kind, q, row, p.(groups := p.groups + [WithRow(g, row)], ids := p.ids + {Identity(g.sourceFile, row)}), rest, count);
  }

  lemma ExtendedByNothing(p: Parser, g: Group)
    ensures Extended(p, g, []) == p.(groups := p.groups + [g])
  {
    assert g.rows + [] == g.rows;
    assert RowIds(g.sourceFile, []) == {};
    assert p.ids + {} == p.ids;
  }

  /** Parsing from some parser state, text and record count on. */
  type Resumer = (Parser, string, nat) -> Result<Parser, Failure>

  function Resuming(kind: Kind): Resumer {
    (p: Parser, text: string, count: nat) => Resume(kind, p, text, count)
  }

  /** Rows that formatting prints and parsing accepts. */
  function Acceptable(kind: Kind): Row -> bool {
    row => RowOk(kind, row) && RowSafe(row)
  }

  predicate RowLawAt(r: Resumer, ok: Row -> bool, p: Parser, g: Group, row: Row, rest: string, count: nat) {
    p.header && ok(row) && row != [] && Identity(g.sourceFile, row) !in p.ids && count < MAX_RECORDS ==>
      r(p.(groups := p.groups + [g]), RowText(row) + "\n" + rest, count)
      == r(p.(groups := p.groups + [WithRow(g, row)], ids := p.ids + {Identity(g.sourceFile, row)}), rest, count + 1)
  }

  /** A resumer adds every printed row to the current group. */
  ghost predicate RowLaw(r: Resumer, ok: Row -> bool) {
    forall p: Parser, g: Group, row: Row, rest: string, count: nat :: RowLawAt(r, ok, p, g, row, rest, count)
  }

  lemma RowLawHoldsAt(kind: Kind, p: Parser, g: Group, row: Row, rest: string, count: nat)
    ensures RowLawAt(Resuming(kind), Acceptable(kind), p, g, row, rest, count)
  {
    if p.header && Acceptable(kind)(row) && Identity(g.sourceFile, row) !in p.ids && count < MAX_RECORDS {
      RowIsParsed(kind, p, g, row, rest, count);
    }
  }

  lemma RowLawHolds(kind: Kind)
    ensures RowLaw(Resuming(kind), Acceptable(kind))
  {
    forall p: Parser, g: Group, row: Row, rest: string, count: nat
      ensures RowLawAt(Resuming(kind), Acceptable(kind), p, g, row, rest, count)
    {
      RowLawHoldsAt(kind, p, g, row, rest, count);
    }
  }

  lemma {:induction false} RowsAreParsed(r: Resumer, ok: Row -> bool, p: Parser, g: Group, rows: seq<Row>, rest: string, count: nat)
    requires RowLaw(r, ok)
    requires p.header && Addable(ok, p, g.sourceFile, rows) && count + |rows| <= MAX_RECORDS
    ensures r(p.(groups := p.groups + [g]), RowsText(rows) + rest, count) == r(Extended(p, g, rows), rest, count + |rows|)
    decreases |rows|
  {
    if rows == [] {
      assert RowsText(rows) + rest == rest;
      ExtendedByNothing(p, g);
    } else {
      var row, more := rows[0], rows[1..];
      assert row in rows && rows == [row] + more;
      var p' := p.(ids := p.ids + {Identity(g.sourceFile, row)});
      RowsTextFirst(rows, rest);
      assert RowLawAt(r, ok, p, g, row, RowsText(more) + rest, count);
      AddableMore(ok, p, g.sourceFile, rows, p');
      RowsAreParsed(r, ok, p', WithRow(g, row), more, rest, count + 1);
      ExtendedMore(p, g, row, more);
    }
  }

  // ---------- the program ----------

  method WriteRows(output0: string, rows: seq<Row>) returns (output: string)
    ensures output == output0 + RowsText(rows)
  {
    output := output0;
    var i := 0;
    assert rows[i..] == rows;
    while i < |rows|
      invariant 0 <= i <= |rows|
      invariant output + RowsText(rows[i..]) == output0 + RowsText(rows)
    {
      RowsTextFirst(rows[i..], "");
      assert rows[i..][1..] == rows[i + 1..];
      output := output + (RowText(rows[i]) + "\n");
      i := i + 1;
    }
    assert rows[i..] == [];
  }

  lemma BodyUnfold(kind: Kind, all: seq<Group>, i: nat)
    requires i < |all|
    ensures BodyText(kind, all[i..]) == GroupHead(kind, all[i].sourceFile) + (RowsText(all[i].rows) + BodyText(kind, all[i + 1..]))
  {
    assert all[i..][1..] == all[i + 1..];
  }

  lemma WrittenMore(kind: Kind, output: string, all: seq<Group>, i: nat)
    requires i < |all|
    ensures output + BodyText(kind, all[i..])
            == output + GroupHead(kind, all[i].sourceFile) + RowsText(all[i].rows) + BodyText(kind, all[i + 1..])
  {
    BodyUnfold(kind, all, i);
  }

  /** The loop over the ordered groups. */
  method WriteGroups(kind: Kind, output0: string, groups: seq<Group>) returns (output: string)
    ensures output == output0 + BodyText(kind, groups)
  {
    output := output0;
    ghost var goal := output0 + BodyText(kind, groups);
    var i := 0;
    assert groups[i..] == groups;
    while i < |groups|
      invariant 0 <= i <= |groups|
      invariant output + BodyText(kind, groups[i..]) == goal
    {
      WrittenMore(kind, output, groups, i);
      output := WriteRows(output + GroupHead(kind, groups[i].sourceFile), groups[i].rows);
      i := i + 1;
    }
    assert groups[i..] == [];
  }

  /** `format_document`: sorting a group fails when a line field holds blanks only. */
  method FormatDocument(kind: Kind, groups: seq<Group>) returns (text: Option<string>)
    ensures text == Format(kind, groups)
  {
    if exists g, row :: g in groups && row in g.rows && !Sortable(kind, row) { return None; }
    var output := WriteGroups(kind, HeadText(kind), Sorted(kind, groups));
    text := Some(output);
  }
}
