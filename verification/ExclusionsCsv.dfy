/**
 The CSV files of exclusions: the four kinds of file, what is a valid row, parsing and formatting.
 Rows hold the fields in the order of the file's header.
 */
module ExclusionsCsv {
  import opened Wrappers
  import opened Text
  import opened CsvText
  import opened CsvLines

  datatype Kind = Code | Functional | Assertion | Container

  datatype Group = Group(sourceFile: string, rows: seq<Row>)

  const MAX_BYTES := 64 * 1024 * 1024
  const MAX_FIELD := 16 * 1024
  const MAX_INT_DIGITS := 4300

  function KindName(kind: Kind): string {
    match kind
    case Code => "code"
    case Functional => "functional"
    case Assertion => "assertion"
    case Container => "container"
  }

  function SchemaVersion(kind: Kind): string {
    "xcov-" + KindName(kind) + "-exclusions.v1"
  }

  function Fields(kind: Kind): Row {
    match kind
    case Code => ["scope", "metric", "line", "object", "bin", "reason"]
    case Functional => ["scope", "line", "covergroup", "coverpoint", "cross", "bin", "reason"]
    case Assertion => ["scope", "line", "assertion", "assertion_kind", "reason"]
    case Container => ["target_kind", "scope", "covergroup", "item", "expansion_root", "reason"]
  }

  function Width(kind: Kind): nat {
    match kind
    case Code => 6
    case Functional => 7
    case Assertion => 5
    case Container => 6
  }

  /** Where the `line` field is; container rows have none. */
  function LineAt(kind: Kind): Option<nat> {
    match kind
    case Code => Some(2)
    case Functional => Some(1)
    case Assertion => Some(1)
    case Container => None
  }

  // ---------- valid rows ----------

  predicate Empty(s: string) {
    Strip(s) == ""
  }

  /** `int(text)` succeeds and `str` gives the text back, for a positive number. */
  predicate Canonical(s: string) {
    && 0 < |s| <= MAX_INT_DIGITS
    && s[0] != '0'
    && forall k :: 0 <= k < |s| ==> '0' <= s[k] <= '9'
  }

  predicate ValidCode(row: Row)
    requires |row| == 6
  {
    && !Empty(row[5]) && !Empty(row[0])
    && ((row[1] == "toggle" && Empty(row[2])) || Canonical(Strip(row[2])))
    && (if row[1] == "line" then Empty(row[3]) && Empty(row[4])
        else row[1] in ["toggle", "branch", "condition", "fsm"] && !Empty(row[3]) && !Empty(row[4]))
  }

  predicate ValidFunctional(row: Row)
    requires |row| == 7
  {
    && !Empty(row[6]) && !Empty(row[0])
    && Canonical(Strip(row[1]))
    && !Empty(row[2]) && !Empty(row[5])
    && Empty(row[3]) != Empty(row[4])
  }

  predicate ValidAssertion(row: Row)
    requires |row| == 5
  {
    && !Empty(row[4]) && !Empty(row[0])
    && Canonical(Strip(row[1]))
    && !Empty(row[2])
    && row[3] in ["assertion", "cover_property", "cover_sequence"]
  }

  predicate ValidContainer(row: Row)
    requires |row| == 6
  {
    && !Empty(row[5]) && !Empty(row[1])
    && if row[0] == "instance" then Empty(row[2]) && Empty(row[3]) && !Empty(row[4])
       else
         && row[0] in ["covergroup", "coverpoint", "cross"]
         && !Empty(row[2])
         && Empty(row[4])
         && (Empty(row[3]) <==> row[0] == "covergroup")
  }

  predicate ValidRow(kind: Kind, row: Row)
    requires |row| == Width(kind)
  {
    match kind
    case Code => ValidCode(row)
    case Functional => ValidFunctional(row)
    case Assertion => ValidAssertion(row)
    case Container => ValidContainer(row)
  }

  // ---------- parsing ----------

  function Components(s: string): seq<string> {
    if s == "" then [""]
    else
      var more := Components(s[1..]);
      if s[0] == '/' then [""] + more else [[s[0]] + more[0]] + more[1..]
  }

  /** A relative path that does not climb. */
  predicate Portable(path: string) {
    path != "" && path[0] != '/' && ".." !in Components(path)
  }

  /** The state of `parse_document`; the current group is the last one. */
  datatype Parser = Parser(
    schema: Option<string>, coverage: Option<string>, header: bool,
    groups: seq<Group>, files: set<string>, ids: set<Row>)

  const START := Parser(None, None, false, [], {}, {})

  function TakeMeta(p: Parser, key: string, value: string): Result<Parser, Failure> {
    if key == "schema_version" then
      if p.header || p.groups != [] || p.schema.Some? then Err(Invalid) else Ok(p.(schema := Some(value)))
    else if key == "coverage_kind" then
      if p.header || p.groups != [] || p.coverage.Some? then Err(Invalid) else Ok(p.(coverage := Some(value)))
    else if key == "source_file" then
      if !p.header || value in p.files || !Portable(value) then Err(Invalid)
      else Ok(p.(groups := p.groups + [Group(value, [])], files := p.files + {value}))
    else Err(Invalid)
  }

  predicate SmallFields(row: Row) {
    forall i :: 0 <= i < |row| ==> |row[i]| <= MAX_FIELD
  }

  function ReadRow(text: string): Result<Row, Failure> {
    var rows := Rows(text);
    if rows.None? || |rows.value| != 1 then Err(Invalid)
    else if !SmallFields(rows.value[0]) then Err(Budget)
    else Ok(rows.value[0])
  }

  /** A row is identified by its group and all its fields but the reason. */
  function Identity(sourceFile: string, row: Row): Row
    requires row != []
  {
    [sourceFile] + row[..|row| - 1]
  }

  function WithRow(g: Group, row: Row): Group {
    g.(rows := g.rows + [row])
  }

  function AddRow(kind: Kind, p: Parser, row: Row): Result<Parser, Failure>
    requires p.groups != []
  {
    var current := p.groups[|p.groups| - 1];
    if |row| != Width(kind) || !ValidRow(kind, row) then Err(Invalid)
    else if Identity(current.sourceFile, row) in p.ids then Err(Invalid)
    else Ok(p.(groups := p.groups[..|p.groups| - 1] + [WithRow(current, row)],
               ids := p.ids + {Identity(current.sourceFile, row)}))
  }

  function TakeRow(kind: Kind, p: Parser, row: Row): Result<Parser, Failure> {
    if !p.header then if row == Fields(kind) then Ok(p.(header := true)) else Err(Invalid)
    else if p.groups != [] then AddRow(kind, p, row)
    else if kind == Container then AddRow(kind, p.(groups := [Group("", [])]), row)
    else Err(Invalid)
  }

  function Take(kind: Kind, p: Parser, item: Item): Result<Parser, Failure> {
    match item
    case Meta(key, value) => TakeMeta(p, key, value)
    case Record(text) =>
      var row := ReadRow(text);
      if row.Err? then Err(row.error) else TakeRow(kind, p, row.value)
  }

  function TakeAll(kind: Kind, p: Parser, items: seq<Item>): Result<Parser, Failure>
    decreases |items|
  {
    if items == [] then Ok(p)
    else
      var next := Take(kind, p, items[0]);
      if next.Err? then next else TakeAll(kind, next.value, items[1..])
  }

  predicate Complete(kind: Kind, p: Parser) {
    && p.header
    && p.schema == Some(SchemaVersion(kind))
    && p.coverage == Some(KindName(kind))
    && forall i :: 0 <= i < |p.groups| ==> p.groups[i].rows != []
  }

  /** `parse_document` of a file's text. */
  function Parse(kind: Kind, text: string): Result<seq<Group>, Failure> {
    if Bytes(text) > MAX_BYTES then Err(Budget)
    else
      var items := Rest(text, 0);
      if items.Err? then Err(items.error)
      else
        var p := TakeAll(kind, START, items.value);
        if p.Err? then Err(p.error) else if Complete(kind, p.value) then Ok(p.value.groups) else Err(Invalid)
  }

  method TakeEntry(kind: Kind, p: Parser, item: Item) returns (r: Result<Parser, Failure>)
    ensures r == Take(kind, p, item)
  {
    match item {
      case Meta(key, value) => r := TakeMetaEntry(p, key, value);
      case Record(text) => r := TakeRecord(kind, p, text);
    }
  }

  /** The loop over the entries. */
  method TakeEntries(kind: Kind, items: seq<Item>) returns (r: Result<Parser, Failure>)
    ensures r == TakeAll(kind, START, items)
  {
    r := Ok(START);
    ghost var goal := TakeAll(kind, START, items);
    var i := 0;
    assert items[i..] == items;
    while i < |items|
      invariant 0 <= i <= |items|
      invariant r.Ok? && goal == TakeAll(kind, r.value, items[i..])
    {
      TakeUnfold(kind, r.value, items, i);
      r := TakeEntry(kind, r.value, items[i]);
      if r.Err? { return; }
      i := i + 1;
    }
    assert items[i..] == [];
  }

  method ParseDocument(kind: Kind, text: string) returns (r: Result<seq<Group>, Failure>)
    ensures r == Parse(kind, text)
  {
    if Bytes(text) > MAX_BYTES { return Err(Budget); }
    var items := LogicalEntries(text);
    if items.Err? { return Err(items.error); }
    var taken := TakeEntries(kind, items.value);
    if taken.Err? { return Err(taken.error); }
    var p := taken.value;
    if !p.header || p.schema != Some(SchemaVersion(kind)) || p.coverage != Some(KindName(kind)) { return Err(Invalid); }
    if exists i :: 0 <= i < |p.groups| && p.groups[i].rows == [] { return Err(Invalid); }
    r := Ok(p.groups);
  }

  lemma TakeUnfold(kind: Kind, p: Parser, items: seq<Item>, i: nat)
    requires i < |items|
    ensures var next := Take(kind, p, items[i]);
            TakeAll(kind, p, items[i..]) == if next.Err? then next else TakeAll(kind, next.value, items[i + 1..])
  {
    assert items[i..][1..] == items[i + 1..];
  }

  method TakeMetaEntry(p0: Parser, key: string, value: string) returns (r: Result<Parser, Failure>)
    ensures r == TakeMeta(p0, key, value)
  {
    var p := p0;
    if key == "schema_version" || key == "coverage_kind" {
      if p.header || p.groups != [] { return Err(Invalid); }
      if key == "schema_version" {
        if p.schema.Some? { return Err(Invalid); }
        p := p.(schema := Some(value));
      } else {
        if p.coverage.Some? { return Err(Invalid); }
        p := p.(coverage := Some(value));
      }
    } else if key == "source_file" {
      if !p.header || value in p.files || !Portable(value) { return Err(Invalid); }
      p := p.(groups := p.groups + [Group(value, [])], files := p.files + {value});
    } else {
      return Err(Invalid);
    }
    r := Ok(p);
  }

  method TakeRecord(kind: Kind, p0: Parser, text: string) returns (r: Result<Parser, Failure>)
    ensures r == Take(kind, p0, Record(text))
  {
    var p := p0;
    var row := ReadRow(text);
    if row.Err? { return Err(row.error); }
    if !p.header {
      if row.value != Fields(kind) { return Err(Invalid); }
      return Ok(p.(header := true));
    }
    if p.groups == [] && kind == Container { p := p.(groups := [Group("", [])]); }
    if p.groups == [] { return Err(Invalid); }
    r := AddRow(kind, p, row.value);
  }
}
