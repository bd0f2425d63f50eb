/** A printed document is parsed back: head, groups, and the whole. */
module ExclusionsReparse {
  import opened Wrappers
  import opened Text
  import opened KeySort
  import opened CsvText
  import opened CsvLines
  import opened CsvRows
  import opened ExclusionsCsv
  import opened ExclusionsFormat

  // ---------- plain words ----------

  predicate WordChar(c: char) {
    'a' <= c <= 'z' || '0' <= c <= '9' || c == '_' || c == '-' || c == '.'
  }

  predicate PlainWord(s: string) {
    s != "" && forall k :: 0 <= k < |s| ==> WordChar(s[k])
  }

  lemma PlainWordIsTight(s: string)
    requires PlainWord(s)
    ensures Tight(s) && NoBreak(s) && (forall k :: 0 <= k < |s| ==> s[k] != '=')
    ensures !Quoted(s) && !StartsComment(s)
  {
    assert WordChar(s[0]) && WordChar(s[|s| - 1]);
    assert forall k :: 0 <= k < |s| ==> WordChar(s[k]) && !IsBreak(s[k]) && !Special(s[k]) && s[k] != '=';
  }

  lemma MetaWords()
    ensures PlainWord("schema_version") && PlainWord("coverage_kind") && PlainWord("source_file")
  {
  }

  lemma KindWords(kind: Kind)
    ensures PlainWord(KindName(kind)) && PlainWord(SchemaVersion(kind))
  {
    var name := KindName(kind);
    assert PlainWord("code") && PlainWord("functional") && PlainWord("assertion") && PlainWord("container");
    assert PlainWord("xcov-") && PlainWord("-exclusions.v1");
    JoinedWords("xcov-", name);
    JoinedWords("xcov-" + name, "-exclusions.v1");
  }

  lemma JoinedWords(a: string, b: string)
    requires PlainWord(a) && PlainWord(b)
    ensures PlainWord(a + b)
  {
  }

  predicate PlainWords(fields: Row) {
    forall i :: 0 <= i < |fields| ==> PlainWord(fields[i]) && |fields[i]| <= MAX_FIELD
  }

  lemma CommonWords()
    ensures PlainWord("scope") && PlainWord("line") && PlainWord("bin") && PlainWord("reason")
  {
  }

  lemma CodeWords()
    ensures PlainWords(Fields(Code))
  {
    CommonWords();
    assert PlainWord("metric") && PlainWord("object");
  }

  lemma FunctionalWords()
    ensures PlainWords(Fields(Functional))
  {
    CommonWords();
    assert PlainWord("covergroup") && PlainWord("coverpoint") && PlainWord("cross");
  }

  lemma AssertionWords()
    ensures PlainWords(Fields(Assertion))
  {
    CommonWords();
    assert PlainWord("assertion") && PlainWord("assertion_kind");
  }

  lemma ContainerWords()
    ensures PlainWords(Fields(Container))
  {
    CommonWords();
    assert PlainWord("target_kind") && PlainWord("covergroup") && PlainWord("item") && PlainWord("expansion_root");
  }

  lemma FieldWords(kind: Kind)
    ensures |Fields(kind)| == Width(kind) && PlainWords(Fields(kind))
  {
    match kind
    case Code => CodeWords();
    case Functional => FunctionalWords();
    case Assertion => AssertionWords();
    case Container => ContainerWords();
  }

  lemma PlainRowIsSafe(row: Row)
    requires |row| >= 2 && PlainWords(row)
    ensures RowSafe(row) && SmallFields(row)
  {
    forall i | 0 <= i < |row| ensures NoBreak(row[i]) && !StartsComment(row[i]) { PlainWordIsTight(row[i]); }
  }

  // ---------- the head ----------

  function WithHead(kind: Kind, p: Parser): Parser {
    p.(schema := Some(SchemaVersion(kind)), coverage := Some(KindName(kind)), header := true)
  }

  function Headed(kind: Kind): Parser {
    WithHead(kind, START)
  }

  lemma SchemaIsParsed(kind: Kind, p: Parser, rest: string, count: nat)
    requires !p.header && p.groups == [] && p.schema.None?
    ensures Resuming(kind)(p, MetaText("schema_version", SchemaVersion(kind)) + rest, count)
            == Resuming(kind)(p.(schema := Some(SchemaVersion(kind))), rest, count)
  {
    MetaWords();
    KindWords(kind);
    PlainWordIsTight("schema_version");
    PlainWordIsTight(SchemaVersion(kind));
    ResumeMeta(kind, p, "schema_version", SchemaVersion(kind), p.(schema := Some(SchemaVersion(kind))), rest, count);
  }

  lemma CoverageIsParsed(kind: Kind, p: Parser, rest: string, count: nat)
    requires !p.header && p.groups == [] && p.coverage.None?
    ensures Resuming(kind)(p, MetaText("coverage_kind", KindName(kind)) + rest, count)
            == Resuming(kind)(p.(coverage := Some(KindName(kind))), rest, count)
  {
    MetaWords();
    KindWords(kind);
    PlainWordIsTight("coverage_kind");
    PlainWordIsTight(KindName(kind));
    ResumeMeta(kind, p, "coverage_kind", KindName(kind), p.(coverage := Some(KindName(kind))), rest, count);
  }

  lemma HeaderIsTaken(kind: Kind, p: Parser, row: Row)
    requires !p.header && row == Fields(kind)
    ensures RowSafe(row) && SmallFields(row) && TakeRow(kind, p, row) == Ok(p.(header := true))
  {
    FieldWords(kind);
    PlainRowIsSafe(row);
  }

  lemma HeaderIsParsed(kind: Kind, p: Parser, row: Row, next: Parser, rest: string, count: nat)
    requires RowSafe(row) && SmallFields(row) && count < MAX_RECORDS && TakeRow(kind, p, row) == Ok(next)
    ensures Resuming(kind)(p, RowText(row) + "\n" + rest, count) == Resuming(kind)(next, rest, count + 1)
  {
    ResumeRow(kind, p, row, next, rest, count);
  }

  lemma HeadChain(r: Resumer, a: string, b: string, c: string, rest: string, p0: Parser, p1: Parser, p2: Parser, p3: Parser, count: nat)
    requires r(p0, a + (b + (c + "\n" + rest)), count) == r(p1, b + (c + "\n" + rest), count)
    requires r(p1, b + (c + "\n" + rest), count) == r(p2, c + "\n" + rest, count)
    requires r(p2, c + "\n" + rest, count) == r(p3, rest, count + 1)
    ensures r(p0, a + (b + (c + "\n")) + rest, count) == r(p3, rest, count + 1)
  {
    HeadParts(a, b, c, rest);
  }

  /** Two metadata lines and the header. */
  lemma HeadIsParsed(kind: Kind, p: Parser, rest: string, count: nat)
    requires !p.header && p.groups == [] && p.schema.None? && p.coverage.None? && count < MAX_RECORDS
    ensures Resuming(kind)(p, HeadText(kind) + rest, count)
            == Resuming(kind)(WithHead(kind, p), rest, count + 1)
  {
    var a, b := MetaText("schema_version", SchemaVersion(kind)), MetaText("coverage_kind", KindName(kind));
    var row := Fields(kind);
    var c := RowText(row);
    var p1 := p.(schema := Some(SchemaVersion(kind)));
    var p2 := p1.(coverage := Some(KindName(kind)));
    var p3 := p2.(header := true);
    SchemaIsParsed(kind, p, b + (c + "\n" + rest), count);
    CoverageIsParsed(kind, p1, c + "\n" + rest, count);
    HeaderIsTaken(kind, p2, row);
    HeaderIsParsed(kind, p2, row, p3, rest, count);
    HeadChain(Resuming(kind), a, b, c, rest, p, p1, p2, p3, count);
  }

  lemma HeadParts(a: string, b: string, c: string, rest: string)
    ensures a + (b + (c + "\n")) + rest == a + (b + (c + "\n" + rest))
  {
  }

  // ---------- named groups ----------

  predicate Named(name: string) {
    Tight(name) && NoBreak(name) && Portable(name)
  }

  function Opened(p: Parser, name: string): Parser {
    p.(groups := p.groups + [Group(name, [])], files := p.files + {name})
  }

  predicate FileLawAt(r: Resumer, named: string -> bool, p: Parser, name: string, rest: string, count: nat) {
    p.header && named(name) && name !in p.files ==>
      r(p, "\n" + MetaText("source_file", name) + rest, count) == r(Opened(p, name), rest, count)
  }

  /** A resumer opens a group at every source file line. */
  ghost predicate FileLaw(r: Resumer, named: string -> bool) {
    forall p: Parser, name: string, rest: string, count: nat :: FileLawAt(r, named, p, name, rest, count)
  }

  lemma FileLawHoldsAt(kind: Kind, p: Parser, name: string, rest: string, count: nat)
    ensures FileLawAt(Resuming(kind), Named, p, name, rest, count)
  {
    if p.header && Named(name) && name !in p.files {
      MetaWords();
      PlainWordIsTight("source_file");
      var text := MetaText("source_file", name) + rest;
      assert "\n" + MetaText("source_file", name) + rest == "\n" + text;
      ResumeBlank(kind, p, text, count);
      ResumeMeta(kind, p, "source_file", name, Opened(p, name), rest, count);
    }
  }

  lemma FileLawHolds(kind: Kind)
    ensures FileLaw(Resuming(kind), Named)
  {
    forall p: Parser, name: string, rest: string, count: nat ensures FileLawAt(Resuming(kind), Named, p, name, rest, count) {
      FileLawHoldsAt(kind, p, name, rest, count);
    }
  }

  /** The parser after a whole named group. */
  function Loaded(p: Parser, g: Group): Parser {
    p.(groups := p.groups + [g], files := p.files + {g.sourceFile}, ids := p.ids + RowIds(g.sourceFile, g.rows))
  }

  function AllLoaded(p: Parser, groups: seq<Group>): Parser
    decreases |groups|
  {
    if groups == [] then p else AllLoaded(Loaded(p, groups[0]), groups[1..])
  }

  /** Identities seen belong to files seen. */
  predicate IdsInFiles(p: Parser) {
    forall id :: id in p.ids ==> id != [] && id[0] in p.files
  }

  predicate GroupFits(ok: Row -> bool, named: string -> bool, g: Group) {
    && named(g.sourceFile)
    && (forall row :: row in g.rows ==> ok(row) && row != [])
    && Distinct(g.rows, IdOf())
  }

  lemma GroupIsAddable(ok: Row -> bool, named: string -> bool, p: Parser, g: Group)
    requires IdsInFiles(p) && GroupFits(ok, named, g) && g.sourceFile !in p.files
    ensures Addable(ok, Opened(p, g.sourceFile), g.sourceFile, g.rows) && Addable(ok, p, g.sourceFile, g.rows)
  {
    forall row | row in g.rows ensures row != [] && Identity(g.sourceFile, row) !in p.ids {
      assert Identity(g.sourceFile, row)[0] == g.sourceFile;
    }
  }

  lemma LoadedKeepsIds(p: Parser, g: Group)
    requires IdsInFiles(p)
    ensures IdsInFiles(Loaded(p, g))
  {
  }

  lemma OpenedExtended(p: Parser, g: Group)
    ensures Extended(p.(files := p.files + {g.sourceFile}), Group(g.sourceFile, []), g.rows) == Loaded(p, g)
  {
    assert [] + g.rows == g.rows;
  }

  lemma NamedGroupIsParsed(r: Resumer, ok: Row -> bool, named: string -> bool, p: Parser, g: Group, rest: string, count: nat)
    requires RowLaw(r, ok) && FileLaw(r, named)
    requires p.header && IdsInFiles(p) && GroupFits(ok, named, g) && g.sourceFile !in p.files
    requires count + |g.rows| <= MAX_RECORDS
    ensures r(p, "\n" + MetaText("source_file", g.sourceFile) + (RowsText(g.rows) + rest), count) == r(Loaded(p, g), rest, count + |g.rows|)
  {
    assert FileLawAt(r, named, p, g.sourceFile, RowsText(g.rows) + rest, count);
    GroupIsAddable(ok, named, p, g);
    RowsAreParsed(r, ok, p.(files := p.files + {g.sourceFile}), Group(g.sourceFile, []), g.rows, rest, count);
    OpenedExtended(p, g);
  }

  predicate GroupsFit(ok: Row -> bool, named: string -> bool, p: Parser, groups: seq<Group>) {
    && (forall i :: 0 <= i < |groups| ==> GroupFits(ok, named, groups[i]) && groups[i].sourceFile !in p.files)
    && Distinct(groups, FileOf())
  }

  lemma GroupsFitMore(ok: Row -> bool, named: string -> bool, p: Parser, groups: seq<Group>)
    requires GroupsFit(ok, named, p, groups) && groups != []
    ensures GroupsFit(ok, named, Loaded(p, groups[0]), groups[1..])
  {
    var more := groups[1..];
    forall i | 0 <= i < |more| ensures GroupFits(ok, named, more[i]) && more[i].sourceFile !in Loaded(p, groups[0]).files {
      assert more[i] == groups[i + 1];
      assert FileOf()(groups[0]) != FileOf()(groups[i + 1]);
    }
    assert forall i :: 0 <= i < |more| ==> more[i] == groups[i + 1];
  }

  function RowCount(groups: seq<Group>): nat {
    if groups == [] then 0 else |groups[0].rows| + RowCount(groups[1..])
  }

  /** The parser can take these groups. */
  predicate Ready(ok: Row -> bool, named: string -> bool, p: Parser, groups: seq<Group>, count: nat) {
    p.header && IdsInFiles(p) && GroupsFit(ok, named, p, groups) && count + RowCount(groups) <= MAX_RECORDS
  }

  lemma ReadyMore(ok: Row -> bool, named: string -> bool, p: Parser, groups: seq<Group>, count: nat)
    requires Ready(ok, named, p, groups, count) && groups != []
    ensures Ready(ok, named, Loaded(p, groups[0]), groups[1..], count + |groups[0].rows|)
  {
    LoadedKeepsIds(p, groups[0]);
    GroupsFitMore(ok, named, p, groups);
  }

  lemma FirstGroupIsParsed(kind: Kind, r: Resumer, ok: Row -> bool, named: string -> bool, p: Parser, groups: seq<Group>, count: nat)
    requires kind != Container && RowLaw(r, ok) && FileLaw(r, named)
    requires Ready(ok, named, p, groups, count) && groups != []
    ensures r(p, BodyText(kind, groups), count) == r(Loaded(p, groups[0]), BodyText(kind, groups[1..]), count + |groups[0].rows|)
  {
    var g := groups[0];
    assert GroupFits(ok, named, g) && g.sourceFile !in p.files;
    NamedGroupIsParsed(r, ok, named, p, g, BodyText(kind, groups[1..]), count);
  }

  lemma AllLoadedFirst(p: Parser, groups: seq<Group>, count: nat)
    requires groups != []
    ensures AllLoaded(p, groups) == AllLoaded(Loaded(p, groups[0]), groups[1..])
    ensures count + RowCount(groups) == (count + |groups[0].rows|) + RowCount(groups[1..])
  {
  }

  function Bodies(kind: Kind): seq<Group> -> string {
    groups => BodyText(kind, groups)
  }

  predicate GroupLawAt(r: Resumer, ok: Row -> bool, named: string -> bool, body: seq<Group> -> string, p: Parser, groups: seq<Group>, count: nat) {
    Ready(ok, named, p, groups, count) && groups != [] ==>
      r(p, body(groups), count) == r(Loaded(p, groups[0]), body(groups[1..]), count + |groups[0].rows|)
  }

  /** A resumer loads one group after the other. */
  ghost predicate GroupLaw(r: Resumer, ok: Row -> bool, named: string -> bool, body: seq<Group> -> string) {
    forall p: Parser, groups: seq<Group>, count: nat :: GroupLawAt(r, ok, named, body, p, groups, count)
  }

  lemma GroupLawHolds(kind: Kind, r: Resumer, ok: Row -> bool, named: string -> bool)
    requires kind != Container && RowLaw(r, ok) && FileLaw(r, named)
    ensures GroupLaw(r, ok, named, Bodies(kind))
  {
    forall p: Parser, groups: seq<Group>, count: nat ensures GroupLawAt(r, ok, named, Bodies(kind), p, groups, count) {
      if Ready(ok, named, p, groups, count) && groups != [] { FirstGroupIsParsed(kind, r, ok, named, p, groups, count); }
    }
  }

  lemma {:induction false} NamedGroupsAreParsed(r: Resumer, ok: Row -> bool, named: string -> bool, body: seq<Group> -> string,
                                                p: Parser, groups: seq<Group>, count: nat)
    requires GroupLaw(r, ok, named, body) && body([]) == ""
    requires Ready(ok, named, p, groups, count)
    ensures r(p, body(groups), count) == r(AllLoaded(p, groups), "", count + RowCount(groups))
    decreases |groups|
  {
    if groups != [] {
      assert GroupLawAt(r, ok, named, body, p, groups, count);
      ReadyMore(ok, named, p, groups, count);
      NamedGroupsAreParsed(r, ok, named, body, Loaded(p, groups[0]), groups[1..], count + |groups[0].rows|);
      AllLoadedFirst(p, groups, count);
    }
  }

  lemma {:induction false} AllLoadedGroups(p: Parser, groups: seq<Group>)
    ensures AllLoaded(p, groups).groups == p.groups + groups
    ensures AllLoaded(p, groups).schema == p.schema && AllLoaded(p, groups).coverage == p.coverage && AllLoaded(p, groups).header == p.header
    decreases |groups|
  {
    if groups != [] {
      AllLoadedGroups(Loaded(p, groups[0]), groups[1..]);
      assert p.groups + [groups[0]] + groups[1..] == p.groups + groups;
    }
  }

  // ---------- the unnamed group of a container file ----------

  predicate UnnamedLawAt(r: Resumer, ok: Row -> bool, p: Parser, row: Row, rest: string, count: nat) {
    p.header && p.groups == [] && ok(row) && row != [] && Identity("", row) !in p.ids && count < MAX_RECORDS ==>
      r(p, RowText(row) + "\n" + rest, count) == r(p.(groups := p.groups + [Group("", [])]), RowText(row) + "\n" + rest, count)
  }

  /** The first row of a container file opens the unnamed group. */
  lemma UnnamedLawHoldsAt(p: Parser, row: Row, rest: string, count: nat)
    ensures UnnamedLawAt(Resuming(Container), Acceptable(Container), p, row, rest, count)
  {
    if p.header && p.groups == [] && Acceptable(Container)(row) && Identity("", row) !in p.ids && count < MAX_RECORDS {
      var q := p.(groups := p.groups + [Group("", [])]);
      TakeOneRow(Container, p, Group("", []), row, q);
      assert q.groups == [Group("", [])];
      var next := TakeRow(Container, q, row).value;
      ResumeRow(Container, q, row, next, rest, count);
      ResumeRow(Container, p, row, next, rest, count);
    }
  }

  lemma UnnamedGroupIsParsed(r: Resumer, ok: Row -> bool, p: Parser, rows: seq<Row>, count: nat)
    requires p.header && p.groups == [] && rows != [] && Addable(ok, p, "", rows) && count + |rows| <= MAX_RECORDS
    requires RowLaw(r, ok) && UnnamedLawAt(r, ok, p, rows[0], RowsText(rows[1..]) + "", count)
    ensures r(p, RowsText(rows), count) == r(Extended(p, Group("", []), rows), "", count + |rows|)
  {
    assert rows[0] in rows;
    RowsTextFirst(rows, "");
    assert RowsText(rows) + "" == RowsText(rows);
    RowsAreParsed(r, ok, p, Group("", []), rows, "", count);
  }

  // ---------- the whole document ----------

  lemma NothingIsLeft(kind: Kind, p: Parser, count: nat)
    ensures Resuming(kind)(p, "", count) == Ok(p)
  {
  }

  lemma RowCountIsTotal(groups: seq<Group>)
    ensures RowCount(groups) == Total(groups)
  {
    if groups != [] {
      RowCountIsTotal(groups[..|groups| - 1]);
      RowCountSnoc(groups[..|groups| - 1], groups[|groups| - 1]);
      assert groups == groups[..|groups| - 1] + [groups[|groups| - 1]];
    }
  }

  lemma {:induction false} RowCountSnoc(groups: seq<Group>, g: Group)
    ensures RowCount(groups + [g]) == RowCount(groups) + |g.rows|
  {
    if groups == [] {
      assert groups + [g] == [g];
    } else {
      RowCountSnoc(groups[1..], g);
      assert (groups + [g])[1..] == groups[1..] + [g];
    }
  }

  lemma GroupsFitStart(kind: Kind, groups: seq<Group>)
    requires WellFormed(kind, groups) && Printable(kind, groups) && kind != Container
    ensures GroupsFit(Acceptable(kind), Named, Headed(kind), groups)
  {
    forall i | 0 <= i < |groups| ensures GroupFits(Acceptable(kind), Named, groups[i]) {
      assert groups[i] in groups && GroupPrintable(kind, groups[i]);
    }
  }

  lemma NamedBodyIsParsed(kind: Kind, groups: seq<Group>)
    requires WellFormed(kind, groups) && Printable(kind, groups) && kind != Container
    ensures Resuming(kind)(Headed(kind), BodyText(kind, groups), 1) == Ok(AllLoaded(Headed(kind), groups))
  {
    RowLawHolds(kind);
    FileLawHolds(kind);
    GroupsFitStart(kind, groups);
    RowCountIsTotal(groups);
    GroupLawHolds(kind, Resuming(kind), Acceptable(kind), Named);
    NamedGroupsAreParsed(Resuming(kind), Acceptable(kind), Named, Bodies(kind), Headed(kind), groups, 1);
    NothingIsLeft(kind, AllLoaded(Headed(kind), groups), 1 + Total(groups));
  }

  lemma UnnamedAreSame(groups: seq<Group>)
    requires |groups| >= 2 && forall g :: g in groups ==> g.sourceFile == ""
    ensures !Distinct(groups, FileOf())
  {
    assert groups[0] in groups && groups[1] in groups;
    assert FileOf()(groups[0]) == FileOf()(groups[1]);
  }

  lemma UnnamedBodyIsParsed(groups: seq<Group>) returns (p: Parser)
    requires WellFormed(Container, groups) && Printable(Container, groups)
    ensures Resuming(Container)(Headed(Container), BodyText(Container, groups), 1) == Ok(p)
    ensures p == Headed(Container).(groups := groups, ids := p.ids)
  {
    assert forall g :: g in groups ==> GroupPrintable(Container, g);
    if |groups| >= 2 { UnnamedAreSame(groups); }
    if groups == [] {
      p := Headed(Container);
      NothingIsLeft(Container, p, 1);
    } else {
      var rows := groups[0].rows;
      assert groups == [groups[0]] && groups[0] in groups;
      assert GroupPrintable(Container, groups[0]) && groups[0] == Group("", rows);
      UnnamedText(rows);
      RowLawHolds(Container);
      UnnamedLawHoldsAt(Headed(Container), rows[0], RowsText(rows[1..]) + "", 1);
      UnnamedGroupIsParsed(Resuming(Container), Acceptable(Container), Headed(Container), rows, 1);
      p := Extended(Headed(Container), Group("", []), rows);
      assert [] + rows == rows && [] + [groups[0]] == groups;
      NothingIsLeft(Container, p, 1 + |rows|);
    }
  }

  lemma UnnamedText(rows: seq<Row>)
    ensures BodyText(Container, [Group("", rows)]) == RowsText(rows)
  {
  }

  /** The text printed for groups in the order given. */
  function DocumentText(kind: Kind, groups: seq<Group>): string {
    HeadText(kind) + BodyText(kind, groups)
  }

  /** The parser state a document must end in. */
  predicate Read(kind: Kind, groups: seq<Group>, p: Parser) {
    p.header && p.schema == Some(SchemaVersion(kind)) && p.coverage == Some(KindName(kind)) && p.groups == groups
  }

  lemma BodyIsParsed(kind: Kind, groups: seq<Group>) returns (p: Parser)
    requires WellFormed(kind, groups) && Printable(kind, groups)
    ensures Resuming(kind)(Headed(kind), BodyText(kind, groups), 1) == Ok(p) && Read(kind, groups, p)
  {
    if kind == Container {
      p := UnnamedBodyIsParsed(groups);
    } else {
      NamedBodyIsParsed(kind, groups);
      p := AllLoaded(Headed(kind), groups);
      AllLoadedGroups(Headed(kind), groups);
      assert [] + groups == groups;
    }
  }

  lemma DocumentIsParsed(kind: Kind, p0: Parser, headed: Parser, text: string, body: string, count: nat, next: nat, p: Parser)
    requires headed == WithHead(kind, p0) && next == count + 1
    requires !p0.header && p0.groups == [] && p0.schema.None? && p0.coverage.None? && count < MAX_RECORDS
    requires text == HeadText(kind) + body
    requires Resuming(kind)(headed, body, next) == Ok(p)
    ensures Resuming(kind)(p0, text, count) == Ok(p)
  {
    HeadIsParsed(kind, p0, body, count);
  }

  lemma ReadIsComplete(kind: Kind, groups: seq<Group>, p: Parser)
    requires WellFormed(kind, groups) && Read(kind, groups, p)
    ensures Complete(kind, p)
  {
    forall i | 0 <= i < |groups| ensures groups[i].rows != [] { assert groups[i] in groups; }
  }

  lemma ResumedDocument(kind: Kind, start: Parser, text: string, count: nat, groups: seq<Group>, p: Parser)
    requires start == START && count == 0
    requires Resuming(kind)(start, text, count) == Ok(p) && Bytes(text) <= MAX_BYTES
    requires Read(kind, groups, p) && Complete(kind, p)
    ensures Parse(kind, text) == Ok(groups)
  {
  }

  lemma StartIsFresh(kind: Kind)
    ensures !START.header && START.groups == [] && START.schema.None? && START.coverage.None?
    ensures WithHead(kind, START) == Headed(kind)
  {
  }

  /** A document whose body is read to the end is parsed. */
  lemma BodyEndsDocument(kind: Kind, text: string, body: string, headed: Parser, one: nat, groups: seq<Group>, p: Parser)
    requires text == HeadText(kind) + body && Bytes(text) <= MAX_BYTES && headed == Headed(kind) && one == 1
    requires Resuming(kind)(headed, body, one) == Ok(p) && Read(kind, groups, p) && Complete(kind, p)
    ensures Parse(kind, text) == Ok(groups)
  {
    var start, none: nat := START, 0;
    StartIsFresh(kind);
    DocumentIsParsed(kind, start, headed, text, body, none, one, p);
    ResumedDocument(kind, start, text, none, groups, p);
  }

  /** A printed document of any kind is parsed back to the groups printed. */
  lemma PrintedIsParsed(kind: Kind, groups: seq<Group>, text: string)
    requires WellFormed(kind, groups) && Printable(kind, groups)
    requires text == DocumentText(kind, groups) && Bytes(text) <= MAX_BYTES
    ensures Parse(kind, text) == Ok(groups)
  {
    var p := BodyIsParsed(kind, groups);
    ReadIsComplete(kind, groups, p);
    BodyEndsDocument(kind, text, BodyText(kind, groups), Headed(kind), 1, groups, p);
  }
}
