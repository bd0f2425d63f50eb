/** Exactly when formatting and parsing give a document back in order. */
module ExclusionsExact {
  import opened Wrappers
  import opened Text
  import opened CsvText
  import opened CsvLines
  import opened CsvRows
  import opened CsvScan
  import opened CsvSafe
  import opened ExclusionsCsv
  import opened ExclusionsFormat
  import opened ExclusionsReparse
  import opened ExclusionsRoundTrip

  // ---------- parsing only adds ----------

  /** Closed groups stay, the current group keeps its name and its rows. */
  predicate Later(p: Parser, q: Parser) {
    && (p.header ==> q.header)
    && |p.groups| <= |q.groups|
    && (forall j :: 0 <= j < |p.groups| - 1 ==> q.groups[j] == p.groups[j])
    && (p.groups != [] ==>
          var c := |p.groups| - 1;
          q.groups[c].sourceFile == p.groups[c].sourceFile && p.groups[c].rows <= q.groups[c].rows)
  }

  lemma TakeIsLater(kind: Kind, p: Parser, item: Item)
    requires Take(kind, p, item).Ok?
    ensures Later(p, Take(kind, p, item).value)
  {
    match item
    case Meta(key, value) =>
    case Record(text) => RowIsLater(kind, p, ReadRow(text).value);
  }

  lemma RowIsLater(kind: Kind, p: Parser, row: Row)
    requires TakeRow(kind, p, row).Ok?
    ensures Later(p, TakeRow(kind, p, row).value)
  {
  }

  lemma {:induction false} TakeAllIsLater(kind: Kind, p: Parser, items: seq<Item>)
    requires TakeAll(kind, p, items).Ok?
    ensures Later(p, TakeAll(kind, p, items).value)
    decreases |items|
  {
    if items != [] {
      TakeIsLater(kind, p, items[0]);
      TakeAllIsLater(kind, Take(kind, p, items[0]).value, items[1..]);
    }
  }

  lemma OpenedGroupCloses(p: Parser, key: string, value: string)
    requires p.header && p.groups != [] && TakeMeta(p, key, value).Ok?
    ensures var q := TakeMeta(p, key, value).value; var c := |p.groups| - 1;
            |q.groups| == |p.groups| + 1 && q.groups[c] == p.groups[c]
  {
  }

  /** If the current group ends up with one more row next, the next item is a record of that row. */
  lemma NextIsRow(kind: Kind, p: Parser, items: seq<Item>, final: Parser, row: Row)
    requires p.header && p.groups != [] && TakeAll(kind, p, items) == Ok(final)
    requires var c := |p.groups| - 1; c < |final.groups| && p.groups[c].rows + [row] <= final.groups[c].rows
    ensures items != [] && items[0].Record? && ReadRow(items[0].text) == Ok(row)
  {
    var c := |p.groups| - 1;
    var rows := p.groups[c].rows;
    assert (rows + [row])[|rows|] == row == final.groups[c].rows[|rows|];
    if items != [] {
      var q := Take(kind, p, items[0]).value;
      TakeAllIsLater(kind, q, items[1..]);
      if items[0].Meta? {
        OpenedGroupCloses(p, items[0].key, items[0].value);
      } else {
        AddedRow(kind, p, ReadRow(items[0].text).value);
        assert q.groups[c].rows[|rows|] == ReadRow(items[0].text).value;
      }
    }
  }

  lemma AddedRow(kind: Kind, p: Parser, row: Row)
    requires p.header && p.groups != [] && TakeRow(kind, p, row).Ok?
    ensures var q := TakeRow(kind, p, row).value; var c := |p.groups| - 1;
            |q.groups| == |p.groups| && q.groups[c].rows == p.groups[c].rows + [row]
  {
  }

  lemma UnnamedOpens(p: Parser, row: Row)
    requires p.header && p.groups == [] && TakeRow(Container, p, row).Ok?
    ensures TakeRow(Container, p, row).value.groups == [Group("", [row])]
  {
    assert [] + [row] == [row] && WithRow(Group("", []), row) == Group("", [row]);
    assert [Group("", [])][..0] + [Group("", [row])] == [Group("", [row])];
  }

  /** The first record of a container file opens the unnamed group. */
  lemma FirstIsUnnamed(p: Parser, items: seq<Item>, final: Parser)
    requires p.header && p.groups == [] && TakeAll(Container, p, items) == Ok(final)
    requires items != [] && items[0].Record?
    ensures final.groups != [] && final.groups[0].sourceFile == "" && final.groups[0].rows != []
    ensures ReadRow(items[0].text) == Ok(final.groups[0].rows[0])
  {
    var row := ReadRow(items[0].text).value;
    UnnamedOpens(p, row);
    TakeAllIsLater(Container, TakeRow(Container, p, row).value, items[1..]);
  }

  // ---------- text that starts a record ----------

  lemma StartedIsRecord(x: string, count: nat)
    requires x != "" && Starts(FirstLine(x)) && Rest(x, count).Ok?
    ensures Rest(x, count).value != [] && Rest(x, count).value[0].Record?
  {
    var lines := SplitLines(x);
    JoinOfSplit(x);
    ProperTail(lines);
    assert "" + lines[0] == lines[0];
    if Parity(lines[0], false) { var p := RecordGrows(lines[1..], lines[0], true, count); }
  }

  lemma RowLeads(kind: Kind, row: Row)
    requires RowOk(kind, row)
    ensures |row| >= 5 && LStrip(row[0]) != ""
  {
    if kind == Container {
      assert row[0] == "instance" || row[0] == "covergroup" || row[0] == "coverpoint" || row[0] == "cross";
      assert !IsSpace(row[0][0]);
    }
  }

  lemma WordCharShows(c: char)
    requires WordChar(c)
    ensures !IsSpace(c) && c != '#'
  {
  }

  lemma RowHeadParts(field: string, more: string, rest: string)
    requires field != ""
    ensures field + "," + more + "\n" + rest == "" + [field[0]] + (field[1..] + "," + more + "\n" + rest)
  {
    assert field == [field[0]] + field[1..];
  }

  lemma ContainerRowStarts(row: Row, rest: string)
    requires RowOk(Container, row)
    ensures Starts(FirstLine(RowText(row) + "\n" + rest))
  {
    TargetKindIsWord(row);
    var field, more := row[0], RowText(row[1..]);
    PlainWordIsTight(field);
    WordCharShows(field[0]);
    RowTextFirst(row);
    RowHeadParts(field, more, rest);
    VisibleStarts(RowText(row) + "\n" + rest, "", field[0], field[1..] + "," + more + "\n" + rest);
  }

  lemma TargetKindIsWord(row: Row)
    requires RowOk(Container, row)
    ensures PlainWord(row[0])
  {
    assert PlainWord("instance") && PlainWord("covergroup") && PlainWord("coverpoint") && PlainWord("cross");
  }

  // ---------- printed text is tidy ----------

  lemma {:induction false} TidyRows(rows: seq<Row>, rest: string)
    requires (forall row :: row in rows ==> row != []) && Tidy(rest)
    ensures Tidy(RowsText(rows) + rest)
  {
    if rows == [] {
      assert RowsText(rows) + rest == rest;
    } else {
      assert rows[0] in rows;
      forall row | row in rows[1..] ensures row != [] { assert row in rows; }
      TidyRows(rows[1..], rest);
      RowsTextFirst(rows, rest);
      TidyRow(rows[0], RowsText(rows[1..]) + rest);
    }
  }

  lemma HeadLines(kind: Kind, name: string, rest: string)
    requires kind != Container
    ensures GroupHead(kind, name) + rest == "" + "\n" + ("# source_file=" + name + "\n" + rest)
  {
    assert "# " + "source_file" + "=" == "# source_file=";
  }

  lemma TidyHead(kind: Kind, name: string, rest: string)
    requires NoBreak(name) && Tidy(rest)
    ensures Tidy(GroupHead(kind, name) + rest)
  {
    if kind != Container {
      var a := "# source_file=" + name;
      NameLine(name);
      TidyLine(a, rest);
      TidyLine("", a + "\n" + rest);
      HeadLines(kind, name, rest);
    } else {
      assert GroupHead(kind, name) + rest == rest;
    }
  }

  lemma NameLine(name: string)
    requires NoBreak(name)
    ensures NoBreak("# source_file=" + name)
  {
    var a := "# source_file=";
    assert NoBreak(a);
    forall k | 0 <= k < |a + name| ensures !IsBreak((a + name)[k]) {
      if k < |a| { assert (a + name)[k] == a[k]; } else { assert (a + name)[k] == name[k - |a|]; }
    }
  }

  lemma {:induction false} TidyBody(kind: Kind, groups: seq<Group>)
    requires forall g :: g in groups ==> NoBreak(g.sourceFile) && forall row :: row in g.rows ==> row != []
    ensures Tidy(BodyText(kind, groups))
  {
    if groups != [] {
      assert groups[0] in groups;
      TidyBody(kind, groups[1..]);
      TidyRows(groups[0].rows, BodyText(kind, groups[1..]));
      TidyHead(kind, groups[0].sourceFile, RowsText(groups[0].rows) + BodyText(kind, groups[1..]));
    }
  }

  // ---------- rows that are read back were safe ----------

  lemma ResumeScans(kind: Kind, p: Parser, x: string, count: nat, final: Parser)
    requires Resuming(kind)(p, x, count) == Ok(final)
    ensures Rest(x, count).Ok? && TakeAll(kind, p, Rest(x, count).value) == Ok(final)
  {
  }

  lemma ReadRowIsRows(text: string, row: Row)
    requires ReadRow(text) == Ok(row)
    ensures Rows(text) == Some([row])
  {
    assert Rows(text).value == [row];
  }

  /** The next row of the current group, read back, was safe. */
  lemma NextRowIsSafe(kind: Kind, p: Parser, row: Row, rest: string, x: string, count: nat, final: Parser)
    requires p.header && p.groups != [] && RowOk(kind, row) && x == RowText(row) + "\n" + rest && Tidy(x)
    requires Resuming(kind)(p, x, count) == Ok(final)
    requires var c := |p.groups| - 1; c < |final.groups| && p.groups[c].rows + [row] <= final.groups[c].rows
    ensures RowSafe(row)
  {
    ResumeScans(kind, p, x, count, final);
    var items := Rest(x, count).value;
    NextIsRow(kind, p, items, final, row);
    ReadRowIsRows(items[0].text, row);
    RowLeads(kind, row);
    ReadRowIsSafe(row, rest, count, items[0].text, x);
  }

  lemma NextInGroupIsSafe(kind: Kind, p: Parser, g: Group, q: Parser, row: Row, rest: string, x: string, count: nat, final: Parser)
    requires p.header && q == p.(groups := p.groups + [g])
    requires RowOk(kind, row) && x == RowText(row) + "\n" + rest && Tidy(x)
    requires Resuming(kind)(q, x, count) == Ok(final)
    requires |p.groups| < |final.groups| && g.rows + [row] <= final.groups[|p.groups|].rows
    ensures RowSafe(row)
  {
    NextRowIsSafe(kind, q, row, rest, x, count, final);
  }

  function RowIsOk(kind: Kind): Row -> bool {
    row => RowOk(kind, row)
  }

  /** The row is next in its group, and what is parsed in the end has it there. */
  predicate EndsNext(r: Resumer, p: Parser, g: Group, row: Row, rest: string, count: nat, final: Parser) {
    && p.header
    && r(p.(groups := p.groups + [g]), RowText(row) + "\n" + rest, count) == Ok(final)
    && |p.groups| < |final.groups|
    && g.rows + [row] <= final.groups[|p.groups|].rows
  }

  ghost predicate SafeLawAt(r: Resumer, fine: Row -> bool, safe: Row -> bool, p: Parser, g: Group, row: Row, rest: string, count: nat, final: Parser) {
    fine(row) && Tidy(RowText(row) + "\n" + rest) && EndsNext(r, p, g, row, rest, count, final) ==> safe(row)
  }

  /** With a resumer, every row that ends up next in its group is safe. */
  ghost predicate SafeLaw(r: Resumer, fine: Row -> bool, safe: Row -> bool) {
    forall p: Parser, g: Group, row: Row, rest: string, count: nat, final: Parser :: SafeLawAt(r, fine, safe, p, g, row, rest, count, final)
  }

  lemma SafeLawHoldsAt(kind: Kind, p: Parser, g: Group, row: Row, rest: string, count: nat, final: Parser)
    ensures SafeLawAt(Resuming(kind), RowIsOk(kind), RowSafe, p, g, row, rest, count, final)
  {
    if RowOk(kind, row) && Tidy(RowText(row) + "\n" + rest) && EndsNext(Resuming(kind), p, g, row, rest, count, final) {
      NextInGroupIsSafe(kind, p, g, p.(groups := p.groups + [g]), row, rest, RowText(row) + "\n" + rest, count, final);
    }
  }

  lemma SafeLawHolds(kind: Kind)
    ensures SafeLaw(Resuming(kind), RowIsOk(kind), RowSafe)
  {
    forall p: Parser, g: Group, row: Row, rest: string, count: nat, final: Parser
      ensures SafeLawAt(Resuming(kind), RowIsOk(kind), RowSafe, p, g, row, rest, count, final)
    {
      SafeLawHoldsAt(kind, p, g, row, rest, count, final);
    }
  }

  lemma PrefixOne(a: seq<Row>, row: Row, more: seq<Row>, b: seq<Row>)
    requires a + ([row] + more) <= b
    ensures a + [row] <= b && (a + [row]) + more <= b
  {
    assert a + [row] + more == a + ([row] + more);
    assert a + [row] == (a + ([row] + more))[..|a| + 1];
  }

  /** What is known of a resumer and of rows. */
  ghost predicate Laws(r: Resumer, ok: Row -> bool, fine: Row -> bool, safe: Row -> bool) {
    RowLaw(r, ok) && SafeLaw(r, fine, safe) && forall row: Row :: fine(row) && safe(row) ==> ok(row)
  }

  lemma LawsHold(kind: Kind)
    ensures Laws(Resuming(kind), Acceptable(kind), RowIsOk(kind), RowSafe)
  {
    RowLawHolds(kind);
    SafeLawHolds(kind);
  }

  predicate All(rows: seq<Row>, safe: Row -> bool) {
    forall row :: row in rows ==> safe(row)
  }

  lemma AllCons(row: Row, more: seq<Row>, safe: Row -> bool)
    requires safe(row) && All(more, safe)
    ensures All([row] + more, safe)
  {
  }

  /** One row: it is safe, and parsing goes on behind it. */
  lemma RowMustBeSafe(r: Resumer, ok: Row -> bool, fine: Row -> bool, safe: Row -> bool,
                      p: Parser, g: Group, row: Row, rest: string, count: nat, final: Parser)
    requires Laws(r, ok, fine, safe)
    requires fine(row) && row != [] && Identity(g.sourceFile, row) !in p.ids && count < MAX_RECORDS
    requires Tidy(RowText(row) + "\n" + rest) && EndsNext(r, p, g, row, rest, count, final)
    ensures safe(row)
    ensures r(p.(groups := p.groups + [WithRow(g, row)], ids := p.ids + {Identity(g.sourceFile, row)}), rest, count + 1) == Ok(final)
  {
    assert SafeLawAt(r, fine, safe, p, g, row, rest, count, final);
    assert RowLawAt(r, ok, p, g, row, rest, count);
  }

  /** Rows that end up in the current group are all safe. */
  lemma {:induction false} RowsMustBeSafe(r: Resumer, ok: Row -> bool, fine: Row -> bool, safe: Row -> bool,
                                          p: Parser, g: Group, rows: seq<Row>, rest: string, count: nat, final: Parser)
    requires Laws(r, ok, fine, safe) && Tidy(rest)
    requires p.header && Addable(fine, p, g.sourceFile, rows) && count + |rows| <= MAX_RECORDS
    requires r(p.(groups := p.groups + [g]), RowsText(rows) + rest, count) == Ok(final)
    requires |p.groups| < |final.groups| && g.rows + rows <= final.groups[|p.groups|].rows
    ensures All(rows, safe)
    decreases |rows|
  {
    if rows != [] {
      var row, more := rows[0], rows[1..];
      assert row in rows && rows == [row] + more;
      var p' := p.(ids := p.ids + {Identity(g.sourceFile, row)});
      RowsTextFirst(rows, rest);
      TidyRows(rows, rest);
      PrefixOne(g.rows, row, more, final.groups[|p.groups|].rows);
      RowMustBeSafe(r, ok, fine, safe, p, g, row, RowsText(more) + rest, count, final);
      AddableMore(fine, p, g.sourceFile, rows, p');
      RowsMustBeSafe(r, ok, fine, safe, p', WithRow(g, row), more, rest, count + 1, final);
      AllCons(row, more, safe);
    }
  }

  // ---------- groups ----------

  lemma AddableSafe(fine: Row -> bool, safe: Row -> bool, ok: Row -> bool, p: Parser, name: string, rows: seq<Row>)
    requires Addable(fine, p, name, rows) && All(rows, safe) && forall row: Row :: fine(row) && safe(row) ==> ok(row)
    ensures Addable(ok, p, name, rows)
  {
  }

  /** A named group: its rows are safe, and parsing goes on behind it. */
  lemma GroupMustBeSafe(r: Resumer, ok: Row -> bool, fine: Row -> bool, safe: Row -> bool, named: string -> bool,
                        p: Parser, g: Group, rest: string, count: nat, final: Parser)
    requires Laws(r, ok, fine, safe) && FileLaw(r, named) && Tidy(rest)
    requires p.header && IdsInFiles(p) && GroupFits(fine, named, g) && g.sourceFile !in p.files && count + |g.rows| <= MAX_RECORDS
    requires r(p, "\n" + MetaText("source_file", g.sourceFile) + (RowsText(g.rows) + rest), count) == Ok(final)
    requires |p.groups| < |final.groups| && final.groups[|p.groups|] == g
    ensures All(g.rows, safe) && r(Loaded(p, g), rest, count + |g.rows|) == Ok(final)
  {
    assert FileLawAt(r, named, p, g.sourceFile, RowsText(g.rows) + rest, count);
    var q := p.(files := p.files + {g.sourceFile});
    var empty := Group(g.sourceFile, []);
    GroupIsAddable(fine, named, p, g);
    assert [] + g.rows == g.rows;
    RowsMustBeSafe(r, ok, fine, safe, q, empty, g.rows, rest, count, final);
    AddableSafe(fine, safe, ok, q, g.sourceFile, g.rows);
    RowsAreParsed(r, ok, q, empty, g.rows, rest, count);
    OpenedExtended(p, g);
  }

  predicate GroupsSafe(groups: seq<Group>, safe: Row -> bool) {
    forall g :: g in groups ==> All(g.rows, safe)
  }

  lemma GroupsSafeCons(groups: seq<Group>, safe: Row -> bool)
    requires groups != [] && All(groups[0].rows, safe) && GroupsSafe(groups[1..], safe)
    ensures GroupsSafe(groups, safe)
  {
    forall g | g in groups ensures All(g.rows, safe) {
      if g != groups[0] { assert g in groups[1..]; }
    }
  }

  ghost predicate TidyTails(kind: Kind, groups: seq<Group>) {
    forall i :: 0 <= i <= |groups| ==> Tidy(BodyText(kind, groups[i..]))
  }

  lemma TidyTailsMore(kind: Kind, groups: seq<Group>)
    requires TidyTails(kind, groups) && groups != []
    ensures Tidy(BodyText(kind, groups[1..])) && TidyTails(kind, groups[1..])
  {
    forall i | 0 <= i <= |groups[1..]| ensures Tidy(BodyText(kind, groups[1..][i..])) {
      assert groups[1..][i..] == groups[i + 1..];
    }
  }

  lemma BodyFirst(kind: Kind, groups: seq<Group>)
    requires groups != [] && kind != Container
    ensures BodyText(kind, groups)
            == "\n" + MetaText("source_file", groups[0].sourceFile) + (RowsText(groups[0].rows) + BodyText(kind, groups[1..]))
  {
  }

  lemma ReadyFirst(fine: Row -> bool, named: string -> bool, p: Parser, groups: seq<Group>, count: nat)
    requires Ready(fine, named, p, groups, count) && groups != []
    ensures p.header && IdsInFiles(p) && GroupFits(fine, named, groups[0]) && groups[0].sourceFile !in p.files
    ensures count + |groups[0].rows| <= MAX_RECORDS
  {
  }

  lemma TextMustBeSafe(r: Resumer, ok: Row -> bool, fine: Row -> bool, safe: Row -> bool, named: string -> bool,
                       p: Parser, g: Group, text: string, rest: string, count: nat, final: Parser)
    requires Laws(r, ok, fine, safe) && FileLaw(r, named) && Tidy(rest)
    requires p.header && IdsInFiles(p) && GroupFits(fine, named, g) && g.sourceFile !in p.files && count + |g.rows| <= MAX_RECORDS
    requires text == "\n" + MetaText("source_file", g.sourceFile) + (RowsText(g.rows) + rest)
    requires r(p, text, count) == Ok(final)
    requires |p.groups| < |final.groups| && final.groups[|p.groups|] == g
    ensures All(g.rows, safe) && r(Loaded(p, g), rest, count + |g.rows|) == Ok(final)
  {
    GroupMustBeSafe(r, ok, fine, safe, named, p, g, rest, count, final);
  }

  lemma GroupsShift(done: seq<Group>, groups: seq<Group>, all: seq<Group>)
    requires groups != [] && all == done + groups
    ensures |done| < |all| && all[|done|] == groups[0] && all == (done + [groups[0]]) + groups[1..]
  {
  }

  /** Named groups that end up in the document have safe rows. */
  lemma {:induction false} GroupsMustBeSafe(kind: Kind, r: Resumer, ok: Row -> bool, fine: Row -> bool, safe: Row -> bool, named: string -> bool,
                                            p: Parser, groups: seq<Group>, count: nat, final: Parser)
    requires kind != Container && Laws(r, ok, fine, safe) && FileLaw(r, named) && TidyTails(kind, groups)
    requires Ready(fine, named, p, groups, count)
    requires r(p, BodyText(kind, groups), count) == Ok(final) && final.groups == p.groups + groups
    ensures GroupsSafe(groups, safe)
    decreases |groups|
  {
    if groups != [] {
      TidyTailsMore(kind, groups);
      GroupsShift(p.groups, groups, final.groups);
      ReadyFirst(fine, named, p, groups, count);
      BodyFirst(kind, groups);
      TextMustBeSafe(r, ok, fine, safe, named, p, groups[0], BodyText(kind, groups), BodyText(kind, groups[1..]), count, final);
      ReadyMore(fine, named, p, groups, count);
      GroupsMustBeSafe(kind, r, ok, fine, safe, named, Loaded(p, groups[0]), groups[1..], count + |groups[0].rows|, final);
      GroupsSafeCons(groups, safe);
    }
  }

  // ---------- container files ----------

  /** A container file's first row opens the unnamed group, so the first group has no name. */
  lemma FirstGroupIsUnnamed(p: Parser, row: Row, rest: string, x: string, count: nat, final: Parser)
    requires p.header && p.groups == [] && RowOk(Container, row) && x == RowText(row) + "\n" + rest && Tidy(x)
    requires Resuming(Container)(p, x, count) == Ok(final)
    requires final.groups != [] && final.groups[0].rows != [] ==> final.groups[0].rows[0] == row
    ensures RowSafe(row) && final.groups != [] && final.groups[0].sourceFile == ""
  {
    ResumeScans(Container, p, x, count, final);
    ContainerRowStarts(row, rest);
    StartedIsRecord(x, count);
    var items := Rest(x, count).value;
    FirstIsUnnamed(p, items, final);
    ReadRowIsRows(items[0].text, row);
    RowLeads(Container, row);
    ReadRowIsSafe(row, rest, count, items[0].text, x);
  }

  /** A row more in the text of a container file is a row more in its group. */
  lemma GroupGoesOn(p: Parser, row: Row, rest: string, x: string, count: nat, final: Parser)
    requires p.header && |p.groups| == 1 && RowOk(Container, row) && x == RowText(row) + "\n" + rest
    requires Resuming(Container)(p, x, count) == Ok(final)
    ensures final.groups != [] && |p.groups[0].rows| < |final.groups[0].rows|
  {
    ResumeScans(Container, p, x, count, final);
    ContainerRowStarts(row, rest);
    StartedIsRecord(x, count);
    var items := Rest(x, count).value;
    var read := ReadRow(items[0].text).value;
    AddedRow(Container, p, read);
    TakeAllIsLater(Container, TakeRow(Container, p, read).value, items[1..]);
  }

  lemma FreshRows(kind: Kind, p: Parser, name: string, rows: seq<Row>)
    requires RowsOk(kind, rows) && p.ids == {}
    ensures Addable(RowIsOk(kind), p, name, rows)
  {
  }

  lemma ContainerText(groups: seq<Group>)
    requires groups != []
    ensures BodyText(Container, groups) == RowsText(groups[0].rows) + BodyText(Container, groups[1..])
  {
    var t := RowsText(groups[0].rows) + BodyText(Container, groups[1..]);
    assert "" + t == t;
  }

  lemma UnnamedRowsMustBeSafe(r: Resumer, ok: Row -> bool, fine: Row -> bool, safe: Row -> bool,
                              h: Parser, rows: seq<Row>, tail: string, count: nat, final: Parser)
    requires Laws(r, ok, fine, safe) && Tidy(tail)
    requires h.header && h.groups == [] && Addable(fine, h, "", rows) && count + |rows| <= MAX_RECORDS
    requires r(h.(groups := h.groups + [Group("", [])]), RowsText(rows) + tail, count) == Ok(final)
    requires final.groups != [] && final.groups[0].rows == rows
    ensures All(rows, safe) && r(Extended(h, Group("", []), rows), tail, count + |rows|) == Ok(final)
  {
    var g := Group("", []);
    assert [] + rows == rows;
    RowsMustBeSafe(r, ok, fine, safe, h, g, rows, tail, count, final);
    AddableSafe(fine, safe, ok, h, "", rows);
    RowsAreParsed(r, ok, h, g, rows, tail, count);
  }

  lemma UnnamedGroupOpens(h: Parser, rows: seq<Row>, tail: string, count: nat, final: Parser)
    requires h.header && h.groups == [] && h.ids == {} && RowsOk(Container, rows) && count < MAX_RECORDS && Tidy(tail)
    requires Resuming(Container)(h, RowsText(rows) + tail, count) == Ok(final)
    requires final.groups != [] && final.groups[0].rows == rows
    ensures final.groups[0].sourceFile == ""
    ensures Resuming(Container)(h.(groups := h.groups + [Group("", [])]), RowsText(rows) + tail, count) == Ok(final)
  {
    var row, rest := rows[0], RowsText(rows[1..]) + tail;
    assert row in rows;
    RowsTextFirst(rows, tail);
    TidyRows(rows, tail);
    FirstGroupIsUnnamed(h, row, rest, RowText(row) + "\n" + rest, count, final);
    UnnamedLawHoldsAt(h, row, rest, count);
  }

  lemma UnnamedMustBeSafe(h: Parser, rows: seq<Row>, tail: string, count: nat, final: Parser) returns (p: Parser)
    requires h.header && h.groups == [] && h.ids == {} && RowsOk(Container, rows) && count + |rows| <= MAX_RECORDS && Tidy(tail)
    requires Resuming(Container)(h, RowsText(rows) + tail, count) == Ok(final)
    requires final.groups != [] && final.groups[0].rows == rows
    ensures All(rows, RowSafe) && final.groups[0].sourceFile == ""
    ensures p.header && p.groups == [Group("", rows)]
    ensures Resuming(Container)(p, tail, count + |rows|) == Ok(final)
  {
    UnnamedGroupOpens(h, rows, tail, count, final);
    LawsHold(Container);
    FreshRows(Container, h, "", rows);
    UnnamedRowsMustBeSafe(Resuming(Container), Acceptable(Container), RowIsOk(Container), RowSafe, h, rows, tail, count, final);
    p := Extended(h, Group("", []), rows);
    assert [] + rows == rows && [] + [Group("", rows)] == [Group("", rows)];
  }

  lemma NoSecondGroup(p: Parser, groups: seq<Group>, count: nat, final: Parser)
    requires p.header && |p.groups| == 1 && groups != [] && RowsOk(Container, groups[0].rows)
    requires Resuming(Container)(p, BodyText(Container, groups), count) == Ok(final)
    ensures final.groups != [] && |p.groups[0].rows| < |final.groups[0].rows|
  {
    var rows, tail := groups[0].rows, BodyText(Container, groups[1..]);
    ContainerText(groups);
    RowsTextFirst(rows, tail);
    assert rows[0] in rows;
    GroupGoesOn(p, rows[0], RowsText(rows[1..]) + tail, RowText(rows[0]) + "\n" + (RowsText(rows[1..]) + tail), count, final);
  }

  lemma TailsAreTidy(kind: Kind, groups: seq<Group>)
    requires WellFormed(kind, groups)
    ensures TidyTails(kind, groups)
  {
    forall i | 0 <= i <= |groups| ensures Tidy(BodyText(kind, groups[i..])) {
      forall g | g in groups[i..] ensures NoBreak(g.sourceFile) && forall row :: row in g.rows ==> row != [] { assert g in groups; }
      TidyBody(kind, groups[i..]);
    }
  }

  /** A container document that is parsed back has safe rows and no named group. */
  lemma ContainerMustBeSafe(groups: seq<Group>, final: Parser)
    requires WellFormed(Container, groups) && final.groups == groups
    requires Resuming(Container)(Headed(Container), BodyText(Container, groups), 1) == Ok(final)
    ensures GroupsSafe(groups, RowSafe) && forall g :: g in groups ==> g.sourceFile == ""
  {
    if groups != [] {
      var rows, tail := groups[0].rows, BodyText(Container, groups[1..]);
      assert groups[0] in groups;
      TailsAreTidy(Container, groups);
      TidyTailsMore(Container, groups);
      RowCountIsTotal(groups);
      ContainerText(groups);
      var p := UnnamedMustBeSafe(Headed(Container), rows, tail, 1, final);
      if |groups| > 1 {
        assert groups[1..][0] in groups;
        NoSecondGroup(p, groups[1..], 1 + |rows|, final);
      }
    }
  }

  lemma GroupsStart(kind: Kind, groups: seq<Group>)
    requires WellFormed(kind, groups) && kind != Container
    ensures Ready(RowIsOk(kind), Named, Headed(kind), groups, 1)
  {
    forall i | 0 <= i < |groups| ensures GroupFits(RowIsOk(kind), Named, groups[i]) { assert groups[i] in groups; }
    RowCountIsTotal(groups);
  }

  /** A document that is parsed back has safe rows, and no named group if it is a container document. */
  lemma DocumentMustBeSafe(kind: Kind, groups: seq<Group>, final: Parser)
    requires WellFormed(kind, groups) && final.groups == groups
    requires Resuming(kind)(Headed(kind), BodyText(kind, groups), 1) == Ok(final)
    ensures GroupsSafe(groups, RowSafe) && (kind == Container ==> forall g :: g in groups ==> g.sourceFile == "")
  {
    if kind == Container {
      ContainerMustBeSafe(groups, final);
    } else {
      LawsHold(kind);
      FileLawHolds(kind);
      TailsAreTidy(kind, groups);
      GroupsStart(kind, groups);
      assert [] + groups == groups;
      GroupsMustBeSafe(kind, Resuming(kind), Acceptable(kind), RowIsOk(kind), RowSafe, Named, Headed(kind), groups, 1, final);
    }
  }

  // ---------- exactly when ----------

  lemma ParseResumes(kind: Kind, groups: seq<Group>, text: string) returns (final: Parser)
    requires Parse(kind, text) == Ok(groups)
    ensures Bytes(text) <= MAX_BYTES && final.groups == groups && Resuming(kind)(START, text, 0) == Ok(final)
  {
    final := TakeAll(kind, START, Rest(text, 0).value).value;
  }

  lemma BehindHead(kind: Kind, p: Parser, text: string, body: string, count: nat, final: Parser)
    requires !p.header && p.groups == [] && p.schema.None? && p.coverage.None? && count < MAX_RECORDS
    requires text == HeadText(kind) + body && Resuming(kind)(p, text, count) == Ok(final)
    ensures Resuming(kind)(WithHead(kind, p), body, count + 1) == Ok(final)
  {
    HeadIsParsed(kind, p, body, count);
  }

  lemma StartBehindHead(kind: Kind, text: string, body: string, final: Parser)
    requires text == HeadText(kind) + body && Resuming(kind)(START, text, 0) == Ok(final)
    ensures Resuming(kind)(Headed(kind), body, 1) == Ok(final)
  {
    BehindHead(kind, START, text, body, 0, final);
  }

  lemma ParsedDocument(kind: Kind, groups: seq<Group>, text: string) returns (final: Parser)
    requires text == DocumentText(kind, groups) && Parse(kind, text) == Ok(groups)
    ensures Bytes(text) <= MAX_BYTES && final.groups == groups
    ensures Resuming(kind)(Headed(kind), BodyText(kind, groups), 1) == Ok(final)
  {
    final := ParseResumes(kind, groups, text);
    StartBehindHead(kind, text, BodyText(kind, groups), final);
  }

  lemma SafeBefore(kind: Kind, groups: seq<Group>, g: Group)
    requires g in groups && GroupsSafe(Sorted(kind, groups), RowSafe)
    ensures All(g.rows, RowSafe) && exists h :: h in Sorted(kind, groups) && h.sourceFile == g.sourceFile
  {
    SortedMeans(kind, groups);
    var h :| h in Sorted(kind, groups) && h.sourceFile == g.sourceFile && multiset(h.rows) == multiset(g.rows);
    forall row | row in g.rows ensures RowSafe(row) {
      assert row in multiset(h.rows);
      assert row in h.rows;
    }
  }

  /** If the formatted document is parsed back in order, the document was printable. */
  lemma PrintableOnly(kind: Kind, groups: seq<Group>)
    requires WellFormed(kind, groups) && Format(kind, groups).Some?
    requires Parse(kind, Format(kind, groups).value) == Ok(Sorted(kind, groups))
    ensures Printable(kind, groups)
  {
    SortedIsWellFormed(kind, groups);
    var sorted := Sorted(kind, groups);
    var final := ParsedDocument(kind, sorted, Format(kind, groups).value);
    DocumentMustBeSafe(kind, sorted, final);
    forall g | g in groups ensures GroupPrintable(kind, g) { SafeBefore(kind, groups, g); }
  }

  /**
   For every parsed document: the formatted text parses to the document in order if and only if every
   row can be printed, no group of a container file has a name, and the text is within the byte budget.
   */
  lemma RoundTripIff(kind: Kind, text: string, groups: seq<Group>)
    requires Parse(kind, text) == Ok(groups)
    ensures (Format(kind, groups).Some? && Parse(kind, Format(kind, groups).value) == Ok(Sorted(kind, groups)))
            <==> (Printable(kind, groups) && Bytes(DocumentText(kind, Sorted(kind, groups))) <= MAX_BYTES)
  {
    ParsedIsWellFormed(kind, text);
    if Printable(kind, groups) {
      FormattedIsParsed(kind, text, groups);
      FormatIsText(kind, groups);
    } else if Format(kind, groups).Some? && Parse(kind, Format(kind, groups).value) == Ok(Sorted(kind, groups)) {
      PrintableOnly(kind, groups);
    }
  }
}
