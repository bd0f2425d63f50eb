/** Formatting a parsed document and parsing the result. */
module ExclusionsRoundTrip {
  import opened Wrappers
  import opened Text
  import opened KeySort
  import opened CsvText
  import opened CsvLines
  import opened ExclusionsCsv
  import opened ExclusionsFormat
  import opened ExclusionsReparse

  // ---------- what ordering a document keeps ----------

  lemma {:induction false} InsertTotal(g: Group, s: seq<Group>, key: Group -> Key)
    ensures Total(Insert(g, s, key)) == Total(s) + |g.rows|
    decreases |s|
  {
    if s == [] || KeyLe(key(s[|s| - 1]), key(g)) {
      assert (s + [g])[..|s|] == s;
    } else {
      InsertTotal(g, s[..|s| - 1], key);
      var r := Insert(g, s[..|s| - 1], key);
      assert (r + [s[|s| - 1]])[..|r|] == r;
    }
  }

  lemma {:induction false} SortTotal(s: seq<Group>, key: Group -> Key)
    ensures Total(Sort(s, key)) == Total(s)
    decreases |s|
  {
    if s != [] {
      SortTotal(s[..|s| - 1], key);
      InsertTotal(s[|s| - 1], Sort(s[..|s| - 1], key), key);
    }
  }

  lemma {:induction false} SameTotal(a: seq<Group>, b: seq<Group>)
    requires |a| == |b| && forall i :: 0 <= i < |a| ==> |a[i].rows| == |b[i].rows|
    ensures Total(a) == Total(b)
    decreases |a|
  {
    if a != [] { SameTotal(a[..|a| - 1], b[..|b| - 1]); }
  }

  /** A group with its rows in order holds the same rows. */
  lemma SortedGroupKeeps(kind: Kind, g: Group)
    ensures SortedGroup(kind, g).sourceFile == g.sourceFile && |SortedGroup(kind, g).rows| == |g.rows|
    ensures multiset(SortedGroup(kind, g).rows) == multiset(g.rows)
    ensures forall row :: row in SortedGroup(kind, g).rows <==> row in g.rows
    ensures Ordered(SortedGroup(kind, g).rows, ByKey(kind))
    ensures Distinct(g.rows, IdOf()) ==> Distinct(SortedGroup(kind, g).rows, IdOf())
  {
    SortOrders(g.rows, ByKey(kind));
    SortMembers(g.rows, ByKey(kind));
    if Distinct(g.rows, IdOf()) { SortKeepsDistinct(g.rows, ByKey(kind), IdOf()); }
  }

  lemma RowsStayOk(kind: Kind, g: Group)
    requires RowsOk(kind, g.rows)
    ensures RowsOk(kind, SortedGroup(kind, g).rows)
  {
    SortedGroupKeeps(kind, g);
  }

  /** Every group of the ordered document is a group of the document with its rows in order. */
  lemma SortedFrom(kind: Kind, groups: seq<Group>, i: nat)
    requires i < |Sorted(kind, groups)|
    ensures i < |Sort(groups, ByFile())| && Sort(groups, ByFile())[i] in groups
    ensures Sorted(kind, groups)[i] == SortedGroup(kind, Sort(groups, ByFile())[i])
  {
    SortMembers(groups, ByFile());
    assert Sort(groups, ByFile())[i] in Sort(groups, ByFile());
  }

  lemma NamesStayDistinct(kind: Kind, groups: seq<Group>)
    requires Distinct(groups, FileOf())
    ensures Distinct(SortedRows(kind, groups), FileOf())
  {
    var r := SortedRows(kind, groups);
    forall i, j | 0 <= i < j < |r| ensures FileOf()(r[i]) != FileOf()(r[j]) {
      assert FileOf()(groups[i]) != FileOf()(groups[j]);
    }
  }

  lemma SortedIsWellFormed(kind: Kind, groups: seq<Group>)
    requires WellFormed(kind, groups)
    ensures WellFormed(kind, Sorted(kind, groups))
  {
    var r := Sorted(kind, groups);
    forall g | g in r ensures RowsOk(kind, g.rows) && NameOk(kind, g.sourceFile) {
      var i :| 0 <= i < |r| && r[i] == g;
      SortedFrom(kind, groups, i);
      RowsStayOk(kind, Sort(groups, ByFile())[i]);
    }
    SortKeepsDistinct(groups, ByFile(), FileOf());
    NamesStayDistinct(kind, Sort(groups, ByFile()));
    SortTotal(groups, ByFile());
    forall i | 0 <= i < |r| ensures |r[i].rows| == |Sort(groups, ByFile())[i].rows| {
      SortedGroupKeeps(kind, Sort(groups, ByFile())[i]);
    }
    SameTotal(r, Sort(groups, ByFile()));
  }

  lemma GroupStaysPrintable(kind: Kind, g: Group)
    requires GroupPrintable(kind, g)
    ensures GroupPrintable(kind, SortedGroup(kind, g))
  {
    SortedGroupKeeps(kind, g);
  }

  lemma SortedIsPrintable(kind: Kind, groups: seq<Group>)
    requires Printable(kind, groups)
    ensures Printable(kind, Sorted(kind, groups))
  {
    var r := Sorted(kind, groups);
    forall g | g in r ensures GroupPrintable(kind, g) {
      var i :| 0 <= i < |r| && r[i] == g;
      SortedFrom(kind, groups, i);
      GroupStaysPrintable(kind, Sort(groups, ByFile())[i]);
    }
  }

  lemma SortedIsOrdered(kind: Kind, groups: seq<Group>)
    ensures Ordered(Sorted(kind, groups), ByFile())
    ensures forall i :: 0 <= i < |Sorted(kind, groups)| ==> Ordered(Sorted(kind, groups)[i].rows, ByKey(kind))
  {
    var r, s := Sorted(kind, groups), Sort(groups, ByFile());
    SortOrders(groups, ByFile());
    forall i, j | 0 <= i < j < |r| ensures KeyLe(ByFile()(r[i]), ByFile()(r[j])) {
      assert KeyLe(ByFile()(s[i]), ByFile()(s[j]));
    }
    forall i | 0 <= i < |r| ensures Ordered(r[i].rows, ByKey(kind)) { SortedGroupKeeps(kind, s[i]); }
  }

  /** Ordering an ordered document changes nothing. */
  lemma SortedTwice(kind: Kind, groups: seq<Group>)
    ensures Sorted(kind, Sorted(kind, groups)) == Sorted(kind, groups)
  {
    var r := Sorted(kind, groups);
    SortedIsOrdered(kind, groups);
    SortOfOrdered(r, ByFile());
    var again := SortedRows(kind, r);
    forall i | 0 <= i < |r| ensures again[i] == r[i] { SortOfOrdered(r[i].rows, ByKey(kind)); }
  }

  /** The document in order: names ascending, rows ascending by key, and the rows of every group as before. */
  lemma SortedMeans(kind: Kind, groups: seq<Group>)
    ensures |Sorted(kind, groups)| == |groups|
    ensures Ordered(Sorted(kind, groups), ByFile())
    ensures forall g :: g in groups ==>
              exists h :: h in Sorted(kind, groups) && h.sourceFile == g.sourceFile && multiset(h.rows) == multiset(g.rows)
                          && Ordered(h.rows, ByKey(kind))
  {
    SortMembers(groups, ByFile());
    SortedIsOrdered(kind, groups);
    forall g | g in groups
      ensures exists h :: h in Sorted(kind, groups) && h.sourceFile == g.sourceFile && multiset(h.rows) == multiset(g.rows)
                          && Ordered(h.rows, ByKey(kind))
    {
      var i :| 0 <= i < |Sort(groups, ByFile())| && Sort(groups, ByFile())[i] == g;
      SortedGroupKeeps(kind, g);
      assert Sorted(kind, groups)[i] in Sorted(kind, groups);
    }
  }

  // ---------- what parsing guarantees ----------

  function Records(items: seq<Item>): nat {
    if items == [] then 0 else (if items[0].Record? then 1 else 0) + Records(items[1..])
  }

  predicate ValueOk(value: string) {
    value == "" || (Tight(value) && NoBreak(value))
  }

  predicate ItemOk(item: Item) {
    item.Meta? ==> ValueOk(item.value)
  }

  lemma LStripIsSuffix(s: string)
    ensures LStrip(s) == s[|s| - |LStrip(s)|..]
  {
    if s != "" && IsSpace(s[0]) { LStripIsSuffix(s[1..]); }
  }

  /** Stripping a piece of one line leaves no break: the only one was at the end, and is a blank. */
  lemma StrippedPiece(s: string)
    requires s == "" || NoBreak(s[..|s| - 1])
    ensures ValueOk(Strip(s)) && NoBreak(Strip(s))
  {
    LStripIsSuffix(s);
    var t, r := LStrip(s), Strip(s);
    if r != "" {
      assert r[0] == t[0];
      forall k | 0 <= k < |r| ensures !IsBreak(r[k]) {
        var at := |s| - |t| + k;
        assert r[k] == t[k] == s[at];
        if at < |s| - 1 { assert s[..|s| - 1][at] == s[at]; } else { assert !IsSpace(r[k]); }
      }
    }
  }

  lemma StrippedWhole(s: string)
    requires NoBreak(s)
    ensures ValueOk(Strip(s))
  {
    StrippedPiece(s);
  }

  lemma MetaIsOk(line: string)
    requires OneLine(line) && StartsComment(line) && MetaOf(line).Some?
    ensures ItemOk(MetaOf(line).value)
  {
    LStripIsSuffix(line);
    var rest := LStrip(line)[1..];
    assert rest == "" || NoBreak(rest[..|rest| - 1]) by {
      if rest != "" {
        forall k | 0 <= k < |rest| - 1 ensures !IsBreak(rest[k]) {
          var at := |line| - |LStrip(line)| + 1 + k;
          assert rest[k] == line[at] && line[..|line| - 1][at] == line[at];
        }
      }
    }
    StrippedPiece(rest);
    var meta := Strip(rest);
    var i := UpTo(meta, '=');
    StrippedWhole(meta[i + 1..]);
  }

  lemma {:induction false} ItemsAreOk(lines: seq<string>, buffer: string, quoted: bool, count: nat)
    requires (forall i :: 0 <= i < |lines| ==> OneLine(lines[i])) && count <= MAX_RECORDS
    requires Items(lines, buffer, quoted, count).Ok?
    ensures var items := Items(lines, buffer, quoted, count).value;
            count + Records(items) <= MAX_RECORDS && forall i :: 0 <= i < |items| ==> ItemOk(items[i])
    decreases |lines|
  {
    if lines != [] {
      var line, more := lines[0], lines[1..];
      if buffer == "" && Strip(line) == "" {
        ItemsAreOk(more, "", quoted, count);
      } else if buffer == "" && StartsComment(line) {
        ItemsAreOk(more, "", quoted, count);
        if MetaOf(line).Some? { MetaIsOk(line); }
      } else if Parity(line, quoted) {
        ItemsAreOk(more, buffer + line, true, count);
      } else {
        ItemsAreOk(more, "", false, count + 1);
      }
    }
  }

  predicate GroupSoFar(kind: Kind, p: Parser, g: Group) {
    && NameOk(kind, g.sourceFile)
    && (g.sourceFile == "" || g.sourceFile in p.files)
    && (forall row :: row in g.rows ==> RowOk(kind, row) && row != [] && Identity(g.sourceFile, row) in p.ids)
    && Distinct(g.rows, IdOf())
  }

  /** What holds while parsing, after `taken` records. */
  predicate ParserOk(kind: Kind, p: Parser, taken: nat) {
    && "" !in p.files
    && (forall g :: g in p.groups ==> GroupSoFar(kind, p, g))
    && Distinct(p.groups, FileOf())
    && (if p.header then 1 + Total(p.groups) <= taken else p.groups == [])
  }

  lemma TotalSnoc(groups: seq<Group>, g: Group)
    ensures Total(groups + [g]) == Total(groups) + |g.rows|
  {
    assert (groups + [g])[..|groups|] == groups;
  }

  lemma DistinctSnoc<T, K>(s: seq<T>, x: T, id: T -> K)
    requires Distinct(s, id) && forall i :: 0 <= i < |s| ==> id(s[i]) != id(x)
    ensures Distinct(s + [x], id)
  {
  }

  lemma MetaKeeps(kind: Kind, p: Parser, key: string, value: string, taken: nat)
    requires ParserOk(kind, p, taken) && ValueOk(value) && TakeMeta(p, key, value).Ok?
    ensures ParserOk(kind, TakeMeta(p, key, value).value, taken)
  {
    var q := TakeMeta(p, key, value).value;
    if key == "source_file" {
      var g := Group(value, []);
      TotalSnoc(p.groups, g);
      forall i | 0 <= i < |p.groups| ensures FileOf()(p.groups[i]) != FileOf()(g) { assert p.groups[i] in p.groups; }
      DistinctSnoc(p.groups, g, FileOf());
      forall h | h in q.groups ensures GroupSoFar(kind, q, h) {
        if h in p.groups { assert GroupSoFar(kind, p, h); } else { assert h == g; }
      }
    }
  }

  lemma NewRowIsDistinct(kind: Kind, p: Parser, g: Group, row: Row)
    requires GroupSoFar(kind, p, g) && row != [] && Identity(g.sourceFile, row) !in p.ids
    ensures Distinct(g.rows + [row], IdOf())
  {
    forall i | 0 <= i < |g.rows| ensures IdOf()(g.rows[i]) != IdOf()(row) { assert g.rows[i] in g.rows; }
    DistinctSnoc(g.rows, row, IdOf());
  }

  lemma AddRowKeeps(kind: Kind, p: Parser, row: Row, taken: nat)
    requires ParserOk(kind, p, taken) && p.header && p.groups != [] && SmallFields(row)
    requires AddRow(kind, p, row).Ok?
    ensures ParserOk(kind, AddRow(kind, p, row).value, taken + 1) && AddRow(kind, p, row).value.header
  {
    var q := AddRow(kind, p, row).value;
    var init, g := p.groups[..|p.groups| - 1], p.groups[|p.groups| - 1];
    var g' := WithRow(g, row);
    assert p.groups == init + [g] && g in p.groups;
    TotalSnoc(init, g);
    TotalSnoc(init, g');
    NewRowIsDistinct(kind, p, g, row);
    NamesAfter(init, g, g');
    forall h | h in q.groups ensures GroupSoFar(kind, q, h) {
      if h == g' {
        forall x | x in g'.rows ensures RowOk(kind, x) && x != [] && Identity(g.sourceFile, x) in q.ids {
          if x in g.rows { assert Identity(g.sourceFile, x) in p.ids; } else { assert x == row; }
        }
      } else {
        assert h in init && h in p.groups && GroupSoFar(kind, p, h);
      }
    }
  }

  lemma NamesAfter(init: seq<Group>, g: Group, g': Group)
    requires Distinct(init + [g], FileOf()) && g'.sourceFile == g.sourceFile
    ensures Distinct(init + [g'], FileOf())
  {
    var a, b := init + [g], init + [g'];
    forall i, j | 0 <= i < j < |b| ensures FileOf()(b[i]) != FileOf()(b[j]) { assert FileOf()(a[i]) != FileOf()(a[j]); }
  }

  lemma RowKeeps(kind: Kind, p: Parser, row: Row, taken: nat)
    requires ParserOk(kind, p, taken) && SmallFields(row) && TakeRow(kind, p, row).Ok?
    ensures ParserOk(kind, TakeRow(kind, p, row).value, taken + 1)
  {
    if p.header {
      if p.groups != [] {
        AddRowKeeps(kind, p, row, taken);
      } else {
        var q := p.(groups := [Group("", [])]);
        assert q.groups == [] + [Group("", [])];
        TotalSnoc([], Group("", []));
        AddRowKeeps(kind, q, row, taken);
      }
    }
  }

  lemma {:induction false} TakeAllKeeps(kind: Kind, p: Parser, items: seq<Item>, taken: nat)
    requires ParserOk(kind, p, taken) && TakeAll(kind, p, items).Ok?
    requires forall i :: 0 <= i < |items| ==> ItemOk(items[i])
    ensures ParserOk(kind, TakeAll(kind, p, items).value, taken + Records(items))
    decreases |items|
  {
    if items != [] {
      var next := Take(kind, p, items[0]).value;
      assert ItemOk(items[0]);
      match items[0] {
        case Meta(key, value) => MetaKeeps(kind, p, key, value, taken);
        case Record(text) => RowKeeps(kind, p, ReadRow(text).value, taken);
      }
      TakeAllKeeps(kind, next, items[1..], taken + if items[0].Record? then 1 else 0);
    }
  }

  lemma TextItemsAreOk(text: string)
    requires Rest(text, 0).Ok?
    ensures Records(Rest(text, 0).value) <= MAX_RECORDS
    ensures forall i :: 0 <= i < |Rest(text, 0).value| ==> ItemOk(Rest(text, 0).value[i])
  {
    JoinOfSplit(text);
    ItemsAreOk(SplitLines(text), "", false, 0);
  }

  lemma FinishedIsWellFormed(kind: Kind, p: Parser, taken: nat)
    requires ParserOk(kind, p, taken) && Complete(kind, p) && taken <= MAX_RECORDS
    ensures WellFormed(kind, p.groups)
  {
    forall g | g in p.groups ensures RowsOk(kind, g.rows) && NameOk(kind, g.sourceFile) {
      assert GroupSoFar(kind, p, g);
      var i :| 0 <= i < |p.groups| && p.groups[i] == g;
    }
  }

  /** Every parsed document is well-formed. */
  lemma ParsedIsWellFormed(kind: Kind, text: string)
    requires Parse(kind, text).Ok?
    ensures WellFormed(kind, Parse(kind, text).value)
  {
    TextItemsAreOk(text);
    var items := Rest(text, 0).value;
    assert ParserOk(kind, START, 0);
    TakeAllKeeps(kind, START, items, 0);
    FinishedIsWellFormed(kind, TakeAll(kind, START, items).value, Records(items));
  }

  // ---------- the round trip ----------

  lemma FormatIsText(kind: Kind, groups: seq<Group>)
    requires Printable(kind, groups)
    ensures Format(kind, groups) == Some(DocumentText(kind, Sorted(kind, groups)))
  {
    assert forall g :: g in groups ==> GroupPrintable(kind, g);
  }

  /**
   For every text that parses to a printable document: formatting succeeds, the formatted text, if
   within the byte budget, parses to the same document in order, and formatting that again changes
   nothing.
   */
  lemma FormattedIsParsed(kind: Kind, text: string, groups: seq<Group>)
    requires Parse(kind, text) == Ok(groups) && Printable(kind, groups)
    ensures Format(kind, groups).Some?
    ensures Bytes(Format(kind, groups).value) <= MAX_BYTES ==> Parse(kind, Format(kind, groups).value) == Ok(Sorted(kind, groups))
    ensures Format(kind, Sorted(kind, groups)) == Format(kind, groups)
  {
    ParsedIsWellFormed(kind, text);
    SortedIsWellFormed(kind, groups);
    SortedIsPrintable(kind, groups);
    SortedTwice(kind, groups);
    FormatIsText(kind, groups);
    FormatIsText(kind, Sorted(kind, groups));
    var printed := Format(kind, groups).value;
    if Bytes(printed) <= MAX_BYTES { PrintedIsParsed(kind, Sorted(kind, groups), printed); }
  }
}
