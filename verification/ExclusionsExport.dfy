/**
 Exporting session exclusions into the CSV documents: rows are added to their groups unless they are
 there already, and a row that is there with another reason stops the export before anything is written.
 */
module ExclusionsExport {
  import opened Wrappers
  import opened CsvText
  import opened ExclusionsCsv

  datatype Entry = Entry(kind: Kind, sourceFile: string, row: Row)

  datatype Id = Id(kind: Kind, sourceFile: string, fields: Row)

  type Documents = map<Kind, seq<Group>>

  predicate Complete(docs: Documents) {
    forall k: Kind :: k in docs
  }

  function IdOf(e: Entry): Id
    requires e.row != []
  {
    Id(e.kind, e.sourceFile, e.row[..|e.row| - 1])
  }

  function Reason(e: Entry): string
    requires e.row != []
  {
    e.row[|e.row| - 1]
  }

  function Entries(kind: Kind, groups: seq<Group>): set<Entry> {
    set g, row | g in groups && row in g.rows :: Entry(kind, g.sourceFile, row)
  }

  /** Everything the documents exclude. */
  function Contents(docs: Documents): set<Entry>
    requires Complete(docs)
  {
    Entries(Code, docs[Code]) + Entries(Functional, docs[Functional])
    + Entries(Assertion, docs[Assertion]) + Entries(Container, docs[Container])
  }

  predicate Filled(s: set<Entry>) {
    forall e :: e in s ==> e.row != []
  }

  /** No exclusion has two reasons. */
  predicate Consistent(s: set<Entry>)
    requires Filled(s)
  {
    forall a, b :: a in s && b in s && IdOf(a) == IdOf(b) ==> Reason(a) == Reason(b)
  }

  /** An identity with a reason is an entry. */
  lemma SameEntry(a: Entry, b: Entry)
    requires a.row != [] && b.row != [] && IdOf(a) == IdOf(b) && Reason(a) == Reason(b)
    ensures a == b
  {
    assert a.row == a.row[..|a.row| - 1] + [a.row[|a.row| - 1]];
    assert b.row == b.row[..|b.row| - 1] + [b.row[|b.row| - 1]];
  }

  /** The known identities are exactly those of some entries, with their reasons. */
  ghost predicate Knows(ids: map<Id, string>, s: set<Entry>)
    requires Filled(s)
  {
    && (forall e :: e in s ==> IdOf(e) in ids && ids[IdOf(e)] == Reason(e))
    && (forall i :: i in ids ==> exists e :: e in s && IdOf(e) == i)
  }

  // ---------- adding a row ----------

  /** The row goes to the first group of its file, or to a new group at the end. */
  function AddTo(groups: seq<Group>, sourceFile: string, row: Row): seq<Group> {
    if groups == [] then [Group(sourceFile, [row])]
    else if groups[0].sourceFile == sourceFile then [groups[0].(rows := groups[0].rows + [row])] + groups[1..]
    else [groups[0]] + AddTo(groups[1..], sourceFile, row)
  }

  lemma EntriesCons(kind: Kind, g: Group, groups: seq<Group>)
    ensures Entries(kind, [g] + groups) == Entries(kind, [g]) + Entries(kind, groups)
  {
  }

  lemma {:induction false} AddToAdds(kind: Kind, groups: seq<Group>, sourceFile: string, row: Row)
    ensures Entries(kind, AddTo(groups, sourceFile, row)) == Entries(kind, groups) + {Entry(kind, sourceFile, row)}
  {
    if groups != [] {
      var g, more := groups[0], groups[1..];
      assert groups == [g] + more;
      EntriesCons(kind, g, more);
      if g.sourceFile == sourceFile {
        EntriesCons(kind, g.(rows := g.rows + [row]), more);
      } else {
        AddToAdds(kind, more, sourceFile, row);
        EntriesCons(kind, g, AddTo(more, sourceFile, row));
      }
    }
  }

  function Added(docs: Documents, e: Entry): Documents
    requires Complete(docs)
  {
    docs[e.kind := AddTo(docs[e.kind], e.sourceFile, e.row)]
  }

  lemma AddedContents(docs: Documents, e: Entry)
    requires Complete(docs)
    ensures Complete(Added(docs, e)) && Contents(Added(docs, e)) == Contents(docs) + {e}
  {
    AddToAdds(e.kind, docs[e.kind], e.sourceFile, e.row);
    match e.kind
    case Code => assert forall k: Kind :: k != Code ==> Added(docs, e)[k] == docs[k];
    case Functional => assert forall k: Kind :: k != Functional ==> Added(docs, e)[k] == docs[k];
    case Assertion => assert forall k: Kind :: k != Assertion ==> Added(docs, e)[k] == docs[k];
    case Container => assert forall k: Kind :: k != Container ==> Added(docs, e)[k] == docs[k];
  }

  lemma EntriesAreContents(docs: Documents, kind: Kind)
    requires Complete(docs)
    ensures Entries(kind, docs[kind]) <= Contents(docs)
  {
    match kind
    case Code =>
    case Functional =>
    case Assertion =>
    case Container =>
  }

  /** What a document that can be read again needs: one group a file, one row an identity. */
  predicate Unique(groups: seq<Group>) {
    && (forall i, j :: 0 <= i < j < |groups| ==> groups[i].sourceFile != groups[j].sourceFile)
    && (forall g :: g in groups ==> UniqueRows(g.rows))
  }

  predicate UniqueRows(rows: seq<Row>) {
    forall i, j :: 0 <= i < j < |rows| && rows[i] != [] && rows[j] != [] ==> rows[i][..|rows[i]| - 1] != rows[j][..|rows[j]| - 1]
  }

  lemma UniqueRowsMore(kind: Kind, g: Group, groups: seq<Group>, row: Row, s: set<Entry>)
    requires UniqueRows(g.rows) && g in groups && row != [] && Entries(kind, groups) <= s && Filled(s)
    requires forall e :: e in s ==> IdOf(e) != IdOf(Entry(kind, g.sourceFile, row))
    ensures UniqueRows(g.rows + [row])
  {
    forall i | 0 <= i < |g.rows| && g.rows[i] != [] ensures g.rows[i][..|g.rows[i]| - 1] != row[..|row| - 1] {
      assert Entry(kind, g.sourceFile, g.rows[i]) in Entries(kind, groups);
    }
  }

  function Names(groups: seq<Group>): set<string> {
    set g | g in groups :: g.sourceFile
  }

  lemma NamesCons(g: Group, groups: seq<Group>)
    ensures Names([g] + groups) == {g.sourceFile} + Names(groups)
  {
  }

  lemma UniqueCons(g: Group, groups: seq<Group>)
    ensures Unique([g] + groups) <==> UniqueRows(g.rows) && Unique(groups) && g.sourceFile !in Names(groups)
  {
    var all := [g] + groups;
    assert forall i :: 0 <= i < |groups| ==> all[i + 1] == groups[i];
    if Unique(all) {
      assert all[0] in all;
      forall h | h in groups ensures UniqueRows(h.rows) && h.sourceFile != g.sourceFile {
        var i :| 0 <= i < |groups| && groups[i] == h;
        assert all[i + 1] in all;
      }
    }
    if UniqueRows(g.rows) && Unique(groups) && g.sourceFile !in Names(groups) {
      forall i, j | 0 <= i < j < |all| ensures all[i].sourceFile != all[j].sourceFile {
        assert all[j] == groups[j - 1] && groups[j - 1] in groups;
      }
    }
  }

  lemma {:induction false} AddToKeepsUnique(kind: Kind, groups: seq<Group>, sourceFile: string, row: Row, s: set<Entry>)
    requires Unique(groups) && row != [] && Entries(kind, groups) <= s && Filled(s)
    requires forall e :: e in s ==> IdOf(e) != IdOf(Entry(kind, sourceFile, row))
    ensures Unique(AddTo(groups, sourceFile, row)) && Names(AddTo(groups, sourceFile, row)) == Names(groups) + {sourceFile}
  {
    if groups == [] {
      UniqueCons(Group(sourceFile, [row]), []);
      NamesCons(Group(sourceFile, [row]), []);
      assert [Group(sourceFile, [row])] + [] == AddTo(groups, sourceFile, row);
    } else {
      var g, more := groups[0], groups[1..];
      assert groups == [g] + more && g in groups;
      EntriesCons(kind, g, more);
      UniqueCons(g, more);
      NamesCons(g, more);
      if g.sourceFile == sourceFile {
        UniqueRowsMore(kind, g, groups, row, s);
        UniqueCons(g.(rows := g.rows + [row]), more);
        NamesCons(g.(rows := g.rows + [row]), more);
      } else {
        AddToKeepsUnique(kind, more, sourceFile, row, s);
        UniqueCons(g, AddTo(more, sourceFile, row));
        NamesCons(g, AddTo(more, sourceFile, row));
      }
    }
  }

  predicate AllUnique(docs: Documents) {
    forall k :: k in docs ==> Unique(docs[k])
  }

  lemma AddedKeepsUnique(docs: Documents, e: Entry)
    requires Complete(docs) && AllUnique(docs) && e.row != [] && Filled(Contents(docs))
    requires forall a :: a in Contents(docs) ==> IdOf(a) != IdOf(e)
    ensures AllUnique(Added(docs, e))
  {
    EntriesAreContents(docs, e.kind);
    AddToKeepsUnique(e.kind, docs[e.kind], e.sourceFile, e.row, Contents(docs));
  }

  // ---------- the export ----------

  function Upto(records: seq<Entry>, n: nat): set<Entry>
    requires n <= |records|
  {
    set i | 0 <= i < n :: records[i]
  }

  lemma KnownEntry(ids: map<Id, string>, s: set<Entry>, e: Entry)
    requires Filled(s) && e.row != [] && Knows(ids, s)
    ensures IdOf(e) in ids ==> if ids[IdOf(e)] == Reason(e) then e in s else !Consistent(s + {e})
    ensures IdOf(e) !in ids ==> forall a :: a in s ==> IdOf(a) != IdOf(e)
  {
    if IdOf(e) in ids {
      var a :| a in s && IdOf(a) == IdOf(e);
      if Reason(a) == Reason(e) { SameEntry(a, e); } else { assert a in s + {e} && e in s + {e}; }
    }
  }

  lemma KnowsMore(ids: map<Id, string>, s: set<Entry>, e: Entry)
    requires Filled(s) && e.row != [] && Knows(ids, s) && Consistent(s) && IdOf(e) !in ids
    ensures Filled(s + {e}) && Knows(ids[IdOf(e) := Reason(e)], s + {e}) && Consistent(s + {e})
  {
    KnownEntry(ids, s, e);
    var ids' := ids[IdOf(e) := Reason(e)];
    forall i | i in ids' ensures exists a :: a in s + {e} && IdOf(a) == i {
      if i in ids {
        var a :| a in s && IdOf(a) == i;
        assert a in s + {e};
      } else {
        assert e in s + {e};
      }
    }
  }

  lemma SubsetConsistent(s: set<Entry>, t: set<Entry>)
    requires s <= t && Filled(t) && !Consistent(s)
    ensures !Consistent(t)
  {
  }

  lemma UptoMore(records: seq<Entry>, i: nat)
    requires i < |records|
    ensures Upto(records, i + 1) == Upto(records, i) + {records[i]}
    ensures Upto(records, i + 1) <= Upto(records, |records|)
  {
  }

  /** The documents so far hold these entries, and the identities are those of the entries. */
  ghost predicate Holding(now: Documents, ids: map<Id, string>, s: set<Entry>) {
    Complete(now) && AllUnique(now) && Contents(now) == s && Filled(s) && Consistent(s) && Knows(ids, s)
  }

  lemma EntryAdded(now: Documents, ids: map<Id, string>, s: set<Entry>, e: Entry)
    requires Holding(now, ids, s) && e.row != [] && IdOf(e) !in ids
    ensures Holding(Added(now, e), ids[IdOf(e) := Reason(e)], s + {e}) && e !in s
  {
    KnownEntry(ids, s, e);
    KnowsMore(ids, s, e);
    AddedContents(now, e);
    AddedKeepsUnique(now, e);
  }

  lemma EntryKnown(now: Documents, ids: map<Id, string>, s: set<Entry>, e: Entry, all: set<Entry>)
    requires Holding(now, ids, s) && e.row != [] && IdOf(e) in ids && s + {e} <= all && Filled(all)
    ensures if ids[IdOf(e)] == Reason(e) then s + {e} == s else !Consistent(all)
  {
    KnownEntry(ids, s, e);
    if ids[IdOf(e)] != Reason(e) { SubsetConsistent(s + {e}, all); }
  }

  lemma EntryOfKind(docs: Documents, e: Entry)
    requires Complete(docs) && e in Contents(docs)
    ensures e in Entries(e.kind, docs[e.kind])
  {
  }

  lemma SameGroup(groups: seq<Group>, g: Group, h: Group)
    requires Unique(groups) && g in groups && h in groups && g.sourceFile == h.sourceFile
    ensures g == h
  {
    var i :| 0 <= i < |groups| && groups[i] == g;
    var j :| 0 <= j < |groups| && groups[j] == h;
    assert i == j;
  }

  lemma SameRow(rows: seq<Row>, a: Row, b: Row)
    requires UniqueRows(rows) && a in rows && b in rows && a != [] && b != [] && a[..|a| - 1] == b[..|b| - 1]
    ensures a == b
  {
    var i :| 0 <= i < |rows| && rows[i] == a;
    var j :| 0 <= j < |rows| && rows[j] == b;
    assert i == j;
  }

  /** Documents with one row an identity give no exclusion two reasons. */
  lemma UniqueIsConsistent(docs: Documents)
    requires Complete(docs) && AllUnique(docs) && Filled(Contents(docs))
    ensures Consistent(Contents(docs))
  {
    forall a, b | a in Contents(docs) && b in Contents(docs) && IdOf(a) == IdOf(b) ensures Reason(a) == Reason(b) {
      EntryOfKind(docs, a);
      EntryOfKind(docs, b);
      var groups := docs[a.kind];
      var g :| g in groups && a.row in g.rows && g.sourceFile == a.sourceFile;
      var h :| h in groups && b.row in h.rows && h.sourceFile == b.sourceFile;
      SameGroup(groups, g, h);
      SameRow(g.rows, a.row, b.row);
    }
  }

  /** The identities in the documents, with their reasons. */
  method Identities(docs: Documents) returns (ids: map<Id, string>)
    requires Complete(docs) && Filled(Contents(docs)) && Consistent(Contents(docs))
    ensures Knows(ids, Contents(docs))
  {
    ids := map[];
    var left := Contents(docs);
    while left != {}
      invariant left <= Contents(docs)
      invariant Knows(ids, Contents(docs) - left)
      decreases left
    {
      var e :| e in left;
      ghost var before := Contents(docs) - left;
      IdentityMore(ids, before, e);
      ids, left := ids[IdOf(e) := Reason(e)], left - {e};
      assert Contents(docs) - left == before + {e};
    }
    assert Contents(docs) - {} == Contents(docs);
  }

  lemma IdentityMore(ids: map<Id, string>, s: set<Entry>, e: Entry)
    requires Filled(s + {e}) && Consistent(s + {e}) && Knows(ids, s)
    ensures Knows(ids[IdOf(e) := Reason(e)], s + {e})
  {
    assert e in s + {e};
    forall a | a in s ensures IdOf(a) == IdOf(e) ==> Reason(a) == Reason(e) { assert a in s + {e}; }
    forall i | i in ids ensures exists a :: a in s + {e} && IdOf(a) == i {
      var a :| a in s && IdOf(a) == i;
      assert a in s + {e};
    }
  }

  lemma AllFilled(start: set<Entry>, records: seq<Entry>)
    requires Filled(start) && forall e :: e in records ==> e.row != []
    ensures Filled(start + Upto(records, |records|))
  {
  }

  lemma NextRecord(start: set<Entry>, records: seq<Entry>, i: nat, s: set<Entry>)
    requires i < |records| && s == start + Upto(records, i)
    ensures start + Upto(records, i + 1) == s + {records[i]} <= start + Upto(records, |records|)
    ensures Upto(records, |records|) <= start ==> records[i] in s
  {
    UptoMore(records, i);
    assert records[i] in Upto(records, |records|);
  }

  /** One record: it is there already, or it is added, or it is there with another reason. */
  method AddRecord(now: Documents, ids: map<Id, string>, e: Entry, ghost s: set<Entry>, ghost all: set<Entry>)
    returns (ok: bool, now': Documents, ids': map<Id, string>, more: nat)
    requires Holding(now, ids, s) && e.row != [] && s + {e} <= all && Filled(all)
    ensures if ok then Holding(now', ids', s + {e}) else !Consistent(all)
    ensures ok && e in s ==> now' == now && more == 0
  {
    now', ids', more, ok := now, ids, 0, true;
    if IdOf(e) in ids {
      EntryKnown(now, ids, s, e, all);
      ok := ids[IdOf(e)] == Reason(e);
    } else {
      EntryAdded(now, ids, s, e);
      now', ids', more := Added(now, e), ids[IdOf(e) := Reason(e)], 1;
    }
  }

  /** The loop over the records. */
  method AddRecords(docs: Documents, ids0: map<Id, string>, records: seq<Entry>, ghost start: set<Entry>, ghost all: set<Entry>)
    returns (failed: Option<Entry>, now: Documents, added: nat)
    requires Holding(docs, ids0, start) && all == start + Upto(records, |records|) && Filled(all)
    ensures if failed.None? then Complete(now) && AllUnique(now) && Contents(now) == all && Consistent(all) else !Consistent(all)
    ensures failed.None? && Upto(records, |records|) <= start ==> now == docs && added == 0
  {
    now, added := docs, 0;
    var ids := ids0;
    ghost var s, nothingNew := start, Upto(records, |records|) <= start;
    var i := 0;
    assert start + Upto(records, 0) == start;
    while i < |records|
      invariant 0 <= i <= |records| && Holding(now, ids, s) && s == start + Upto(records, i)
      invariant nothingNew ==> now == docs && added == 0
    {
      var ok, more;
      NextRecord(start, records, i, s);
      ok, now, ids, more := AddRecord(now, ids, records[i], s, all);
      if !ok { return Some(records[i]), now, added; }
      s, added, i := s + {records[i]}, added + more, i + 1;
    }
    failed := None;
  }

  /**
   The merge of `_exclude_csv_export`.  It succeeds exactly when documents and records together give no
   exclusion two reasons; then the documents hold both, each exclusion once.
   */
  method Export(docs: Documents, records: seq<Entry>) returns (r: Result<Documents, Entry>, added: nat)
    requires Complete(docs) && AllUnique(docs) && Filled(Contents(docs)) && forall e :: e in records ==> e.row != []
    ensures Filled(Contents(docs) + Upto(records, |records|))
    ensures r.Ok? <==> Consistent(Contents(docs) + Upto(records, |records|))
    ensures r.Ok? ==> Complete(r.value) && AllUnique(r.value) && Contents(r.value) == Contents(docs) + Upto(records, |records|)
    ensures r.Ok? && Upto(records, |records|) <= Contents(docs) ==> r.value == docs && added == 0
  {
    ghost var start := Contents(docs);
    UniqueIsConsistent(docs);
    AllFilled(start, records);
    var ids := Identities(docs);
    var failed, now;
    failed, now, added := AddRecords(docs, ids, records, start, start + Upto(records, |records|));
    r := if failed.Some? then Err(failed.value) else Ok(now);
  }
}
