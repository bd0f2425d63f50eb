/**
 A file with the rendered table between other lines: the table is found where it was put, and reading
 it gives the rendered values.
 */
module TomlLayout {
  import opened Wrappers
  import opened Text
  import opened JsonString
  import opened TomlTable
  import opened TomlEntry

  // ---------- the whole table ----------

  predicate KeysIn(keys: seq<Value>, values: Table) {
    forall i :: 0 <= i < |keys| ==> keys[i] in values
  }

  lemma {:induction false} EntryLinesAt(keys: seq<Value>, values: Table, i: nat)
    requires KeysIn(keys, values) && i < |keys|
    ensures i < |EntryLines(keys, values)| && EntryLines(keys, values)[i] == EntryLine(keys[i], values[keys[i]])
  {
    if i > 0 { EntryLinesAt(keys[1..], values, i - 1); }
  }

  lemma {:induction false} EntryLinesCount(keys: seq<Value>, values: Table)
    requires KeysIn(keys, values)
    ensures |EntryLines(keys, values)| == |keys|
  {
    if keys != [] { EntryLinesCount(keys[1..], values); }
  }

  /** An entry line of the table. */
  predicate EntryLike(line: string) {
    OneLine(line) && Broken(line) && !IsTable(line) && !IsHeader(line) && Strip(line) != ""
  }

  predicate TableLike(rendered: seq<string>) {
    && rendered != []
    && OneLine(rendered[0]) && Broken(rendered[0]) && IsTable(rendered[0]) && Strip(rendered[0]) != ""
    && forall k :: 1 <= k < |rendered| ==> EntryLike(rendered[k])
  }

  lemma LineOf(s: string)
    requires s != "" && NoBreak(s) && !IsSpace(s[0])
    ensures OneLine(s + "\n") && Broken(s + "\n") && LStrip(s + "\n") == s + "\n" && Strip(s + "\n") != ""
    ensures Ends((s + "\n")[|s|..])
  {
    var line := s + "\n";
    assert line[..|line| - 1] == s;
    assert line[|s|..] == "\n";
    assert "\n" + "" == "\n";
    LStripSkips("\n", "");
    RStripKeepsFirst(line);
  }

  lemma HeaderHasNoBreak()
    ensures NoBreak(HEADER)
  {
  }

  lemma HeaderLine()
    ensures OneLine(HEADER + "\n") && Broken(HEADER + "\n") && IsTable(HEADER + "\n") && Strip(HEADER + "\n") != ""
  {
    HeaderHasNoBreak();
    assert HEADER[0] == '[';
    LineOf(HEADER);
  }

  lemma RenderedLineIsEntry(keys: seq<Value>, values: Table, i: nat)
    requires KeysIn(keys, values) && i < |keys|
    ensures i < |EntryLines(keys, values)| && EntryLike(EntryLines(keys, values)[i])
  {
    EntryLinesAt(keys, values, i);
    EntryLineIsOne(keys[i], values[keys[i]]);
    StatementIsPrintable(keys[i], values[keys[i]]);
  }

  lemma EntriesAreTableLike(keys: seq<Value>, values: Table, rendered: seq<string>)
    requires KeysIn(keys, values) && rendered == [HEADER + "\n"] + EntryLines(keys, values)
    ensures TableLike(rendered)
  {
    HeaderLine();
    EntryLinesCount(keys, values);
    forall k | 1 <= k < |rendered| ensures EntryLike(rendered[k]) {
      RenderedLineIsEntry(keys, values, k - 1);
    }
  }

  lemma RenderedIsTableLike(values: Table)
    ensures TableLike(Rendered(values))
  {
    SortedKeysAreTheKeys(values.Keys);
    EntriesAreTableLike(SortedKeys(values.Keys), values, Rendered(values));
  }

  predicate AllUnpaired(values: Table) {
    forall k :: k in values ==> Unpaired(k) && Unpaired(values[k])
  }

  /** No key of the map contains an equals sign. */
  predicate NoEqualsSign(values: Table) {
    forall k :: k in values ==> '=' as int !in k
  }

  function Fill(keys: seq<Value>, values: Table, acc: Table): Table
    requires KeysIn(keys, values)
  {
    if keys == [] then acc else Fill(keys[1..], values, acc[keys[0] := values[keys[0]]])
  }

  lemma {:induction false} FillHolds(keys: seq<Value>, values: Table, acc: Table, k: Value)
    requires KeysIn(keys, values)
    ensures k in keys ==> k in Fill(keys, values, acc) && Fill(keys, values, acc)[k] == values[k]
    ensures k !in keys ==> (k in Fill(keys, values, acc) <==> k in acc) && (k in acc ==> Fill(keys, values, acc)[k] == acc[k])
  {
    if keys != [] {
      FillHolds(keys[1..], values, acc[keys[0] := values[keys[0]]], k);
      assert keys == [keys[0]] + keys[1..];
    }
  }

  lemma FillAll(values: Table)
    requires KeysIn(SortedKeys(values.Keys), values)
    ensures Fill(SortedKeys(values.Keys), values, map[]) == values
  {
    var keys := SortedKeys(values.Keys);
    SortedKeysAreTheKeys(values.Keys);
    forall k ensures (k in Fill(keys, values, map[]) <==> k in values) && (k in values ==> Fill(keys, values, map[])[k] == values[k]) {
      FillHolds(keys, values, map[], k);
    }
  }

  /** What reading the rendered entry of a key gives. */
  function Reread(key: Value, value: Value): Entry {
    if '=' as int in key then Keyless else Binding(key, Some(value))
  }

  /** Rendered entries are read at these lines, for keys not read yet. */
  predicate EntriesAt(entries: seq<Entry>, index: nat, keys: seq<Value>, values: Table, acc: Table) {
    && KeysIn(keys, values)
    && index + |keys| <= |entries|
    && (forall i :: 0 <= i < |keys| ==> entries[index + i] == Reread(keys[i], values[keys[i]]))
    && (forall i :: 0 <= i < |keys| ==> keys[i] !in acc)
    && (forall i, j :: 0 <= i < j < |keys| ==> keys[i] != keys[j])
  }

  lemma EntriesAfter(entries: seq<Entry>, index: nat, keys: seq<Value>, values: Table, acc: Table)
    requires EntriesAt(entries, index, keys, values, acc) && keys != []
    ensures EntriesAt(entries, index + 1, keys[1..], values, acc[keys[0] := values[keys[0]]])
  {
  }

  predicate Plain(keys: seq<Value>) {
    forall i :: 0 <= i < |keys| ==> '=' as int !in keys[i]
  }

  lemma PlainTail(keys: seq<Value>)
    requires keys != []
    ensures Plain(keys) <==> '=' as int !in keys[0] && Plain(keys[1..])
  {
    assert forall i :: 1 <= i < |keys| ==> keys[i] == keys[1..][i - 1];
  }

  /** Rendered entries enter all their bindings, unless a key has an equals sign. */
  lemma {:induction false} EntriesAreEntered(entries: seq<Entry>, index: nat, end: nat, keys: seq<Value>, values: Table, acc: Table)
    requires EntriesAt(entries, index, keys, values, acc) && index + |keys| <= end <= |entries|
    ensures if Plain(keys) then EnterAll(entries, index, end, acc) == EnterAll(entries, index + |keys|, end, Fill(keys, values, acc))
            else EnterAll(entries, index, end, acc).Err?
    decreases |keys|
  {
    if keys != [] {
      var key := keys[0];
      assert entries[index + 0] == Reread(key, values[key]);
      PlainTail(keys);
      if '=' as int !in key {
        EntriesAfter(entries, index, keys, values, acc);
        EntriesAreEntered(entries, index + 1, end, keys[1..], values, acc[key := values[key]]);
      }
    }
  }

  // ---------- the file around the table ----------

  /** The lines from a header on, an empty line before them. */
  function Tail(after: seq<string>): seq<string> {
    if after == [] then [] else ["\n"] + after
  }

  /** A file with the table between other lines. */
  function Layout(before: seq<string>, rendered: seq<string>, after: seq<string>): seq<string> {
    before + (rendered + Tail(after))
  }

  predicate Ahead(before: seq<string>) {
    forall k :: 0 <= k < |before| ==> OneLine(before[k]) && Broken(before[k]) && !IsTable(before[k])
  }

  predicate Following(after: seq<string>) {
    && Proper(after)
    && (forall k :: 0 <= k < |after| ==> !IsTable(after[k]))
    && (after != [] ==> IsHeader(after[0]))
  }

  lemma NewlineIsBlank()
    ensures OneLine("\n") && Broken("\n") && !IsTable("\n") && !IsHeader("\n") && ReadEntry("\n") == Nothing
  {
    LStripSkips("\n", "");
    assert "\n" + "" == "\n";
  }

  predicate AllBroken(lines: seq<string>) {
    forall k :: 0 <= k < |lines| ==> OneLine(lines[k]) && Broken(lines[k])
  }

  lemma ProperAppend(a: seq<string>, b: seq<string>)
    requires AllBroken(a) && Proper(b)
    ensures Proper(a + b)
  {
  }

  lemma TableIsBroken(rendered: seq<string>)
    requires TableLike(rendered)
    ensures AllBroken(rendered)
  {
    forall k | 0 <= k < |rendered| ensures OneLine(rendered[k]) && Broken(rendered[k]) {
      if k > 0 { assert EntryLike(rendered[k]); }
    }
  }

  lemma LayoutParts(before: seq<string>, rendered: seq<string>, after: seq<string>)
    ensures var lines := Layout(before, rendered, after); var end := |before| + |rendered| + if after == [] then 0 else 1;
            && |lines| == end + |after|
            && lines[..|before|] == before
            && lines[|before|..|before| + |rendered|] == rendered
            && (after != [] ==> lines[end - 1] == "\n")
            && lines[end..] == after
  {
  }

  lemma TailIsProper(after: seq<string>)
    requires Proper(after)
    ensures Proper(Tail(after))
  {
    NewlineIsBlank();
    ProperAppend(["\n"], after);
  }

  lemma LayoutIsProper(before: seq<string>, rendered: seq<string>, after: seq<string>)
    requires Ahead(before) && TableLike(rendered) && Following(after)
    ensures Proper(Layout(before, rendered, after))
  {
    TailIsProper(after);
    TableIsBroken(rendered);
    ProperAppend(rendered, Tail(after));
    ProperAppend(before, rendered + Tail(after));
  }

  lemma LayoutHasTable(before: seq<string>, rendered: seq<string>, after: seq<string>)
    requires Ahead(before) && TableLike(rendered) && Following(after)
    ensures TableAt(Layout(before, rendered, after), |before|, |before| + |rendered| + if after == [] then 0 else 1)
  {
    var lines := Layout(before, rendered, after);
    var end := |before| + |rendered| + if after == [] then 0 else 1;
    LayoutParts(before, rendered, after);
    NewlineIsBlank();
    assert lines[|before|] == rendered[0];
    forall k | 0 <= k < |lines| && k != |before|
      ensures !IsTable(lines[k]) && (|before| < k < end ==> !IsHeader(lines[k]))
    {
      if k < |before| { assert lines[k] == before[k]; }
      else if k < |before| + |rendered| { assert EntryLike(rendered[k - |before|]); }
      else if k >= end { assert lines[k] == after[k - end]; }
    }
    if after != [] { assert lines[end] == after[0]; }
  }

  lemma LayoutLine(before: seq<string>, values: Table, after: seq<string>, i: nat)
    requires KeysIn(SortedKeys(values.Keys), values) && i < |SortedKeys(values.Keys)|
    ensures var lines := Layout(before, Rendered(values), after); var key := SortedKeys(values.Keys)[i];
            |before| + 1 + i < |lines| && lines[|before| + 1 + i] == EntryLine(key, values[key])
  {
    var rendered, keys := Rendered(values), SortedKeys(values.Keys);
    EntryLinesAt(keys, values, i);
    LayoutParts(before, rendered, after);
    assert Layout(before, rendered, after)[|before|..|before| + |rendered|][1 + i] == rendered[1 + i];
  }

  lemma ReadAt(lines: seq<string>, j: nat, key: Value, value: Value)
    requires j < |lines| && lines[j] == EntryLine(key, value) && Unpaired(key) && Unpaired(value)
    ensures Entries(lines)[j] == Reread(key, value)
  {
    EntryAt(lines, j);
    EntryIsRead(key, value);
  }

  lemma RenderedCount(values: Table)
    ensures var keys := SortedKeys(values.Keys); KeysIn(keys, values) && |Rendered(values)| == 1 + |keys|
  {
    SortedKeysAreTheKeys(values.Keys);
    EntryLinesCount(SortedKeys(values.Keys), values);
  }

  lemma LayoutBlank(before: seq<string>, rendered: seq<string>, after: seq<string>)
    requires after != []
    ensures var lines := Layout(before, rendered, after);
            |before| + |rendered| < |lines| && Entries(lines)[|before| + |rendered|] == Nothing
  {
    LayoutParts(before, rendered, after);
    EntryAt(Layout(before, rendered, after), |before| + |rendered|);
    NewlineIsBlank();
  }

  /** At most one line, a blank one, stands between the table and what follows. */
  lemma LayoutRest(before: seq<string>, rendered: seq<string>, after: seq<string>, lines: seq<string>, end: nat)
    requires lines == Layout(before, rendered, after)
    requires end == |before| + |rendered| + if after == [] then 0 else 1
    ensures end <= |lines| && (|before| + |rendered| < end ==> Entries(lines)[|before| + |rendered|] == Nothing)
  {
    LayoutParts(before, rendered, after);
    if after != [] { LayoutBlank(before, rendered, after); }
  }

  lemma LinesAreEntries(lines: seq<string>, index: nat, keys: seq<Value>, values: Table)
    requires KeysIn(keys, values) && AllUnpaired(values) && index + |keys| <= |lines|
    requires forall i :: 0 <= i < |keys| ==> lines[index + i] == EntryLine(keys[i], values[keys[i]])
    requires forall i, j :: 0 <= i < j < |keys| ==> keys[i] != keys[j]
    ensures EntriesAt(Entries(lines), index, keys, values, map[])
  {
    forall i | 0 <= i < |keys| ensures Entries(lines)[index + i] == Reread(keys[i], values[keys[i]]) {
      ReadAt(lines, index + i, keys[i], values[keys[i]]);
    }
  }

  lemma LayoutEntries(before: seq<string>, values: Table, after: seq<string>, lines: seq<string>, keys: seq<Value>)
    requires AllUnpaired(values)
    requires lines == Layout(before, Rendered(values), after) && keys == SortedKeys(values.Keys)
    ensures EntriesAt(Entries(lines), |before| + 1, keys, values, map[])
  {
    SortedKeysAreTheKeys(values.Keys);
    RenderedCount(values);
    LayoutParts(before, Rendered(values), after);
    forall i | 0 <= i < |keys| ensures lines[|before| + 1 + i] == EntryLine(keys[i], values[keys[i]]) {
      LayoutLine(before, values, after, i);
    }
    LinesAreEntries(lines, |before| + 1, keys, values);
  }

  /** The table's entries and at most one blank line stand from `start` to `end`. */
  ghost predicate EntriesFill(entries: seq<Entry>, start: nat, end: nat, keys: seq<Value>, values: Table) {
    && keys == SortedKeys(values.Keys)
    && EntriesAt(entries, start, keys, values, map[])
    && start + |keys| <= end <= |entries| && end <= start + |keys| + 1
    && (start + |keys| < end ==> entries[start + |keys|] == Nothing)
  }

  lemma LayoutFills(before: seq<string>, rendered: seq<string>, after: seq<string>, lines: seq<string>, end: nat, keys: seq<Value>, values: Table)
    requires keys == SortedKeys(values.Keys) && EntriesAt(Entries(lines), |before| + 1, keys, values, map[])
    requires lines == Layout(before, rendered, after) && |rendered| == 1 + |keys|
    requires end == |before| + |rendered| + if after == [] then 0 else 1
    ensures EntriesFill(Entries(lines), |before| + 1, end, keys, values)
  {
    LayoutRest(before, rendered, after, lines, end);
  }

  lemma LayoutIsEntered(entries: seq<Entry>, start: nat, end: nat, keys: seq<Value>, values: Table)
    requires EntriesFill(entries, start, end, keys, values)
    ensures EnterAll(entries, start, end, map[]).Ok? <==> NoEqualsSign(values)
    ensures NoEqualsSign(values) ==> EnterAll(entries, start, end, map[]) == Ok(values)
  {
    EntriesAreEntered(entries, start, end, keys, values, map[]);
    SortedKeysAreTheKeys(values.Keys);
    FillAll(values);
    assert NoEqualsSign(values) <==> Plain(keys);
  }

  lemma TableIsRead(lines: seq<string>, start: nat, end: nat)
    requires TableAt(lines, start, end)
    ensures ReadTable(lines) == EnterAll(Entries(lines), start + 1, end, map[])
  {
    TableIsFound(lines, start, end);
  }

  /** Reading a laid out table gives the rendered values exactly when no key has an equals sign. */
  lemma LayoutIsRead(before: seq<string>, values: Table, after: seq<string>)
    requires Ahead(before) && Following(after) && AllUnpaired(values)
    ensures ReadTable(Layout(before, Rendered(values), after)).Ok? <==> NoEqualsSign(values)
    ensures NoEqualsSign(values) ==> ReadTable(Layout(before, Rendered(values), after)) == Ok(values)
  {
    var rendered := Rendered(values);
    var lines := Layout(before, rendered, after);
    var end := |before| + |rendered| + if after == [] then 0 else 1;
    RenderedIsTableLike(values);
    LayoutHasTable(before, rendered, after);
    TableIsRead(lines, |before|, end);
    var keys := SortedKeys(values.Keys);
    RenderedCount(values);
    LayoutEntries(before, values, after, lines, keys);
    LayoutFills(before, rendered, after, lines, end, keys, values);
    LayoutIsEntered(Entries(lines), |before| + 1, end, keys, values);
  }
}
