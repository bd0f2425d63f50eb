/**
 Merging environment variables into the table: what is written is what is read back, the rest of the
 file stays, and a second merge changes nothing.
 */
module TomlSync {
  import opened Wrappers
  import opened Text
  import opened JsonString
  import opened TomlTable
  import opened TomlLayout

  // ---------- the edit of the lines ----------

  /** `s.endswith("\n")`. */
  predicate Newlined(s: string) {
    s != "" && s[|s| - 1] == '\n'
  }

  /** Without a table: the last line is ended, and an empty line follows unless all lines are blank. */
  function Terminated(lines: seq<string>): seq<string> {
    if lines != [] && !Newlined(lines[|lines| - 1]) then lines[..|lines| - 1] + [lines[|lines| - 1] + "\n"] else lines
  }

  function Separated(lines: seq<string>): seq<string> {
    var ended := Terminated(lines);
    if exists i :: 0 <= i < |ended| && Strip(ended[i]) != "" then ended + ["\n"] else ended
  }

  function Replacement(rendered: seq<string>, last: bool): seq<string>
    requires rendered != []
  {
    if !last && Strip(rendered[|rendered| - 1]) != "" then rendered + ["\n"] else rendered
  }

  /** The lines with the table replaced, or appended where there is none. */
  function Edited(lines: seq<string>, range: Option<(nat, nat)>, rendered: seq<string>): seq<string>
    requires range.Some? ==> range.value.0 < range.value.1 <= |lines|
    requires rendered != []
  {
    if range.None? then Separated(lines) + rendered
    else lines[..range.value.0] + (Replacement(rendered, range.value.1 == |lines|) + lines[range.value.1..])
  }

  /** What the text of a settings file says of the table. */
  function Current(text: string): Result<Table, Problem> {
    ReadTable(SplitLines(text))
  }

  function Merge(existing: Table, env: Table): Table {
    existing + env
  }

  /** The text after merging. */
  ghost function Merged(text: string, env: Table): string
    requires Current(text).Ok?
  {
    var lines := SplitLines(text);
    RenderedIsTableLike(Merge(Current(text).value, env));
    Join(Edited(lines, FindTable(lines).value, Rendered(Merge(Current(text).value, env))))
  }

  /** Variables of the environment whose value was missing or different, and those that were missing. */
  function Counts(env: Table, before: Table): (nat, nat) {
    (|set k | k in env && (k !in before || before[k] != env[k])|, |env.Keys - before.Keys|)
  }

  // ---------- the values of a file are strings that can be written ----------

  lemma {:induction false} BareKeyIsUnpaired(s: string)
    ensures BareKey(s).Some? ==> forall i :: 0 <= i < |BareKey(s).value| ==> 0 <= BareKey(s).value[i] < 0x80
  {
    if s != "" { BareKeyIsUnpaired(s[1..]); }
  }

  lemma KeyIsUnpaired(text: string)
    ensures ParseKey(text).Some? ==> Unpaired(ParseKey(text).value)
  {
    var t := Strip(text);
    if t != "" {
      if Decode(t[1..]).Some? { DecodedIsUnpaired(t[1..]); }
      BareKeyIsUnpaired(t);
    }
  }

  lemma ValueIsUnpaired(text: string)
    ensures ParseValue(text).Some? ==> Unpaired(ParseValue(text).value)
  {
    var t := Strip(text);
    if t != "" && Decode(t[1..]).Some? { DecodedIsUnpaired(t[1..]); }
  }

  predicate EntryUnpaired(e: Entry) {
    e.Binding? ==> Unpaired(e.key) && (e.value.Some? ==> Unpaired(e.value.value))
  }

  /** The two sides of a statement that is a binding. */
  lemma BindingSides(statement: string) returns (left: string, right: string)
    ensures var e := ReadStatement(statement); e.Binding? ==> ParseKey(left) == Some(e.key) && e.value == ParseValue(right)
  {
    var i := UpTo(statement, '=');
    left := statement[..i];
    right := if i < |statement| then statement[i + 1..] else "";
  }

  lemma StatementIsUnpaired(statement: string)
    ensures EntryUnpaired(ReadStatement(statement))
  {
    var left, right := BindingSides(statement);
    KeyIsUnpaired(left);
    ValueIsUnpaired(right);
  }

  lemma EntryIsUnpaired(raw: string)
    ensures EntryUnpaired(ReadEntry(raw))
  {
    StatementIsUnpaired(Strip(CommentFree(raw)));
  }

  lemma {:induction false} EnteredIsUnpaired(entries: seq<Entry>, index: nat, end: nat, values: Table)
    requires index <= end <= |entries| && AllUnpaired(values)
    requires forall i :: 0 <= i < |entries| ==> EntryUnpaired(entries[i])
    ensures EnterAll(entries, index, end, values).Ok? ==> AllUnpaired(EnterAll(entries, index, end, values).value)
    decreases end - index
  {
    if index < end {
      assert EntryUnpaired(entries[index]);
      var next := Enter(entries[index], index + 1, values);
      if next.Ok? { EnteredIsUnpaired(entries, index + 1, end, next.value); }
    }
  }

  lemma CurrentIsUnpaired(text: string)
    ensures Current(text).Ok? ==> AllUnpaired(Current(text).value)
  {
    var lines := SplitLines(text);
    var range := FindTable(lines);
    if range.Ok? && range.value.Some? {
      forall i | 0 <= i < |lines| ensures EntryUnpaired(Entries(lines)[i]) {
        EntryAt(lines, i);
        EntryIsUnpaired(lines[i]);
      }
      EnteredIsUnpaired(Entries(lines), range.value.value.0 + 1, range.value.value.1, map[]);
    }
  }

  // ---------- the edited file is laid out ----------

  lemma SurroundingsFit(lines: seq<string>, start: nat, end: nat)
    requires Proper(lines) && TableAt(lines, start, end)
    ensures Ahead(lines[..start]) && Following(lines[end..])
  {
    assert forall k :: 0 <= k < |lines| - end ==> lines[end..][k] == lines[end + k];
  }

  lemma ReplacementIsPart(rendered: seq<string>, after: seq<string>)
    requires TableLike(rendered)
    ensures Replacement(rendered, after == []) + after == rendered + Tail(after)
  {
    LastIsVisible(rendered);
    if after != [] { assert (rendered + ["\n"]) + after == rendered + (["\n"] + after); }
  }

  lemma EditIsLayout(lines: seq<string>, start: nat, end: nat, rendered: seq<string>)
    requires start < end <= |lines| && TableLike(rendered)
    ensures Edited(lines, Some((start, end)), rendered) == Layout(lines[..start], rendered, lines[end..])
  {
    ReplacementIsPart(rendered, lines[end..]);
    assert end == |lines| <==> lines[end..] == [];
  }

  lemma LastIsVisible(rendered: seq<string>)
    requires TableLike(rendered)
    ensures Strip(rendered[|rendered| - 1]) != ""
  {
    if |rendered| > 1 { assert EntryLike(rendered[|rendered| - 1]); }
  }

  /** A newline added to a line does not make it a header. */
  lemma {:induction false} LStripNewline(s: string)
    ensures LStrip(s + "\n") == if LStrip(s) == "" then "" else LStrip(s) + "\n"
  {
    if s == "" {
      assert s + "\n" == "\n" + "";
      LStripSkips("\n", "");
    } else if IsSpace(s[0]) {
      LStripNewline(s[1..]);
      assert (s + "\n")[1..] == s[1..] + "\n";
    }
  }

  lemma EndsNewline(s: string)
    ensures Ends(s + "\n") <==> Ends(s)
  {
    LStripNewline(s);
  }

  lemma TableNewline(s: string)
    ensures IsTable(s + "\n") <==> IsTable(s)
  {
    LStripNewline(s);
    var t := LStrip(s);
    if t != "" {
      if HEADER <= t {
        assert (t + "\n")[|HEADER|..] == t[|HEADER|..] + "\n";
        EndsNewline(t[|HEADER|..]);
      } else if HEADER <= t + "\n" {
        HeaderEnds(t);
      }
    }
  }

  lemma HeaderEnds(t: string)
    requires HEADER <= t + "\n"
    ensures HEADER <= t
  {
    assert HEADER[|HEADER| - 1] == ']';
    assert (t + "\n")[|HEADER| - 1] == ']';
  }

  /** Lines ended as `Terminated` does it, cut at every break again. */
  function Recut(lines: seq<string>): seq<string> {
    if lines == [] || Newlined(lines[|lines| - 1]) then lines
    else if Broken(lines[|lines| - 1]) then lines + ["\n"]
    else lines[..|lines| - 1] + [lines[|lines| - 1] + "\n"]
  }

  lemma RecutText(init: seq<string>, last: string)
    requires OneLine(last)
    ensures Join(Recut(init + [last])) == Join(Terminated(init + [last]))
  {
    var lines := init + [last];
    assert lines[..|init|] == init;
    JoinAppend(init, [last]);
    JoinAppend(lines, ["\n"]);
    JoinAppend(init, [last + "\n"]);
    JoinOne(last);
    JoinOne("\n");
    JoinOne(last + "\n");
  }

  lemma NewlinedIsLine(last: string)
    requires OneLine(last) && !Broken(last)
    ensures OneLine(last + "\n") && Broken(last + "\n")
  {
    assert (last + "\n")[..|last|] == last[..|last| - 1] + [last[|last| - 1]];
  }

  lemma AheadWith(init: seq<string>, last: string)
    requires Ahead(init) && OneLine(last) && Broken(last) && !IsTable(last)
    ensures Ahead(init + [last])
  {
  }

  lemma RecutStaysAhead(init: seq<string>, last: string)
    requires Ahead(init) && OneLine(last) && !IsTable(last)
    ensures Ahead(Recut(init + [last]))
  {
    var lines := init + [last];
    assert lines[..|init|] == init;
    NewlineIsBlank();
    if Broken(last) {
      AheadWith(init, last);
      AheadWith(lines, "\n");
    } else {
      NewlinedIsLine(last);
      TableNewline(last);
      AheadWith(init, last + "\n");
    }
  }

  lemma RecutIsAhead(lines: seq<string>)
    requires Proper(lines) && forall k :: 0 <= k < |lines| ==> !IsTable(lines[k])
    ensures Ahead(Recut(lines)) && Join(Recut(lines)) == Join(Terminated(lines))
  {
    if lines != [] {
      var init, last := lines[..|lines| - 1], lines[|lines| - 1];
      assert lines == init + [last];
      RecutText(init, last);
      RecutStaysAhead(init, last);
    }
  }

  lemma JoinOne(s: string)
    ensures Join([s]) == s
  {
    assert Join([]) == "";
  }

  lemma SameTextAppended(a: seq<string>, b: seq<string>, more: seq<string>)
    requires Join(a) == Join(b)
    ensures Join(a + more) == Join(b + more)
  {
    JoinAppend(a, more);
    JoinAppend(b, more);
  }

  lemma AheadMore(before: seq<string>)
    requires Ahead(before)
    ensures Ahead(before + ["\n"])
  {
    NewlineIsBlank();
  }

  /** Lines appended to: the same text as lines that end properly before the table. */
  lemma AppendIsLayout(lines: seq<string>, rendered: seq<string>) returns (before: seq<string>)
    requires Proper(lines) && (forall k :: 0 <= k < |lines| ==> !IsTable(lines[k])) && rendered != []
    ensures Ahead(before) && Join(Edited(lines, None, rendered)) == Join(Layout(before, rendered, []))
  {
    before := Recut(lines);
    RecutIsAhead(lines);
    if Separated(lines) != Terminated(lines) {
      AheadMore(before);
      SameTextAppended(before, Terminated(lines), ["\n"]);
      before := before + ["\n"];
    }
    SameTextAppended(before, Separated(lines), rendered);
    assert rendered + Tail([]) == rendered;
  }

  /** Every merge leaves a laid out file. */
  lemma MergedIsLayout(text: string, env: Table) returns (before: seq<string>, after: seq<string>)
    requires Current(text).Ok?
    ensures Ahead(before) && Following(after)
    ensures SplitLines(Merged(text, env)) == Layout(before, Rendered(Merge(Current(text).value, env)), after)
  {
    var lines := SplitLines(text);
    var rendered := Rendered(Merge(Current(text).value, env));
    JoinOfSplit(text);
    RenderedIsTableLike(Merge(Current(text).value, env));
    var range := FindTable(lines).value;
    if range.None? {
      NoTableIsFound(lines);
      after := [];
      before := AppendIsLayout(lines, rendered);
    } else {
      var (start, end) := range.value;
      TableIsFound(lines, start, end);
      EditIsLayout(lines, start, end, rendered);
      SurroundingsFit(lines, start, end);
      before, after := lines[..start], lines[end..];
    }
    LayoutIsProper(before, rendered, after);
    SplitOfJoin(Layout(before, rendered, after));
  }

  // ---------- the theorems ----------

  /**
   For every settings file that can be read and every environment: reading the merged file gives the
   merged variables if and only if none of their names contains an equals sign; otherwise it fails.
   */
  lemma MergeIsReadBack(text: string, env: Table)
    requires Current(text).Ok? && AllUnpaired(env)
    ensures var merged := Merge(Current(text).value, env);
            && (Current(Merged(text, env)) == Ok(merged) <==> NoEqualsSign(merged))
            && (Current(Merged(text, env)).Err? <==> !NoEqualsSign(merged))
  {
    CurrentIsUnpaired(text);
    var merged := Merge(Current(text).value, env);
    var before, after := MergedIsLayout(text, env);
    LayoutIsRead(before, merged, after);
  }

  lemma LayoutIsFound(before: seq<string>, rendered: seq<string>, after: seq<string>, lines: seq<string>, end: nat)
    requires Ahead(before) && TableLike(rendered) && Following(after) && lines == Layout(before, rendered, after)
    requires end == |before| + |rendered| + if after == [] then 0 else 1
    ensures FindTable(lines) == Ok(Some((|before|, end)))
  {
    LayoutHasTable(before, rendered, after);
    TableIsFound(lines, |before|, end);
  }

  lemma LayoutEnds(before: seq<string>, rendered: seq<string>, after: seq<string>, lines: seq<string>, end: nat)
    requires lines == Layout(before, rendered, after) && end == |before| + |rendered| + if after == [] then 0 else 1
    ensures end <= |lines| && lines[..|before|] == before && lines[end..] == after
  {
    LayoutParts(before, rendered, after);
  }

  lemma LayoutSides(before: seq<string>, rendered: seq<string>, after: seq<string>, lines: seq<string>) returns (end: nat)
    requires Ahead(before) && TableLike(rendered) && Following(after) && lines == Layout(before, rendered, after)
    ensures |before| < end <= |lines| && FindTable(lines) == Ok(Some((|before|, end)))
    ensures lines[..|before|] == before && lines[end..] == after
  {
    end := |before| + |rendered| + if after == [] then 0 else 1;
    LayoutIsFound(before, rendered, after, lines, end);
    LayoutEnds(before, rendered, after, lines, end);
  }

  lemma LayoutIsKept(before: seq<string>, rendered: seq<string>, after: seq<string>, lines: seq<string>)
    requires Ahead(before) && TableLike(rendered) && Following(after) && lines == Layout(before, rendered, after)
    ensures FindTable(lines).Ok? && Edited(lines, FindTable(lines).value, rendered) == lines
  {
    var end := LayoutSides(before, rendered, after, lines);
    EditIsLayout(lines, |before|, end, rendered);
  }

  lemma NothingToCount(env: Table, merged: Table)
    requires forall k :: k in env ==> k in merged && merged[k] == env[k]
    ensures Counts(env, merged) == (0, 0) && Merge(merged, env) == merged
  {
    assert (set k | k in env && (k !in merged || merged[k] != env[k])) == {};
    assert env.Keys - merged.Keys == {};
  }

  /** Merging the same environment again changes nothing and reports no change. */
  lemma SecondMergeIsIdle(text: string, env: Table)
    requires Current(text).Ok? && AllUnpaired(env) && NoEqualsSign(Merge(Current(text).value, env))
    ensures var once := Merged(text, env);
            Current(once).Ok? && Merged(once, env) == once && Counts(env, Current(once).value) == (0, 0)
  {
    var once, merged := Merged(text, env), Merge(Current(text).value, env);
    MergeIsReadBack(text, env);
    NothingToCount(env, merged);
    var before, after := MergedIsLayout(text, env);
    RenderedIsTableLike(merged);
    LayoutIsKept(before, Rendered(merged), after, SplitLines(once));
    JoinOfSplit(once);
  }

  /** The lines before and after the table of a file stay as they are, and where they are. */
  lemma OtherLinesStay(text: string, env: Table, start: nat, end: nat) returns (end': nat)
    requires Current(text).Ok? && FindTable(SplitLines(text)) == Ok(Some((start, end)))
    ensures var lines, after := SplitLines(text), SplitLines(Merged(text, env));
            && start < end' <= |after|
            && FindTable(after) == Ok(Some((start, end')))
            && after[..start] == lines[..start]
            && after[end'..] == lines[end..]
  {
    var lines := SplitLines(text);
    var rendered := Rendered(Merge(Current(text).value, env));
    RenderedIsTableLike(Merge(Current(text).value, env));
    JoinOfSplit(text);
    TableIsFound(lines, start, end);
    SurroundingsFit(lines, start, end);
    EditIsLayout(lines, start, end, rendered);
    LayoutIsProper(lines[..start], rendered, lines[end..]);
    SplitOfJoin(Layout(lines[..start], rendered, lines[end..]));
    end' := LayoutSides(lines[..start], rendered, lines[end..], Layout(lines[..start], rendered, lines[end..]));
  }

  lemma SeparatedText(lines: seq<string>) returns (newlines: string)
    ensures newlines == "" || newlines == "\n" || newlines == "\n\n"
    ensures Join(Separated(lines)) == Join(lines) + newlines
  {
    newlines := TerminatedText(lines);
    JoinAppend(Terminated(lines), ["\n"]);
    JoinOne("\n");
    if Separated(lines) != Terminated(lines) {
      assert "" + "\n" == "\n" && "\n" + "\n" == "\n\n";
      newlines := newlines + "\n";
    }
  }

  /** Without a table, the text stays in front: only newlines come between it and the table. */
  lemma TextStaysInFront(text: string, env: Table) returns (newlines: string)
    requires Current(text).Ok? && FindTable(SplitLines(text)) == Ok(None)
    ensures newlines == "" || newlines == "\n" || newlines == "\n\n"
    ensures Merged(text, env) == text + newlines + Join(Rendered(Merge(Current(text).value, env)))
  {
    JoinOfSplit(text);
    JoinAppend(Separated(SplitLines(text)), Rendered(Merge(Current(text).value, env)));
    newlines := SeparatedText(SplitLines(text));
  }

  lemma TerminatedText(lines: seq<string>) returns (newline: string)
    ensures newline == "" || newline == "\n"
    ensures Join(Terminated(lines)) == Join(lines) + newline
  {
    if Terminated(lines) == lines {
      newline := "";
    } else {
      newline := "\n";
      var init, last := lines[..|lines| - 1], lines[|lines| - 1];
      assert lines == init + [last];
      JoinOne(last);
      JoinOne(last + "\n");
      JoinAppend(init, [last]);
      JoinAppend(init, [last + "\n"]);
    }
  }

  // ---------- the program ----------

  method SortKeys(keys: set<Value>) returns (r: seq<Value>)
    ensures r == SortedKeys(keys)
  {
    r := [];
    var left := keys;
    while left != {}
      invariant r + SortedKeys(left) == SortedKeys(keys)
      decreases left
    {
      HasLeast(left);
      var k :| k in left && forall j :: j in left ==> CodesLe(k, j);
      CodesOrder(k, Least(left));
      r, left := r + [k], left - {k};
    }
  }

  lemma {:induction false} EntryLinesMore(keys: seq<Value>, key: Value, values: Table)
    requires KeysIn(keys + [key], values)
    ensures KeysIn(keys, values) && key in values
    ensures EntryLines(keys + [key], values) == EntryLines(keys, values) + [EntryLine(key, values[key])]
  {
    assert (keys + [key])[|keys|] == key;
    assert forall i :: 0 <= i < |keys| ==> (keys + [key])[i] == keys[i];
    if keys == [] {
      assert [key][1..] == [];
    } else {
      assert (keys + [key])[1..] == keys[1..] + [key];
      EntryLinesMore(keys[1..], key, values);
    }
  }

  lemma EntryLinesUpTo(keys: seq<Value>, i: nat, values: Table)
    requires KeysIn(keys, values) && i < |keys|
    ensures KeysIn(keys[..i], values) && KeysIn(keys[..i + 1], values)
    ensures EntryLines(keys[..i + 1], values) == EntryLines(keys[..i], values) + [EntryLine(keys[i], values[keys[i]])]
  {
    assert keys[..i + 1] == keys[..i] + [keys[i]];
    EntryLinesMore(keys[..i], keys[i], values);
  }

  method RenderEntries(keys: seq<Value>, values: Table) returns (lines: seq<string>)
    requires KeysIn(keys, values)
    ensures lines == [HEADER + "\n"] + EntryLines(keys, values)
  {
    lines := [HEADER + "\n"];
    var i := 0;
    while i < |keys|
      invariant 0 <= i <= |keys| && KeysIn(keys[..i], values)
      invariant lines == [HEADER + "\n"] + EntryLines(keys[..i], values)
    {
      EntryLinesUpTo(keys, i, values);
      lines := lines + [EntryLine(keys[i], values[keys[i]])];
      i := i + 1;
    }
    assert keys[..i] == keys;
  }

  method RenderSetTable(values: Table) returns (lines: seq<string>)
    ensures lines == Rendered(values)
  {
    SortedKeysAreTheKeys(values.Keys);
    var keys := SortKeys(values.Keys);
    lines := RenderEntries(keys, values);
  }

  /** The edit of the lines in `sync_codex`. */
  method EditLines(lines0: seq<string>, range: Option<(nat, nat)>, rendered: seq<string>) returns (lines: seq<string>)
    requires range.Some? ==> range.value.0 < range.value.1 <= |lines0|
    requires rendered != []
    ensures lines == Edited(lines0, range, rendered)
  {
    lines := lines0;
    if range.None? {
      if lines != [] && !Newlined(lines[|lines| - 1]) {
        lines := lines[..|lines| - 1] + [lines[|lines| - 1] + "\n"];
      }
      if exists i :: 0 <= i < |lines| && Strip(lines[i]) != "" { lines := lines + ["\n"]; }
      lines := lines + rendered;
    } else {
      var replacement := rendered;
      if range.value.1 < |lines| && Strip(replacement[|replacement| - 1]) != "" { replacement := replacement + ["\n"]; }
      lines := lines[..range.value.0] + (replacement + lines[range.value.1..]);
    }
  }

  function TextOf(text: Option<string>): string {
    match text
    case None => ""
    case Some(t) => t
  }

  class SettingsFile {
    var text: Option<string>

    /** `sync_codex`: a missing file is an empty one; on an error, or without `write`, nothing changes. */
    method SyncCodex(env: Table, dryRun: bool) returns (r: Result<(nat, nat), Problem>)
      modifies this
      ensures var before := Current(TextOf(old(text)));
              && (before.Err? ==> r == Err(before.error) && text == old(text))
              && (before.Ok? ==> r == Ok(Counts(env, before.value)))
              && (before.Ok? && dryRun ==> text == old(text))
              && (before.Ok? && !dryRun ==> text == Some(Merged(TextOf(old(text)), env)))
    {
      var lines := SplitLines(TextOf(text));
      var range := FindExplicitTable(lines);
      if range.Err? { return Err(range.error); }
      var existing := ParseSetTable(lines, range.value);
      if existing.Err? { return Err(existing.error); }
      var merged := Merge(existing.value, env);
      var rendered := RenderSetTable(merged);
      RenderedIsTableLike(merged);
      r := Ok(Counts(env, existing.value));
      if !dryRun {
        lines := EditLines(lines, range.value, rendered);
        text := Some(Join(lines));
      }
    }
  }
}
