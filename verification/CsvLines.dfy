/**
 Cutting an exclusion file into metadata lines and logical records: a record goes on over line breaks
 while a quoted field is open.
 */
module CsvLines {
  import opened Wrappers
  import opened Text

  datatype Failure = Invalid | Budget

  datatype Item = Meta(key: string, value: string) | Record(text: string)

  const MAX_RECORDS := 100_000

  // ---------- quote state ----------

  /** Whether a quoted field is open after a text: every quote toggles. */
  function Parity(t: string, open: bool): bool {
    if t == "" then open else Parity(t[1..], open != (t[0] == '"'))
  }

  /** Skipping a doubled quote inside a field and toggling twice are the same. */
  method AdvanceQuoteState(text: string, quoted0: bool) returns (quoted: bool)
    ensures quoted == Parity(text, quoted0)
  {
    quoted := quoted0;
    var index := 0;
    while index < |text|
      invariant 0 <= index <= |text|
      invariant Parity(text[index..], quoted) == Parity(text, quoted0)
    {
      assert text[index..][1..] == text[index + 1..];
      if text[index] == '"' {
        if quoted && index + 1 < |text| && text[index + 1] == '"' {
          assert text[index + 1..][1..] == text[index + 2..];
          index := index + 2;
          continue;
        }
        quoted := !quoted;
      }
      index := index + 1;
    }
  }

  lemma {:induction false} ParityAppend(a: string, b: string, open: bool)
    ensures Parity(a + b, open) == Parity(b, Parity(a, open))
  {
    if a == "" {
      assert a + b == b;
    } else {
      assert (a + b)[1..] == a[1..] + b;
      ParityAppend(a[1..], b, open != (a[0] == '"'));
    }
  }

  // ---------- items ----------

  predicate StartsComment(line: string) {
    var t := LStrip(line);
    t != "" && t[0] == '#'
  }

  /** The metadata of a comment line, `None` for a plain comment. */
  function MetaOf(line: string): Option<Item>
    requires StartsComment(line)
  {
    var meta := Strip(LStrip(line)[1..]);
    var i := UpTo(meta, '=');
    if i == |meta| then None else Some(Meta(Strip(meta[..i]), Strip(meta[i + 1..])))
  }

  function Cons(item: Item, more: Result<seq<Item>, Failure>): Result<seq<Item>, Failure> {
    if more.Err? then more else Ok([item] + more.value)
  }

  /** The items of some lines, given the record begun and the number of records before. */
  function Items(lines: seq<string>, buffer: string, quoted: bool, count: nat): Result<seq<Item>, Failure> {
    if lines == [] then if buffer != "" || quoted then Err(Invalid) else Ok([])
    else if buffer == "" && Strip(lines[0]) == "" then Items(lines[1..], "", quoted, count)
    else if buffer == "" && StartsComment(lines[0]) then
      var meta := MetaOf(lines[0]);
      var more := Items(lines[1..], "", quoted, count);
      if meta.None? then more else Cons(meta.value, more)
    else if Parity(lines[0], quoted) then Items(lines[1..], buffer + lines[0], true, count)
    else if count + 1 > MAX_RECORDS then Err(Budget)
    else Cons(Record(buffer + lines[0]), Items(lines[1..], "", false, count + 1))
  }

  /** What the text from here on yields when no record is open. */
  function Rest(text: string, count: nat): Result<seq<Item>, Failure> {
    Items(SplitLines(text), "", false, count)
  }

  function Prepend(items: seq<Item>, more: Result<seq<Item>, Failure>): Result<seq<Item>, Failure> {
    if more.Err? then more else Ok(items + more.value)
  }

  lemma PrependCons(items: seq<Item>, item: Item, more: Result<seq<Item>, Failure>)
    ensures Prepend(items, Cons(item, more)) == Prepend(items + [item], more)
  {
    if more.Ok? { assert items + ([item] + more.value) == items + [item] + more.value; }
  }

  lemma PrependNothing(more: Result<seq<Item>, Failure>)
    ensures Prepend([], more) == more
  {
    if more.Ok? { assert [] + more.value == more.value; }
  }

  method LogicalEntries(text: string) returns (r: Result<seq<Item>, Failure>)
    ensures r == Rest(text, 0)
  {
    var lines := SplitLines(text);
    var items: seq<Item>, buffer, quoted, count := [], "", false, 0;
    ghost var goal := Rest(text, 0);
    var i := 0;
    assert lines[i..] == lines;
    PrependNothing(goal);
    while i < |lines|
      invariant 0 <= i <= |lines| && 0 <= count
      invariant goal == Prepend(items, Items(lines[i..], buffer, quoted, count))
    {
      var line := lines[i];
      ghost var more := lines[i + 1..];
      assert lines[i..] == [line] + more && ([line] + more)[1..] == more;
      i := i + 1;
      if buffer == "" && Strip(line) == "" { continue; }
      if buffer == "" && StartsComment(line) {
        var meta := MetaOf(line);
        if meta.Some? {
          PrependCons(items, meta.value, Items(more, "", quoted, count));
          items := items + [meta.value];
        }
        continue;
      }
      buffer := buffer + line;
      quoted := AdvanceQuoteState(line, quoted);
      if !quoted {
        count := count + 1;
        if count > MAX_RECORDS { return Err(Budget); }
        PrependCons(items, Record(buffer), Items(more, "", false, count));
        items := items + [Record(buffer)];
        buffer := "";
      }
    }
    assert lines[i..] == [];
    assert items + [] == items;
    r := if buffer != "" || quoted then Err(Invalid) else Ok(items);
  }

  // ---------- scanning printed text ----------

  /** Every line break of the text lies inside a quoted field. */
  predicate BreaksQuoted(t: string, open: bool) {
    t == "" || ((IsBreak(t[0]) ==> open) && BreaksQuoted(t[1..], open != (t[0] == '"')))
  }

  lemma {:induction false} BreaksAppend(a: string, b: string, open: bool)
    ensures BreaksQuoted(a + b, open) <==> BreaksQuoted(a, open) && BreaksQuoted(b, Parity(a, open))
  {
    if a == "" {
      assert a + b == b;
    } else {
      assert (a + b)[1..] == a[1..] + b;
      BreaksAppend(a[1..], b, open != (a[0] == '"'));
    }
  }

  lemma SplitFirst(line: string, rest: string)
    requires OneLine(line) && Broken(line)
    ensures SplitLines(line + rest) == [line] + SplitLines(rest)
  {
    FirstLineOf(line, rest);
    assert (line + rest)[|line|..] == rest;
  }

  /** The first line of a text, cut off. */
  lemma CutLine(t: string, x: char) returns (line: string, tail: string)
    requires IsBreak(x)
    ensures t + [x] == line + tail && OneLine(line) && Broken(line)
    ensures tail != "" ==> |line| <= |t| && line == t[..|line|] && tail == t[|line|..] + [x]
    ensures tail == "" ==> line == t + [x]
  {
    var u := t + [x];
    FirstLineIsOne(u);
    line := FirstLine(u);
    tail := u[|line|..];
    if tail != "" { assert line == t[..|line|]; }
  }

  /** A line that ends inside a quoted field leaves it open. */
  lemma OpenAfterBreak(line: string, open: bool)
    requires Broken(line) && BreaksQuoted(line, open)
    ensures Parity(line, open)
  {
    var init, last := line[..|line| - 1], line[|line| - 1..];
    assert line == init + last;
    ParityAppend(init, last, open);
    BreaksAppend(init, last, open);
    assert last[1..] == "";
  }

  lemma ItemsOfOpen(lines: seq<string>, buffer: string, quoted: bool, count: nat)
    requires lines != [] && (buffer != "" || (Strip(lines[0]) != "" && !StartsComment(lines[0])))
    ensures Items(lines, buffer, quoted, count)
            == if Parity(lines[0], quoted) then Items(lines[1..], buffer + lines[0], true, count)
               else if count + 1 > MAX_RECORDS then Err(Budget)
               else Cons(Record(buffer + lines[0]), Items(lines[1..], "", false, count + 1))
  {
  }

  function Recorded(text: string, rest: string, count: nat): Result<seq<Item>, Failure> {
    if count + 1 > MAX_RECORDS then Err(Budget) else Cons(Record(text), Rest(rest, count + 1))
  }

  lemma ScanLine(line: string, tail: string, buffer: string, quoted: bool, count: nat)
    requires OneLine(line) && Broken(line) && (buffer == "" ==> Strip(line) != "" && !StartsComment(line))
    ensures Items(SplitLines(line + tail), buffer, quoted, count)
            == if Parity(line, quoted) then Items(SplitLines(tail), buffer + line, true, count) else Recorded(buffer + line, tail, count)
  {
    SplitFirst(line, tail);
    assert ([line] + SplitLines(tail))[1..] == SplitLines(tail);
    ItemsOfOpen([line] + SplitLines(tail), buffer, quoted, count);
  }

  lemma OpenLine(line: string, t: string, quoted: bool)
    requires Broken(line) && BreaksQuoted(line + t, quoted)
    ensures Parity(line, quoted) && BreaksQuoted(t, true) && Parity(line + t, quoted) == Parity(t, true)
  {
    ParityAppend(line, t, quoted);
    BreaksAppend(line, t, quoted);
    OpenAfterBreak(line, quoted);
  }

  lemma ClosedLine(t: string, x: char, quoted: bool)
    requires IsBreak(x)
    ensures Parity(t + [x], quoted) == Parity(t, quoted)
  {
    ParityAppend(t, [x], quoted);
    assert [x][1..] == "";
  }

  lemma TextCut(t: string, x: char, line: string, tail: string, rest: string)
    requires t + [x] == line + tail
    ensures t + [x] + rest == line + (tail + rest)
  {
    assert t + [x] + rest == (line + tail) + rest;
  }

  lemma BufferGrows(buffer: string, line: string, more: string, t: string, x: char)
    requires t == line + more
    ensures buffer + line + more + [x] == buffer + t + [x]
  {
    assert buffer + line + more == buffer + (line + more);
  }

  lemma BufferEnds(buffer: string, line: string, t: string, x: char)
    requires line == t + [x]
    ensures buffer + line == buffer + t + [x]
  {
  }

  /** A text whose breaks are all quoted, up to a break that is not, is one record. */
  lemma {:induction false} ScanRecord(buffer: string, t: string, x: char, rest: string, quoted: bool, count: nat)
    requires IsBreak(x) && BreaksQuoted(t, quoted) && !Parity(t, quoted)
    requires buffer == "" ==> var line := FirstLine(t + [x]); Strip(line) != "" && !StartsComment(line)
    ensures Items(SplitLines(t + [x] + rest), buffer, quoted, count) == Recorded(buffer + t + [x], rest, count)
    decreases |t|
  {
    var line, tail := CutLine(t, x);
    TextCut(t, x, line, tail, rest);
    FirstLineOf(line, tail);
    ScanLine(line, tail + rest, buffer, quoted, count);
    if tail == "" {
      ClosedLine(t, x, quoted);
      assert tail + rest == rest;
      BufferEnds(buffer, line, t, x);
    } else {
      var more := t[|line|..];
      assert t == line + more;
      OpenLine(line, more, quoted);
      ScanRecord(buffer + line, more, x, rest, true, count);
      BufferGrows(buffer, line, more, t, x);
    }
  }

  lemma ScanBlank(rest: string, count: nat)
    ensures Rest("\n" + rest, count) == Rest(rest, count)
  {
    SplitFirst("\n", rest);
    LStripSkips("\n", "");
    assert "\n" + "" == "\n";
  }

  predicate Tight(s: string) {
    s != "" && !IsSpace(s[0]) && !IsSpace(s[|s| - 1])
  }

  lemma TightIsStripped(s: string)
    requires Tight(s)
    ensures Strip(s) == s
  {
    assert "" + s + "" == s;
    StripAround("", s, "");
  }

  lemma MetaIsScanned(line: string, rest: string, item: Item, count: nat)
    requires OneLine(line) && Broken(line) && Strip(line) != "" && StartsComment(line) && MetaOf(line) == Some(item)
    ensures Rest(line + rest, count) == Cons(item, Rest(rest, count))
  {
    SplitFirst(line, rest);
    assert ([line] + SplitLines(rest))[1..] == SplitLines(rest);
  }

  lemma MetaLineIsOne(key: string, value: string, line: string)
    requires NoBreak(key) && NoBreak(value) && line == "# " + (key + ['='] + value) + "\n"
    ensures OneLine(line) && Broken(line)
  {
    assert line[..|line| - 1] == "# " + (key + ['='] + value);
  }

  /** A printed metadata line is read back. */
  lemma ScanMeta(key: string, value: string, rest: string, count: nat)
    requires Tight(key) && NoBreak(key) && (forall k :: 0 <= k < |key| ==> key[k] != '=')
    requires Tight(value) && NoBreak(value)
    ensures Rest("# " + key + "=" + value + "\n" + rest, count) == Cons(Meta(key, value), Rest(rest, count))
  {
    var line := "# " + (key + ['='] + value) + "\n";
    assert "# " + key + "=" + value + "\n" == line;
    MetaLine(key, value);
    MetaLineIsOne(key, value, line);
    MetaIsScanned(line, rest, Meta(key, value), count);
  }

  lemma CommentLine(meta: string)
    requires Tight(meta)
    ensures var line := "# " + meta + "\n"; Strip(line) != "" && StartsComment(line) && Strip(LStrip(line)[1..]) == meta
  {
    var line := "# " + meta + "\n";
    assert line[0] == '#' && LStrip(line) == line;
    RStripKeepsFirst(line);
    assert line[1..] == " " + meta + "\n";
    StripAround(" ", meta, "\n");
  }

  lemma MetaLine(key: string, value: string)
    requires Tight(key) && (forall k :: 0 <= k < |key| ==> key[k] != '=') && Tight(value)
    ensures var line := "# " + (key + ['='] + value) + "\n";
            Strip(line) != "" && StartsComment(line) && MetaOf(line) == Some(Meta(key, value))
  {
    var meta := key + ['='] + value;
    CommentLine(meta);
    UpToOf(key, '=', value);
    assert meta[..|key|] == key && meta[|key| + 1..] == value;
    TightIsStripped(key);
    TightIsStripped(value);
  }
}
