/**
 If printed text, scanned, starts with a record that reads as the row printed first, that row was
 safe to print.
 */
module CsvSafe {
  import opened Wrappers
  import opened Text
  import opened CsvText
  import opened CsvLines
  import opened CsvRows
  import opened CsvScan

  // ---------- where the first record starts ----------

  predicate Starts(line: string) {
    Strip(line) != "" && !StartsComment(line)
  }

  lemma ProperTail(lines: seq<string>)
    requires Proper(lines) && lines != []
    ensures Proper(lines[1..]) && OneLine(lines[0]) && (|lines| > 1 ==> Broken(lines[0]))
  {
    assert forall i :: 0 <= i < |lines[1..]| ==> lines[1..][i] == lines[i + 1];
  }

  lemma ClosedHere(buffer: string, line: string, more: seq<string>)
    requires more != [] ==> Broken(line)
    requires line != ""
    ensures buffer <= buffer + line <= buffer + (line + Join(more))
    ensures buffer + line == buffer + (line + Join(more)) || Broken(buffer + line)
  {
    assert buffer + (line + Join(more)) == (buffer + line) + Join(more);
    if more == [] { assert Join(more) == ""; } else { assert (buffer + line)[|buffer + line| - 1] == line[|line| - 1]; }
  }

  /** A record that is open takes whole lines. */
  lemma {:induction false} RecordGrows(lines: seq<string>, buffer: string, quoted: bool, count: nat) returns (p: string)
    requires Proper(lines) && buffer != "" && quoted && Items(lines, buffer, quoted, count).Ok?
    ensures Items(lines, buffer, quoted, count).value != [] && Items(lines, buffer, quoted, count).value[0] == Record(p)
    ensures buffer <= p <= buffer + Join(lines) && (p == buffer + Join(lines) || Broken(p))
    decreases |lines|
  {
    ProperTail(lines);
    var line, more := lines[0], lines[1..];
    if Parity(line, quoted) {
      p := RecordGrows(more, buffer + line, true, count);
      assert buffer + line + Join(more) == buffer + (line + Join(more));
      assert buffer <= buffer + line <= p;
    } else {
      p := buffer + line;
      ClosedHere(buffer, line, more);
    }
  }

  /** The first record starts at a line that is neither blank nor a comment. */
  lemma {:induction false} NextRecord(lines: seq<string>, count: nat) returns (k: nat, p: string)
    requires Proper(lines) && Items(lines, "", false, count).Ok?
    requires Items(lines, "", false, count).value != [] && Items(lines, "", false, count).value[0].Record?
    ensures Items(lines, "", false, count).value[0] == Record(p)
    ensures k < |lines| && Starts(lines[k]) && lines[k] <= p <= Join(lines[k..]) && (p == Join(lines[k..]) || Broken(p))
    decreases |lines|
  {
    ProperTail(lines);
    var line, more := lines[0], lines[1..];
    k, p := 0, line;
    if Strip(line) == "" || (StartsComment(line) && MetaOf(line).None?) {
      var j;
      j, p := NextRecord(more, count);
      k := j + 1;
      assert more[j..] == lines[k..];
    } else if !StartsComment(line) {
      assert lines[0..] == lines;
      assert "" + line == line;
      if Parity(line, false) {
        p := RecordGrows(more, line, true, count);
      } else {
        assert line <= line + Join(more);
        if |lines| == 1 { assert Join(more) == ""; }
      }
    }
  }

  // ---------- the first field ----------

  function Leading(s: string): string {
    s[..|s| - |LStrip(s)|]
  }

  /** A bare first field that begins a record: no break and no comment sign in front. */
  predicate LeadOk(s: string) {
    NoBreak(Leading(s)) && !StartsComment(s)
  }

  lemma LeadingIsBlank(s: string)
    ensures s == Leading(s) + LStrip(s) && Blank(Leading(s))
  {
    var w := LeadingBlanks(s);
    assert w == Leading(s);
  }

  /** A line of blanks up to a break is blank. */
  lemma ShortLineIsBlank(line: string, w: string)
    requires |line| <= |w| && line == w[..|line|] && Blank(w)
    ensures !Starts(line)
  {
    assert Blank(line);
    LStripBlank(line);
  }

  lemma LongLineShows(line: string, w: string, c: char)
    requires |w| < |line| && line[..|w|] == w && line[|w|] == c && Blank(w) && !IsSpace(c)
    ensures LStrip(line) != "" && LStrip(line)[0] == c
  {
    assert line == w + line[|w|..];
    LStripSkips(w, line[|w|..]);
  }

  /** A starting line shows the first visible character of the field it begins with. */
  lemma LeadIsOk(s: string, line: string, p: string)
    requires LStrip(s) != "" && s <= p && line <= p && OneLine(line) && Starts(line) && (line == p || Broken(line))
    ensures LeadOk(s)
  {
    var w, v := Leading(s), LStrip(s);
    LeadingIsBlank(s);
    assert |w| < |s| && s[|w|] == v[0] && w == p[..|w|] && s == p[..|s|] && line == p[..|line|];
    if |line| <= |w| {
      assert line == w[..|line|];
      ShortLineIsBlank(line, w);
    } else {
      assert line[..|w|] == w && line[|w|] == v[0];
      LongLineShows(line, w, v[0]);
      forall k | 0 <= k < |w| ensures !IsBreak(w[k]) { assert line[..|line| - 1][k] == w[k]; }
    }
  }

  lemma LineStart(lines: seq<string>, k: nat)
    requires Proper(lines) && k < |lines|
    ensures var x := Join(lines); var o := |Join(lines[..k])|;
            o < |x| && x[o..] == Join(lines[k..]) && (o > 0 ==> IsBreak(x[o - 1]))
  {
    assert lines == lines[..k] + lines[k..];
    JoinAppend(lines[..k], lines[k..]);
    assert Proper(lines[k..]) by { assert forall i :: 0 <= i < |lines[k..]| ==> lines[k..][i] == lines[k + i]; }
    JoinNonempty(lines[k..]);
    if k > 0 {
      assert lines[..k] == lines[..k - 1] + [lines[k - 1]];
      JoinAppend(lines[..k - 1], [lines[k - 1]]);
      assert Join([lines[k - 1]]) == lines[k - 1] by { assert [lines[k - 1]][1..] == []; }
      assert Broken(lines[k - 1]);
      var o := |Join(lines[..k])|;
      assert Join(lines)[o - 1] == Join(lines[..k])[o - 1];
    }
  }

  /** In tidy text no record is a bare field in quotes. */
  lemma NotInQuotes(x: string, o: nat, p: string, s: string, z: string)
    requires Bare(s) && Tidy(x) && o < |x| && (o > 0 ==> IsBreak(x[o - 1]))
    requires p <= x[o..] && (p == x[o..] || Broken(p)) && Delimited(z)
    ensures p != "\"" + s + "\"" + z
  {
    CleanSuffix(x, true, s, o);
    if p == "\"" + s + "\"" + z { PatternHere(x[o..], p, s, z); }
  }

  lemma PatternHere(t: string, p: string, s: string, z: string)
    requires p == "\"" + s + "\"" + z && p <= t && (p == t || Broken(p)) && Delimited(z)
    ensures AtPattern(t, s)
  {
    var q := "\"" + s + "\"";
    assert p[..|s| + 2] == q && t[..|s| + 2] == q;
    if z != "" {
      assert p[|s| + 2] == z[0] == t[|s| + 2];
    } else {
      assert p == q && p[|p| - 1] == '"';
    }
  }

  lemma LastLine(lines: seq<string>)
    requires lines != []
    ensures Join(lines[|lines| - 1..]) == lines[|lines| - 1]
  {
    assert lines[|lines| - 1..][1..] == [];
  }

  /** The first field of the first record, if bare, begins a line visibly. */
  lemma FirstFieldIsOk(x: string, count: nat, p: string, row: Row)
    requires Tidy(x) && Rest(x, count).Ok? && Rest(x, count).value != [] && Rest(x, count).value[0] == Record(p)
    requires Rows(p) == Some([row]) && row != [] && !Quoted(row[0]) && LStrip(row[0]) != ""
    ensures LeadOk(row[0])
  {
    var lines, s := SplitLines(x), row[0];
    JoinOfSplit(x);
    var k, q := NextRecord(lines, count);
    LineStart(lines, k);
    var o := |Join(lines[..k])|;
    var z := FirstFieldIsRead(p, row);
    if Delimited(z) { NotInQuotes(x, o, p, s, z); }
    assert s <= p;
    if k + 1 == |lines| { LastLine(lines); }
    LeadIsOk(s, lines[k], p);
  }

  // ---------- a broken field ----------

  /** The first break of a text that has one. */
  lemma {:induction false} FirstBreak(s: string) returns (init: string, x: char, more: string)
    requires !NoBreak(s)
    ensures s == init + [x] + more && NoBreak(init) && IsBreak(x)
  {
    if IsBreak(s[0]) {
      init, x, more := "", s[0], s[1..];
    } else {
      assert !NoBreak(s[1..]) by {
        var k :| 0 <= k < |s| && IsBreak(s[k]);
        assert s[1..][k - 1] == s[k];
      }
      init, x, more := FirstBreak(s[1..]);
      init := [s[0]] + init;
      assert s == [s[0]] + s[1..];
    }
  }

  lemma CutTexts(row: Row, i: nat, field: string)
    requires 0 < i < |row|
    ensures RowText(row[..i] + [field]) == FieldText(row[0]) + "," + RowText(row[1..][..i - 1] + [field])
  {
    assert (row[..i] + [field])[1..] == row[1..][..i - 1] + [field];
  }

  lemma BareParts(init: string, x: char, more: string)
    requires !Quoted(init + [x] + more)
    ensures !Quoted(init) && !Quoted(init + [x])
  {
    var s := init + [x] + more;
    assert forall k :: 0 <= k < |init| ==> s[k] == init[k];
    assert forall k :: 0 <= k < |init + [x]| ==> s[k] == (init + [x])[k];
  }

  /** The text of a row up to a break in an unquoted field. */
  lemma {:induction false} RowTextUpTo(row: Row, i: nat, init: string, x: char, more: string) returns (z: string)
    requires i < |row| && row[i] == init + [x] + more && !Quoted(row[i])
    ensures RowText(row) == RowText(row[..i] + [init]) + [x] + z
    ensures RowText(row[..i] + [init + [x]]) == RowText(row[..i] + [init]) + [x]
    decreases i
  {
    BareParts(init, x, more);
    if i == 0 {
      z := if |row| == 1 then more else more + "," + RowText(row[1..]);
      assert row[..0] + [init] == [init] && row[..0] + [init + [x]] == [init + [x]];
    } else {
      z := RowTextUpTo(row[1..], i - 1, init, x, more);
      CutTexts(row, i, init);
      CutTexts(row, i, init + [x]);
    }
  }

  /** A field alone on a line. */
  lemma SingleIsRead(s: string)
    requires Bare(s)
    ensures Rows(s) == Some([[s]])
  {
    FeedFieldText(FRESH, s);
    assert !Special(s[|s| - 1]);
    assert [] + [s] == [s] && [] + [[s]] == [[s]];
  }

  lemma CutRowIsRead(row: Row)
    requires row != [] && (|row| == 1 ==> Bare(row[0]))
    ensures Rows(RowText(row)) == Some([row])
  {
    if |row| == 1 {
      SingleIsRead(row[0]);
      assert row == [row[0]];
    } else {
      RowIsRead(row);
    }
  }

  lemma LeadingChar(w: string, s: string, init: string, x: char)
    requires w <= s && init + [x] <= s && NoBreak(w) && |init| < |w|
    ensures !IsBreak(x)
  {
    assert (init + [x])[|init|] == x;
    assert w[|init|] == s[|init|];
  }

  lemma LeadingEndsBefore(w: string, s: string, init: string, x: char)
    requires w <= s && init + [x] <= s && NoBreak(w) && IsBreak(x)
    ensures |w| <= |init|
  {
    if |init| < |w| { LeadingChar(w, s, init, x); }
  }

  /** A visible character behind blanks without a break comes before the first break. */
  lemma VisibleBeforeBreak(w: string, c: char, s: string, init: string, x: char)
    requires w <= s && |w| < |s| && s[|w|] == c && !IsSpace(c) && NoBreak(w) && init + [x] <= s && IsBreak(x)
    ensures |w| < |init| && init[..|w|] == w && init[|w|] == c
  {
    LeadingEndsBefore(w, s, init, x);
    assert (init + [x])[|init|] == x;
    assert s[..|init| + 1] == init + [x] && s[..|w|] == w;
  }

  lemma VisibleSplits(w: string, c: char, init: string, x: char)
    requires |w| < |init| && init[..|w|] == w && init[|w|] == c
    ensures init + [x] == w + [c] + (init[|w| + 1..] + [x])
  {
    assert init == init[..|w|] + [init[|w|]] + init[|w| + 1..];
  }

  lemma VisibleStarts(t: string, w: string, c: char, more: string)
    requires t == w + [c] + more && Blank(w) && NoBreak(w) && !IsSpace(c) && c != '#'
    ensures Starts(FirstLine(t))
  {
    FirstLineShows(w, c, more);
    RStripKeepsFirst(LStrip(FirstLine(t)));
  }

  /** The row up to a break in its first field shows that field's first character. */
  lemma FirstCutShows(s: string, init: string, x: char, more: string)
    requires LeadOk(s) && LStrip(s) != "" && s == init + [x] + more && NoBreak(init) && IsBreak(x)
    ensures Starts(FirstLine(init + [x]))
  {
    var w, c := Leading(s), LStrip(s)[0];
    LeadingIsBlank(s);
    assert init + [x] <= s;
    VisibleBeforeBreak(w, c, s, init, x);
    VisibleSplits(w, c, init, x);
    VisibleStarts(init + [x], w, c, init[|w| + 1..] + [x]);
  }

  lemma TextParts(a: string, z: string, rest: string)
    ensures a + z + "\n" + rest == a + (z + "\n" + rest)
  {
  }

  lemma CutIsScanned(t: Row, x: char, z: string, rest: string, count: nat)
    requires (forall i :: 0 <= i < |t| ==> Whole(t[i])) && IsBreak(x) && Starts(FirstLine(RowText(t) + [x]))
    ensures Rest(RowText(t) + [x] + z + "\n" + rest, count) == Recorded(RowText(t) + [x], z + "\n" + rest, count)
  {
    RowIsClosed(t);
    ScanFirst(RowText(t), x, z + "\n" + rest, count);
    TextParts(RowText(t) + [x], z, rest);
  }

  lemma CutIsWhole(row: Row, i: nat, init: string, x: char)
    requires i < |row| && NoBreak(init) && forall j :: 0 <= j < i ==> Whole(row[j])
    ensures var t := row[..i] + [init]; forall j :: 0 <= j < |t| ==> Whole(t[j])
    ensures (init + [x])[..|init + [x]| - 1] == init
  {
  }

  /** A row whose field `i` is the first to hold a bare break is cut there. */
  lemma RowIsCut(row: Row, i: nat, rest: string, count: nat) returns (cut: Row, after: string)
    requires |row| >= 2 && LStrip(row[0]) != "" && (Quoted(row[0]) || LeadOk(row[0]))
    requires i < |row| && !Whole(row[i]) && forall j :: 0 <= j < i ==> Whole(row[j])
    ensures |cut| == i + 1 && cut[..i] == row[..i] && Broken(cut[i]) && NoBreak(cut[i][..|cut[i]| - 1]) && !Quoted(cut[i])
    ensures Rows(RowText(cut)) == Some([cut])
    ensures Rest(RowText(row) + "\n" + rest, count) == Recorded(RowText(cut), after, count)
  {
    var init, x, more := FirstBreak(row[i]);
    var z := RowTextUpTo(row, i, init, x, more);
    BareParts(init, x, more);
    cut, after := row[..i] + [init + [x]], z + "\n" + rest;
    CutRowIsRead(cut);
    CutStarts(row, i, init, x, more);
    CutIsWhole(row, i, init, x);
    CutIsScanned(row[..i] + [init], x, z, rest, count);
  }

  lemma CutStarts(row: Row, i: nat, init: string, x: char, more: string)
    requires |row| >= 2 && LStrip(row[0]) != "" && (Quoted(row[0]) || LeadOk(row[0]))
    requires i < |row| && !Whole(row[i]) && forall j :: 0 <= j < i ==> Whole(row[j])
    requires row[i] == init + [x] + more && NoBreak(init) && IsBreak(x)
    ensures Starts(FirstLine(RowText(row[..i] + [init]) + [x]))
  {
    var t := row[..i] + [init];
    if i == 0 {
      BareParts(init, x, more);
      assert t == [init];
      FirstCutShows(row[0], init, x, more);
    } else {
      assert t[0] == row[0];
      FirstLineVisible(t, x);
    }
  }

  /** The first field that a bare break cuts. */
  function FirstCut(row: Row): (i: nat)
    ensures i <= |row| && (forall j :: 0 <= j < i ==> Whole(row[j])) && (i < |row| ==> !Whole(row[i]))
  {
    if row == [] || !Whole(row[0]) then 0 else 1 + FirstCut(row[1..])
  }

  lemma RecordedFirst(text: string, after: string, count: nat, p: string)
    requires Recorded(text, after, count).Ok? && Recorded(text, after, count).value != []
    requires Recorded(text, after, count).value[0] == Record(p)
    ensures p == text
  {
  }

  predicate FirstOk(row: Row) {
    |row| >= 2 && LStrip(row[0]) != "" && (Quoted(row[0]) || LeadOk(row[0]))
  }

  /** If cutting a row at its first bare break gives the row, the break was at its very end. */
  lemma CutIsRow(row: Row, i: nat, cut: Row)
    requires FirstOk(row) && i < |row| && forall j :: 0 <= j < i ==> Whole(row[j])
    requires |cut| == i + 1 && Broken(cut[i]) && NoBreak(cut[i][..|cut[i]| - 1]) && cut == row
    ensures RowSafe(row)
  {
  }

  lemma WholeIsSafe(row: Row)
    requires FirstOk(row) && forall j :: 0 <= j < |row| ==> Whole(row[j])
    ensures RowSafe(row)
  {
    var last := row[|row| - 1];
    if !Quoted(last) && last != "" { assert NoBreak(last[..|last| - 1]); }
  }

  lemma OkRowIsSafe(row: Row, rest: string, count: nat, p: string, x: string)
    requires FirstOk(row) && x == RowText(row) + "\n" + rest
    requires Rest(x, count).Ok? && Rest(x, count).value != [] && Rest(x, count).value[0] == Record(p)
    requires Rows(p) == Some([row])
    ensures RowSafe(row)
  {
    var i := FirstCut(row);
    if i == |row| {
      WholeIsSafe(row);
    } else {
      var cut, after := RowIsCut(row, i, rest, count);
      RecordedFirst(RowText(cut), after, count, p);
      assert [row][0] == [cut][0];
      CutIsRow(row, i, cut);
    }
  }

  /** A row that is the first record read from its own printed text was safe to print. */
  lemma ReadRowIsSafe(row: Row, rest: string, count: nat, p: string, x: string)
    requires |row| >= 2 && LStrip(row[0]) != "" && x == RowText(row) + "\n" + rest && Tidy(x)
    requires Rest(x, count).Ok? && Rest(x, count).value != [] && Rest(x, count).value[0] == Record(p)
    requires Rows(p) == Some([row])
    ensures RowSafe(row)
  {
    if !Quoted(row[0]) { FirstFieldIsOk(x, count, p, row); }
    OkRowIsSafe(row, rest, count, p, x);
  }
}
