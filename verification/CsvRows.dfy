/** Which printed rows are scanned as one record, and that they are read back as the row printed. */
module CsvRows {
  import opened Wrappers
  import opened Text
  import opened CsvText
  import opened CsvLines

  /** A field that is printed on one line or in quotes. */
  predicate Whole(field: string) {
    Quoted(field) || NoBreak(field)
  }

  /** In the last field an unquoted break may stand at the very end, where a newline follows anyway. */
  predicate LastWhole(field: string) {
    Quoted(field) || field == "" || NoBreak(field[..|field| - 1])
  }

  /**
   A row that survives printing: its first field is not taken for a comment, and no line break other
   than a newline, which would be quoted, cuts it in pieces.
   */
  predicate RowSafe(row: Row) {
    && |row| >= 2
    && (Quoted(row[0]) || !StartsComment(row[0]))
    && (forall i :: 0 <= i < |row| - 1 ==> Whole(row[i]))
    && LastWhole(row[|row| - 1])
  }

  // ---------- breaks and quotes of a printed row ----------

  lemma {:induction false} NoQuoteMeansSame(s: string, open: bool)
    requires (forall k :: 0 <= k < |s| ==> s[k] != '"') && NoBreak(s)
    ensures Parity(s, open) == open && BreaksQuoted(s, open)
  {
    if s != "" {
      assert forall k :: 0 <= k < |s[1..]| ==> s[1..][k] == s[k + 1];
      assert !IsBreak(s[0]);
      NoQuoteMeansSame(s[1..], open);
    }
  }

  lemma {:induction false} DoubledStaysOpen(s: string)
    ensures Parity(Doubled(s), true) && BreaksQuoted(Doubled(s), true)
  {
    if s != "" {
      DoubledStaysOpen(s[1..]);
      var first := if s[0] == '"' then "\"\"" else [s[0]];
      assert Doubled(s) == first + Doubled(s[1..]);
      ParityAppend(first, Doubled(s[1..]), true);
      BreaksAppend(first, Doubled(s[1..]), true);
      FirstStaysOpen(s[0]);
    }
  }

  lemma FirstStaysOpen(c: char)
    ensures var first := if c == '"' then "\"\"" else [c]; Parity(first, true) && BreaksQuoted(first, true)
  {
    assert "\"\""[1..] == "\"" && "\""[1..] == "" && [c][1..] == "";
  }

  lemma OneQuote(open: bool)
    ensures Parity("\"", open) == !open && BreaksQuoted("\"", open)
  {
    assert "\""[1..] == "";
  }

  lemma QuotedIsClosed(s: string)
    ensures !Parity("\"" + Doubled(s) + "\"", false) && BreaksQuoted("\"" + Doubled(s) + "\"", false)
  {
    OneQuote(false);
    OneQuote(true);
    DoubledStaysOpen(s);
    ParityAppend("\"", Doubled(s), false);
    BreaksAppend("\"", Doubled(s), false);
    ParityAppend("\"" + Doubled(s), "\"", false);
    BreaksAppend("\"" + Doubled(s), "\"", false);
  }

  lemma FieldIsClosed(field: string)
    requires Whole(field)
    ensures !Parity(FieldText(field), false) && BreaksQuoted(FieldText(field), false)
  {
    if Quoted(field) {
      QuotedIsClosed(field);
    } else {
      forall k | 0 <= k < |field| ensures field[k] != '"' { assert !Special(field[k]); }
      NoQuoteMeansSame(field, false);
    }
  }

  lemma OneComma()
    ensures !Parity(",", false) && BreaksQuoted(",", false)
  {
    assert ","[1..] == "";
  }

  lemma {:induction false} RowIsClosed(row: Row)
    requires forall i :: 0 <= i < |row| ==> Whole(row[i])
    ensures !Parity(RowText(row), false) && BreaksQuoted(RowText(row), false)
  {
    if row != [] {
      FieldIsClosed(row[0]);
      if |row| > 1 {
        RowIsClosed(row[1..]);
        var first := FieldText(row[0]);
        OneComma();
        ParityAppend(first, ",", false);
        BreaksAppend(first, ",", false);
        ParityAppend(first + ",", RowText(row[1..]), false);
        BreaksAppend(first + ",", RowText(row[1..]), false);
      }
    }
  }

  // ---------- the first line of a printed row ----------

  /** Blanks without a break, then a visible character: the first line begins with them. */
  lemma {:induction false} FirstLineShows(w: string, c: char, more: string)
    requires Blank(w) && NoBreak(w) && !IsSpace(c)
    ensures LStrip(FirstLine(w + [c] + more)) != "" && LStrip(FirstLine(w + [c] + more))[0] == c
  {
    var s := w + [c] + more;
    if w == "" {
      assert s[0] == c;
      assert FirstLine(s)[0] == c;
    } else {
      assert s[1..] == w[1..] + [c] + more;
      assert !IsBreak(w[0]) && IsSpace(w[0]) && s[0] == w[0];
      FirstLineShows(w[1..], c, more);
      assert FirstLine(s) == [s[0]] + FirstLine(s[1..]);
      assert FirstLine(s)[1..] == FirstLine(s[1..]);
    }
  }

  lemma BlankCons(c: char, w: string)
    requires IsSpace(c) && Blank(w)
    ensures Blank([c] + w)
  {
  }

  lemma {:induction false} LeadingBlanks(s: string) returns (w: string)
    ensures s == w + LStrip(s) && Blank(w)
  {
    if s != "" && IsSpace(s[0]) {
      var v := LeadingBlanks(s[1..]);
      w := [s[0]] + v;
      BlankCons(s[0], v);
    } else {
      w := "";
    }
  }

  /** The first visible character of a printed row's first line. */
  lemma FirstLineVisible(row: Row, x: char)
    requires |row| >= 2 && Whole(row[0]) && (Quoted(row[0]) || !StartsComment(row[0]))
    ensures var line := FirstLine(RowText(row) + [x]); Strip(line) != "" && !StartsComment(line)
  {
    var w, c, more := FirstVisible(row);
    assert RowText(row) + [x] == w + [c] + (more + [x]);
    FirstLineShows(w, c, more + [x]);
    RStripKeepsFirst(LStrip(FirstLine(RowText(row) + [x])));
  }

  lemma LeadingParts(field: string) returns (w: string)
    requires NoBreak(field)
    ensures field == w + LStrip(field) && Blank(w) && NoBreak(w)
  {
    w := LeadingBlanks(field);
    assert forall k :: 0 <= k < |w| ==> w[k] == field[k];
  }

  lemma FirstVisiblePlain(field: string, rest: string) returns (w: string, c: char, more: string)
    requires NoBreak(field) && !StartsComment(field)
    ensures field + "," + rest == w + [c] + more && Blank(w) && NoBreak(w) && !IsSpace(c) && c != '#'
  {
    w := LeadingParts(field);
    var visible := LStrip(field);
    if visible == "" {
      c, more := ',', rest;
      assert field == w;
    } else {
      c, more := visible[0], visible[1..] + "," + rest;
      VisibleParts(w, visible, rest);
    }
  }

  lemma VisibleParts(w: string, visible: string, rest: string)
    requires visible != ""
    ensures w + visible + "," + rest == w + [visible[0]] + (visible[1..] + "," + rest)
  {
  }

  lemma FirstVisibleQuoted(d: string, rest: string)
    ensures "\"" + d + "\"" + "," + rest == "" + ['"'] + (d + "\"" + "," + rest)
  {
  }

  lemma RowTextFirst(row: Row)
    requires |row| >= 2
    ensures RowText(row) == FieldText(row[0]) + "," + RowText(row[1..])
  {
  }

  lemma FirstVisible(row: Row) returns (w: string, c: char, more: string)
    requires |row| >= 2 && Whole(row[0]) && (Quoted(row[0]) || !StartsComment(row[0]))
    ensures RowText(row) == w + [c] + more && Blank(w) && NoBreak(w) && !IsSpace(c) && c != '#'
  {
    var field, rest := row[0], RowText(row[1..]);
    RowTextFirst(row);
    if Quoted(field) {
      w, c, more := "", '"', Doubled(field) + "\"" + "," + rest;
      FirstVisibleQuoted(Doubled(field), rest);
    } else {
      w, c, more := FirstVisiblePlain(field, rest);
    }
  }

  // ---------- a safe row is one record ----------

  /** The record text of a row: with the newline, or cut at a break that ends the last field. */
  function RecordText(row: Row): string {
    if row != [] && !Quoted(row[|row| - 1]) && !NoBreak(row[|row| - 1]) then RowText(row) else RowText(row) + "\n"
  }

  lemma {:induction false} RowTextSnoc(row: Row, init: string, x: char)
    requires row != [] && row[|row| - 1] == init + [x] && !Quoted(init + [x])
    ensures !Quoted(init) && RowText(row) == RowText(row[..|row| - 1] + [init]) + [x]
  {
    assert forall k :: 0 <= k < |init| ==> (init + [x])[k] == init[k];
    var shorter := row[..|row| - 1] + [init];
    if |row| > 1 {
      RowTextSnoc(row[1..], init, x);
      assert shorter[1..] == row[1..][..|row| - 2] + [init];
      assert shorter[0] == row[0];
    }
  }

  /** A safe row, printed anywhere, is scanned as one record, and the scan goes on after it. */
  lemma RowIsScanned(row: Row, rest: string, count: nat)
    requires RowSafe(row)
    ensures Rest(RowText(row) + "\n" + rest, count) == Recorded(RecordText(row), rest, count)
  {
    var n := |row| - 1;
    if Whole(row[n]) {
      RowIsClosed(row);
      FirstLineVisible(row, '\n');
      ScanFirst(RowText(row), '\n', rest, count);
    } else {
      var init, x := row[n][..|row[n]| - 1], row[n][|row[n]| - 1];
      assert row[n] == init + [x];
      BrokenLast(row, init, x, rest, count);
    }
  }

  lemma RecordedBeforeBlank(text: string, rest: string, count: nat)
    ensures Recorded(text, "\n" + rest, count) == Recorded(text, rest, count)
  {
    ScanBlank(rest, count + 1);
  }

  lemma ShorterIsWhole(row: Row, init: string, x: char) returns (shorter: Row)
    requires RowSafe(row) && row[|row| - 1] == init + [x] && !Whole(init + [x])
    ensures IsBreak(x) && !Quoted(init + [x])
    ensures shorter == row[..|row| - 1] + [init] && forall i :: 0 <= i < |shorter| ==> Whole(shorter[i])
  {
    var last := init + [x];
    shorter := row[..|row| - 1] + [init];
    assert last[..|last| - 1] == init;
    assert last != "" && NoBreak(init);
    assert forall k :: 0 <= k < |init| ==> last[k] == init[k];
  }

  lemma ShorterIsClosed(row: Row, init: string, x: char)
    requires RowSafe(row) && row[|row| - 1] == init + [x] && !Whole(init + [x])
    ensures IsBreak(x) && RowText(row) == RowText(row[..|row| - 1] + [init]) + [x]
    ensures var shorter := row[..|row| - 1] + [init]; !Parity(RowText(shorter), false) && BreaksQuoted(RowText(shorter), false)
  {
    var shorter := ShorterIsWhole(row, init, x);
    RowTextSnoc(row, init, x);
    RowIsClosed(shorter);
  }

  lemma ScanFirst(t: string, x: char, rest: string, count: nat)
    requires IsBreak(x) && BreaksQuoted(t, false) && !Parity(t, false)
    requires var line := FirstLine(t + [x]); Strip(line) != "" && !StartsComment(line)
    ensures Rest(t + [x] + rest, count) == Recorded(t + [x], rest, count)
  {
    ScanRecord("", t, x, rest, false, count);
    assert "" + t + [x] == t + [x];
  }

  lemma ScanEnded(t: string, x: char, rest: string, count: nat)
    requires IsBreak(x) && BreaksQuoted(t, false) && !Parity(t, false)
    requires var line := FirstLine(t + [x]); Strip(line) != "" && !StartsComment(line)
    ensures Rest(t + [x] + "\n" + rest, count) == Recorded(t + [x], rest, count)
  {
    ScanFirst(t, x, "\n" + rest, count);
    RecordedBeforeBlank(t + [x], rest, count);
    assert t + [x] + "\n" + rest == t + [x] + ("\n" + rest);
  }

  lemma ShorterIsVisible(row: Row, init: string, x: char)
    requires RowSafe(row) && row[|row| - 1] == init + [x] && !Whole(init + [x])
    ensures var line := FirstLine(RowText(row[..|row| - 1] + [init]) + [x]); Strip(line) != "" && !StartsComment(line)
  {
    var shorter := ShorterIsWhole(row, init, x);
    assert shorter[0] == row[0];
    FirstLineVisible(shorter, x);
  }

  lemma BrokenLast(row: Row, init: string, x: char, rest: string, count: nat)
    requires RowSafe(row) && row[|row| - 1] == init + [x] && !Whole(init + [x])
    ensures Rest(RowText(row) + "\n" + rest, count) == Recorded(RowText(row), rest, count)
  {
    ShorterIsClosed(row, init, x);
    ShorterIsVisible(row, init, x);
    ScanEnded(RowText(row[..|row| - 1] + [init]), x, rest, count);
  }

  /** The record of a row is read as that row. */
  lemma RecordIsRow(row: Row)
    requires |row| >= 2
    ensures Rows(RecordText(row)) == Some([row])
  {
    RowIsRead(row);
  }
}
