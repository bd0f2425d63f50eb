/**
 The converse for single rows: if scanning printed text starts with a record that reads as the row
 printed first, that row was safe to print.
 */
module CsvScan {
  import opened Wrappers
  import opened Text
  import opened CsvText

  // ---------- the first field that is read ----------

  /** The first record a reader has, finished or not. */
  function FirstRow(r: Reader): Row {
    if r.rows != [] then r.rows[0] else r.fields
  }

  lemma FeedKeeps(r: Reader, c: char)
    requires Feed(r, c).Some?
    ensures Feed(r, c).value.rows == r.rows && r.fields <= Feed(r, c).value.fields
  {
  }

  lemma {:induction false} FeedAllKeeps(r: Reader, t: string)
    requires FeedAll(r, t).Some?
    ensures r.rows <= FeedAll(r, t).value.rows
    ensures r.rows == [] ==> r.fields <= FirstRow(FeedAll(r, t).value)
    decreases |t|
  {
    if t != "" {
      FeedKeeps(r, t[0]);
      var next := Feed(r, t[0]).value;
      FeedAllKeeps(if t[0] == '\n' then EndLine(next) else next, t[1..]);
    }
  }

  /** What `Rows` makes of a reader at the end of a text. */
  function AtEnd(r: Reader, newlined: bool): Reader {
    if newlined then r else EndLine(r)
  }

  predicate EndsInRow(r: Reader, t: string, newlined: bool, row: Row) {
    var e := FeedAll(r, t);
    e.Some? && AtEnd(e.value, newlined).rows == [row] && AtEnd(e.value, newlined).state != InQuoted
  }

  function Stepped(r: Reader, c: char): Option<Reader> {
    var next := Feed(r, c);
    if next.Some? && c == '\n' then Some(EndLine(next.value)) else next
  }

  lemma RowStep(r: Reader, t: string, newlined: bool, row: Row)
    requires EndsInRow(r, t, newlined, row) && t != ""
    ensures Stepped(r, t[0]).Some? && EndsInRow(Stepped(r, t[0]).value, t[1..], newlined, row)
  {
  }

  lemma EndLineRows(e: Reader)
    requires e.state != InQuoted
    ensures EndLine(e).rows == e.rows + [if e.state == StartRecord || e.state == EatNewline then e.fields else e.fields + [e.field]]
  {
  }

  /** Fields already saved, or a record finished, are what is read. */
  lemma SavedStays(r: Reader, t: string, newlined: bool, row: Row)
    requires EndsInRow(r, t, newlined, row) && |r.rows| <= 1 && FirstRow(r) != []
    ensures row != [] && row[0] == FirstRow(r)[0]
  {
    FeedAllKeeps(r, t);
    var e := FeedAll(r, t).value;
    if !newlined && e.state != InQuoted {
      EndLineRows(e);
      assert |e.rows| + 1 == |EndLine(e).rows| == 1;
      assert EndLine(e).rows[0] == row;
    }
  }

  lemma FirstRowStays(r: Reader, t: string, newlined: bool, row: Row)
    requires EndsInRow(r, t, newlined, row) && |r.rows| == 1
    ensures row == r.rows[0]
  {
    FeedAllKeeps(r, t);
    var e := FeedAll(r, t).value;
    if !newlined && e.state != InQuoted { EndLineRows(e); }
    assert r.rows[0] == e.rows[0] == AtEnd(e, newlined).rows[0];
  }

  /** After the delimiter of a first field, the field is what was gathered. */
  lemma FieldIsSaved(r: Reader, t: string, newlined: bool, row: Row)
    requires r.rows == [] && r.fields == [] && EndsInRow(r, t, newlined, row)
    requires (t == "" && !newlined) || (t != "" && (t[0] == ',' || t[0] == '\n'))
    requires r.state == InField || r.state == QuoteInQuoted || (r.state == StartField && r.field == "")
    ensures row != [] && row[0] == r.field
  {
    assert [] + [r.field] == [r.field];
    if t != "" {
      RowStep(r, t, newlined, row);
      var next := Stepped(r, t[0]).value;
      assert next == Saved(r, StartField) || next == EndLine(Saved(r, EatNewline));
      assert FirstRow(next) == [r.field];
      SavedStays(next, t[1..], newlined, row);
    } else {
      EndLineRows(r);
      assert EndLine(r).rows[0] == row;
    }
  }

  predicate Delimited(z: string) {
    z == "" || z[0] == ',' || z[0] == '\n'
  }

  /** A field begun without a quote is the text up to a delimiter. */
  lemma {:induction false} PlainFieldIsRead(r: Reader, t: string, newlined: bool, row: Row)
    requires r.rows == [] && r.fields == [] && r.state == InField && EndsInRow(r, t, newlined, row)
    ensures row != [] && r.field <= row[0] && row[0][|r.field|..] <= t
    decreases |t|
  {
    if t == "" || t[0] == ',' || t[0] == '\n' {
      FieldIsSaved(r, t, newlined, row);
    } else {
      RowStep(r, t, newlined, row);
      PlainFieldIsRead(Added(r, InField, t[0]), t[1..], newlined, row);
      assert row[0][|r.field|..] == [t[0]] + row[0][|r.field| + 1..];
    }
  }

  /** A closed quoted field is delimited, unless the quote was doubled. */
  lemma ClosedFieldIsRead(r: Reader, z: string, newlined: bool, row: Row)
    requires r.rows == [] && r.fields == [] && r.state == QuoteInQuoted && EndsInRow(r, z, newlined, row)
    requires z == "" || z[0] != '"'
    ensures row != [] && row[0] == r.field && Delimited(z)
  {
    if z != "" { RowStep(r, z, newlined, row); }
    FieldIsSaved(r, z, newlined, row);
  }

  /** A quoted field is read with at least the characters gathered. */
  lemma {:induction false} QuotedFieldGrows(r: Reader, t: string, newlined: bool, row: Row)
    requires r.rows == [] && r.fields == [] && (r.state == InQuoted || r.state == QuoteInQuoted) && EndsInRow(r, t, newlined, row)
    ensures row != [] && r.field <= row[0]
    decreases |t|
  {
    if r.state == QuoteInQuoted && (t == "" || t[0] != '"') {
      ClosedFieldIsRead(r, t, newlined, row);
    } else if t != "" {
      RowStep(r, t, newlined, row);
      QuotedFieldGrows(Stepped(r, t[0]).value, t[1..], newlined, row);
    }
  }

  lemma NotDoubled(r: Reader, z: string, newlined: bool, row: Row)
    requires r.rows == [] && r.fields == [] && r.state == QuoteInQuoted && EndsInRow(r, z, newlined, row)
    ensures z != "" && z[0] == '"' ==> row != [] && Quoted(row[0])
  {
    if z != "" && z[0] == '"' {
      RowStep(r, z, newlined, row);
      QuotedFieldGrows(Added(r, InQuoted, '"'), z[1..], newlined, row);
      assert Special(row[0][|r.field|]);
    }
  }

  /** A quoted field that reads as text without quotes is that text up to the closing quote. */
  lemma {:induction false} QuotedFieldIsRead(r: Reader, t: string, newlined: bool, row: Row) returns (z: string)
    requires r.rows == [] && r.fields == [] && r.state == InQuoted && EndsInRow(r, t, newlined, row)
    requires row != [] ==> !Quoted(row[0])
    ensures row != [] && r.field <= row[0] && t == row[0][|r.field|..] + "\"" + z && Delimited(z)
    decreases |t|
  {
    RowStep(r, t, newlined, row);
    if t[0] == '"' {
      z := t[1..];
      var closed := r.(state := QuoteInQuoted);
      NotDoubled(closed, z, newlined, row);
      ClosedFieldIsRead(closed, z, newlined, row);
      assert row[0][|r.field|..] == "";
    } else {
      z := QuotedFieldIsRead(Added(r, InQuoted, t[0]), t[1..], newlined, row);
      assert row[0][|r.field|..] == [t[0]] + row[0][|r.field| + 1..];
    }
  }

  /** A record read as one row begins with its first field, bare or in quotes. */
  lemma FirstFieldIsRead(text: string, row: Row) returns (z: string)
    requires Rows(text) == Some([row]) && row != [] && row[0] != "" && !Quoted(row[0])
    ensures row[0] <= text || (text == "\"" + row[0] + "\"" + z && Delimited(z))
  {
    z := "";
    var newlined := text == "" || text[|text| - 1] == '\n';
    assert EndsInRow(FRESH, text, newlined, row);
    if text != "" {
      RowStep(FRESH, text, newlined, row);
      var next := Stepped(FRESH, text[0]).value;
      if text[0] == '"' {
        z := QuotedFieldIsRead(next, text[1..], newlined, row);
        assert text == "\"" + text[1..];
        assert row[0][0..] == row[0];
      } else if text[0] == ',' {
        SavedStays(next, text[1..], newlined, row);
      } else if text[0] == '\n' {
        FirstRowStays(next, text[1..], newlined, row);
      } else {
        PlainFieldIsRead(next, text[1..], newlined, row);
        assert row[0] == [text[0]] + row[0][1..];
      }
    }
  }

  // ---------- no line of printed text begins with a bare field in quotes ----------

  /** A text without special characters, which printing never puts in quotes. */
  predicate Bare(s: string) {
    s != "" && !Quoted(s)
  }

  /** The text begins with `s` in quotes as a whole field. */
  predicate AtPattern(t: string, s: string) {
    "\"" + s + "\"" <= t && Delimited(t[|s| + 2..])
  }

  /** At no line start does `s` stand in quotes as a whole field. */
  predicate Clean(t: string, start: bool, s: string)
    decreases |t|
  {
    t == "" || ((start ==> !AtPattern(t, s)) && Clean(t[1..], IsBreak(t[0]), s))
  }

  /** Clean wherever a line starts, for every bare text. */
  ghost predicate Tidy(t: string) {
    forall s :: Bare(s) ==> Clean(t, true, s)
  }

  lemma {:induction false} CleanSuffix(t: string, start: bool, s: string, i: nat)
    requires Clean(t, start, s) && i < |t| && (if i == 0 then start else IsBreak(t[i - 1]))
    ensures !AtPattern(t[i..], s)
    decreases i
  {
    if i > 0 {
      CleanSuffix(t[1..], IsBreak(t[0]), s, i - 1);
      assert t[1..][i - 1..] == t[i..];
    } else {
      assert t[0..] == t;
    }
  }

  lemma PatternIs(t: string, s: string)
    requires AtPattern(t, s)
    ensures |t| >= |s| + 2 && t[0] == '"' && t[|s| + 1] == '"' && forall k :: 0 <= k < |s| ==> t[k + 1] == s[k]
  {
    var p := "\"" + s + "\"";
    assert p == t[..|s| + 2];
    assert p[0] == '"' && p[|s| + 1] == '"' && forall k :: 0 <= k < |s| ==> p[k + 1] == s[k];
  }

  /** A character that is no quote starts no pattern. */
  lemma CleanCons(c: char, t: string, start: bool, s: string)
    requires Clean(t, IsBreak(c), s) && (start ==> c != '"')
    ensures Clean([c] + t, start, s)
  {
    var u := [c] + t;
    assert u[1..] == t;
    if start && AtPattern(u, s) { PatternIs(u, s); }
  }

  lemma AnyStart(t: string, start: bool, s: string)
    requires Clean(t, false, s) && (t == "" || t[0] != '"')
    ensures Clean(t, start, s)
  {
    if t != "" {
      CleanCons(t[0], t[1..], start, s);
      assert [t[0]] + t[1..] == t;
    }
  }

  /** Text without quotes before clean text. */
  lemma {:induction false} CleanPlain(a: string, t: string, start: bool, s: string)
    requires (forall k :: 0 <= k < |a| ==> a[k] != '"') && Clean(t, false, s) && (t == "" || t[0] != '"')
    ensures Clean(a + t, start, s)
  {
    if a == "" {
      assert a + t == t;
      AnyStart(t, start, s);
    } else {
      assert forall k :: 0 <= k < |a[1..]| ==> a[1..][k] == a[k + 1];
      CleanPlain(a[1..], t, IsBreak(a[0]), s);
      CleanCons(a[0], a[1..] + t, start, s);
      assert [a[0]] + (a[1..] + t) == a + t;
    }
  }

  lemma QuoteThenSpecial(c: char, t: string, s: string)
    requires Bare(s) && Special(c)
    ensures !AtPattern("\"" + ([c] + t), s)
  {
    assert !Special(s[0]);
    var u := "\"" + ([c] + t);
    assert u[0 + 1] == c;
    if AtPattern(u, s) { PatternIs(u, s); }
  }

  /** Inside a quoted field, up to and with its closing quote. */
  lemma {:induction false} CleanDoubled(f: string, v: string, start: bool, s: string)
    requires Bare(s) && v != "" && (v[0] == ',' || v[0] == '\n') && Clean(v, false, s)
    ensures Clean(Doubled(f) + ("\"" + v), start, s)
    decreases |f|
  {
    if f == "" {
      assert Doubled(f) + ("\"" + v) == "\"" + v;
      assert v == [v[0]] + v[1..];
      QuoteThenSpecial(v[0], v[1..], s);
      assert ("\"" + v)[1..] == v;
    } else {
      var more := Doubled(f[1..]) + ("\"" + v);
      CleanDoubled(f[1..], v, IsBreak(f[0]), s);
      if f[0] == '"' {
        assert Doubled(f) + ("\"" + v) == "\"" + (['"'] + more);
        QuoteThenSpecial('"', more, s);
        var u := "\"" + (['"'] + more);
        assert u[1..] == ['"'] + more && (['"'] + more)[1..] == more;
      } else {
        assert Doubled(f) + ("\"" + v) == [f[0]] + more;
        CleanCons(f[0], more, start, s);
      }
    }
  }

  lemma {:induction false} DoubledPairs(f: string, n: nat)
    requires n < |Doubled(f)| && Doubled(f)[n] == '"' && (forall k :: 0 <= k < n ==> Doubled(f)[k] != '"')
    ensures n + 1 < |Doubled(f)| && Doubled(f)[n + 1] == '"'
    decreases |f|
  {
    if f[0] != '"' {
      var d := Doubled(f[1..]);
      assert Doubled(f) == [f[0]] + d;
      assert n > 0;
      assert forall k :: 0 <= k < n - 1 ==> d[k] == Doubled(f)[k + 1];
      DoubledPairs(f[1..], n - 1);
    } else {
      var d := "\"\"" + Doubled(f[1..]);
      assert d[0] == '"';
    }
  }

  lemma {:induction false} DoubledPlain(f: string)
    requires forall k :: 0 <= k < |Doubled(f)| ==> Doubled(f)[k] != '"'
    ensures Doubled(f) == f
  {
    if f != "" {
      assert ("\"\"" + Doubled(f[1..]))[0] == '"';
      assert Doubled(f)[0] == f[0];
      assert Doubled(f) == [f[0]] + Doubled(f[1..]);
      assert forall k :: 0 <= k < |Doubled(f[1..])| ==> Doubled(f[1..])[k] == Doubled(f)[k + 1];
      DoubledPlain(f[1..]);
    }
  }

  lemma PatternEnds(t: string, s: string, n: nat)
    requires Bare(s) && AtPattern(t, s) && n + 1 < |t| && t[n + 1] == '"'
    ensures |s| <= n
  {
    PatternIs(t, s);
    if n < |s| { PatternChar(t, s, n); }
  }

  lemma PatternChar(t: string, s: string, k: nat)
    requires Bare(s) && AtPattern(t, s) && k < |s| && k + 1 < |t|
    ensures !Special(t[k + 1])
  {
    PatternIs(t, s);
    assert !Special(s[k]);
  }

  lemma PatternIsField(f: string, v: string, s: string, t: string)
    requires Bare(s) && t == "\"" + (Doubled(f) + ("\"" + v)) && AtPattern(t, s) && |s| <= |Doubled(f)|
    ensures |s| == |Doubled(f)|
  {
    var d := Doubled(f);
    PatternIs(t, s);
    assert forall k :: 0 <= k < |d| ==> t[k + 1] == d[k];
    assert forall k :: 0 <= k < |s| ==> s[k] != '"' by {
      forall k | 0 <= k < |s| ensures s[k] != '"' { assert !Special(s[k]); }
    }
    if |s| < |d| {
      assert t[|s| + 2..][0] == t[|s| + 2];
      assert d[|s|] == t[|s| + 1] && forall k :: 0 <= k < |s| ==> d[k] == t[k + 1] == s[k];
      DoubledPairs(f, |s|);
    }
  }

  lemma PatternIsBare(f: string, v: string, s: string, t: string)
    requires Bare(s) && t == "\"" + (Doubled(f) + ("\"" + v)) && AtPattern(t, s)
    ensures !Quoted(f)
  {
    var d := Doubled(f);
    assert t[|d| + 1] == '"';
    PatternEnds(t, s, |d|);
    PatternIsField(f, v, s, t);
    PatternIs(t, s);
    forall k | 0 <= k < |d| ensures d[k] == s[k] && d[k] != '"' { assert t[k + 1] == d[k] && !Special(s[k]); }
    assert d == s;
    DoubledPlain(f);
  }

  /** A field printed in quotes is not a bare text in quotes. */
  lemma QuotedIsNoPattern(f: string, v: string, s: string)
    requires Bare(s) && Quoted(f)
    ensures !AtPattern("\"" + (Doubled(f) + ("\"" + v)), s)
  {
    var t := "\"" + (Doubled(f) + ("\"" + v));
    if AtPattern(t, s) { PatternIsBare(f, v, s, t); }
  }

  /** A printed field before a delimiter. */
  lemma CleanField(f: string, v: string, start: bool, s: string)
    requires Bare(s) && v != "" && (v[0] == ',' || v[0] == '\n') && Clean(v, false, s)
    ensures Clean(FieldText(f) + v, start, s)
  {
    if Quoted(f) {
      var inner := Doubled(f) + ("\"" + v);
      CleanDoubled(f, v, false, s);
      QuotedIsNoPattern(f, v, s);
      assert FieldText(f) + v == "\"" + inner;
      assert ("\"" + inner)[1..] == inner;
    } else {
      forall k | 0 <= k < |f| ensures f[k] != '"' { assert !Special(f[k]); }
      CleanPlain(f, v, start, s);
    }
  }

  lemma {:induction false} CleanRow(row: Row, rest: string, start: bool, s: string)
    requires Bare(s) && row != [] && Clean(rest, true, s)
    ensures Clean(RowText(row) + "\n" + rest, start, s)
    decreases |row|
  {
    var v: string;
    if |row| == 1 {
      v := "\n" + rest;
      assert v[1..] == rest;
      assert RowText(row) + "\n" + rest == FieldText(row[0]) + v;
    } else {
      var more := RowText(row[1..]) + "\n" + rest;
      CleanRow(row[1..], rest, false, s);
      v := "," + more;
      assert v[1..] == more;
      assert RowText(row) + "\n" + rest == FieldText(row[0]) + v;
    }
    CleanField(row[0], v, start, s);
  }

  lemma TidyRow(row: Row, rest: string)
    requires row != [] && Tidy(rest)
    ensures Tidy(RowText(row) + "\n" + rest)
  {
    forall s | Bare(s) ensures Clean(RowText(row) + "\n" + rest, true, s) { CleanRow(row, rest, true, s); }
  }

  lemma {:induction false} CleanLine(a: string, rest: string, s: string)
    requires NoBreak(a) && Clean(rest, true, s)
    ensures Clean(a + "\n" + rest, false, s)
  {
    if a == "" {
      assert a + "\n" + rest == ['\n'] + rest;
      CleanCons('\n', rest, false, s);
    } else {
      assert !IsBreak(a[0]);
      assert forall k :: 0 <= k < |a[1..]| ==> a[1..][k] == a[k + 1];
      CleanLine(a[1..], rest, s);
      CleanCons(a[0], a[1..] + "\n" + rest, false, s);
      assert [a[0]] + (a[1..] + "\n" + rest) == a + "\n" + rest;
    }
  }

  /** A line that does not begin with a quote. */
  lemma TidyLine(a: string, rest: string)
    requires NoBreak(a) && (a == "" || a[0] != '"') && Tidy(rest)
    ensures Tidy(a + "\n" + rest)
  {
    forall s | Bare(s) ensures Clean(a + "\n" + rest, true, s) {
      CleanLine(a, rest, s);
      AnyStart(a + "\n" + rest, true, s);
    }
  }
}
