/**
 A rendered table entry is one line that no comment or header scan misreads; reading it gives back
 the binding that was written, unless its key contains an equals sign.
 */
module TomlEntry {
  import opened Wrappers
  import opened Text
  import opened JsonString
  import opened TomlTable

  // ---------- rendered text ----------

  predicate Printable(s: string) {
    forall k :: 0 <= k < |s| ==> ' ' <= s[k] <= '~'
  }

  lemma EncodedCharIsPrintable(c: int)
    ensures Printable(EncodeChar(c))
  {
  }

  lemma {:induction false} EncodedIsPrintable(v: Value)
    ensures Printable(Encode(v))
  {
    if v != [] {
      EncodedCharIsPrintable(v[0]);
      EncodedIsPrintable(v[1..]);
    }
  }

  /** A rendered entry without its newline. */
  function Statement(key: Value, value: Value): string {
    Quote(key) + " = " + Quote(value)
  }

  lemma StatementIsPrintable(key: Value, value: Value)
    ensures Printable(Statement(key, value)) && |Statement(key, value)| >= 2
    ensures Statement(key, value)[0] == '"' && Statement(key, value)[|Statement(key, value)| - 1] == '"'
    ensures EntryLine(key, value) == Statement(key, value) + "\n"
  {
    EncodedIsPrintable(key);
    EncodedIsPrintable(value);
  }

  /** A rendered entry is one line, is no header, and is stripped to its statement. */
  lemma EntryLineIsOne(key: Value, value: Value)
    ensures OneLine(EntryLine(key, value)) && Broken(EntryLine(key, value))
    ensures !IsTable(EntryLine(key, value)) && !IsHeader(EntryLine(key, value))
    ensures Strip(EntryLine(key, value)) == Statement(key, value)
  {
    var s, line := Statement(key, value), EntryLine(key, value);
    StatementIsPrintable(key, value);
    assert line[..|line| - 1] == s;
    assert line[0] == '"' && LStrip(line) == line;
    assert !IsTable(line) by { assert HEADER[0] == '['; }
    assert "" + s + "\n" == line;
    StripAround("", s, "\n");
  }

  // ---------- quotes and comments ----------

  /** The text is inside a string throughout, and at its end not after a backslash. */
  predicate Inside(t: string, q: Quoting) {
    if t == "" then q == INSIDE else q.inString && Inside(t[1..], Step(q, t[0]))
  }

  lemma {:induction false} InsideAppend(a: string, b: string, q: Quoting)
    requires Inside(a, q) && Inside(b, INSIDE)
    ensures Inside(a + b, q)
  {
    if a == "" {
      assert a + b == b;
    } else {
      InsideAppend(a[1..], b, Step(q, a[0]));
      assert (a + b)[1..] == a[1..] + b;
    }
  }

  lemma InsidePlain(s: string)
    requires forall k :: 0 <= k < |s| ==> s[k] != '"' && s[k] != '\\'
    ensures Inside(s, INSIDE)
  {
    if s != "" { InsidePlain(s[1..]); }
  }

  lemma HexIsPlain(d: int)
    requires 0 <= d < 16
    ensures HexDigit(d) != '"' && HexDigit(d) != '\\' && HexDigit(d) != '='
  {
  }

  lemma UnitIsInside(u: int)
    requires 0 <= u < 0x1_0000
    ensures Inside(UnitEscape(u), INSIDE) && '=' !in UnitEscape(u)
  {
    var t := UnitEscape(u);
    HexIsPlain(u / 0x1000);
    HexIsPlain(u / 0x100 % 16);
    HexIsPlain(u / 16 % 16);
    HexIsPlain(u % 16);
    InsidePlain(t[2..]);
    assert t[1..][1..] == t[2..];
  }

  lemma PairIsInside(high: int, low: int)
    requires 0 <= high < 0x1_0000 && 0 <= low < 0x1_0000
    ensures Inside(UnitEscape(high) + UnitEscape(low), INSIDE) && '=' !in UnitEscape(high) + UnitEscape(low)
  {
    UnitIsInside(high);
    UnitIsInside(low);
    InsideAppend(UnitEscape(high), UnitEscape(low), INSIDE);
  }

  lemma ShortIsInside(c: int)
    requires Short(c)
    ensures Inside(EncodeChar(c), INSIDE) && '=' !in EncodeChar(c)
  {
    var t := EncodeChar(c);
    assert |t| == 2 && t[1..][1..] == "";
  }

  /** An encoded character stays inside the string, and is or has an equals sign only if it is one. */
  lemma CharIsInside(c: int)
    ensures Inside(EncodeChar(c), INSIDE)
    ensures '=' in EncodeChar(c) <==> c == '=' as int
  {
    if !Character(c) {
    } else if Short(c) {
      ShortIsInside(c);
    } else if 0x20 <= c < 0x7F {
      InsidePlain([c as char]);
    } else if c < 0x1_0000 {
      UnitIsInside(c);
    } else {
      PairIsInside(0xD800 + (c - 0x1_0000) / 0x400, 0xDC00 + (c - 0x1_0000) % 0x400);
    }
  }

  lemma {:induction false} EncodedIsInside(v: Value)
    ensures Inside(Encode(v), INSIDE)
    ensures '=' in Encode(v) <==> '=' as int in v
  {
    if v != [] {
      CharIsInside(v[0]);
      EncodedIsInside(v[1..]);
      InsideAppend(EncodeChar(v[0]), Encode(v[1..]), INSIDE);
      assert v == [v[0]] + v[1..];
    }
  }

  /** No comment starts inside a string. */
  lemma {:induction false} NoCommentInside(t: string, q: Quoting, rest: string)
    requires Inside(t, q)
    ensures BeforeComment(t + rest, q) == t + BeforeComment(rest, INSIDE)
  {
    if t == "" {
      assert t + rest == rest;
    } else {
      NoCommentInside(t[1..], Step(q, t[0]), rest);
      assert (t + rest)[1..] == t[1..] + rest;
    }
  }

  lemma BeforeCommentCons(c: char, rest: string, q: Quoting)
    requires q.inString || c != '#'
    ensures BeforeComment([c] + rest, q) == [c] + BeforeComment(rest, Step(q, c))
  {
    assert ([c] + rest)[1..] == rest;
  }

  /** A string literal with any body is passed over whole. */
  lemma NoCommentInLiteral(e: string, rest: string)
    requires Inside(e, INSIDE)
    ensures BeforeComment("\"" + e + "\"" + rest, OUTSIDE) == "\"" + e + "\"" + BeforeComment(rest, OUTSIDE)
  {
    var tail := "\"" + rest;
    assert "\"" + e + "\"" + rest == "\"" + (e + tail);
    BeforeCommentCons('"', e + tail, OUTSIDE);
    NoCommentInside(e, INSIDE, tail);
    BeforeCommentCons('"', rest, INSIDE);
    assert "\"" + e + "\"" + BeforeComment(rest, OUTSIDE) == "\"" + (e + ("\"" + BeforeComment(rest, OUTSIDE)));
  }

  lemma NoCommentInQuote(v: Value, rest: string)
    ensures BeforeComment(Quote(v) + rest, OUTSIDE) == Quote(v) + BeforeComment(rest, OUTSIDE)
  {
    EncodedIsInside(v);
    NoCommentInLiteral(Encode(v), rest);
  }

  lemma NoCommentBetween(rest: string)
    ensures BeforeComment(" = " + rest, OUTSIDE) == " = " + BeforeComment(rest, OUTSIDE)
  {
    assert " = " + rest == [' '] + (['='] + ([' '] + rest));
    BeforeCommentCons(' ', ['='] + ([' '] + rest), OUTSIDE);
    BeforeCommentCons('=', [' '] + rest, OUTSIDE);
    BeforeCommentCons(' ', rest, OUTSIDE);
  }

  lemma NoCommentAtEnd()
    ensures BeforeComment("\n", OUTSIDE) == "\n"
  {
    assert "\n" == ['\n'] + "";
    BeforeCommentCons('\n', "", OUTSIDE);
  }

  lemma Regroup(a: string, b: string, c: string, d: string)
    ensures a + b + c + d == a + (b + (c + d))
  {
  }

  lemma NoCommentInEntry(key: Value, value: Value)
    ensures CommentFree(EntryLine(key, value)) == Statement(key, value)
  {
    Regroup(Quote(key), " = ", Quote(value), "\n");
    NoCommentInQuote(key, " = " + (Quote(value) + "\n"));
    NoCommentBetween(Quote(value) + "\n");
    NoCommentInQuote(value, "\n");
    NoCommentAtEnd();
    StatementIsPrintable(key, value);
    RStripSkips(Statement(key, value), "\n");
  }

  // ---------- reading a rendered entry ----------

  lemma KeyIsRead(key: Value)
    requires Unpaired(key)
    ensures ParseKey(Quote(key) + " ") == Some(key)
  {
    assert "" + Quote(key) + " " == Quote(key) + " ";
    EncodedIsPrintable(key);
    StripAround("", Quote(key), " ");
    QuotedRoundTrip(key);
  }

  lemma ValueIsRead(value: Value)
    requires Unpaired(value)
    ensures ParseValue(" " + Quote(value)) == Some(value)
  {
    assert " " + Quote(value) + "" == " " + Quote(value);
    EncodedIsPrintable(value);
    StripAround(" ", Quote(value), "");
    QuotedRoundTrip(value);
  }

  /** An unfinished string is not read. */
  predicate Unclosed(t: string, q: Quoting) {
    q.inString && (t == "" || Unclosed(t[1..], Step(q, t[0])))
  }

  lemma {:induction false} UnclosedPrefix(t: string, q: Quoting, n: nat)
    requires Inside(t, q) && n <= |t|
    ensures Unclosed(t[..n], q)
  {
    if n > 0 {
      UnclosedPrefix(t[1..], Step(q, t[0]), n - 1);
      assert t[..n][1..] == t[1..][..n - 1];
    }
  }

  lemma {:induction false} UnclosedSkip(t: string, n: nat)
    requires n <= |t| && Unclosed(t, INSIDE)
    requires forall k :: 0 <= k < n ==> t[k] != '\\'
    ensures Unclosed(t[n..], INSIDE)
  {
    if n > 0 {
      UnclosedSkip(t[1..], n - 1);
      assert t[1..][n - 1..] == t[n..];
    }
  }

  lemma UnitDigitsPlain(t: string)
    requires ReadUnit(t).Some?
    ensures t[2] != '\\' && t[3] != '\\' && t[4] != '\\' && t[5] != '\\'
  {
  }

  lemma UnclosedUnit(t: string)
    requires ReadUnit(t).Some? && Unclosed(t, INSIDE)
    ensures Unclosed(t[6..], INSIDE)
  {
    UnitDigitsPlain(t);
    assert t[1..][1..] == t[2..];
    UnclosedSkip(t[2..], 4);
    assert t[2..][4..] == t[6..];
  }

  lemma UnclosedAfterChar(t: string)
    requires ReadChar(t).Some? && Unclosed(t, INSIDE)
    ensures Unclosed(t[ReadChar(t).value.1..], INSIDE)
  {
    if t[0] == '\\' {
      if ReadChar(t).value.1 == 2 {
        assert t[1..][1..] == t[2..];
      } else {
        UnclosedUnit(t);
        if ReadChar(t).value.1 == 12 {
          UnclosedUnit(t[6..]);
          assert t[6..][6..] == t[12..];
        }
      }
    }
  }

  lemma {:induction false} UnclosedIsNotRead(t: string)
    requires Unclosed(t, INSIDE)
    ensures Decode(t).None?
    decreases |t|
  {
    if t != "" && ReadChar(t).Some? {
      UnclosedAfterChar(t);
      UnclosedIsNotRead(t[ReadChar(t).value.1..]);
    }
  }

  lemma CutTextIsUnclosed(key: Value, t: string)
    requires t != "" && |t| <= |Encode(key)| && t == Quote(key)[..|t|]
    ensures t[0] == '"' && Decode(t[1..]).None?
  {
    EncodedIsInside(key);
    assert t[1..] == Encode(key)[..|t| - 1];
    UnclosedPrefix(Encode(key), INSIDE, |t| - 1);
    UnclosedIsNotRead(t[1..]);
  }

  /** A quoted key cut short before its closing quote is no key. */
  lemma CutKeyIsNotRead(key: Value, n: nat)
    requires 0 < n <= |Encode(key)|
    ensures ParseKey(Quote(key)[..n]).None?
  {
    var cut := Quote(key)[..n];
    assert cut[0] == '"' && LStrip(cut) == cut;
    var t := RStrip(cut);
    RStripKeepsFirst(cut);
    assert cut[..|t|] == Quote(key)[..|t|];
    CutTextIsUnclosed(key, t);
  }

  lemma StatementIsSplit(key: Value, value: Value)
    requires '=' as int !in key
    ensures var s := Statement(key, value); var i := UpTo(s, '=');
            i < |s| && s[..i] == Quote(key) + " " && s[i + 1..] == " " + Quote(value)
  {
    EncodedIsInside(key);
    var a, b := Quote(key) + " ", " " + Quote(value);
    assert Statement(key, value) == a + "=" + b;
    UpToOf(a, '=', b);
  }

  lemma StatementIsCut(key: Value, value: Value)
    requires '=' as int in key
    ensures var s := Statement(key, value); var i := UpTo(s, '=');
            0 < i <= |Encode(key)| && i < |s| && s[..i] == Quote(key)[..i]
  {
    EncodedIsInside(key);
    var s := Statement(key, value);
    var a, b := "\"" + Encode(key), "\"" + (" = " + Quote(value));
    assert s == a + b;
    UpToInside(a, '=', b);
    assert a[0] == '"';
  }

  lemma StatementIsRead(key: Value, value: Value)
    requires Unpaired(key) && Unpaired(value)
    ensures ReadStatement(Statement(key, value)) == if '=' as int in key then Keyless else Binding(key, Some(value))
  {
    if '=' as int in key {
      StatementIsCut(key, value);
      CutKeyIsNotRead(key, UpTo(Statement(key, value), '='));
    } else {
      StatementIsSplit(key, value);
      KeyIsRead(key);
      ValueIsRead(value);
    }
  }

  lemma StatementIsStripped(key: Value, value: Value)
    ensures Strip(Statement(key, value)) == Statement(key, value)
  {
    var s := Statement(key, value);
    StatementIsPrintable(key, value);
    assert "" + s + "" == s;
    StripAround("", s, "");
  }

  /** Reading a rendered entry: it is the binding that was written, unless its key has an equals sign. */
  lemma EntryIsRead(key: Value, value: Value)
    requires Unpaired(key) && Unpaired(value)
    ensures ReadEntry(EntryLine(key, value)) == if '=' as int in key then Keyless else Binding(key, Some(value))
  {
    EntryLineIsOne(key, value);
    NoCommentInEntry(key, value);
    StatementIsStripped(key, value);
    StatementIsRead(key, value);
  }
}
