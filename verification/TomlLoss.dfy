/** A settings file that is read and then written so that it cannot be read again. */
module TomlLoss {
  import opened Wrappers
  import opened Text
  import opened JsonString
  import opened TomlTable
  import opened TomlEntry
  import opened TomlLayout
  import opened TomlSync

  /** A key with an escaped equals sign, as it stands between its quotes, and what it is read as. */
  const BODY := "a\\u003db"
  const KEY: Value := ['a' as int, '=' as int, 'b' as int]
  const LITERAL := "\"" + BODY + "\""

  lemma BodyIsPlain()
    ensures Inside(BODY, INSIDE) && '=' !in BODY && Printable(BODY) && '=' !in LITERAL && |BODY| == 8
  {
    assert BODY[1..][1..] == BODY[2..];
    InsidePlain(BODY[2..]);
  }

  lemma BodyIsDecoded()
    ensures Decode(BODY + "\"") == Some((KEY, ""))
  {
    var end, last := "\"", "b\"";
    var escape := UnitEscape('=' as int) + last;
    assert UnitEscape('=' as int) == "\\u003d";
    assert BODY + "\"" == ['a'] + escape;
    assert Decode(end) == Some(([], "")) by { assert end[1..] == ""; }
    assert last[1..] == end;
    DecodeStep(last, 'b' as int, 1, end, [], "");
    ReadUnitEscape(escape, '=' as int, last);
    DecodeStep(escape, '=' as int, 6, last, ['b' as int] + [], "");
    assert (['a'] + escape)[1..] == escape;
    DecodeStep(['a'] + escape, 'a' as int, 1, escape, ['=' as int] + (['b' as int] + []), "");
    assert ['a' as int] + (['=' as int] + (['b' as int] + [])) == KEY;
  }

  function EscapedStatement(value: Value): string {
    LITERAL + " = " + Quote(value)
  }

  function EscapedLine(value: Value): string {
    EscapedStatement(value) + "\n"
  }

  lemma VisibleEnds(s: string)
    requires s != "" && !IsSpace(s[0]) && !IsSpace(s[|s| - 1])
    ensures Strip(s + "\n") == s && Strip(s) == s
  {
    assert "" + s + "\n" == s + "\n" && "" + s + "" == s;
    StripAround("", s, "\n");
    StripAround("", s, "");
  }

  lemma LiteralShape()
    ensures Printable(LITERAL) && LITERAL != "" && LITERAL[0] == '"'
  {
    BodyIsPlain();
  }

  lemma StatementIsTight(value: Value)
    ensures var s := EscapedStatement(value);
            Printable(s) && s != "" && s[0] == '"' && s[|s| - 1] == '"'
    ensures Strip(EscapedLine(value)) == EscapedStatement(value) && Strip(EscapedStatement(value)) == EscapedStatement(value)
  {
    LiteralShape();
    EncodedIsPrintable(value);
    VisibleEnds(EscapedStatement(value));
  }

  lemma LineHasNoComment(value: Value)
    ensures CommentFree(EscapedLine(value)) == EscapedStatement(value)
  {
    BodyIsPlain();
    Regroup(LITERAL, " = ", Quote(value), "\n");
    NoCommentInLiteral(BODY, " = " + (Quote(value) + "\n"));
    NoCommentBetween(Quote(value) + "\n");
    NoCommentInQuote(value, "\n");
    NoCommentAtEnd();
    StatementIsTight(value);
    RStripSkips(EscapedStatement(value), "\n");
  }

  lemma LiteralIsStripped()
    ensures Strip(LITERAL + " ") == LITERAL && LITERAL != ""
  {
    LiteralShape();
    assert "" + LITERAL + " " == LITERAL + " ";
    StripAround("", LITERAL, " ");
  }

  lemma KeyIsParsed()
    ensures ParseKey(LITERAL + " ") == Some(KEY)
  {
    LiteralIsStripped();
    BodyIsDecoded();
    assert LITERAL[1..] == BODY + "\"";
  }

  lemma StatementIsParsed(value: Value)
    requires Unpaired(value)
    ensures ReadStatement(EscapedStatement(value)) == Binding(KEY, Some(value))
  {
    var s, a, b := EscapedStatement(value), LITERAL + " ", " " + Quote(value);
    BodyIsPlain();
    assert s == a + "=" + b;
    UpToOf(a, '=', b);
    assert s[..|a|] == a && s[|a| + 1..] == b;
    KeyIsParsed();
    ValueIsRead(value);
  }

  lemma LineIsBinding(value: Value)
    requires Unpaired(value)
    ensures ReadEntry(EscapedLine(value)) == Binding(KEY, Some(value))
  {
    StatementIsTight(value);
    LineHasNoComment(value);
    StatementIsParsed(value);
  }

  /** The file: the table's header and one entry. */
  function EscapedLines(value: Value): seq<string> {
    [HEADER + "\n", EscapedLine(value)]
  }

  lemma LinesAreTable(value: Value)
    ensures Proper(EscapedLines(value)) && TableAt(EscapedLines(value), 0, 2)
  {
    HeaderLine();
    StatementIsTight(value);
    var line := EscapedLine(value);
    assert line[..|line| - 1] == EscapedStatement(value);
    assert LStrip(line) == line && line[0] == '"' && HEADER[0] == '[';
  }

  lemma FileIsRead(value: Value)
    requires Unpaired(value)
    ensures Current(Join(EscapedLines(value))) == Ok(map[KEY := value])
  {
    var lines := EscapedLines(value);
    LinesAreTable(value);
    SplitOfJoin(lines);
    TableIsRead(lines, 0, 2);
    EntryAt(lines, 1);
    LineIsBinding(value);
    assert map[][KEY := value] == map[KEY := value];
  }

  /** A file with the key `"a\u003db"` is read; whatever is merged into it, the result cannot be read. */
  lemma EscapedKeyIsLost(value: Value, env: Table)
    requires Unpaired(value) && AllUnpaired(env)
    ensures Current(Join(EscapedLines(value))) == Ok(map[KEY := value])
    ensures Current(Merged(Join(EscapedLines(value)), env)).Err?
  {
    FileIsRead(value);
    MergeIsReadBack(Join(EscapedLines(value)), env);
    assert KEY in Merge(map[KEY := value], env) && KEY[1] == '=' as int;
  }
}
