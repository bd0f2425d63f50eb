/**
 What the lines of the table may look like, and what they say.  A line is read as a binding exactly if
 it has that form, and a file exactly as the bindings of its lines.
 */
module TomlReading {
  import opened Wrappers
  import opened Text
  import opened JsonString
  import opened JsonSpelling
  import opened TomlTable
  import opened TomlEntry
  import opened TomlLayout
  import opened TomlSync

  // ---------- stripping ----------

  lemma {:induction false} LStripParts(s: string) returns (a: string)
    ensures Blank(a) && s == a + LStrip(s)
  {
    if s != "" && IsSpace(s[0]) {
      var b := LStripParts(s[1..]);
      a := [s[0]] + b;
    } else {
      a := "";
    }
  }

  lemma {:induction false} RStripParts(s: string) returns (b: string)
    ensures Blank(b) && s == RStrip(s) + b
    decreases |s|
  {
    if s != "" && IsSpace(s[|s| - 1]) {
      var c := RStripParts(s[..|s| - 1]);
      b := c + [s[|s| - 1]];
      assert s == s[..|s| - 1] + [s[|s| - 1]];
    } else {
      b := "";
      assert RStrip(s) == s;
    }
  }

  /** Stripping takes blanks away on both sides, and nothing else. */
  lemma StripParts(s: string) returns (a: string, b: string)
    ensures Blank(a) && Blank(b) && s == a + Strip(s) + b
  {
    a := LStripParts(s);
    b := RStripParts(LStrip(s));
    assert s == a + (Strip(s) + b);
  }

  lemma {:induction false} RStripTail(s: string, tail: string)
    requires s != "" && !IsSpace(s[|s| - 1])
    ensures RStrip(s + tail) == s + RStrip(tail)
    decreases |tail|
  {
    var t := s + tail;
    if tail == "" {
      assert t == s && RStrip(tail) == "";
    } else if IsSpace(tail[|tail| - 1]) {
      assert t[..|t| - 1] == s + tail[..|tail| - 1];
      RStripTail(s, tail[..|tail| - 1]);
    } else {
      assert t[|t| - 1] == tail[|tail| - 1];
    }
  }

  // ---------- keys and values ----------

  /** A letter, a digit, an underscore or a hyphen, in ASCII. */
  predicate Regular(c: char) {
    var n := c as int;
    65 <= n < 91 || 97 <= n < 123 || 48 <= n < 58 || n == 95 || n == 45
  }

  lemma BareLetter(c: char)
    ensures BareChar(c) <==> Regular(c)
  {
  }

  /** The code points of a text. */
  predicate Codes(text: string, v: Value) {
    |v| == |text| && forall i :: 0 <= i < |text| ==> v[i] == text[i] as int
  }

  predicate BareText(text: string) {
    text != "" && forall i :: 0 <= i < |text| ==> Regular(text[i])
  }

  lemma {:induction false} BareIsRead(text: string, v: Value)
    ensures BareKey(text) == Some(v) <==> (forall i :: 0 <= i < |text| ==> Regular(text[i])) && Codes(text, v)
  {
    if text != "" {
      BareLetter(text[0]);
      BareIsRead(text[1..], if v == [] then [] else v[1..]);
      assert text == [text[0]] + text[1..];
      if v != [] { assert v == [v[0]] + v[1..]; }
    }
  }

  /** A string literal, and what it spells. */
  ghost predicate Literal(text: string, v: Value) {
    exists ps :: LiteralOf(text, ps, v)
  }

  ghost predicate LiteralOf(text: string, ps: seq<Piece>, v: Value) {
    AllOk(ps) && Spelling(ps, v) && text == "\"" + (BodyText(ps) + "\"")
  }

  /** What a key stands for: a bare one for its own characters. */
  ghost predicate KeyMeans(text: string, v: Value) {
    (BareText(text) && Codes(text, v)) || Literal(text, v)
  }

  /** Nothing but blanks, or blanks and a comment. */
  predicate Trailing(s: string) {
    exists n :: 0 <= n <= |s| && Blank(s[..n]) && (n == |s| || s[n] == '#')
  }

  /** The text with blanks around it. */
  predicate Padded(s: string, text: string) {
    exists m, n :: 0 <= m <= n <= |s| && Blank(s[..m]) && Blank(s[n..]) && s[m..n] == text
  }

  lemma PaddedParts(a: string, text: string, b: string)
    requires Blank(a) && Blank(b)
    ensures Padded(a + text + b, text)
  {
    var s, m := a + text + b, |a|;
    var n := m + |text|;
    assert s[..m] == a && s[n..] == b && s[m..n] == text;
  }

  lemma PaddedIsStripped(s: string, text: string)
    requires Padded(s, text) && text != "" && !IsSpace(text[0]) && !IsSpace(text[|text| - 1])
    ensures Strip(s) == text
  {
    var m, n :| 0 <= m <= n <= |s| && Blank(s[..m]) && Blank(s[n..]) && s[m..n] == text;
    InThree(s, m, n);
    StripAround(s[..m], text, s[n..]);
  }

  lemma InThree(s: string, m: nat, n: nat)
    requires m <= n <= |s|
    ensures s == s[..m] + s[m..n] + s[n..]
  {
  }

  lemma LiteralEnds(text: string, v: Value)
    requires Literal(text, v)
    ensures |text| >= 2 && text[0] == '"' && text[|text| - 1] == '"'
  {
  }

  lemma KeyEnds(text: string, v: Value)
    requires KeyMeans(text, v)
    ensures text != "" && !IsSpace(text[0]) && !IsSpace(text[|text| - 1])
    ensures text[0] == '"' <==> Literal(text, v)
    ensures text[0] != '#' && text[0] != '['
  {
    if Literal(text, v) {
      LiteralEnds(text, v);
    } else {
      BareLetter(text[0]);
      BareLetter(text[|text| - 1]);
    }
  }

  /** A literal that nothing but blanks follow is a literal. */
  lemma LiteralIsRead(t: string, v: Value)
    requires t != "" && t[0] == '"' && !IsSpace(t[|t| - 1])
    ensures Literal(t, v) <==> Decode(t[1..]) == Some((v, ""))
  {
    ReadIffSpelled(t[1..], v, "");
    assert "\"" + "" == "\"";
    forall ps ensures t[1..] == BodyText(ps) + ("\"" + "") <==> t == "\"" + (BodyText(ps) + "\"") {
      assert t == "\"" + t[1..];
    }
    forall ps ensures LiteralOf(t, ps, v) <==> AllOk(ps) && Spelling(ps, v) && t[1..] == BodyText(ps) + ("\"" + "") { }
  }

  // ---------- keys ----------

  lemma BlankAppend(a: string, b: string)
    requires Blank(a) && Blank(b)
    ensures Blank(a + b)
  {
  }

  /** The stripped text behind a literal: nothing. */
  lemma NothingBehind(t: string, v: Value, rest: string)
    requires t != "" && !IsSpace(t[|t| - 1]) && Decode(t[1..]) == Some((v, rest)) && Strip(rest) == ""
    ensures rest == ""
  {
    var ps := ReadIsSpelled(t[1..], v, rest, "\"" + rest);
    var a, b := StripParts(rest);
    assert rest == a + b;
    BlankAppend(a, b);
    if rest != "" { EndsAlike(t, BodyText(ps) + "\"", rest); }
  }

  lemma EndsAlike(t: string, front: string, rest: string)
    requires t != "" && rest != "" && t[1..] == front + rest
    ensures t[|t| - 1] == rest[|rest| - 1]
  {
    assert t == [t[0]] + (front + rest);
  }

  /** `ParseKey` of a text already stripped. */
  predicate ReadsKey(t: string, v: Value)
    requires t != ""
  {
    if t[0] == '"' then Decode(t[1..]).Some? && Strip(Decode(t[1..]).value.1) == "" && Decode(t[1..]).value.0 == v
    else BareKey(t) == Some(v)
  }

  lemma QuotedKeyMeans(t: string, v: Value)
    requires t != "" && t[0] == '"' && !IsSpace(t[|t| - 1])
    ensures ReadsKey(t, v) <==> Literal(t, v)
  {
    LiteralIsRead(t, v);
    if Decode(t[1..]).Some? && Strip(Decode(t[1..]).value.1) == "" { NothingBehind(t, Decode(t[1..]).value.0, Decode(t[1..]).value.1); }
    assert Strip("") == "";
  }

  lemma StrippedKey(t: string, v: Value)
    requires t != "" && !IsSpace(t[0]) && !IsSpace(t[|t| - 1])
    ensures ReadsKey(t, v) <==> KeyMeans(t, v)
  {
    if t[0] == '"' {
      QuotedKeyMeans(t, v);
    } else {
      BareIsRead(t, v);
      if Literal(t, v) { LiteralEnds(t, v); }
    }
  }

  lemma StripEnds(s: string)
    ensures Strip(s) != "" ==> !IsSpace(Strip(s)[0]) && !IsSpace(Strip(s)[|Strip(s)| - 1])
  {
    var l := LStrip(s);
    if Strip(s) != "" { assert Strip(s)[0] == l[..|Strip(s)|][0]; }
  }

  /** A key is read as exactly what it means, with blanks around it. */
  lemma KeyIffMeans(text: string, v: Value)
    ensures ParseKey(text) == Some(v) <==> exists k :: Padded(text, k) && KeyMeans(k, v)
  {
    var t := Strip(text);
    StripEnds(text);
    if t != "" { StrippedKey(t, v); }
    if ParseKey(text) == Some(v) {
      var a, b := StripParts(text);
      PaddedParts(a, t, b);
    }
    if k :| Padded(text, k) && KeyMeans(k, v) {
      KeyEnds(k, v);
      PaddedIsStripped(text, k);
    }
  }

  /** In particular a bare key is read as its own characters, and other unquoted text is no key. */
  lemma BareKeyIsItself(a: string, name: string, b: string, v: Value)
    requires Blank(a) && Blank(b) && name != "" && name[0] != '"' && !IsSpace(name[0]) && !IsSpace(name[|name| - 1])
    ensures ParseKey(a + name + b) == Some(v) <==> (forall i :: 0 <= i < |name| ==> Regular(name[i])) && Codes(name, v)
  {
    StripAround(a, name, b);
    BareIsRead(name, v);
  }

  // ---------- values ----------

  lemma {:induction false} RStripOfBlank(s: string)
    requires Blank(s)
    ensures RStrip(s) == ""
    decreases |s|
  {
    if s != "" { RStripOfBlank(s[..|s| - 1]); }
  }

  lemma StripOfBlank(s: string)
    requires Blank(s)
    ensures Strip(s) == ""
  {
    LStripBlank(s);
  }

  /** What stands behind a value is cut at the end only. */
  lemma TrailingIsCut(tail: string)
    requires Trailing(tail)
    ensures var rest := Strip(RStrip(tail)); rest == "" || rest[0] == '#'
  {
    var n :| 0 <= n <= |tail| && Blank(tail[..n]) && (n == |tail| || tail[n] == '#');
    if n == |tail| {
      assert tail[..n] == tail;
      RStripOfBlank(tail);
      StripOfBlank("");
    } else {
      CommentIsCut(tail[..n], tail[n..]);
      assert tail == tail[..n] + tail[n..];
    }
  }

  lemma LStripStays(s: string)
    requires s != "" && !IsSpace(s[0])
    ensures LStrip(s) == s
  {
  }

  lemma RStripStays(s: string)
    requires s != "" && !IsSpace(s[|s| - 1])
    ensures RStrip(s) == s
  {
  }

  lemma RStripParted(s: string) returns (c: string, b: string)
    requires s != "" && !IsSpace(s[0])
    ensures s == c + b && Blank(b) && c != "" && c[0] == s[0] && !IsSpace(c[|c| - 1])
  {
    b := RStripParts(s);
    c := RStrip(s);
    RStripKeepsFirst(s);
  }

  lemma RStripJoined(blanks: string, c: string, b: string)
    requires Blank(b) && c != "" && !IsSpace(c[|c| - 1])
    ensures RStrip(blanks + (c + b)) == blanks + c
  {
    assert blanks + (c + b) == (blanks + c) + b;
    RStripSkips(blanks + c, b);
    RStripStays(blanks + c);
  }

  lemma RStripOfComment(blanks: string, comment: string) returns (c: string)
    requires Blank(blanks) && comment != "" && comment[0] == '#'
    ensures RStrip(blanks + comment) == blanks + c && c != "" && c[0] == '#' && RStrip(c) == c
  {
    var b: string;
    c, b := RStripParted(comment);
    RStripJoined(blanks, c, b);
    RStripStays(c);
  }

  lemma CommentIsCut(blanks: string, comment: string)
    requires Blank(blanks) && comment != "" && comment[0] == '#'
    ensures var rest := Strip(RStrip(blanks + comment)); rest != "" && rest[0] == '#'
  {
    var c := RStripOfComment(blanks, comment);
    LStripSkips(blanks, c);
    LStripStays(c);
  }

  /** What is left behind a value is trailing if it is empty or a comment when stripped. */
  lemma StrippedTrailing(rest: string, b: string)
    requires Blank(b) && (Strip(rest) == "" || Strip(rest)[0] == '#')
    ensures Trailing(rest + b)
  {
    var c, d := StripParts(rest);
    var all := rest + b;
    if Strip(rest) == "" {
      BlankAppend(c, d);
      assert rest == c + d;
      BlankAppend(rest, b);
      assert all[..|all|] == all;
    } else {
      assert all[..|c|] == c && all[|c|] == Strip(rest)[0];
    }
  }

  /** A literal with blanks in front and nothing but a comment behind. */
  ghost predicate ValueText(text: string, lit: string, v: Value, m: nat) {
    && Literal(lit, v) && m + |lit| <= |text| && Blank(text[..m]) && text[m..m + |lit|] == lit && Trailing(text[m + |lit|..])
  }

  lemma LiteralValueIsRead(text: string, lit: string, v: Value, m: nat)
    requires ValueText(text, lit, v, m)
    ensures ParseValue(text) == Some(v)
  {
    var tail := text[m + |lit|..];
    LiteralEnds(lit, v);
    StripsToLiteral(text, text[..m], lit, tail);
    LiteralFollowed(lit, v, RStrip(tail));
    TrailingIsCut(tail);
    ValueSteps(text, v, RStrip(tail));
  }

  lemma StripsToLiteral(text: string, blanks: string, lit: string, tail: string)
    requires Blank(blanks) && |lit| >= 2 && lit[0] == '"' && lit[|lit| - 1] == '"' && text == blanks + lit + tail
    ensures Strip(text) == lit + RStrip(tail)
  {
    assert text == blanks + (lit + tail);
    LStripSkips(blanks, lit + tail);
    RStripTail(lit, tail);
  }

  lemma LiteralTail(body: string, rest: string)
    ensures var t := "\"" + (body + "\"") + rest; t[0] == '"' && t[1..] == body + ("\"" + rest)
  {
  }

  lemma LiteralFollowed(lit: string, v: Value, rest: string)
    requires Literal(lit, v)
    ensures (lit + rest)[0] == '"' && Decode((lit + rest)[1..]) == Some((v, rest))
  {
    var ps :| LiteralOf(lit, ps, v);
    LiteralTail(BodyText(ps), rest);
    SpelledIsRead(ps, v, rest, "\"" + rest);
  }

  /** What is read begins with a literal. */
  lemma LiteralFirst(t: string, v: Value, rest: string) returns (lit: string)
    requires t != "" && t[0] == '"' && Decode(t[1..]) == Some((v, rest))
    ensures Literal(lit, v) && t == lit + rest
  {
    var ps := ReadIsSpelled(t[1..], v, rest, "\"" + rest);
    lit := "\"" + (BodyText(ps) + "\"");
    assert LiteralOf(lit, ps, v);
    LiteralTail(BodyText(ps), rest);
    assert t == [t[0]] + t[1..];
  }

  lemma Slices(text: string, a: string, lit: string, tail: string)
    requires text == a + (lit + tail)
    ensures var m := |a|; m + |lit| <= |text| && text[..m] == a && text[m..m + |lit|] == lit && text[m + |lit|..] == tail
  {
    assert text == a + lit + tail;
  }

  lemma IsValueText(text: string, lit: string, v: Value, a: string, tail: string)
    requires Literal(lit, v) && Blank(a) && Trailing(tail) && text == a + (lit + tail)
    ensures ValueText(text, lit, v, |a|)
  {
    Slices(text, a, lit, tail);
  }

  lemma Regroup3(a: string, lit: string, rest: string, b: string)
    ensures a + (lit + rest) + b == a + (lit + (rest + b))
  {
  }

  /** `ParseValue` by its steps. */
  lemma ValueSteps(text: string, v: Value, rest: string)
    requires Strip(text) != "" && Strip(text)[0] == '"' && Decode(Strip(text)[1..]) == Some((v, rest))
    ensures ParseValue(text) == if Strip(rest) == "" || Strip(rest)[0] == '#' then Some(v) else None
  {
  }

  lemma ValueHasLiteral(text: string, v: Value) returns (rest: string)
    requires ParseValue(text) == Some(v)
    ensures Strip(text) != "" && Strip(text)[0] == '"' && Decode(Strip(text)[1..]) == Some((v, rest))
    ensures Strip(rest) == "" || Strip(rest)[0] == '#'
  {
    rest := Decode(Strip(text)[1..]).value.1;
  }

  lemma ReadIsValue(text: string, v: Value) returns (lit: string, m: nat)
    requires ParseValue(text) == Some(v)
    ensures ValueText(text, lit, v, m)
  {
    var rest := ValueHasLiteral(text, v);
    var a, b := StripParts(text);
    lit, m := PaddedValue(text, v, Strip(text), rest, a, b);
  }

  lemma PaddedValue(text: string, v: Value, t: string, rest: string, a: string, b: string) returns (lit: string, m: nat)
    requires t != "" && t[0] == '"' && Decode(t[1..]) == Some((v, rest)) && (Strip(rest) == "" || Strip(rest)[0] == '#')
    requires text == a + t + b && Blank(a) && Blank(b)
    ensures ValueText(text, lit, v, m)
  {
    lit := LiteralFirst(t, v, rest);
    m := |a|;
    StrippedTrailing(rest, b);
    Regroup3(a, lit, rest, b);
    IsValueText(text, lit, v, a, rest + b);
  }

  /** A value is read exactly from a literal with at most a comment behind it, as what it spells. */
  lemma ValueIffLiteral(text: string, v: Value)
    ensures ParseValue(text) == Some(v) <==> exists lit, m :: ValueText(text, lit, v, m)
  {
    if ParseValue(text) == Some(v) { var lit, m := ReadIsValue(text, v); }
    if lit, m :| ValueText(text, lit, v, m) { LiteralValueIsRead(text, lit, v, m); }
  }

  // ---------- one line ----------

  lemma {:induction false} UpToIsFirst(s: string, c: char)
    ensures forall k :: 0 <= k < UpTo(s, c) ==> s[k] != c
  {
    if s != "" && s[0] != c { UpToIsFirst(s[1..], c); }
  }

  /** The statement is a key and a value with its first equals sign between them. */
  predicate Sides(s: string, i: nat, k: Value, v: Value) {
    i < |s| && s[i] == '=' && '=' !in s[..i] && ParseKey(s[..i]) == Some(k) && ParseValue(s[i + 1..]) == Some(v)
  }

  lemma SidesAreUpTo(s: string, i: nat, k: Value, v: Value)
    requires Sides(s, i, k, v)
    ensures UpTo(s, '=') == i
  {
    assert s == s[..i] + ['='] + s[i + 1..];
    UpToOf(s[..i], '=', s[i + 1..]);
  }

  lemma StatementSplit(s: string, i: nat, key: Option<Value>, value: Option<Value>)
    requires i == UpTo(s, '=') < |s| && ParseKey(s[..i]) == key && ParseValue(s[i + 1..]) == value
    ensures ReadStatement(s) == if key.None? then Keyless else Binding(key.value, value)
  {
  }

  lemma NoSides(s: string)
    requires UpTo(s, '=') == |s|
    ensures !ReadStatement(s).Binding?
  {
  }

  lemma StatementSteps(s: string, i: nat, k: Value, v: Value)
    requires i == UpTo(s, '=')
    ensures ReadStatement(s) == Binding(k, Some(v)) <==> i < |s| && ParseKey(s[..i]) == Some(k) && ParseValue(s[i + 1..]) == Some(v)
  {
    if i < |s| { StatementSplit(s, i, ParseKey(s[..i]), ParseValue(s[i + 1..])); } else { NoSides(s); }
  }

  /** A statement is a binding exactly if it has such sides. */
  lemma StatementIffSides(s: string, k: Value, v: Value)
    ensures ReadStatement(s) == Binding(k, Some(v)) <==> exists i :: Sides(s, i, k, v)
  {
    if ReadStatement(s) == Binding(k, Some(v)) { BindingHasSides(s, k, v); }
    if i :| Sides(s, i, k, v) { SidesBind(s, i, k, v); }
  }

  lemma BindingHasSides(s: string, k: Value, v: Value)
    requires ReadStatement(s) == Binding(k, Some(v))
    ensures Sides(s, UpTo(s, '='), k, v)
  {
    UpToIsFirst(s, '=');
    StatementSteps(s, UpTo(s, '='), k, v);
  }

  lemma SidesBind(s: string, i: nat, k: Value, v: Value)
    requires Sides(s, i, k, v)
    ensures ReadStatement(s) == Binding(k, Some(v))
  {
    SidesAreUpTo(s, i, k, v);
    StatementSteps(s, i, k, v);
  }

  /** The parts of a line that binds a key to a value. */
  datatype Parts = Parts(before: string, key: string, after: string, gap: string, lit: string, tail: string)

  function Line(p: Parts): string {
    p.before + (p.key + (p.after + ("=" + (p.gap + (p.lit + p.tail)))))
  }

  /** Blanks where blanks may stand, a key without an equals sign, a literal, and at most a comment. */
  ghost predicate HasParts(raw: string, p: Parts, k: Value, v: Value) {
    && raw == Line(p) && Blank(p.before) && Blank(p.after) && Blank(p.gap) && Trailing(p.tail)
    && KeyMeans(p.key, k) && '=' !in p.key && Literal(p.lit, v)
  }

  /** The line binds this key to this value. */
  ghost predicate Binds(raw: string, k: Value, v: Value) {
    exists p :: HasParts(raw, p, k, v)
  }

  // ---------- comments in a line ----------

  lemma {:induction false} PieceIsInside(p: Piece)
    requires PieceOk(p)
    ensures Inside(PieceText(p), INSIDE)
  {
    var t := PieceText(p);
    match p
    case Plain(c) => InsidePlain(t);
    case Marked(mark) => assert t[1..] == [mark] && t[1..][1..] == "";
    case Unit(digits) =>
      UnitIsPlain(digits);
      InsidePlain(digits);
      assert t[1..][1..] == digits;
  }

  lemma UnitIsPlain(digits: string)
    requires PieceOk(Unit(digits))
    ensures forall i :: 0 <= i < |digits| ==> digits[i] != '"' && digits[i] != '\\'
  {
    var u :| Spells(digits, u);
    UnitIsRead(digits, u, "");
    ReadUnitIsPlain(digits, ['\\', 'u'] + digits + "");
  }

  lemma ReadUnitIsPlain(digits: string, t: string)
    requires |digits| == 4 && t == ['\\', 'u'] + digits + "" && ReadUnit(t).Some?
    ensures forall i :: 0 <= i < |digits| ==> digits[i] != '"' && digits[i] != '\\'
  {
    DigitsAt(digits, "");
    HexIsNoQuote(digits[0]);
    HexIsNoQuote(digits[1]);
    HexIsNoQuote(digits[2]);
    HexIsNoQuote(digits[3]);
  }

  lemma HexIsNoQuote(c: char)
    ensures HexValue(c).Some? ==> c != '"' && c != '\\'
  {
  }

  lemma {:induction false} BodyIsInside(ps: seq<Piece>)
    requires AllOk(ps)
    ensures Inside(BodyText(ps), INSIDE)
  {
    if ps != [] {
      PieceIsInside(ps[0]);
      AllOkTail(ps, 1);
      BodyIsInside(ps[1..]);
      InsideAppend(PieceText(ps[0]), BodyText(ps[1..]), INSIDE);
    }
  }

  /** The literal is passed over. */
  lemma NoCommentInText(lit: string, v: Value, rest: string)
    requires Literal(lit, v)
    ensures BeforeComment(lit + rest, OUTSIDE) == lit + BeforeComment(rest, OUTSIDE)
  {
    var ps :| LiteralOf(lit, ps, v);
    BodyIsInside(ps);
    NoCommentInBody(BodyText(ps), lit, rest);
  }

  lemma NoCommentInBody(body: string, lit: string, rest: string)
    requires Inside(body, INSIDE) && lit == "\"" + (body + "\"")
    ensures BeforeComment(lit + rest, OUTSIDE) == lit + BeforeComment(rest, OUTSIDE)
  {
    NoCommentInLiteral(body, rest);
    assert lit == "\"" + body + "\"";
  }

  /** Text without quotes and number signs is passed over too. */
  lemma {:induction false} NoCommentInPlain(s: string, rest: string)
    requires forall i :: 0 <= i < |s| ==> s[i] != '"' && s[i] != '#'
    ensures BeforeComment(s + rest, OUTSIDE) == s + BeforeComment(rest, OUTSIDE)
  {
    if s == "" {
      assert s + rest == rest;
    } else {
      NoCommentInPlain(s[1..], rest);
      BeforeCommentCons(s[0], s[1..] + rest, OUTSIDE);
      assert s + rest == [s[0]] + (s[1..] + rest);
    }
  }

  lemma NoCommentInBlank(s: string, rest: string)
    requires Blank(s)
    ensures BeforeComment(s + rest, OUTSIDE) == s + BeforeComment(rest, OUTSIDE)
  {
    NoCommentInPlain(s, rest);
  }

  lemma NoCommentInKey(key: string, k: Value, rest: string)
    requires KeyMeans(key, k)
    ensures BeforeComment(key + rest, OUTSIDE) == key + BeforeComment(rest, OUTSIDE)
  {
    if Literal(key, k) { NoCommentInText(key, k, rest); } else { NoCommentInPlain(key, rest); }
  }

  /** What is left of the trailing part is blank. */
  lemma TrailingBeforeComment(tail: string)
    requires Trailing(tail)
    ensures Blank(BeforeComment(tail, OUTSIDE))
  {
    var n :| 0 <= n <= |tail| && Blank(tail[..n]) && (n == |tail| || tail[n] == '#');
    NoCommentInBlank(tail[..n], tail[n..]);
    assert tail == tail[..n] + tail[n..];
  }

  /** The line up to its comment. */
  lemma LineBeforeComment(p: Parts, k: Value, v: Value)
    requires HasParts(Line(p), p, k, v)
    ensures BeforeComment(Line(p), OUTSIDE) == Line(p.(tail := BeforeComment(p.tail, OUTSIDE)))
  {
    var r6 := p.lit + p.tail;
    var r5 := p.gap + r6;
    var r4 := "=" + r5;
    var r3 := p.after + r4;
    NoCommentInBlank(p.before, p.key + r3);
    NoCommentInKey(p.key, k, r3);
    NoCommentInBlank(p.after, r4);
    BeforeCommentCons('=', r5, OUTSIDE);
    NoCommentInBlank(p.gap, r6);
    NoCommentInText(p.lit, v, p.tail);
  }

  // ---------- what a line says ----------

  /** The line without blanks in front and without what stands behind the value. */
  function Core(p: Parts): string {
    p.key + (p.after + ("=" + (p.gap + p.lit)))
  }

  lemma LineIsCore(p: Parts, tail: string)
    ensures Line(p.(tail := tail)) == p.before + (Core(p) + tail)
  {
    var r5 := p.gap + (p.lit + tail);
    assert p.gap + p.lit + tail == r5;
    assert "=" + (p.gap + p.lit) + tail == "=" + r5;
    assert p.after + ("=" + (p.gap + p.lit)) + tail == p.after + ("=" + r5);
    assert Core(p) + tail == p.key + (p.after + ("=" + r5));
  }

  lemma CoreEnds(p: Parts, k: Value, v: Value)
    requires KeyMeans(p.key, k) && Literal(p.lit, v)
    ensures Core(p) != "" && Core(p)[0] == p.key[0] && !IsSpace(Core(p)[0]) && !IsSpace(Core(p)[|Core(p)| - 1])
    ensures Core(p)[0] != '#' && Core(p)[0] != '['
  {
    KeyEnds(p.key, k);
    LiteralEnds(p.lit, v);
    LastOf(p.key, p.after, "=", p.gap, p.lit);
  }

  lemma LastOf(a: string, b: string, c: string, d: string, e: string)
    requires a != "" && e != ""
    ensures var s := a + (b + (c + (d + e))); s != "" && s[0] == a[0] && s[|s| - 1] == e[|e| - 1]
  {
  }

  lemma StripsToFirst(before: string, core: string, tail: string)
    requires Blank(before) && core != "" && !IsSpace(core[0])
    ensures var s := Strip(before + (core + tail)); s != "" && s[0] == core[0]
  {
    LStripSkips(before, core + tail);
    LStripStays(core + tail);
    RStripKeepsFirst(core + tail);
  }

  /** The statement that is left of a line. */
  lemma LineStatement(raw: string, p: Parts, k: Value, v: Value)
    requires HasParts(raw, p, k, v)
    ensures Strip(CommentFree(raw)) == Core(p)
  {
    var blanks := BeforeComment(p.tail, OUTSIDE);
    LineBeforeComment(p, k, v);
    TrailingBeforeComment(p.tail);
    CoreEnds(p, k, v);
    LineIsCore(p, blanks);
    RStripJoined(p.before, Core(p), blanks);
    LStripSkips(p.before, Core(p));
    LStripStays(Core(p));
    RStripStays(Core(p));
  }

  lemma CoreSides(p: Parts, k: Value, v: Value)
    requires KeyMeans(p.key, k) && Blank(p.after) && Blank(p.gap) && Literal(p.lit, v) && '=' !in p.key
    ensures Sides(Core(p), |p.key + p.after|, k, v)
  {
    var left, right := p.key + p.after, p.gap + p.lit;
    CoreSplit(p, left, right);
    MeantKeyIsRead(p.key, k, p.after);
    GapIsRead(p.gap, p.lit, v);
    NoEqualsBefore(p.key, p.after);
  }

  lemma CoreSplit(p: Parts, left: string, right: string)
    requires left == p.key + p.after && right == p.gap + p.lit
    ensures var i := |left|; i < |Core(p)| && Core(p)[..i] == left && Core(p)[i] == '=' && Core(p)[i + 1..] == right
  {
    assert Core(p) == left + ("=" + right);
  }

  lemma NoEqualsBefore(key: string, after: string)
    requires '=' !in key && Blank(after)
    ensures '=' !in key + after
  {
  }

  lemma MeantKeyIsRead(key: string, k: Value, after: string)
    requires KeyMeans(key, k) && Blank(after)
    ensures ParseKey(key + after) == Some(k)
  {
    PaddedParts("", key, after);
    assert "" + key + after == key + after;
    KeyIffMeans(key + after, k);
  }

  lemma GapIsRead(gap: string, lit: string, v: Value)
    requires Blank(gap) && Literal(lit, v)
    ensures ParseValue(gap + lit) == Some(v)
  {
    assert gap + lit == gap + (lit + "");
    assert Trailing("") by { assert Blank(""[..0]); }
    IsValueText(gap + lit, lit, v, gap, "");
    LiteralValueIsRead(gap + lit, lit, v, |gap|);
  }

  lemma LineIsRead(raw: string, p: Parts, k: Value, v: Value)
    requires HasParts(raw, p, k, v)
    ensures ReadEntry(raw) == Binding(k, Some(v))
  {
    CoreEnds(p, k, v);
    LineIsCore(p, p.tail);
    StripsToFirst(p.before, Core(p), p.tail);
    LineStatement(raw, p, k, v);
    CoreSides(p, k, v);
    StatementIffSides(Core(p), k, v);
    EntryIsStatement(raw, Core(p)[0]);
  }

  lemma EntryIsStatement(raw: string, first: char)
    requires Strip(raw) != "" && Strip(raw)[0] == first && first != '#' && first != '['
    ensures ReadEntry(raw) == ReadStatement(Strip(CommentFree(raw)))
  {
  }

  // ---------- nothing else is a binding ----------

  lemma {:induction false} CommentSplit(t: string, q: Quoting) returns (rest: string)
    ensures t == BeforeComment(t, q) + rest && (rest == "" || rest[0] == '#')
  {
    if t == "" || (!q.inString && t[0] == '#') {
      rest := t;
    } else {
      rest := CommentSplit(t[1..], Step(q, t[0]));
    }
  }

  lemma BlanksThenTrailing(b: string, rest: string)
    requires Blank(b) && (rest == "" || rest[0] == '#')
    ensures Trailing(b + rest)
  {
    assert (b + rest)[..|b|] == b;
  }

  lemma TrailingJoin(a: string, b: string)
    requires Trailing(a) && Trailing(b)
    ensures Trailing(a + b)
  {
    var n :| 0 <= n <= |a| && Blank(a[..n]) && (n == |a| || a[n] == '#');
    if n == |a| {
      var m :| 0 <= m <= |b| && Blank(b[..m]) && (m == |b| || b[m] == '#');
      assert a[..n] == a && (a + b)[..n + m] == a + b[..m];
      BlankAppend(a, b[..m]);
    } else {
      assert (a + b)[..n] == a[..n] && (a + b)[n] == a[n];
    }
  }

  /** A line is blanks, its statement, and something trailing. */
  lemma RawParts(raw: string) returns (a: string, more: string)
    ensures Blank(a) && Trailing(more) && raw == a + (Strip(CommentFree(raw)) + more)
  {
    var rest := CommentSplit(raw, OUTSIDE);
    var b := RStripParts(BeforeComment(raw, OUTSIDE));
    var c: string;
    a, c := StripParts(CommentFree(raw));
    BlankAppend(c, b);
    BlanksThenTrailing(c + b, rest);
    more := (c + b) + rest;
    RawGroups(a, Strip(CommentFree(raw)), c, b, rest);
  }

  lemma RawGroups(a: string, s: string, c: string, b: string, rest: string)
    ensures ((a + s + c) + b) + rest == a + (s + ((c + b) + rest))
  {
  }

  lemma PaddedSplit(s: string, text: string) returns (a: string, b: string)
    requires Padded(s, text)
    ensures Blank(a) && Blank(b) && s == a + (text + b)
  {
    var m, n :| 0 <= m <= n <= |s| && Blank(s[..m]) && Blank(s[n..]) && s[m..n] == text;
    a, b := s[..m], s[n..];
  }

  lemma ValueSplit(text: string, v: Value) returns (gap: string, lit: string, tail: string)
    requires ParseValue(text) == Some(v)
    ensures Blank(gap) && Literal(lit, v) && Trailing(tail) && text == gap + (lit + tail)
  {
    var m: nat;
    lit, m := ReadIsValue(text, v);
    gap, tail := text[..m], text[m + |lit|..];
  }

  lemma LineGroups(before: string, a: string, key: string, after: string, gap: string, lit: string, tail: string, more: string)
    ensures before + ((a + (key + after) + ("=" + (gap + (lit + tail)))) + more)
            == (before + a) + (key + (after + ("=" + (gap + (lit + (tail + more))))))
  {
    var v := gap + (lit + tail) + more;
    assert v == gap + (lit + (tail + more));
    assert "=" + (gap + (lit + tail)) + more == "=" + v;
    assert (a + (key + after) + ("=" + (gap + (lit + tail)))) + more == a + (key + (after + ("=" + v)));
  }

  lemma BindingHasParts(raw: string, k: Value, v: Value) returns (p: Parts)
    requires ReadEntry(raw) == Binding(k, Some(v))
    ensures HasParts(raw, p, k, v)
  {
    var s := Strip(CommentFree(raw));
    var before, more := RawParts(raw);
    StatementIffSides(s, k, v);
    var i :| Sides(s, i, k, v);
    p := SidesHaveParts(raw, before, s, more, i, k, v);
  }

  lemma SidesHaveParts(raw: string, before: string, s: string, more: string, i: nat, k: Value, v: Value) returns (p: Parts)
    requires raw == before + (s + more) && Blank(before) && Trailing(more) && Sides(s, i, k, v)
    ensures HasParts(raw, p, k, v)
  {
    var left, right := s[..i], s[i + 1..];
    KeyIffMeans(left, k);
    var key :| Padded(left, key) && KeyMeans(key, k);
    var a, after := PaddedSplit(left, key);
    var gap, lit, tail := ValueSplit(right, v);
    NoEqualsIn(left, a, key, after);
    AtEquals(s, i, a + (key + after), gap + (lit + tail));
    p := PartsFit(raw, before, a, key, after, gap, lit, tail, more, k, v);
  }

  lemma AtEquals(s: string, i: nat, left: string, right: string)
    requires i < |s| && s[i] == '=' && s[..i] == left && s[i + 1..] == right
    ensures s == left + ("=" + right)
  {
  }

  lemma NoEqualsIn(left: string, a: string, key: string, after: string)
    requires left == a + (key + after) && '=' !in left
    ensures '=' !in key
  {
    forall j | 0 <= j < |key| ensures key[j] != '=' { assert left[|a| + j] == key[j]; }
  }

  lemma PartsFit(raw: string, before: string, a: string, key: string, after: string, gap: string, lit: string, tail: string, more: string,
                 k: Value, v: Value) returns (p: Parts)
    requires raw == before + ((a + (key + after) + ("=" + (gap + (lit + tail)))) + more)
    requires Blank(before) && Blank(a) && Blank(after) && Blank(gap) && Trailing(tail) && Trailing(more)
    requires KeyMeans(key, k) && '=' !in key && Literal(lit, v)
    ensures HasParts(raw, p, k, v)
  {
    p := Parts(before + a, key, after, gap, lit, tail + more);
    LineGroups(before, a, key, after, gap, lit, tail, more);
    BlankAppend(before, a);
    TrailingJoin(tail, more);
  }

  /** The law of one line: it is read as this binding exactly if it has that form. */
  lemma EntryIffBinds(raw: string, k: Value, v: Value)
    ensures ReadEntry(raw) == Binding(k, Some(v)) <==> Binds(raw, k, v)
  {
    if ReadEntry(raw) == Binding(k, Some(v)) { var p := BindingHasParts(raw, k, v); }
    if p :| HasParts(raw, p, k, v) { LineIsRead(raw, p, k, v); }
  }

  /** Blank lines and comments are passed over, and nothing else is. */
  lemma NothingIffTrailing(raw: string)
    ensures ReadEntry(raw) == Nothing <==> Trailing(raw)
  {
    var a, b := StripParts(raw);
    var content := Strip(raw);
    if content == "" || content[0] == '#' {
      BlankOrComment(raw, a, content, b);
    } else {
      NoTrailing(raw, a, content + b);
      assert raw == a + (content + b);
      StripEnds(raw);
      StatementStays(raw, a, content + b);
    }
  }

  lemma BlankOrComment(raw: string, a: string, content: string, b: string)
    requires raw == a + content + b && Blank(a) && Blank(b) && (content == "" || content[0] == '#')
    ensures Trailing(raw)
  {
    if content == "" {
      BlankAppend(a, b);
      BlanksThenTrailing(a + b, "");
      assert raw == (a + b) + "";
    } else {
      BlanksThenTrailing(a, content + b);
      assert raw == a + (content + b);
    }
  }

  lemma NoTrailing(raw: string, a: string, rest: string)
    requires raw == a + rest && Blank(a) && rest != "" && !IsSpace(rest[0]) && rest[0] != '#'
    ensures !Trailing(raw)
  {
    if Trailing(raw) {
      var n :| 0 <= n <= |raw| && Blank(raw[..n]) && (n == |raw| || raw[n] == '#');
      FirstVisible(raw, a, rest, n);
    }
  }

  lemma FirstVisible(raw: string, a: string, rest: string, n: nat)
    requires raw == a + rest && Blank(a) && rest != "" && !IsSpace(rest[0]) && n <= |raw| && Blank(raw[..n])
    ensures n <= |a| < |raw| && raw[|a|] == rest[0] && (n < |a| ==> IsSpace(raw[n]))
  {
    assert raw[|a|] == rest[0];
    assert forall k :: 0 <= k < n ==> raw[..n][k] == raw[k];
    assert forall k :: 0 <= k < |a| ==> raw[k] == a[k];
  }

  /** What begins with something visible keeps it when comments go. */
  lemma StatementStays(raw: string, a: string, rest: string)
    requires raw == a + rest && Blank(a) && rest != "" && !IsSpace(rest[0]) && rest[0] != '#'
    ensures Strip(CommentFree(raw)) != ""
  {
    NoCommentInBlank(a, rest);
    BeforeCommentCons(rest[0], rest[1..], OUTSIDE);
    assert rest == [rest[0]] + rest[1..];
    var kept := [rest[0]] + BeforeComment(rest[1..], Step(OUTSIDE, rest[0]));
    KeptIsVisible(a, kept);
  }

  lemma KeptIsVisible(a: string, kept: string)
    requires Blank(a) && kept != "" && !IsSpace(kept[0])
    ensures Strip(RStrip(a + kept)) != ""
  {
    var c, b := RStripParted(kept);
    RStripJoined(a, c, b);
    LStripSkips(a, c);
    LStripStays(c);
    RStripKeepsFirst(c);
  }

  // ---------- what a file says ----------

  predicate Has(t: Table, k: Value, v: Value) {
    k in t && t[k] == v
  }

  lemma SamePairs(t: Table, u: Table)
    requires forall k, v :: Has(t, k, v) <==> Has(u, k, v)
    ensures t == u
  {
    forall k | k in t ensures k in u && u[k] == t[k] { assert Has(t, k, t[k]); }
    forall k | k in u ensures k in t { assert Has(u, k, u[k]); }
  }

  /** The entries are bindings of new keys, each with a value, or nothing. */
  predicate Clean(entries: seq<Entry>, index: nat, end: nat, acc: Table)
    requires index <= end <= |entries|
  {
    && (forall i :: index <= i < end ==> CleanAt(entries[i], acc))
    && (forall i, j :: index <= i < j < end ==> KeysApart(entries[i], entries[j]))
  }

  predicate CleanAt(e: Entry, acc: Table) {
    e.Nothing? || (e.Binding? && e.value.Some? && e.key !in acc)
  }

  predicate KeysApart(e: Entry, f: Entry) {
    e.Binding? && f.Binding? ==> e.key != f.key
  }

  ghost predicate Bound(entries: seq<Entry>, index: nat, end: nat, k: Value, v: Value)
    requires index <= end <= |entries|
  {
    exists i :: index <= i < end && entries[i] == Binding(k, Some(v))
  }

  /** The table has what was there and what the entries bind. */
  ghost predicate Gathers(entries: seq<Entry>, index: nat, end: nat, acc: Table, t: Table)
    requires index <= end <= |entries|
  {
    forall k, v :: Has(t, k, v) <==> Has(acc, k, v) || Bound(entries, index, end, k, v)
  }

  lemma CleanFirst(entries: seq<Entry>, index: nat, end: nat, acc: Table, next: Table)
    requires index < end <= |entries|
    requires var e := entries[index]; CleanAt(e, acc) && next == if e.Nothing? then acc else acc[e.key := e.value.value]
    ensures Clean(entries, index, end, acc) <==> Clean(entries, index + 1, end, next)
  {
  }

  lemma GathersFirst(entries: seq<Entry>, index: nat, end: nat, acc: Table, next: Table, t: Table)
    requires index < end <= |entries|
    requires var e := entries[index]; CleanAt(e, acc) && next == if e.Nothing? then acc else acc[e.key := e.value.value]
    ensures Gathers(entries, index, end, acc, t) <==> Gathers(entries, index + 1, end, next, t)
  {
    forall k, v ensures Has(acc, k, v) || Bound(entries, index, end, k, v) <==> Has(next, k, v) || Bound(entries, index + 1, end, k, v) {
      var e := entries[index];
      assert Bound(entries, index, end, k, v) <==> e == Binding(k, Some(v)) || Bound(entries, index + 1, end, k, v);
    }
  }

  /** Entering the entries gives this table exactly if they are clean and it gathers them. */
  lemma {:induction false} EnteredIff(entries: seq<Entry>, index: nat, end: nat, acc: Table, t: Table)
    requires index <= end <= |entries|
    ensures EnterAll(entries, index, end, acc) == Ok(t) <==> Clean(entries, index, end, acc) && Gathers(entries, index, end, acc, t)
    decreases end - index
  {
    if index == end {
      if Gathers(entries, index, end, acc, t) { SamePairs(acc, t); }
    } else if CleanAt(entries[index], acc) {
      var e := entries[index];
      var next := if e.Nothing? then acc else acc[e.key := e.value.value];
      EnteredIff(entries, index + 1, end, next, t);
      CleanFirst(entries, index, end, acc, next);
      GathersFirst(entries, index, end, acc, next, t);
    }
  }

  /** A line says nothing or binds a key. */
  ghost predicate Plausible(raw: string) {
    Trailing(raw) || exists k, v :: Binds(raw, k, v)
  }

  /** No key is bound by both lines. */
  ghost predicate LinesApart(raw: string, other: string) {
    forall k, v, w :: Binds(raw, k, v) ==> !Binds(other, k, w)
  }

  ghost predicate BoundInLines(lines: seq<string>, start: nat, end: nat, k: Value, v: Value)
    requires start < end <= |lines|
  {
    exists i :: start < i < end && Binds(lines[i], k, v)
  }

  /** The lines of the table say exactly this. */
  ghost predicate Says(lines: seq<string>, start: nat, end: nat, t: Table)
    requires start < end <= |lines|
  {
    && (forall i :: start < i < end ==> Plausible(lines[i]))
    && (forall i, j :: start < i < j < end ==> LinesApart(lines[i], lines[j]))
    && (forall k, v :: Has(t, k, v) <==> BoundInLines(lines, start, end, k, v))
  }

  lemma LineIsEntry(lines: seq<string>, i: nat)
    requires i < |lines|
    ensures CleanAt(Entries(lines)[i], map[]) <==> Plausible(lines[i])
    ensures forall k, v :: Entries(lines)[i] == Binding(k, Some(v)) <==> Binds(lines[i], k, v)
  {
    EntryAt(lines, i);
    NothingIffTrailing(lines[i]);
    forall k, v ensures Entries(lines)[i] == Binding(k, Some(v)) <==> Binds(lines[i], k, v) { EntryIffBinds(lines[i], k, v); }
  }

  lemma LinesAreEntries(lines: seq<string>, start: nat, end: nat)
    requires start < end <= |lines|
    ensures Clean(Entries(lines), start + 1, end, map[]) <==>
              (forall i :: start < i < end ==> Plausible(lines[i])) && (forall i, j :: start < i < j < end ==> LinesApart(lines[i], lines[j]))
  {
    forall i | start < i < end ensures CleanAt(Entries(lines)[i], map[]) <==> Plausible(lines[i]) { LineIsEntry(lines, i); }
    if forall i :: start < i < end ==> Plausible(lines[i]) {
      forall i, j | start < i < j < end ensures KeysApart(Entries(lines)[i], Entries(lines)[j]) <==> LinesApart(lines[i], lines[j]) {
        PairIsApart(lines, i, j);
      }
    }
  }

  lemma PairIsApart(lines: seq<string>, i: nat, j: nat)
    requires i < j < |lines| && Plausible(lines[i]) && Plausible(lines[j])
    ensures KeysApart(Entries(lines)[i], Entries(lines)[j]) <==> LinesApart(lines[i], lines[j])
  {
    LineIsEntry(lines, i);
    LineIsEntry(lines, j);
    var e, f := Entries(lines)[i], Entries(lines)[j];
    if e.Binding? && f.Binding? { assert Binds(lines[i], e.key, e.value.value) && Binds(lines[j], f.key, f.value.value); }
  }

  /** The law of a file: its table is read as these bindings exactly if its lines say them. */
  lemma TableIffSays(lines: seq<string>, start: nat, end: nat, t: Table)
    requires TableAt(lines, start, end)
    ensures ReadTable(lines) == Ok(t) <==> Says(lines, start, end, t)
  {
    TableIsRead(lines, start, end);
    EnteredIff(Entries(lines), start + 1, end, map[], t);
    LinesAreEntries(lines, start, end);
    forall k, v ensures Bound(Entries(lines), start + 1, end, k, v) <==> BoundInLines(lines, start, end, k, v) {
      BoundIsBound(lines, start, end, k, v);
    }
  }

  lemma BoundIsBound(lines: seq<string>, start: nat, end: nat, k: Value, v: Value)
    requires start < end <= |lines|
    ensures Bound(Entries(lines), start + 1, end, k, v) <==> BoundInLines(lines, start, end, k, v)
  {
    forall i | start < i < end ensures Entries(lines)[i] == Binding(k, Some(v)) <==> Binds(lines[i], k, v) { LineIsEntry(lines, i); }
  }

  /** So it is for the text of a file. */
  lemma CurrentIffSays(lines: seq<string>, start: nat, end: nat, t: Table)
    requires Proper(lines) && TableAt(lines, start, end)
    ensures Current(Text.Join(lines)) == Ok(t) <==> Says(lines, start, end, t)
  {
    SplitOfJoin(lines);
    TableIffSays(lines, start, end, t);
  }

  // ---------- a file with one bare key ----------

  /** One line `name = "body"`, as a person writes it. */
  function PlainLine(name: string, body: string): string {
    name + " = \"" + body + "\"\n"
  }

  predicate Simple(body: string) {
    forall i :: 0 <= i < |body| ==> ' ' <= body[i] <= '~' && body[i] != '"' && body[i] != '\\'
  }

  lemma {:induction false} SimpleSpells(body: string, v: Value)
    requires Simple(body) && Codes(body, v)
    ensures Literal("\"" + (body + "\""), v)
  {
    var ps := seq(|body|, i requires 0 <= i < |body| => Plain(body[i]));
    SimplePieces(body, ps, v);
    assert LiteralOf("\"" + (body + "\""), ps, v);
  }

  lemma {:induction false} SimplePieces(body: string, ps: seq<Piece>, v: Value)
    requires Simple(body) && Codes(body, v) && |ps| == |body| && forall i :: 0 <= i < |body| ==> ps[i] == Plain(body[i])
    ensures AllOk(ps) && Spelling(ps, v) && BodyText(ps) == body
    decreases |body|
  {
    if body != "" {
      SimplePieces(body[1..], ps[1..], v[1..]);
      assert body == [body[0]] + body[1..];
    }
  }

  lemma PlainLineBinds(name: string, body: string, k: Value, v: Value)
    requires BareText(name) && Codes(name, k) && Simple(body) && Codes(body, v)
    ensures Binds(PlainLine(name, body), k, v)
  {
    var p := Parts("", name, " ", " ", "\"" + (body + "\""), "\n");
    SimpleSpells(body, v);
    BlanksThenTrailing("\n", "");
    assert "\n" + "" == "\n";
    assert Line(p) == PlainLine(name, body);
    forall j | 0 <= j < |name| ensures name[j] != '=' { BareLetter(name[j]); }
    assert HasParts(PlainLine(name, body), p, k, v);
  }

  lemma PlainLineIsOne(name: string, body: string)
    requires BareText(name) && Simple(body)
    ensures OneLine(PlainLine(name, body)) && !IsTable(PlainLine(name, body)) && !IsHeader(PlainLine(name, body))
  {
    var line := PlainLine(name, body);
    BareLetter(name[0]);
    LStripStays(line);
    assert HEADER[0] == '[' && line[0] == name[0];
    forall i | 0 <= i < |line| - 1 ensures !IsBreak(line[i]) { PlainChar(name, body, i); }
  }

  lemma PlainChar(name: string, body: string, i: nat)
    requires BareText(name) && Simple(body) && i < |PlainLine(name, body)| - 1
    ensures ' ' <= PlainLine(name, body)[i] <= '~'
  {
    var line := PlainLine(name, body);
    if i < |name| {
      BareLetter(name[i]);
      assert line[i] == name[i];
    } else if i >= |name| + 4 && i < |name| + 4 + |body| {
      assert line[i] == body[i - |name| - 4];
    }
  }

  /** A file whose table has one such line is read as that name and that text, character for character. */
  lemma BareFileIsRead(name: string, body: string, k: Value, v: Value)
    requires BareText(name) && Codes(name, k) && Simple(body) && Codes(body, v)
    ensures Current(HEADER + "\n" + PlainLine(name, body)) == Ok(map[k := v])
  {
    var lines := [HEADER + "\n", PlainLine(name, body)];
    HeaderLine();
    PlainLineIsOne(name, body);
    PlainLineBinds(name, body, k, v);
    assert TableAt(lines, 0, 2) && Proper(lines);
    assert Text.Join(lines[1..]) == PlainLine(name, body) by { assert lines[1..][1..] == []; }
    OneLineSays(lines, k, v);
    CurrentIffSays(lines, 0, 2, map[k := v]);
  }

  lemma OneLineSays(lines: seq<string>, k: Value, v: Value)
    requires |lines| == 2 && Binds(lines[1], k, v)
    ensures Says(lines, 0, 2, map[k := v])
  {
    forall l, w ensures Has(map[k := v], l, w) <==> BoundInLines(lines, 0, 2, l, w) {
      if BoundInLines(lines, 0, 2, l, w) { BindsOnce(lines[1], k, v, l, w); }
    }
  }

  lemma BindsOnce(raw: string, k: Value, v: Value, l: Value, w: Value)
    requires Binds(raw, k, v) && Binds(raw, l, w)
    ensures k == l && v == w
  {
    EntryIffBinds(raw, k, v);
    EntryIffBinds(raw, l, w);
  }
}
