/**
 What a JSON string literal may look like, character by character, and what it spells.  Reading a
 literal gives what it spells, and nothing else is read.
 */
module JsonSpelling {
  import opened Wrappers
  import opened JsonString

  /** One character of a string body: itself, a two-character escape, or four hexadecimal digits. */
  datatype Piece = Plain(c: char) | Marked(mark: char) | Unit(digits: string)

  const LOWER := "0123456789abcdef"
  const UPPER := "0123456789ABCDEF"

  /** `n` is what the hexadecimal digit stands for, in either case. */
  predicate Digit(c: char, n: int) {
    0 <= n < 16 && |LOWER| == 16 && |UPPER| == 16 && (LOWER[n] == c || UPPER[n] == c)
  }

  /** The characters that may stand after a backslash, and what they stand for. */
  function Marks(): map<char, int> {
    map['"' := 0x22, '\\' := 0x5C, '/' := 0x2F, 'b' := 0x08, 'f' := 0x0C, 'n' := 0x0A, 'r' := 0x0D, 't' := 0x09]
  }

  predicate Digits(digits: string, a: int, b: int, c: int, d: int) {
    |digits| == 4 && Digit(digits[0], a) && Digit(digits[1], b) && Digit(digits[2], c) && Digit(digits[3], d)
  }

  /** The number that four hexadecimal digits spell. */
  ghost predicate Spells(digits: string, u: int) {
    exists a, b, c, d :: Digits(digits, a, b, c, d) && u == Horner(a, b, c, d)
  }

  function Horner(a: int, b: int, c: int, d: int): int {
    ((a * 16 + b) * 16 + c) * 16 + d
  }

  ghost predicate PieceOk(p: Piece) {
    match p
    case Plain(c) => c != '"' && c != '\\' && ' ' <= c
    case Marked(mark) => mark in Marks()
    case Unit(digits) => exists u :: Spells(digits, u)
  }

  function PieceText(p: Piece): string {
    match p
    case Plain(c) => [c]
    case Marked(mark) => ['\\', mark]
    case Unit(digits) => ['\\', 'u'] + digits
  }

  function BodyText(ps: seq<Piece>): string {
    if ps == [] then "" else PieceText(ps[0]) + BodyText(ps[1..])
  }

  ghost predicate AllOk(ps: seq<Piece>) {
    forall i :: 0 <= i < |ps| ==> PieceOk(ps[i])
  }

  /** `c` is what the piece stands for by itself. */
  ghost predicate Means(p: Piece, c: int) {
    match p
    case Plain(x) => c == x as int
    case Marked(mark) => mark in Marks() && c == Marks()[mark]
    case Unit(digits) => Spells(digits, c)
  }

  /** The pieces are a high and a low surrogate, written as escapes side by side. */
  ghost predicate Pair(ps: seq<Piece>, high: int, low: int) {
    |ps| >= 2 && ps[0].Unit? && ps[1].Unit? && Spells(ps[0].digits, high) && Spells(ps[1].digits, low) && High(high) && Low(low)
  }

  /** What the pieces spell: one character each, but one for an escaped surrogate pair. */
  ghost predicate Spelling(ps: seq<Piece>, v: Value)
    decreases |ps|
  {
    if ps == [] then v == []
    else if exists high, low :: Pair(ps, high, low) then
      v != [] && (exists high, low :: Pair(ps, high, low) && v[0] == 0x1_0000 + (high - 0xD800) * 0x400 + (low - 0xDC00))
      && Spelling(ps[2..], v[1..])
    else v != [] && Means(ps[0], v[0]) && Spelling(ps[1..], v[1..])
  }

  // ---------- digits ----------

  lemma DigitIsRead(c: char, n: int)
    ensures Digit(c, n) <==> HexValue(c) == Some(n)
  {
    if '0' <= c <= '9' {
      assert LOWER[c as int - 48] == c;
    } else if 'a' <= c <= 'f' {
      assert LOWER[c as int - 97 + 10] == c;
    } else if 'A' <= c <= 'F' {
      assert UPPER[c as int - 65 + 10] == c;
    }
  }

  lemma Powers(a: int, b: int, c: int, d: int)
    ensures Horner(a, b, c, d) == a * 0x1000 + b * 0x100 + c * 16 + d
  {
  }

  /** Two characters before four digits are passed over. */
  lemma DigitsAt(digits: string, rest: string)
    requires |digits| == 4
    ensures var t := ['\\', 'u'] + digits + rest;
            |t| >= 6 && t[0] == '\\' && t[1] == 'u' && t[2] == digits[0] && t[3] == digits[1] && t[4] == digits[2] && t[5] == digits[3]
            && t[6..] == rest
  {
  }

  lemma DigitsAreRead(digits: string, a: int, b: int, c: int, d: int, t: string)
    requires Digits(digits, a, b, c, d)
    requires |t| >= 6 && t[0] == '\\' && t[1] == 'u' && t[2] == digits[0] && t[3] == digits[1] && t[4] == digits[2] && t[5] == digits[3]
    ensures ReadUnit(t) == Some(Horner(a, b, c, d))
  {
    DigitIsRead(digits[0], a);
    DigitIsRead(digits[1], b);
    DigitIsRead(digits[2], c);
    DigitIsRead(digits[3], d);
    Powers(a, b, c, d);
  }

  /** What is read of four characters is what they spell. */
  lemma ReadDigits(t: string, u: int)
    requires ReadUnit(t) == Some(u)
    ensures Spells(t[2..6], u)
  {
    var a, b, c, d := HexValue(t[2]).value, HexValue(t[3]).value, HexValue(t[4]).value, HexValue(t[5]).value;
    DigitIsRead(t[2], a);
    DigitIsRead(t[3], b);
    DigitIsRead(t[4], c);
    DigitIsRead(t[5], d);
    Powers(a, b, c, d);
    assert Digits(t[2..6], a, b, c, d);
  }

  lemma UnitIsRead(digits: string, u: int, rest: string)
    requires |digits| == 4
    ensures Spells(digits, u) <==> ReadUnit(['\\', 'u'] + digits + rest) == Some(u)
  {
    var t := ['\\', 'u'] + digits + rest;
    DigitsAt(digits, rest);
    if Spells(digits, u) {
      var a, b, c, d :| Digits(digits, a, b, c, d) && u == Horner(a, b, c, d);
      DigitsAreRead(digits, a, b, c, d, t);
    }
    if ReadUnit(t) == Some(u) {
      ReadDigits(t, u);
      assert t[2..6] == digits;
    }
  }

  // ---------- what is spelled is read ----------

  lemma TextFirst(ps: seq<Piece>, tail: string)
    requires ps != []
    ensures BodyText(ps) + tail == PieceText(ps[0]) + (BodyText(ps[1..]) + tail)
  {
  }

  /** A unit stands at the front only if the first piece is one. */
  lemma UnitAhead(ps: seq<Piece>, tail: string, u: int)
    requires AllOk(ps) && tail != "" && tail[0] == '"' && ReadUnit(BodyText(ps) + tail) == Some(u)
    ensures ps != [] && ps[0].Unit? && Spells(ps[0].digits, u)
  {
    if ps != [] {
      TextFirst(ps, tail);
      assert PieceOk(ps[0]);
      if ps[0].Unit? { UnitIsRead(ps[0].digits, u, BodyText(ps[1..]) + tail); } else { NoUnitFirst(ps[0], BodyText(ps[1..]) + tail); }
    }
  }

  lemma NoUnitFirst(p: Piece, rest: string)
    requires PieceOk(p) && !p.Unit?
    ensures ReadUnit(PieceText(p) + rest).None?
  {
    var t := PieceText(p) + rest;
    assert t[0] == PieceText(p)[0] && (p.Marked? ==> t[1] == p.mark);
  }

  lemma PlainIsRead(c: char, tail: string)
    requires PieceOk(Plain(c))
    ensures ReadChar([c] + tail) == Some((c as int, 1))
  {
  }

  lemma MarkedIsRead(mark: char, tail: string)
    requires mark in Marks()
    ensures ReadChar(['\\', mark] + tail) == Some((Marks()[mark], 2))
  {
    var t := ['\\', mark] + tail;
    assert t[0] == '\\' && t[1] == mark;
  }

  lemma UnitCharIsRead(digits: string, u: int, tail: string)
    requires Spells(digits, u)
    ensures var t := ['\\', 'u'] + digits + tail;
            && t[6..] == tail && 0 <= u < 0x1_0000
            && (High(u) && ReadUnit(tail).Some? && Low(ReadUnit(tail).value) ==> ReadChar(t) == Some((Joined(u, ReadUnit(tail).value), 12)))
            && (!(High(u) && ReadUnit(tail).Some? && Low(ReadUnit(tail).value)) ==> ReadChar(t) == Some((u, 6)))
  {
    DigitsAt(digits, tail);
    UnitIsRead(digits, u, tail);
    UnitIsSmall(['\\', 'u'] + digits + tail, u);
  }

  lemma UnitIsSmall(t: string, u: int)
    requires ReadUnit(t) == Some(u)
    ensures 0 <= u < 0x1_0000
    ensures var low := ReadUnit(t[6..]);
            ReadChar(t) == if High(u) && low.Some? && Low(low.value) then Some((Joined(u, low.value), 12)) else Some((u, 6))
  {
  }

  lemma SpellsOne(digits: string, u: int, w: int)
    requires Spells(digits, u) && Spells(digits, w)
    ensures u == w
  {
    UnitIsRead(digits, u, "");
    UnitIsRead(digits, w, "");
  }

  lemma SkipUnits(a: string, b: string, tail: string)
    requires |a| == 4 && |b| == 4
    ensures (['\\', 'u'] + a + (['\\', 'u'] + b + tail))[12..] == tail
  {
  }

  /** An escaped pair is read as one character. */
  lemma PairIsRead(ps: seq<Piece>, tail: string, high: int, low: int)
    requires Pair(ps, high, low)
    ensures var t := BodyText(ps) + tail;
            |t| >= 12 && ReadChar(t) == Some((Joined(high, low), 12)) && t[12..] == BodyText(ps[2..]) + tail
  {
    var rest := BodyText(ps[2..]) + tail;
    var second := ['\\', 'u'] + ps[1].digits + rest;
    TextFirst(ps, tail);
    TextFirst(ps[1..], tail);
    assert ps[1..][1..] == ps[2..];
    UnitIsRead(ps[1].digits, low, rest);
    UnitCharIsRead(ps[0].digits, high, second);
    SkipUnits(ps[0].digits, ps[1].digits, rest);
    assert BodyText(ps) + tail == ['\\', 'u'] + ps[0].digits + second;
  }

  /** Any other first piece is read by itself. */
  lemma FirstIsRead(ps: seq<Piece>, tail: string, c: int)
    requires AllOk(ps) && ps != [] && tail != "" && tail[0] == '"' && Means(ps[0], c) && !exists high, low :: Pair(ps, high, low)
    ensures var t := BodyText(ps) + tail; var n := |PieceText(ps[0])|;
            n <= |t| && ReadChar(t) == Some((c, n)) && t[n..] == BodyText(ps[1..]) + tail
  {
    var rest := BodyText(ps[1..]) + tail;
    TextFirst(ps, tail);
    assert PieceOk(ps[0]);
    match ps[0]
    case Plain(x) => PlainIsRead(x, rest);
    case Marked(mark) => MarkedIsRead(mark, rest);
    case Unit(digits) =>
      UnitCharIsRead(digits, c, rest);
      if High(c) && ReadUnit(rest).Some? && Low(ReadUnit(rest).value) { PairAhead(ps, tail, c); }
  }

  lemma PairAhead(ps: seq<Piece>, tail: string, c: int)
    requires AllOk(ps) && ps != [] && tail != "" && tail[0] == '"' && ps[0].Unit? && Spells(ps[0].digits, c) && High(c)
    requires var rest := BodyText(ps[1..]) + tail; ReadUnit(rest).Some? && Low(ReadUnit(rest).value)
    ensures exists high, low :: Pair(ps, high, low)
  {
    var low := ReadUnit(BodyText(ps[1..]) + tail).value;
    assert forall i :: 0 <= i < |ps[1..]| ==> ps[1..][i] == ps[i + 1];
    UnitAhead(ps[1..], tail, low);
    assert Pair(ps, c, low);
  }

  lemma AllOkTail(ps: seq<Piece>, n: nat)
    requires AllOk(ps) && n <= |ps|
    ensures AllOk(ps[n..])
  {
  }

  lemma StepIsRead(t: string, v: Value, n: nat, tail: string, rest: string)
    requires v != [] && n <= |t| && ReadChar(t) == Some((v[0], n)) && t[n..] == tail && Decode(tail) == Some((v[1..], rest))
    ensures Decode(t) == Some((v, rest))
  {
    DecodeStep(t, v[0], n, tail, v[1..], rest);
    assert v == [v[0]] + v[1..];
  }

  /** A literal is read as what it spells, whatever follows its closing quote. */
  lemma {:induction false} SpelledIsRead(ps: seq<Piece>, v: Value, rest: string, tail: string)
    requires AllOk(ps) && Spelling(ps, v) && tail == "\"" + rest
    ensures Decode(BodyText(ps) + tail) == Some((v, rest))
    decreases |ps|
  {
    if ps == [] {
      assert BodyText(ps) + tail == tail && tail[1..] == rest;
    } else if exists high, low :: Pair(ps, high, low) {
      var high, low :| Pair(ps, high, low) && v[0] == 0x1_0000 + (high - 0xD800) * 0x400 + (low - 0xDC00);
      AllOkTail(ps, 2);
      PairIsRead(ps, tail, high, low);
      SpelledIsRead(ps[2..], v[1..], rest, tail);
      StepIsRead(BodyText(ps) + tail, v, 12, BodyText(ps[2..]) + tail, rest);
    } else {
      AllOkTail(ps, 1);
      FirstIsRead(ps, tail, v[0]);
      SpelledIsRead(ps[1..], v[1..], rest, tail);
      StepIsRead(BodyText(ps) + tail, v, |PieceText(ps[0])|, BodyText(ps[1..]) + tail, rest);
    }
  }

  // ---------- nothing else is read ----------

  /** A unit just read was written as one. */
  lemma UnitOf(t: string, u: int) returns (p: Piece)
    requires ReadUnit(t) == Some(u)
    ensures p.Unit? && Spells(p.digits, u) && |PieceText(p)| == 6 && t == PieceText(p) + t[6..]
  {
    p := Unit(t[2..6]);
    ReadDigits(t, u);
    FrontOf(t, t[2..6], t[6..]);
  }

  lemma FrontOf(t: string, digits: string, rest: string)
    requires |t| >= 6 && t[0] == '\\' && t[1] == 'u' && digits == t[2..6] && rest == t[6..]
    ensures t == ['\\', 'u'] + digits + rest
  {
  }

  lemma EscapeLength(t: string, c: int, n: nat)
    requires ReadChar(t) == Some((c, n))
    ensures n == 1 ==> t[0] == c as char && PieceOk(Plain(t[0])) && c == t[0] as int
    ensures n == 2 ==> |t| >= 2 && t[0] == '\\' && t[1] in Marks() && Marks()[t[1]] == c
    ensures n != 1 && n != 2 && n != 12 ==>
              n == 6 && ReadUnit(t) == Some(c) && (High(c) && ReadUnit(t[6..]).Some? ==> !Low(ReadUnit(t[6..]).value))
    ensures n == 12 ==>
              && ReadUnit(t).Some? && ReadUnit(t[6..]).Some? && High(ReadUnit(t).value) && Low(ReadUnit(t[6..]).value)
              && c == Joined(ReadUnit(t).value, ReadUnit(t[6..]).value)
  {
  }

  /** The piece that a character just read was written as, when it was not a pair. */
  lemma PieceOf(t: string, c: int, n: nat) returns (p: Piece)
    requires ReadChar(t) == Some((c, n)) && n != 12
    ensures PieceOk(p) && Means(p, c) && |PieceText(p)| == n && t == PieceText(p) + t[n..]
    ensures p.Unit? ==> High(c) && ReadUnit(t[n..]).Some? ==> !Low(ReadUnit(t[n..]).value)
  {
    EscapeLength(t, c, n);
    if n == 1 {
      p := Plain(t[0]);
    } else if n == 2 {
      p := Marked(t[1]);
      assert PieceText(p) == t[..2];
    } else {
      p := UnitOf(t, c);
    }
  }

  lemma PairOf(t: string, c: int) returns (p: Piece, q: Piece)
    requires ReadChar(t) == Some((c, 12))
    ensures p.Unit? && q.Unit? && t == PieceText(p) + (PieceText(q) + t[12..])
    ensures exists high, low :: Pair([p, q], high, low) && c == 0x1_0000 + (high - 0xD800) * 0x400 + (low - 0xDC00)
  {
    EscapeLength(t, c, 12);
    var high, low := ReadUnit(t).value, ReadUnit(t[6..]).value;
    p := UnitOf(t, high);
    q := UnitOf(t[6..], low);
    assert t[6..][6..] == t[12..];
    assert Pair([p, q], high, low);
  }

  lemma PairFirst(p: Piece, q: Piece, more: seq<Piece>, high: int, low: int)
    ensures Pair([p, q] + more, high, low) <==> Pair([p, q], high, low)
  {
  }

  lemma PairText(p: Piece, q: Piece, more: seq<Piece>)
    ensures BodyText([p, q] + more) == PieceText(p) + (PieceText(q) + BodyText(more))
  {
    var ps := [p, q] + more;
    assert ps[1..] == [q] + more && ps[1..][1..] == more;
  }

  lemma PairsAgree(p: Piece, q: Piece, more: seq<Piece>, v: Value)
    requires exists high, low :: Pair([p, q], high, low) && v != [] && v[0] == 0x1_0000 + (high - 0xD800) * 0x400 + (low - 0xDC00)
    requires AllOk(more) && Spelling(more, v[1..])
    ensures AllOk([p, q] + more) && Spelling([p, q] + more, v)
  {
    var high, low :| Pair([p, q], high, low) && v[0] == 0x1_0000 + (high - 0xD800) * 0x400 + (low - 0xDC00);
    PairFirst(p, q, more, high, low);
    assert ([p, q] + more)[2..] == more;
    PairSpells([p, q] + more, v, high, low);
    PairIsOk(p, q, more, high, low);
  }

  lemma PairIsOk(p: Piece, q: Piece, more: seq<Piece>, high: int, low: int)
    requires Pair([p, q], high, low) && AllOk(more)
    ensures AllOk([p, q] + more)
  {
    assert PieceOk(p) && PieceOk(q);
    forall i | 0 <= i < |[p, q] + more| ensures PieceOk(([p, q] + more)[i]) {
      if i >= 2 { assert ([p, q] + more)[i] == more[i - 2]; }
    }
  }

  lemma PairSpells(ps: seq<Piece>, v: Value, high: int, low: int)
    requires Pair(ps, high, low) && v != [] && v[0] == 0x1_0000 + (high - 0xD800) * 0x400 + (low - 0xDC00) && Spelling(ps[2..], v[1..])
    ensures Spelling(ps, v)
  {
  }

  lemma OneMore(p: Piece, more: seq<Piece>, v: Value)
    requires PieceOk(p) && AllOk(more) && v != [] && Means(p, v[0]) && Spelling(more, v[1..])
    requires !exists high, low :: Pair([p] + more, high, low)
    ensures AllOk([p] + more) && Spelling([p] + more, v) && BodyText([p] + more) == PieceText(p) + BodyText(more)
  {
    assert ([p] + more)[1..] == more;
  }

  /** A unit not followed by the other half is no pair. */
  lemma NoPair(p: Piece, more: seq<Piece>, c: int, tail: string)
    requires Means(p, c)
    requires p.Unit? ==> High(c) && ReadUnit(BodyText(more) + tail).Some? ==> !Low(ReadUnit(BodyText(more) + tail).value)
    ensures !exists high, low :: Pair([p] + more, high, low)
  {
    forall high, low ensures !Pair([p] + more, high, low) {
      if Pair([p] + more, high, low) { SecondIsAhead(p, more, c, tail, high, low); }
    }
  }

  lemma SecondIsAhead(p: Piece, more: seq<Piece>, c: int, tail: string, high: int, low: int)
    requires Means(p, c) && Pair([p] + more, high, low)
    ensures High(c) && ReadUnit(BodyText(more) + tail) == Some(low) && Low(low)
  {
    SpellsOne(p.digits, c, high);
    assert ([p] + more)[1] == more[0];
    TextFirst(more, tail);
    UnitIsRead(more[0].digits, low, BodyText(more[1..]) + tail);
  }

  lemma Associate(a: string, b: string, c: string)
    ensures a + (b + c) == (a + b) + c
  {
  }

  /** Whatever is read was a literal that spells it, up to its closing quote. */
  lemma {:induction false} ReadIsSpelled(t: string, v: Value, rest: string, tail: string) returns (ps: seq<Piece>)
    requires Decode(t) == Some((v, rest)) && tail == "\"" + rest
    ensures AllOk(ps) && Spelling(ps, v) && t == BodyText(ps) + tail
    decreases |t|
  {
    if t[0] == '"' {
      ps := [];
      assert t == tail;
    } else {
      var (c, n) := ReadChar(t).value;
      assert v[1..] == Decode(t[n..]).value.0;
      var more := ReadIsSpelled(t[n..], v[1..], rest, tail);
      ps := FirstIsSpelled(t, v, c, n, more, tail);
    }
  }

  lemma FirstIsSpelled(t: string, v: Value, c: int, n: nat, more: seq<Piece>, tail: string) returns (ps: seq<Piece>)
    requires ReadChar(t) == Some((c, n)) && v != [] && v[0] == c && n <= |t|
    requires AllOk(more) && Spelling(more, v[1..]) && t[n..] == BodyText(more) + tail
    ensures AllOk(ps) && Spelling(ps, v) && t == BodyText(ps) + tail
  {
    if n == 12 {
      var p, q := PairOf(t, c);
      ps := [p, q] + more;
      PairsAgree(p, q, more, v);
      PairText(p, q, more);
      Associate(PieceText(q), BodyText(more), tail);
      Associate(PieceText(p), PieceText(q) + BodyText(more), tail);
    } else {
      var p := PieceOf(t, c, n);
      ps := [p] + more;
      NoPair(p, more, c, tail);
      OneMore(p, more, v);
      Associate(PieceText(p), BodyText(more), tail);
    }
  }

  /** The law of reading: exactly the literals that spell a value are read as it. */
  lemma ReadIffSpelled(t: string, v: Value, rest: string)
    ensures Decode(t) == Some((v, rest)) <==> exists ps :: AllOk(ps) && Spelling(ps, v) && t == BodyText(ps) + ("\"" + rest)
  {
    if Decode(t) == Some((v, rest)) {
      var ps := ReadIsSpelled(t, v, rest, "\"" + rest);
    }
    if ps :| AllOk(ps) && Spelling(ps, v) && t == BodyText(ps) + ("\"" + rest) {
      SpelledIsRead(ps, v, rest, "\"" + rest);
    }
  }
}
