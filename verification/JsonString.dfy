/** Python strings as JSON string literals: `json.dumps` and `JSONDecoder.raw_decode`. */
module JsonString {
  import opened Wrappers

  /** A Python string as code points: unlike file text it may hold lone surrogates. */
  type Value = seq<int>

  predicate Character(c: int) { 0 <= c < 0x11_0000 }

  // Strings as section 7 of RFC 8259 writes them.

  predicate High(c: int) { 0xD800 <= c < 0xDC00 }
  predicate Low(c: int) { 0xDC00 <= c < 0xE000 }

  function Joined(high: int, low: int): (c: int)
    requires High(high) && Low(low)
    ensures Character(c)
  {
    0x1_0000 + (high - 0xD800) * 0x400 + (low - 0xDC00)
  }

  /** Characters, no high surrogate among them standing before a low one: decoding joins such a pair. */
  predicate Unpaired(v: Value) {
    && (forall i :: 0 <= i < |v| ==> Character(v[i]))
    && (forall i :: 0 <= i < |v| - 1 ==> !(High(v[i]) && Low(v[i + 1])))
  }

  function HexDigit(d: int): char
    requires 0 <= d < 16
  {
    if d < 10 then ('0' as int + d) as char else ('a' as int + (d - 10)) as char
  }

  function HexValue(c: char): Option<int> {
    if '0' <= c <= '9' then Some(c as int - '0' as int)
    else if 'a' <= c <= 'f' then Some(c as int - 'a' as int + 10)
    else if 'A' <= c <= 'F' then Some(c as int - 'A' as int + 10)
    else None
  }

  function DigitsEscape(a: int, b: int, c: int, d: int): (r: string)
    requires 0 <= a < 16 && 0 <= b < 16 && 0 <= c < 16 && 0 <= d < 16
    ensures |r| == 6
  {
    ['\\', 'u', HexDigit(a), HexDigit(b), HexDigit(c), HexDigit(d)]
  }

  /** A sixteen-bit unit written as an escape. */
  function UnitEscape(u: int): (r: string)
    requires 0 <= u < 0x1_0000
    ensures |r| == 6
  {
    DigitsEscape(u / 0x1000, u / 0x100 % 16, u / 16 % 16, u % 16)
  }

  /** `json.dumps` of one character, ASCII only; a number that is no character is not written. */
  function EncodeChar(c: int): string {
    if !Character(c) then ""
    else if c == 0x22 then "\\\""
    else if c == 0x5C then "\\\\"
    else if c == 0x0A then "\\n"
    else if c == 0x0D then "\\r"
    else if c == 0x09 then "\\t"
    else if c == 0x0C then "\\f"
    else if c == 0x08 then "\\b"
    else if 0x20 <= c < 0x7F then [c as char]
    else if c < 0x1_0000 then UnitEscape(c)
    else UnitEscape(0xD800 + (c - 0x1_0000) / 0x400) + UnitEscape(0xDC00 + (c - 0x1_0000) % 0x400)
  }

  function Encode(v: Value): string {
    if v == [] then "" else EncodeChar(v[0]) + Encode(v[1..])
  }

  /** `json.dumps(value)`. */
  function Quote(v: Value): string {
    "\"" + Encode(v) + "\""
  }

  /** The unit of a `\uXXXX` escape at the start of a text. */
  function ReadUnit(t: string): (r: Option<int>)
    ensures r.Some? ==> |t| >= 6 && 0 <= r.value < 0x1_0000
  {
    if |t| < 6 || t[0] != '\\' || t[1] != 'u' then None
    else
      var a, b, c, d := HexValue(t[2]), HexValue(t[3]), HexValue(t[4]), HexValue(t[5]);
      if a.None? || b.None? || c.None? || d.None? then None
      else Some(a.value * 0x1000 + b.value * 0x100 + c.value * 16 + d.value)
  }

  /** The character of an escape at the start of a text, and how long the escape is. */
  function ReadEscape(t: string): (r: Option<(int, nat)>)
    ensures r.Some? ==> Character(r.value.0) && 0 < r.value.1 <= |t|
  {
    if |t| < 2 || t[0] != '\\' then None
    else if t[1] == '"' then Some((0x22, 2))
    else if t[1] == '\\' then Some((0x5C, 2))
    else if t[1] == '/' then Some((0x2F, 2))
    else if t[1] == 'b' then Some((0x08, 2))
    else if t[1] == 'f' then Some((0x0C, 2))
    else if t[1] == 'n' then Some((0x0A, 2))
    else if t[1] == 'r' then Some((0x0D, 2))
    else if t[1] == 't' then Some((0x09, 2))
    else
      var unit := ReadUnit(t);
      if unit.None? then None
      else
        var low := ReadUnit(t[6..]);
        if High(unit.value) && low.Some? && Low(low.value) then Some((Joined(unit.value, low.value), 12))
        else Some((unit.value, 6))
  }

  /** One character of a string body: escaped, or itself if it is neither a quote nor a control character. */
  function ReadChar(t: string): (r: Option<(int, nat)>)
    ensures r.Some? ==> Character(r.value.0) && 0 < r.value.1 <= |t|
  {
    if t == "" || t[0] == '"' then None
    else if t[0] == '\\' then ReadEscape(t)
    else if t[0] < ' ' then None
    else Some((t[0] as int, 1))
  }

  /** `raw_decode` after the opening quote: the value and the text after the closing quote. */
  function Decode(t: string): (r: Option<(Value, string)>)
    decreases |t|
  {
    if t != "" && t[0] == '"' then Some(([], t[1..]))
    else
      var c := ReadChar(t);
      if c.None? then None
      else
        var more := Decode(t[c.value.1..]);
        if more.None? then None else Some(([c.value.0] + more.value.0, more.value.1))
  }

  lemma HexRoundTrip(d: int)
    requires 0 <= d < 16
    ensures HexValue(HexDigit(d)) == Some(d)
  {
  }

  lemma DigitsRoundTrip(a: int, b: int, c: int, d: int, rest: string)
    requires 0 <= a < 16 && 0 <= b < 16 && 0 <= c < 16 && 0 <= d < 16
    ensures ReadUnit(DigitsEscape(a, b, c, d) + rest) == Some(a * 0x1000 + b * 0x100 + c * 16 + d)
  {
    HexRoundTrip(a);
    HexRoundTrip(b);
    HexRoundTrip(c);
    HexRoundTrip(d);
  }

  lemma DigitsOf(u: int)
    requires 0 <= u < 0x1_0000
    ensures u == u / 0x1000 * 0x1000 + u / 0x100 % 16 * 0x100 + u / 16 % 16 * 16 + u % 16
  {
    var a, b := u / 16, u / 0x100;
    assert u == a * 16 + u % 16;
    assert a / 16 == b && a == b * 16 + a % 16;
    assert b / 16 == u / 0x1000 && b == b / 16 * 16 + b % 16;
  }

  lemma UnitRoundTrip(u: int, rest: string)
    requires 0 <= u < 0x1_0000
    ensures ReadUnit(UnitEscape(u) + rest) == Some(u)
  {
    DigitsOf(u);
    DigitsRoundTrip(u / 0x1000, u / 0x100 % 16, u / 16 % 16, u % 16, rest);
  }

  /** Text that does not continue a high surrogate. */
  predicate NoLowAhead(t: string) {
    var u := ReadUnit(t);
    u.Some? ==> !Low(u.value)
  }

  predicate Short(c: int) {
    c in {0x22, 0x5C, 0x0A, 0x0D, 0x09, 0x0C, 0x08}
  }

  lemma ShortRoundTrip(c: int, rest: string)
    requires Short(c)
    ensures |EncodeChar(c)| == 2 && ReadChar(EncodeChar(c) + rest) == Some((c, 2))
    ensures ReadUnit(EncodeChar(c) + rest).None?
  {
    var t := EncodeChar(c) + rest;
    assert t[0] == EncodeChar(c)[0] && t[1] == EncodeChar(c)[1];
  }

  lemma PlainRoundTrip(c: int, rest: string)
    requires 0x20 <= c < 0x7F && !Short(c)
    ensures EncodeChar(c) == [c as char] && ReadChar([c as char] + rest) == Some((c, 1))
    ensures ReadUnit([c as char] + rest).None?
  {
  }

  /** An escaped unit, and whatever follows it, is read as one character unless it is half of a pair. */
  lemma ReadUnitEscape(t: string, u: int, rest: string)
    requires 0 <= u < 0x1_0000 && t == UnitEscape(u) + rest
    ensures t[0] == '\\' && t[1] == 'u' && t[6..] == rest && ReadUnit(t) == Some(u)
    ensures High(u) && ReadUnit(rest).Some? && Low(ReadUnit(rest).value) ==>
              ReadChar(t) == Some((Joined(u, ReadUnit(rest).value), 12))
    ensures (High(u) ==> NoLowAhead(rest)) ==> ReadChar(t) == Some((u, 6))
  {
    UnitRoundTrip(u, rest);
    assert t[6..] == rest;
    assert t[0] == UnitEscape(u)[0] && t[1] == UnitEscape(u)[1];
  }

  lemma JoinedSplit(c: int)
    requires 0x1_0000 <= c < 0x11_0000
    ensures var high, low := 0xD800 + (c - 0x1_0000) / 0x400, 0xDC00 + (c - 0x1_0000) % 0x400;
            High(high) && Low(low) && Joined(high, low) == c
  {
  }

  lemma PairRoundTrip(c: int, rest: string)
    requires 0x1_0000 <= c < 0x11_0000
    ensures |EncodeChar(c)| == 12 && ReadChar(EncodeChar(c) + rest) == Some((c, 12))
    ensures NoLowAhead(EncodeChar(c) + rest)
  {
    var high, low := 0xD800 + (c - 0x1_0000) / 0x400, 0xDC00 + (c - 0x1_0000) % 0x400;
    JoinedSplit(c);
    var t := UnitEscape(high) + (UnitEscape(low) + rest);
    assert EncodeChar(c) + rest == t;
    UnitRoundTrip(low, rest);
    ReadUnitEscape(t, high, UnitEscape(low) + rest);
  }

  lemma CharRoundTrip(c: int, rest: string)
    requires Character(c)
    requires High(c) ==> NoLowAhead(rest)
    ensures ReadChar(EncodeChar(c) + rest) == Some((c, |EncodeChar(c)|))
  {
    if c >= 0x1_0000 { PairRoundTrip(c, rest); }
    else if Short(c) { ShortRoundTrip(c, rest); }
    else if 0x20 <= c < 0x7F { PlainRoundTrip(c, rest); }
    else { ReadUnitEscape(EncodeChar(c) + rest, c, rest); }
  }

  /** An encoded value that does not begin with a low surrogate does not continue a high one. */
  lemma EncodedAhead(v: Value, rest: string)
    requires v != [] ==> Character(v[0]) && !Low(v[0])
    requires NoLowAhead(rest)
    ensures NoLowAhead(Encode(v) + rest)
  {
    if v == [] {
      assert Encode(v) + rest == rest;
    } else {
      var tail := Encode(v[1..]) + rest;
      assert Encode(v) + rest == EncodeChar(v[0]) + tail;
      EncodedFirst(v[0], tail);
    }
  }

  lemma EncodedFirst(c: int, rest: string)
    requires Character(c) && !Low(c)
    ensures NoLowAhead(EncodeChar(c) + rest)
  {
    if c >= 0x1_0000 { PairRoundTrip(c, rest); }
    else if Short(c) { ShortRoundTrip(c, rest); }
    else if 0x20 <= c < 0x7F { PlainRoundTrip(c, rest); }
    else { ReadUnitEscape(EncodeChar(c) + rest, c, rest); }
  }

  lemma UnpairedTail(v: Value)
    requires Unpaired(v) && v != []
    ensures Unpaired(v[1..]) && (High(v[0]) && v[1..] != [] ==> !Low(v[1..][0]))
  {
    var tail := v[1..];
    forall i | 0 <= i < |tail| - 1 ensures !(High(tail[i]) && Low(tail[i + 1])) {
      assert tail[i] == v[i + 1] && tail[i + 1] == v[i + 1 + 1];
    }
  }

  lemma DecodeStep(t: string, c: int, n: nat, rest: string, v: Value, after: string)
    requires ReadChar(t) == Some((c, n)) && t[n..] == rest && Decode(rest) == Some((v, after))
    ensures Decode(t) == Some(([c] + v, after))
  {
  }

  lemma DecodeChar(c: int, tail: string, v: Value, rest: string)
    requires Character(c)
    requires High(c) ==> NoLowAhead(tail)
    requires Decode(tail) == Some((v, rest))
    ensures Decode(EncodeChar(c) + tail) == Some(([c] + v, rest))
  {
    var code := EncodeChar(c);
    CharRoundTrip(c, tail);
    assert (code + tail)[|code|..] == tail;
    DecodeStep(code + tail, c, |code|, tail, v, rest);
  }

  lemma EncodeUnfold(v: Value, after: string)
    requires v != []
    ensures Encode(v) + after == EncodeChar(v[0]) + (Encode(v[1..]) + after)
  {
  }

  /** What is encoded is decoded again, whatever follows. */
  lemma {:induction false} DecodeOfEncode(v: Value, rest: string, after: string)
    requires Unpaired(v) && after == "\"" + rest
    ensures Decode(Encode(v) + after) == Some((v, rest))
  {
    if v == [] {
      assert Encode(v) + after == after;
    } else {
      UnpairedTail(v);
      DecodeOfEncode(v[1..], rest, after);
      var tail := Encode(v[1..]) + after;
      if High(v[0]) { EncodedAhead(v[1..], after); }
      EncodeUnfold(v, after);
      DecodeChar(v[0], tail, v[1..], rest);
      assert [v[0]] + v[1..] == v;
    }
  }

  lemma {:induction false} DecodedIsUnpaired(t: string)
    requires Decode(t).Some?
    ensures Unpaired(Decode(t).value.0)
    ensures Decode(t).value.0 != [] && Low(Decode(t).value.0[0]) ==> ReadUnit(t) == Some(Decode(t).value.0[0])
    decreases |t|
  {
    if t[0] != '"' {
      var c := ReadChar(t).value;
      DecodedIsUnpaired(t[c.1..]);
    }
  }

  /** A string survives being written and read exactly when it holds no unjoined surrogate pair. */
  lemma QuotedRoundTrip(v: Value)
    ensures Decode(Quote(v)[1..]) == Some((v, "")) <==> Unpaired(v)
  {
    if Unpaired(v) {
      assert Quote(v)[1..] == Encode(v) + "\"";
      assert "\"" + "" == "\"";
      DecodeOfEncode(v, "", "\"");
    } else if Decode(Quote(v)[1..]).Some? {
      DecodedIsUnpaired(Quote(v)[1..]);
    }
  }
}
