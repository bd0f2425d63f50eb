/** Python's `str.splitlines(keepends=True)` and `str.strip` for text without carriage returns. */
module Text {

  /** The characters that end a line; text read with universal newlines has no carriage return. */
  predicate IsBreak(c: char) {
    || '\U{0A}' <= c <= '\U{0C}' || '\U{1C}' <= c <= '\U{1E}'
    || c == '\U{85}' || c == '\U{2028}' || c == '\U{2029}'
  }

  predicate IsSpace(c: char) {
    || '\U{09}' <= c <= '\U{0D}' || '\U{1C}' <= c <= ' ' || c == '\U{85}' || c == '\U{A0}' || c == '\U{1680}'
    || '\U{2000}' <= c <= '\U{200A}' || c == '\U{2028}' || c == '\U{2029}' || c == '\U{202F}' || c == '\U{205F}' || c == '\U{3000}'
  }

  // ---------- size ----------

  function Utf8Length(c: char): nat {
    if c < '\U{80}' then 1 else if c < '\U{800}' then 2 else if c < '\U{10000}' then 3 else 4
  }

  /** The length of the UTF-8 encoding. */
  function Bytes(s: string): (n: nat)
    ensures n >= |s|
  {
    if s == "" then 0 else Utf8Length(s[0]) + Bytes(s[1..])
  }

  // ---------- the first of a character ----------

  /** The number of characters before the first `c`. */
  function UpTo(s: string, c: char): (r: nat)
    ensures r <= |s| && (r < |s| ==> s[r] == c)
  {
    if s == "" || s[0] == c then 0 else 1 + UpTo(s[1..], c)
  }

  lemma {:induction false} UpToOf(a: string, c: char, b: string)
    requires forall k :: 0 <= k < |a| ==> a[k] != c
    ensures UpTo(a + [c] + b, c) == |a|
  {
    if a != "" {
      assert (a + [c] + b)[1..] == a[1..] + [c] + b;
      UpToOf(a[1..], c, b);
    }
  }

  lemma {:induction false} UpToInside(a: string, c: char, b: string)
    requires c in a
    ensures UpTo(a + b, c) == UpTo(a, c) < |a|
  {
    if a[0] != c {
      assert (a + b)[1..] == a[1..] + b;
      assert a == [a[0]] + a[1..];
      UpToInside(a[1..], c, b);
    }
  }

  // ---------- lines ----------

  predicate NoBreak(s: string) {
    forall k :: 0 <= k < |s| ==> !IsBreak(s[k])
  }

  predicate Broken(s: string) {
    s != "" && IsBreak(s[|s| - 1])
  }

  /** Nonempty, and a break character stands at the end only. */
  predicate OneLine(s: string) {
    s != "" && NoBreak(s[..|s| - 1])
  }

  /** What splitting yields: lines, all but the last one broken. */
  predicate Proper(lines: seq<string>) {
    && (forall i :: 0 <= i < |lines| ==> OneLine(lines[i]))
    && (forall i :: 0 <= i < |lines| - 1 ==> Broken(lines[i]))
  }

  function FirstLine(s: string): (r: string)
    ensures |r| <= |s| && (s != "" ==> r != "")
  {
    if s == "" then "" else if IsBreak(s[0]) then [s[0]] else [s[0]] + FirstLine(s[1..])
  }

  function SplitLines(s: string): seq<string>
    decreases |s|
  {
    if s == "" then [] else [FirstLine(s)] + SplitLines(s[|FirstLine(s)|..])
  }

  function Join(lines: seq<string>): string {
    if lines == [] then "" else lines[0] + Join(lines[1..])
  }

  lemma LineCons(c: char, r: string)
    requires !IsBreak(c) && OneLine(r)
    ensures OneLine([c] + r) && (Broken(r) ==> Broken([c] + r))
  {
    assert ([c] + r)[..|r|] == [c] + r[..|r| - 1];
  }

  lemma {:induction false} FirstLineIsOne(s: string)
    requires s != ""
    ensures FirstLine(s) == s[..|FirstLine(s)|]
    ensures OneLine(FirstLine(s)) && (|FirstLine(s)| < |s| ==> Broken(FirstLine(s)))
  {
    if !IsBreak(s[0]) && s[1..] != "" {
      FirstLineIsOne(s[1..]);
      LineCons(s[0], FirstLine(s[1..]));
    }
  }

  lemma {:induction false} FirstLineOf(line: string, rest: string)
    requires OneLine(line) && (rest != "" ==> Broken(line))
    ensures FirstLine(line + rest) == line
  {
    if |line| > 1 {
      assert !IsBreak(line[..|line| - 1][0]);
      assert line[..|line| - 1][1..] == line[1..][..|line| - 2];
      FirstLineOf(line[1..], rest);
      assert (line + rest)[1..] == line[1..] + rest;
    } else if !IsBreak(line[0]) {
      assert (line + rest)[1..] == "";
    }
  }

  lemma JoinCons(line: string, lines: seq<string>)
    ensures Join([line] + lines) == line + Join(lines)
  {
    assert ([line] + lines)[1..] == lines;
  }

  lemma {:induction false} JoinAppend(a: seq<string>, b: seq<string>)
    ensures Join(a + b) == Join(a) + Join(b)
  {
    if a == [] {
      assert a + b == b;
    } else {
      JoinAppend(a[1..], b);
      assert a + b == [a[0]] + (a[1..] + b);
      JoinCons(a[0], a[1..] + b);
    }
  }

  lemma ProperCons(line: string, lines: seq<string>)
    requires OneLine(line) && (lines != [] ==> Broken(line)) && Proper(lines)
    ensures Proper([line] + lines)
  {
  }

  /** Splitting loses nothing and yields lines. */
  lemma {:induction false} JoinOfSplit(s: string)
    ensures Join(SplitLines(s)) == s && Proper(SplitLines(s))
    decreases |s|
  {
    if s != "" {
      var line := FirstLine(s);
      var rest := s[|line|..];
      FirstLineIsOne(s);
      JoinOfSplit(rest);
      JoinCons(line, SplitLines(rest));
      ProperCons(line, SplitLines(rest));
    }
  }

  lemma JoinNonempty(lines: seq<string>)
    requires Proper(lines) && lines != []
    ensures Join(lines) != ""
  {
    assert OneLine(lines[0]);
  }

  /** Lines put together are split at the same places again. */
  lemma {:induction false} SplitOfJoin(lines: seq<string>)
    requires Proper(lines)
    ensures SplitLines(Join(lines)) == lines
  {
    if lines != [] {
      var line, rest := lines[0], lines[1..];
      assert OneLine(line);
      SplitOfJoin(rest);
      if rest == [] { assert Join(rest) == ""; }
      FirstLineOf(line, Join(rest));
      assert (line + Join(rest))[|line|..] == Join(rest);
    }
  }

  // ---------- stripping ----------

  function LStrip(s: string): (r: string)
    ensures |r| <= |s| && (r != "" ==> !IsSpace(r[0]))
  {
    if s != "" && IsSpace(s[0]) then LStrip(s[1..]) else s
  }

  function RStrip(s: string): (r: string)
    ensures |r| <= |s| && r == s[..|r|] && (r != "" ==> !IsSpace(r[|r| - 1]))
  {
    if s != "" && IsSpace(s[|s| - 1]) then RStrip(s[..|s| - 1]) else s
  }

  function Strip(s: string): string {
    RStrip(LStrip(s))
  }

  predicate Blank(s: string) {
    forall k :: 0 <= k < |s| ==> IsSpace(s[k])
  }

  lemma {:induction false} LStripBlank(s: string)
    ensures LStrip(s) == "" <==> Blank(s)
  {
    if s != "" && IsSpace(s[0]) {
      LStripBlank(s[1..]);
      assert forall k :: 1 <= k < |s| ==> s[k] == s[1..][k - 1];
    }
  }

  lemma {:induction false} LStripSkips(w: string, s: string)
    requires Blank(w)
    ensures LStrip(w + s) == LStrip(s)
  {
    if w == "" {
      assert w + s == s;
    } else {
      LStripSkips(w[1..], s);
      assert (w + s)[1..] == w[1..] + s;
    }
  }

  lemma {:induction false} RStripSkips(s: string, w: string)
    requires Blank(w)
    ensures RStrip(s + w) == RStrip(s)
  {
    if w == "" {
      assert s + w == s;
    } else {
      RStripSkips(s, w[..|w| - 1]);
      assert (s + w)[..|s + w| - 1] == s + w[..|w| - 1];
    }
  }

  /** Blanks around a text that begins and ends with other characters are what stripping removes. */
  lemma StripAround(before: string, s: string, after: string)
    requires Blank(before) && Blank(after) && s != "" && !IsSpace(s[0]) && !IsSpace(s[|s| - 1])
    ensures Strip(before + s + after) == s
  {
    assert before + s + after == before + (s + after);
    LStripSkips(before, s + after);
    RStripSkips(s, after);
  }

  lemma {:induction false} RStripKeepsFirst(s: string)
    requires s != "" && !IsSpace(s[0])
    ensures RStrip(s) != ""
    decreases |s|
  {
    if IsSpace(s[|s| - 1]) { RStripKeepsFirst(s[..|s| - 1]); }
  }
}
