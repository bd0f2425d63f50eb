/** Request framing: lines of bounded size, resynchronising after a line that is too long. */
module BoundedInput {
  import opened Wrappers
  import Text

  const NEWLINE: char := '\n'

  predicate EndsLine(s: string) {
    s != "" && s[|s| - 1] == NEWLINE
  }

  /** The first line of a stream with its newline, or all of it when there is none. */
  function Line(s: string): (r: string)
    ensures |r| <= |s| && r == s[..|r|]
    ensures s != "" ==> r != ""
  {
    if s == "" then "" else if s[0] == NEWLINE then [s[0]] else [s[0]] + Line(s[1..])
  }

  /** A stream cut after every newline. */
  function Lines(s: string): seq<string>
    decreases |s|
  {
    if s == "" then [] else [Line(s)] + Lines(s[|Line(s)|..])
  }

  /** What the protocol promises for one line. */
  function Frame(line: string, budget: nat): Option<string> {
    if Text.Bytes(line) > budget then None else Some(line)
  }

  function Frames(lines: seq<string>, budget: nat): seq<Option<string>> {
    if lines == [] then [] else [Frame(lines[0], budget)] + Frames(lines[1..], budget)
  }

  /** `readline(limit)`. */
  function Chunk(s: string, limit: nat): (r: string)
    ensures |r| <= |s| && |r| <= limit && (s != "" && limit > 0 ==> r != "")
  {
    if s == "" || limit == 0 then ""
    else if s[0] == NEWLINE then [s[0]]
    else [s[0]] + Chunk(s[1..], limit - 1)
  }

  /** A read returns the whole line when it fits and its beginning otherwise. */
  lemma {:induction false} ChunkOfLine(s: string, limit: nat)
    ensures Chunk(s, limit) == if |Line(s)| <= limit then Line(s) else Line(s)[..limit]
    ensures |Line(s)| <= limit && !EndsLine(Line(s)) ==> Line(s) == s
    ensures |Line(s)| > limit ==> !EndsLine(Line(s)[..limit]) && limit < |s| && Line(s[limit..]) == Line(s)[limit..]
  {
    if s != "" && limit > 0 && s[0] != NEWLINE {
      ChunkOfLine(s[1..], limit - 1);
      var tail := Line(s[1..]);
      assert Line(s) == [s[0]] + tail;
      if |Line(s)| > limit {
        assert Line(s)[..limit] == [s[0]] + tail[..limit - 1];
        assert Line(s)[limit..] == tail[limit - 1..];
        assert s[limit..] == s[1..][limit - 1..];
      }
    }
  }

  function Joined(lines: seq<string>): string {
    if lines == [] then "" else lines[0] + Joined(lines[1..])
  }

  lemma JoinedCons(line: string, lines: seq<string>)
    ensures Joined([line] + lines) == line + Joined(lines)
  {
    assert ([line] + lines)[1..] == lines;
  }

  predicate OneLine(line: string) {
    line != "" && forall k :: 0 <= k < |line| - 1 ==> line[k] != NEWLINE
  }

  predicate AllLines(lines: seq<string>) {
    && (forall i :: 0 <= i < |lines| ==> OneLine(lines[i]))
    && (forall i :: 0 <= i < |lines| - 1 ==> EndsLine(lines[i]))
  }

  lemma AllLinesCons(line: string, lines: seq<string>)
    requires OneLine(line) && (lines != [] ==> EndsLine(line)) && AllLines(lines)
    ensures AllLines([line] + lines)
  {
  }

  lemma LinesUnfold(s: string) returns (line: string, rest: string)
    requires s != ""
    ensures line == Line(s) && line != "" && s == line + rest && rest == s[|line|..] && Lines(s) == [line] + Lines(rest)
  {
    line := Line(s);
    rest := s[|line|..];
  }

  /** A stream is the concatenation of its lines, and newlines stand at the ends of lines only. */
  lemma {:induction false} LinesPartition(s: string)
    ensures Joined(Lines(s)) == s && AllLines(Lines(s))
    decreases |s|
  {
    if s != "" {
      var line, rest := LinesUnfold(s);
      LinesPartition(rest);
      LineIsOne(s);
      AllLinesCons(line, Lines(rest));
      JoinedCons(line, Lines(rest));
    }
  }

  lemma {:induction false} LineIsOne(s: string)
    requires s != ""
    ensures OneLine(Line(s)) && (|Line(s)| < |s| ==> EndsLine(Line(s)))
  {
    if s[0] != NEWLINE && s[1..] != "" { LineIsOne(s[1..]); }
  }

  lemma {:induction false} BytesOfPrefix(s: string, n: nat)
    requires n <= |s|
    ensures Text.Bytes(s[..n]) <= Text.Bytes(s)
  {
    if n > 0 {
      BytesOfPrefix(s[1..], n - 1);
      assert s[..n][1..] == s[1..][..n - 1];
    }
  }

  class Input {
    var rest: string

    method ReadLine(limit: nat) returns (line: string)
      modifies this
      ensures line == Chunk(old(rest), limit)
      ensures rest == old(rest)[|line|..]
    {
      line := Chunk(rest, limit);
      rest := rest[|line|..];
    }

    /** The inner loop: reads on until the line that has begun with `line` is over. */
    method SkipLine(line0: string, limit: nat)
      requires limit > 0 && line0 != "" && !EndsLine(line0)
      modifies this
      ensures rest == old(rest)[|Line(old(rest))|..]
    {
      var line := line0;
      ghost var start, skipped := rest, 0;
      while line != "" && !EndsLine(line)
        invariant 0 <= skipped <= |start| && rest == start[skipped..]
        invariant line != "" && !EndsLine(line) ==> skipped + |Line(rest)| == |Line(start)|
        invariant line == "" || EndsLine(line) ==> skipped == |Line(start)|
        decreases |rest|, line != ""
      {
        SkipStep(rest, limit);
        line := ReadLine(limit);
        SliceTwice(start, skipped, |line|);
        skipped := skipped + |line|;
      }
    }

    /**
     `_bounded_input_lines` read to the end: one frame per line of the stream, in order; a line over
     the budget becomes `None` and the next frame is the next line.
     */
    method BoundedInputLines(budget: nat) returns (frames: seq<Option<string>>)
      modifies this
      ensures frames == Frames(Lines(old(rest)), budget)
      ensures rest == ""
    {
      frames := [];
      ghost var start := rest;
      while rest != ""
        invariant Frames(Lines(start), budget) == frames + Frames(Lines(rest), budget)
        decreases |rest|
      {
        var frame := NextFrame(budget);
        frames := frames + [frame];
      }
    }

    /** One turn of the outer loop. */
    method NextFrame(budget: nat) returns (frame: Option<string>)
      requires rest != ""
      modifies this
      ensures frame == Frame(Line(old(rest)), budget)
      ensures |rest| < |old(rest)|
      ensures Frames(Lines(old(rest)), budget) == [frame] + Frames(Lines(rest), budget)
    {
      ghost var before := rest;
      ChunkOfLine(before, budget + 1);
      var line := ReadLine(budget + 1);
      var oversized := Text.Bytes(line) > budget;
      if |line| > budget && !EndsLine(line) {
        oversized := true;
        BytesOfPrefix(Line(before), |line|);
        SkipLine(line, budget + 1);
        LineContinues(before, budget + 1);
      }
      FramesOfFirst(before, budget, rest, Line(before));
      frame := if oversized then None else Some(line);
    }
  }

  /** After a partial read, what is left of the line is the first line of what is left. */
  lemma LineContinues(s: string, limit: nat)
    requires s != "" && |Chunk(s, limit)| == limit && !EndsLine(Chunk(s, limit))
    ensures limit <= |s| && limit + |Line(s[limit..])| == |Line(s)|
    ensures s[limit..][|Line(s[limit..])|..] == s[|Line(s)|..]
  {
    var line := Line(s);
    ChunkOfLine(s, limit);
    var rest := s[limit..];
    if |line| <= limit {
      assert |s| == limit && rest == "" && Line(rest) == "";
    } else {
      assert |Line(rest)| == |line| - limit;
    }
    SliceTwice(s, limit, |Line(rest)|);
  }

  /** What one more read leaves of the line. */
  lemma SkipStep(s: string, limit: nat)
    requires limit > 0
    ensures var c := Chunk(s, limit);
            |c| + (if c == "" || EndsLine(c) then 0 else |Line(s[|c|..])|) == |Line(s)|
  {
    var line := Line(s);
    ChunkOfLine(s, limit);
    if |line| <= limit {
      if !EndsLine(line) { assert s[|line|..] == ""; }
    }
  }

  lemma FramesOfFirst(s: string, budget: nat, rest: string, line: string)
    requires s != "" && line == Line(s) && rest == s[|line|..]
    ensures Frames(Lines(s), budget) == [Frame(line, budget)] + Frames(Lines(rest), budget)
  {
    assert ([line] + Lines(rest))[1..] == Lines(rest);
  }

  lemma SliceTwice(s: string, i: nat, j: nat)
    requires i <= |s| && j <= |s| - i
    ensures s[i..][j..] == s[i + j..]
  {
  }
}
