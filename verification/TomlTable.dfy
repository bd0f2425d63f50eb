/**
 One table of a TOML settings file as lines of text: finding it, reading its entries, and writing
 them.  Strings inside it are JSON strings.
 */
module TomlTable {
  import opened Wrappers
  import opened Text
  import opened JsonString
  import opened KeySort

  type Table = map<Value, Value>

  datatype Problem =
    | DuplicateTable
    | NestedTable(line: nat)
    | NoEquals(line: nat)
    | BadKey(line: nat)
    | DuplicateKey(line: nat)
    | BadValue(line: nat)

  const HEADER := "[shell_environment_policy.set]"

  // ---------- headers ----------

  /** Nothing but blanks and perhaps a comment. */
  predicate Ends(s: string) {
    var r := LStrip(s);
    r == "" || r[0] == '#'
  }

  predicate IsTable(line: string) {
    var t := LStrip(line);
    HEADER <= t && Ends(t[|HEADER|..])
  }

  /** Any header: a bracket closed by one that nothing but a comment follows. */
  predicate IsHeader(line: string) {
    var t := LStrip(line);
    t != "" && t[0] == '[' && exists j :: 1 <= j < |t| && t[j] == ']' && Ends(t[j + 1..])
  }

  function FirstTable(lines: seq<string>, i: nat): (r: nat)
    requires i <= |lines|
    ensures i <= r <= |lines|
    ensures forall k :: i <= k < r ==> !IsTable(lines[k])
    ensures r < |lines| ==> IsTable(lines[r])
    decreases |lines| - i
  {
    if i == |lines| || IsTable(lines[i]) then i else FirstTable(lines, i + 1)
  }

  function FirstHeader(lines: seq<string>, i: nat): (r: nat)
    requires i <= |lines|
    ensures i <= r <= |lines|
    ensures forall k :: i <= k < r ==> !IsHeader(lines[k])
    ensures r < |lines| ==> IsHeader(lines[r])
    decreases |lines| - i
  {
    if i == |lines| || IsHeader(lines[i]) then i else FirstHeader(lines, i + 1)
  }

  /** The lines of the one target table, `None` when there is no such table. */
  function FindTable(lines: seq<string>): (r: Result<Option<(nat, nat)>, Problem>)
    ensures r.Ok? && r.value.Some? ==> r.value.value.0 < r.value.value.1 <= |lines|
  {
    var start := FirstTable(lines, 0);
    if start == |lines| then Ok(None)
    else if FirstTable(lines, start + 1) < |lines| then Err(DuplicateTable)
    else Ok(Some((start, FirstHeader(lines, start + 1))))
  }

  ghost predicate TableAt(lines: seq<string>, start: nat, end: nat) {
    && start < end <= |lines|
    && IsTable(lines[start])
    && (forall k :: 0 <= k < |lines| && k != start ==> !IsTable(lines[k]))
    && (forall k :: start < k < end ==> !IsHeader(lines[k]))
    && (end < |lines| ==> IsHeader(lines[end]))
  }

  /** The table is found exactly when it is there once; it reaches to the next header. */
  lemma TableIsFound(lines: seq<string>, start: nat, end: nat)
    ensures FindTable(lines) == Ok(Some((start, end))) <==> TableAt(lines, start, end)
  {
    var first := FirstTable(lines, 0);
    if TableAt(lines, start, end) {
      assert first == start;
      assert FirstTable(lines, start + 1) == |lines|;
      assert FirstHeader(lines, start + 1) == end;
    }
  }

  lemma NoTableIsFound(lines: seq<string>)
    ensures FindTable(lines) == Ok(None) <==> forall k :: 0 <= k < |lines| ==> !IsTable(lines[k])
  {
  }

  method FindExplicitTable(lines: seq<string>) returns (r: Result<Option<(nat, nat)>, Problem>)
    ensures r == FindTable(lines)
  {
    var start: Option<nat> := None;
    for index := 0 to |lines|
      invariant start.None? ==> forall k :: 0 <= k < index ==> !IsTable(lines[k])
      invariant start.Some? ==> start.value < index && IsTable(lines[start.value])
      invariant start.Some? ==> forall k :: 0 <= k < index && k != start.value ==> !IsTable(lines[k])
    {
      if IsTable(lines[index]) {
        if start.Some? {
          assert FirstTable(lines, 0) == start.value;
          assert FirstTable(lines, start.value + 1) < |lines|;
          return Err(DuplicateTable);
        }
        start := Some(index);
      }
    }
    if start.None? { return Ok(None); }
    var end := |lines|;
    var index := start.value + 1;
    while index < |lines|
      invariant start.value < index <= |lines| == end
      invariant forall k :: start.value < k < index ==> !IsHeader(lines[k])
    {
      if IsHeader(lines[index]) {
        end := index;
        break;
      }
      index := index + 1;
    }
    TableIsFound(lines, start.value, end);
    r := Ok(Some((start.value, end)));
  }

  // ---------- comments ----------

  datatype Quoting = Quoting(inString: bool, escaped: bool)

  const OUTSIDE := Quoting(false, false)
  const INSIDE := Quoting(true, false)

  function Step(q: Quoting, c: char): Quoting {
    if !q.inString then Quoting(c == '"', false)
    else if q.escaped then INSIDE
    else if c == '\\' then Quoting(true, true)
    else if c == '"' then OUTSIDE
    else INSIDE
  }

  function BeforeComment(t: string, q: Quoting): string {
    if t == "" || (!q.inString && t[0] == '#') then "" else [t[0]] + BeforeComment(t[1..], Step(q, t[0]))
  }

  function CommentFree(t: string): string {
    RStrip(BeforeComment(t, OUTSIDE))
  }

  lemma CommentStep(text: string, i: nat, q: Quoting)
    requires i < |text|
    ensures text[..i] + BeforeComment(text[i..], q)
            == if !q.inString && text[i] == '#' then text[..i] else text[..i + 1] + BeforeComment(text[i + 1..], Step(q, text[i]))
  {
    assert text[i..][1..] == text[i + 1..];
  }

  method StripCommentSuffix(text: string) returns (r: string)
    ensures r == CommentFree(text)
  {
    var q := OUTSIDE;
    ghost var goal := BeforeComment(text, OUTSIDE);
    for index := 0 to |text|
      invariant goal == text[..index] + BeforeComment(text[index..], q)
    {
      CommentStep(text, index, q);
      if !q.inString && text[index] == '#' { return RStrip(text[..index]); }
      q := Step(q, text[index]);
    }
    assert text[..|text|] + "" == text;
    r := RStrip(text);
  }

  // ---------- entries ----------

  predicate BareChar(c: char) {
    'A' <= c <= 'Z' || 'a' <= c <= 'z' || '0' <= c <= '9' || c == '_' || c == '-'
  }

  /** The code points of a bare key. */
  function BareKey(s: string): Option<Value> {
    if s == "" then Some([])
    else
      var more := BareKey(s[1..]);
      if BareChar(s[0]) && more.Some? then Some([s[0] as int] + more.value) else None
  }

  /** A quoted key with nothing after it, or a bare key. */
  function ParseKey(text: string): Option<Value> {
    var t := Strip(text);
    if t == "" then None
    else if t[0] == '"' then
      var d := Decode(t[1..]);
      if d.None? || Strip(d.value.1) != "" then None else Some(d.value.0)
    else BareKey(t)
  }

  /** A quoted string, with at most a comment after it. */
  function ParseValue(text: string): Option<Value> {
    var t := Strip(text);
    if t == "" || t[0] != '"' then None
    else
      var d := Decode(t[1..]);
      if d.None? then None
      else
        var rest := Strip(d.value.1);
        if rest != "" && rest[0] != '#' then None else Some(d.value.0)
  }

  datatype Entry = Nothing | Nested | Unassigned | Keyless | Binding(key: Value, value: Option<Value>)

  /** An assignment is split at its first equals sign, wherever that stands. */
  function ReadStatement(statement: string): Entry {
    var i := UpTo(statement, '=');
    if statement == "" then Nothing
    else if i == |statement| then Unassigned
    else
      var key := ParseKey(statement[..i]);
      if key.None? then Keyless else Binding(key.value, ParseValue(statement[i + 1..]))
  }

  function ReadEntry(raw: string): Entry {
    var content := Strip(raw);
    if content == "" || content[0] == '#' then Nothing
    else if content[0] == '[' then Nested
    else ReadStatement(Strip(CommentFree(raw)))
  }

  /** One line's effect on the values read so far. */
  function Enter(entry: Entry, line: nat, values: Table): Result<Table, Problem> {
    match entry
    case Nothing => Ok(values)
    case Nested => Err(NestedTable(line))
    case Unassigned => Err(NoEquals(line))
    case Keyless => Err(BadKey(line))
    case Binding(key, value) =>
      if key in values then Err(DuplicateKey(line))
      else if value.None? then Err(BadValue(line))
      else Ok(values[key := value.value])
  }

  function Entries(lines: seq<string>): (r: seq<Entry>)
    ensures |r| == |lines|
  {
    if lines == [] then [] else [ReadEntry(lines[0])] + Entries(lines[1..])
  }

  lemma {:induction false} EntryAt(lines: seq<string>, i: nat)
    requires i < |lines|
    ensures Entries(lines)[i] == ReadEntry(lines[i])
  {
    if i > 0 { EntryAt(lines[1..], i - 1); }
  }

  /** The entries from `index` to `end`, added to the values read so far. */
  function EnterAll(entries: seq<Entry>, index: nat, end: nat, values: Table): Result<Table, Problem>
    requires index <= end <= |entries|
    decreases end - index
  {
    if index == end then Ok(values)
    else
      var next := Enter(entries[index], index + 1, values);
      if next.Err? then next else EnterAll(entries, index + 1, end, next.value)
  }

  /** What a file's text says of the table. */
  function ReadTable(lines: seq<string>): Result<Table, Problem> {
    var range := FindTable(lines);
    if range.Err? then Err(range.error)
    else if range.value.None? then Ok(map[])
    else
      var (start, end) := range.value.value;
      EnterAll(Entries(lines), start + 1, end, map[])
  }

  method ParseStatement(statement: string, line: nat, values: Table) returns (r: Result<Table, Problem>)
    ensures r == Enter(ReadStatement(statement), line, values)
  {
    if statement == "" { return Ok(values); }
    var i := UpTo(statement, '=');
    if i == |statement| { return Err(NoEquals(line)); }
    var key := ParseKey(statement[..i]);
    if key.None? { return Err(BadKey(line)); }
    if key.value in values { return Err(DuplicateKey(line)); }
    var value := ParseValue(statement[i + 1..]);
    if value.None? { return Err(BadValue(line)); }
    r := Ok(values[key.value := value.value]);
  }

  /** The body of the loop over the table's lines. */
  method ParseLine(raw: string, line: nat, values: Table) returns (r: Result<Table, Problem>)
    ensures r == Enter(ReadEntry(raw), line, values)
  {
    var content := Strip(raw);
    if content == "" || content[0] == '#' { return Ok(values); }
    if content[0] == '[' { return Err(NestedTable(line)); }
    var statement := StripCommentSuffix(raw);
    r := ParseStatement(Strip(statement), line, values);
  }

  method ParseBody(lines: seq<string>, start: nat, end: nat) returns (r: Result<Table, Problem>)
    requires start < end <= |lines|
    ensures r == EnterAll(Entries(lines), start + 1, end, map[])
  {
    r := Ok(map[]);
    ghost var entries := Entries(lines);
    for index := start + 1 to end
      invariant r.Ok? && EnterAll(entries, start + 1, end, map[]) == EnterAll(entries, index, end, r.value)
    {
      EntryAt(lines, index);
      r := ParseLine(lines[index], index + 1, r.value);
      if r.Err? { return; }
    }
  }

  method ParseSetTable(lines: seq<string>, range: Option<(nat, nat)>) returns (r: Result<Table, Problem>)
    requires range.Some? ==> range.value.0 < range.value.1 <= |lines|
    ensures range.None? ==> r == Ok(map[])
    ensures range.Some? ==> r == EnterAll(Entries(lines), range.value.0 + 1, range.value.1, map[])
  {
    if range.None? { return Ok(map[]); }
    r := ParseBody(lines, range.value.0, range.value.1);
  }

  // ---------- rendering ----------

  /** Order of strings by code points. */
  predicate CodesLe(a: Value, b: Value) {
    a == b || LexLess(a, b, IntCode())
  }

  lemma CodesOrder(a: Value, b: Value)
    ensures CodesLe(a, b) || CodesLe(b, a)
    ensures CodesLe(a, b) && CodesLe(b, a) ==> a == b
  {
    LexOrder(a, b, IntCode());
  }

  lemma CodesTransitive(a: Value, b: Value, c: Value)
    requires CodesLe(a, b) && CodesLe(b, c)
    ensures CodesLe(a, c)
  {
    if a != b && b != c { LexTransitive(a, b, c, IntCode()); }
  }

  ghost predicate IsLeast(k: Value, keys: set<Value>) {
    k in keys && forall j :: j in keys ==> CodesLe(k, j)
  }

  lemma {:induction false} LeastExists(keys: set<Value>) returns (k: Value)
    requires keys != {}
    ensures IsLeast(k, keys)
  {
    k :| k in keys;
    CodesOrder(k, k);
    if keys != {k} {
      var m := LeastExists(keys - {k});
      CodesOrder(k, m);
      if CodesLe(m, k) {
        k := m;
      } else {
        forall j | j in keys ensures CodesLe(k, j) { if j != k { CodesTransitive(k, m, j); } }
      }
    }
  }

  lemma HasLeast(keys: set<Value>)
    requires keys != {}
    ensures exists k :: IsLeast(k, keys)
  {
    var k := LeastExists(keys);
  }

  ghost function Least(keys: set<Value>): (k: Value)
    requires keys != {}
    ensures IsLeast(k, keys)
  {
    HasLeast(keys);
    var k :| IsLeast(k, keys);
    k
  }

  ghost function SortedKeys(keys: set<Value>): seq<Value> {
    if keys == {} then [] else [Least(keys)] + SortedKeys(keys - {Least(keys)})
  }

  function EntryLine(key: Value, value: Value): string {
    Quote(key) + " = " + Quote(value) + "\n"
  }

  function EntryLines(keys: seq<Value>, values: Table): seq<string>
    requires forall i :: 0 <= i < |keys| ==> keys[i] in values
  {
    if keys == [] then [] else [EntryLine(keys[0], values[keys[0]])] + EntryLines(keys[1..], values)
  }

  /** Each key once, in order. */
  lemma {:induction false} SortedKeysAreTheKeys(keys: set<Value>)
    ensures forall k :: k in keys <==> k in SortedKeys(keys)
    ensures forall i, j :: 0 <= i < j < |SortedKeys(keys)| ==> SortedKeys(keys)[i] != SortedKeys(keys)[j] && CodesLe(SortedKeys(keys)[i], SortedKeys(keys)[j])
  {
    if keys != {} {
      var least := Least(keys);
      SortedKeysAreTheKeys(keys - {least});
      assert forall j :: 0 <= j < |SortedKeys(keys - {least})| ==> SortedKeys(keys - {least})[j] in keys - {least};
    }
  }

  ghost function Rendered(values: Table): (r: seq<string>)
  {
    SortedKeysAreTheKeys(values.Keys);
    [HEADER + "\n"] + EntryLines(SortedKeys(values.Keys), values)
  }
}
