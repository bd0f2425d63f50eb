/**
 What a row of each kind of file must look like, as tables of shapes, and how rows are ordered, by the
 names of their fields: an independent account of the row checks and of the sort key.
 */
module ExclusionsRows {
  import opened Wrappers
  import opened Text
  import opened KeySort
  import opened CsvText
  import opened ExclusionsCsv
  import opened ExclusionsFormat

  // ---------- line numbers ----------

  function DigitChar(d: nat): char
    requires d < 10
  {
    "0123456789"[d]
  }

  /** `str(n)`. */
  function Numeral(n: nat): string {
    if n < 10 then [DigitChar(n)] else Numeral(n / 10) + [DigitChar(n % 10)]
  }

  lemma {:induction false} NumeralReads(n: nat)
    ensures Decimal(Numeral(n)) == n
    ensures Numeral(n) != "" && (n > 0 ==> Numeral(n)[0] != '0')
    ensures forall k :: 0 <= k < |Numeral(n)| ==> '0' <= Numeral(n)[k] <= '9'
  {
    DigitIs(n % 10);
    if n >= 10 {
      NumeralReads(n / 10);
      assert Numeral(n)[..|Numeral(n)| - 1] == Numeral(n / 10);
    }
  }

  lemma DigitIs(d: nat)
    requires d < 10
    ensures DigitChar(d) as int == '0' as int + d
  {
  }

  /** Digits without a leading zero are the numeral of the number they write. */
  lemma {:induction false} DigitsAreNumeral(s: string)
    requires s != "" && s[0] != '0' && forall k :: 0 <= k < |s| ==> '0' <= s[k] <= '9'
    ensures Decimal(s) > 0 && Numeral(Decimal(s)) == s
  {
    var n := |s| - 1;
    var d := s[n] as int - '0' as int;
    DigitIs(d);
    assert s == s[..n] + [s[n]];
    if n > 0 {
      DigitsAreNumeral(s[..n]);
    } else {
      assert Decimal(s[..n]) == 0;
    }
  }

  ghost predicate PositiveNumeral(s: string) {
    |s| <= MAX_INT_DIGITS && exists n: nat :: n > 0 && s == Numeral(n)
  }

  /** A line field is good exactly if, stripped, it is the numeral of a positive number, as `int` and `str` say. */
  lemma CanonicalIffNumeral(s: string)
    ensures Canonical(s) <==> PositiveNumeral(s)
  {
    if Canonical(s) {
      DigitsAreNumeral(s);
      var n: nat := Decimal(s);
      assert n > 0 && s == Numeral(n);
    }
    if n: nat :| n > 0 && s == Numeral(n) { NumeralReads(n); }
  }

  /** It is sorted by that number. */
  lemma LineSortsByNumber(s: string, n: nat)
    requires Strip(s) == Numeral(n)
    ensures LinePart(s) == Number(n)
  {
    NumeralReads(n);
  }

  // ---------- fields by name ----------

  function IndexOf(names: seq<string>, name: string): (i: nat)
    ensures i <= |names| && (i < |names| ==> names[i] == name)
  {
    if names == [] || names[0] == name then 0 else 1 + IndexOf(names[1..], name)
  }

  /** The field under this name in the header of the kind. */
  function Field(kind: Kind, row: Row, name: string): string {
    var i := IndexOf(Fields(kind), name);
    if i < |row| then row[i] else ""
  }

  predicate Filled(kind: Kind, row: Row, name: string) {
    Strip(Field(kind, row, name)) != ""
  }

  lemma CodeFields(row: Row)
    requires |row| == 6
    ensures Field(Code, row, "scope") == row[0] && Field(Code, row, "metric") == row[1] && Field(Code, row, "line") == row[2]
    ensures Field(Code, row, "object") == row[3] && Field(Code, row, "bin") == row[4] && Field(Code, row, "reason") == row[5]
  {
    var f := Fields(Code);
    assert f[1..][1..] == f[2..] && f[2..][1..] == f[3..] && f[3..][1..] == f[4..] && f[4..][1..] == f[5..];
  }

  lemma FunctionalFields(row: Row)
    requires |row| == 7
    ensures Field(Functional, row, "scope") == row[0] && Field(Functional, row, "line") == row[1]
    ensures Field(Functional, row, "covergroup") == row[2] && Field(Functional, row, "coverpoint") == row[3]
    ensures Field(Functional, row, "cross") == row[4] && Field(Functional, row, "bin") == row[5] && Field(Functional, row, "reason") == row[6]
  {
    var f := Fields(Functional);
    assert f[1..][1..] == f[2..] && f[2..][1..] == f[3..] && f[3..][1..] == f[4..] && f[4..][1..] == f[5..] && f[5..][1..] == f[6..];
  }

  lemma AssertionFields(row: Row)
    requires |row| == 5
    ensures Field(Assertion, row, "scope") == row[0] && Field(Assertion, row, "line") == row[1] && Field(Assertion, row, "assertion") == row[2]
    ensures Field(Assertion, row, "assertion_kind") == row[3] && Field(Assertion, row, "reason") == row[4]
  {
    var f := Fields(Assertion);
    assert f[1..][1..] == f[2..] && f[2..][1..] == f[3..] && f[3..][1..] == f[4..];
  }

  lemma ContainerFields(row: Row)
    requires |row| == 6
    ensures Field(Container, row, "target_kind") == row[0] && Field(Container, row, "scope") == row[1]
    ensures Field(Container, row, "covergroup") == row[2] && Field(Container, row, "item") == row[3]
    ensures Field(Container, row, "expansion_root") == row[4] && Field(Container, row, "reason") == row[5]
  {
    var f := Fields(Container);
    assert f[1..][1..] == f[2..] && f[2..][1..] == f[3..] && f[3..][1..] == f[4..] && f[4..][1..] == f[5..];
  }

  // ---------- shapes of valid rows ----------

  /** Metric, and whether object and bin are filled. */
  const CODE_SHAPES := {("line", false, false), ("toggle", true, true), ("branch", true, true), ("condition", true, true), ("fsm", true, true)}

  /** Target kind, and whether covergroup, item and expansion root are filled. */
  const CONTAINER_SHAPES :=
    {("instance", false, false, true), ("covergroup", true, false, false), ("coverpoint", true, true, false), ("cross", true, true, false)}

  /** What a row of each kind must look like, field by field. */
  ghost predicate Shaped(kind: Kind, row: Row) {
    && Filled(kind, row, "reason") && Filled(kind, row, "scope")
    && match kind
       case Code =>
         && (Field(kind, row, "metric"), Filled(kind, row, "object"), Filled(kind, row, "bin")) in CODE_SHAPES
         && (PositiveNumeral(Strip(Field(kind, row, "line"))) || (Field(kind, row, "metric") == "toggle" && !Filled(kind, row, "line")))
       case Functional =>
         && PositiveNumeral(Strip(Field(kind, row, "line"))) && Filled(kind, row, "covergroup") && Filled(kind, row, "bin")
         && (Filled(kind, row, "coverpoint"), Filled(kind, row, "cross")) in {(true, false), (false, true)}
       case Assertion =>
         && PositiveNumeral(Strip(Field(kind, row, "line"))) && Filled(kind, row, "assertion")
         && Field(kind, row, "assertion_kind") in {"assertion", "cover_property", "cover_sequence"}
       case Container =>
         (Field(kind, row, "target_kind"), Filled(kind, row, "covergroup"), Filled(kind, row, "item"), Filled(kind, row, "expansion_root"))
         in CONTAINER_SHAPES
  }

  lemma CodeShapesAre(metric: string, named: bool, binned: bool)
    ensures (metric, named, binned) in CODE_SHAPES <==>
              if metric == "line" then !named && !binned else metric in ["toggle", "branch", "condition", "fsm"] && named && binned
  {
  }

  lemma CodeIffShaped(row: Row)
    requires |row| == 6
    ensures ValidCode(row) <==> Shaped(Code, row)
  {
    CodeFields(row);
    CanonicalIffNumeral(Strip(row[2]));
    CodeShapesAre(row[1], !Empty(row[3]), !Empty(row[4]));
  }

  lemma FunctionalIffShaped(row: Row)
    requires |row| == 7
    ensures ValidFunctional(row) <==> Shaped(Functional, row)
  {
    FunctionalFields(row);
    CanonicalIffNumeral(Strip(row[1]));
  }

  lemma AssertionIffShaped(row: Row)
    requires |row| == 5
    ensures ValidAssertion(row) <==> Shaped(Assertion, row)
  {
    AssertionFields(row);
    CanonicalIffNumeral(Strip(row[1]));
  }

  lemma ContainerIffShaped(row: Row)
    requires |row| == 6
    ensures ValidContainer(row) <==> Shaped(Container, row)
  {
    ContainerFields(row);
  }

  /** A row of its kind's width is accepted exactly if it has one of the shapes. */
  lemma ValidIffShaped(kind: Kind, row: Row)
    requires |row| == Width(kind)
    ensures ValidRow(kind, row) <==> Shaped(kind, row)
    ensures Width(kind) == |Fields(kind)|
  {
    match kind
    case Code => CodeIffShaped(row);
    case Functional => FunctionalIffShaped(row);
    case Assertion => AssertionIffShaped(row);
    case Container => ContainerIffShaped(row);
  }

  // ---------- the sort key by names ----------

  /** The fields by which rows of each kind are sorted. */
  function SortFields(kind: Kind): seq<string> {
    match kind
    case Code => ["scope", "line", "metric", "object", "bin"]
    case Functional => ["scope", "line", "covergroup", "coverpoint", "cross", "bin"]
    case Assertion => ["scope", "line", "assertion", "assertion_kind"]
    case Container => ["target_kind", "scope", "covergroup", "item", "expansion_root"]
  }

  /** A line counts as its number and as zero when empty, every other field as text. */
  predicate FieldKey(kind: Kind, row: Row, name: string, part: Part) {
    var field := Field(kind, row, name);
    if name == "line" then part == Number(if field == "" then 0 else Decimal(Strip(field))) else part == Word(field)
  }

  /** Rows are ordered by those fields, in that order. */
  lemma KeyFollowsFields(kind: Kind, row: Row)
    requires |row| == Width(kind) && Sortable(kind, row)
    ensures |RowKey(kind, row)| == |SortFields(kind)|
    ensures forall i :: 0 <= i < |SortFields(kind)| ==> FieldKey(kind, row, SortFields(kind)[i], RowKey(kind, row)[i])
  {
    match kind
    case Code => CodeFields(row);
    case Functional => FunctionalFields(row);
    case Assertion => AssertionFields(row);
    case Container => ContainerFields(row);
  }
}
