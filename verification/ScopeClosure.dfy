/**
 Synthetic hierarchy scopes: every dotted prefix of an instance name becomes a scope, with name,
 parent and depth derived from the full name, and the result goes through the canonical validator.
 */
module ScopeClosure {
  import opened Wrappers

  datatype Scope = Scope(name: string, fullName: string, parent: Option<string>, depth: nat)

  // ---------- dotted names ----------

  /** `s.split(".")`. */
  function Split(s: string): (parts: seq<string>)
    ensures |parts| > 0
  {
    if s == "" then [""]
    else
      var n := |s| - 1;
      var r := Split(s[..n]);
      if s[n] == '.' then r + [""] else r[..|r| - 1] + [r[|r| - 1] + [s[n]]]
  }

  /** `".".join(parts)`. */
  function Join(parts: seq<string>): string
    requires parts != []
  {
    if |parts| == 1 then parts[0] else Join(parts[..|parts| - 1]) + "." + parts[|parts| - 1]
  }

  /** `s.rsplit(".", 1)[-1]`. */
  function Leaf(s: string): string {
    if s == "" || s[|s| - 1] == '.' then "" else Leaf(s[..|s| - 1]) + [s[|s| - 1]]
  }

  /** `s.rsplit(".", 1)[0]` when there is a dot. */
  function Parent(s: string): Option<string> {
    if s == "" then None
    else if s[|s| - 1] == '.' then Some(s[..|s| - 1])
    else Parent(s[..|s| - 1])
  }

  /** `s.count(".")`. */
  function Depth(s: string): nat {
    if s == "" then 0 else Depth(s[..|s| - 1]) + if s[|s| - 1] == '.' then 1 else 0
  }

  predicate Dotless(s: string) {
    '.' !in s
  }

  /** Splitting at dots: joins back, leaves dotless parts, and agrees with leaf, parent and depth. */
  lemma {:induction false} SplitFacts(s: string)
    ensures forall p :: p in Split(s) ==> Dotless(p)
    ensures Join(Split(s)) == s
    ensures Leaf(s) == Split(s)[|Split(s)| - 1] && Depth(s) == |Split(s)| - 1
    ensures Parent(s) == if |Split(s)| == 1 then None else Some(Join(Split(s)[..|Split(s)| - 1]))
  {
    if s != "" {
      var n := |s| - 1;
      var r := Split(s[..n]);
      SplitFacts(s[..n]);
      assert s == s[..n] + [s[n]];
      if s[n] == '.' {
        assert (r + [""])[..|r|] == r;
        assert Join(r + [""]) == Join(r) + "." + "";
      } else {
        var q := r[..|r| - 1] + [r[|r| - 1] + [s[n]]];
        assert q[..|q| - 1] == r[..|r| - 1];
        assert r[|r| - 1] in r;
        if |r| > 1 {
          assert Join(r) + [s[n]] == Join(r[..|r| - 1]) + "." + (r[|r| - 1] + [s[n]]);
        }
      }
    }
  }

  lemma SplitOneMore(s: string, c: char)
    ensures Split(s + [c]) == var r := Split(s); if c == '.' then r + [""] else r[..|r| - 1] + [r[|r| - 1] + [c]]
  {
    assert (s + [c])[..|s|] == s;
  }

  /** A longer last part makes a longer joined name. */
  lemma JoinOneMore(init: seq<string>, last: string, c: char)
    ensures Join(init + [last + [c]]) == Join(init + [last]) + [c]
  {
    assert (init + [last + [c]])[..|init|] == init && (init + [last])[..|init|] == init;
  }

  /** Splitting what was joined from dotless parts gives the parts back. */
  lemma {:induction false} SplitJoin(parts: seq<string>)
    requires parts != [] && forall p :: p in parts ==> Dotless(p)
    ensures Split(Join(parts)) == parts
    decreases |parts|, |parts[|parts| - 1]|
  {
    var n := |parts| - 1;
    var init, last := parts[..n], parts[n];
    assert parts == init + [last];
    assert last in parts;
    if last == "" {
      if n > 0 {
        SplitJoin(init);
        SplitOneMore(Join(init), '.');
        assert Join(parts) == Join(init) + ['.'];
      }
    } else {
      var k := |last| - 1;
      var shorter := init + [last[..k]];
      assert last == last[..k] + [last[k]] && last[k] in last;
      SplitJoin(shorter);
      JoinOneMore(init, last[..k], last[k]);
      SplitOneMore(Join(shorter), last[k]);
    }
  }

  // ---------- the closure ----------

  /** The joins of fewer than `n` leading parts. */
  function Prefixes(parts: seq<string>, n: nat): set<string>
    requires n <= |parts|
  {
    set i | 1 <= i < n :: Join(parts[..i])
  }

  /** The proper dotted prefixes of a name. */
  function Ancestors(s: string): set<string> {
    Prefixes(Split(s), |Split(s)|)
  }

  lemma OnePrefixMore(parts: seq<string>, n: nat)
    requires 1 <= n < |parts|
    ensures Prefixes(parts, n + 1) == Prefixes(parts, n) + {Join(parts[..n])}
  {
  }

  function Closure(names: set<string>): set<string> {
    names + set n, a | n in names && a in Ancestors(n) :: a
  }

  predicate Closed(names: set<string>) {
    forall n :: n in names && Parent(n).Some? ==> Parent(n).value in names
  }

  function Derived(s: string): Scope {
    Scope(Leaf(s), s, Parent(s), Depth(s))
  }

  /** The parent is the longest ancestor; the others are the parent's ancestors. */
  lemma ParentAndAbove(s: string)
    ensures Parent(s).None? ==> Ancestors(s) == {}
    ensures Parent(s).Some? ==> Ancestors(s) == Ancestors(Parent(s).value) + {Parent(s).value}
  {
    var parts := Split(s);
    SplitFacts(s);
    if |parts| > 1 {
      var init := parts[..|parts| - 1];
      SplitJoin(init);
      assert Split(Parent(s).value) == init;
      forall i | 1 <= i < |parts| ensures Join(parts[..i]) in Ancestors(Parent(s).value) + {Parent(s).value} {
        if i < |init| { assert init[..i] == parts[..i]; } else { assert parts[..i] == init; }
      }
      forall i | 1 <= i < |init| ensures Join(init[..i]) in Ancestors(s) { assert init[..i] == parts[..i]; }
      assert Parent(s).value == Join(parts[..|parts| - 1]);
    }
  }

  /** Ancestors are closed upwards, in every closed set that holds the name. */
  lemma {:induction false} AncestorsAreForced(s: string, names: set<string>)
    requires Closed(names) && s in names
    ensures Ancestors(s) <= names
    decreases |Split(s)|
  {
    ParentAndAbove(s);
    if Parent(s).Some? {
      SplitFacts(s);
      SplitJoin(Split(s)[..|Split(s)| - 1]);
      AncestorsAreForced(Parent(s).value, names);
    }
  }

  lemma AncestorParent(s: string, a: string)
    requires a in Ancestors(s) && Parent(a).Some?
    ensures Parent(a).value in Ancestors(s)
  {
    var i :| 1 <= i < |Split(s)| && a == Join(Split(s)[..i]);
    var parts := Split(s)[..i];
    SplitFacts(s);
    SplitJoin(parts);
    SplitFacts(a);
    assert parts[..i - 1] == Split(s)[..i - 1];
  }

  /** The closure is the least prefix-closed set that holds the names. */
  lemma ClosureIsLeast(names: set<string>)
    ensures names <= Closure(names) && Closed(Closure(names))
    ensures forall bigger :: names <= bigger && Closed(bigger) ==> Closure(names) <= bigger
  {
    forall n | n in Closure(names) && Parent(n).Some? ensures Parent(n).value in Closure(names) {
      if n in names {
        ParentAndAbove(n);
        assert Parent(n).value in Ancestors(n);
      } else {
        var m :| m in names && n in Ancestors(m);
        AncestorParent(m, n);
      }
    }
    forall bigger: set<string> | names <= bigger && Closed(bigger) ensures Closure(names) <= bigger {
      forall n | n in names ensures Ancestors(n) <= bigger { AncestorsAreForced(n, bigger); }
    }
  }

  /** The inner loop: every proper prefix of `name` that is not there yet. */
  method AddAncestors(rows: map<string, Scope>, name: string) returns (rows': map<string, Scope>)
    ensures rows'.Keys == rows.Keys + Ancestors(name)
  {
    rows' := rows;
    var parts := Split(name);
    var index := 1;
    while index < |parts|
      invariant 1 <= index <= |parts|
      invariant rows'.Keys == rows.Keys + Prefixes(parts, index)
    {
      var ancestor := Join(parts[..index]);
      if ancestor !in rows' {
        var above := if index > 1 then Some(Join(parts[..index - 1])) else None;
        rows' := rows'[ancestor := Scope(parts[index - 1], ancestor, above, index - 1)];
      }
      OnePrefixMore(parts, index);
      index := index + 1;
    }
  }

  lemma ClosureOneMore(names: set<string>, n: string)
    ensures Closure(names + {n}) == Closure(names) + {n} + Ancestors(n)
  {
  }

  /** `_add_synthetic_hierarchy_scopes`, from the instance rows by name. */
  method AddSyntheticScopes(instances: map<string, Scope>) returns (rows: map<string, Scope>)
    ensures rows.Keys == Closure(instances.Keys)
    ensures forall n :: n in rows ==> rows[n] == Derived(n)
  {
    rows := instances;
    var left := instances.Keys;
    while left != {}
      invariant left <= instances.Keys
      invariant rows.Keys == instances.Keys + Closure(instances.Keys - left)
      decreases left
    {
      var name :| name in left;
      rows := AddAncestors(rows, name);
      ClosureOneMore(instances.Keys - left, name);
      assert instances.Keys - (left - {name}) == instances.Keys - left + {name};
      left := left - {name};
    }
    assert instances.Keys - {} == instances.Keys;
    rows := map n | n in rows :: Derived(n);
  }

  // ---------- the canonical validator ----------

  datatype Violation = EmptyName | EmptyFullName | EmptyParent | WrongDepth | WrongParent | WrongName | Duplicate | MissingParent

  /** The checks on one row that do not involve the others, in the order they are made. */
  function RowViolation(s: Scope): Option<Violation> {
    if s.name == "" then Some(EmptyName)
    else if s.fullName == "" then Some(EmptyFullName)
    else if s.parent == Some("") then Some(EmptyParent)
    else if s.depth != Depth(s.fullName) then Some(WrongDepth)
    else if s.parent != Parent(s.fullName) then Some(WrongParent)
    else if s.name != Leaf(s.fullName) then Some(WrongName)
    else None
  }

  /** A row passes by itself exactly if its name, parent and depth follow from its full name, and no name in it is empty. */
  lemma RowPassesIffDerived(s: Scope)
    ensures RowViolation(s).None? <==>
              var parts := Split(s.fullName);
              && s.depth == |parts| - 1 && s.name == parts[|parts| - 1]
              && s.parent == (if |parts| == 1 then None else Some(Join(parts[..|parts| - 1])))
              && s.name != "" && s.fullName != "" && s.parent != Some("")
  {
    SplitFacts(s.fullName);
  }

  predicate Accepted(raw: seq<Scope>) {
    && (forall i :: 0 <= i < |raw| ==> RowViolation(raw[i]).None?)
    && (forall i, j :: 0 <= i < j < |raw| ==> raw[i].fullName != raw[j].fullName)
    && (forall i :: 0 <= i < |raw| && raw[i].parent.Some? ==> exists j :: 0 <= j < |raw| && raw[j].fullName == raw[i].parent.value)
  }

  /** `canonicalize_backend_scopes` on rows of the right shape. */
  method CanonicalizeScopes(raw: seq<Scope>) returns (r: Result<seq<Scope>, Violation>)
    ensures r.Ok? <==> Accepted(raw)
    ensures r.Ok? ==> r.value == raw
  {
    var seen: set<string> := {};
    var rows: seq<Scope> := [];
    while |rows| < |raw|
      invariant |rows| <= |raw| && rows == raw[..|rows|]
      invariant seen == set i | 0 <= i < |rows| :: raw[i].fullName
      invariant forall i :: 0 <= i < |rows| ==> RowViolation(raw[i]).None?
      invariant forall i, j :: 0 <= i < j < |rows| ==> raw[i].fullName != raw[j].fullName
      decreases |raw| - |rows|
    {
      var row := raw[|rows|];
      var violation := RowViolation(row);
      if violation.Some? { return Err(violation.value); }
      if row.fullName in seen { return Err(Duplicate); }
      seen := seen + {row.fullName};
      rows := rows + [row];
    }
    var index := 0;
    while index < |rows|
      invariant index <= |rows|
      invariant forall i :: 0 <= i < index && raw[i].parent.Some? ==> raw[i].parent.value in seen
    {
      if rows[index].parent.Some? && rows[index].parent.value !in seen { return Err(MissingParent); }
      index := index + 1;
    }
    r := Ok(rows);
  }

  /** No component of a dotted name is empty. */
  predicate Componentwise(s: string) {
    "" !in Split(s)
  }

  lemma AncestorComponents(s: string, a: string)
    requires a in Ancestors(s) && Componentwise(s)
    ensures Componentwise(a)
  {
    var i :| 1 <= i < |Split(s)| && a == Join(Split(s)[..i]);
    SplitFacts(s);
    SplitJoin(Split(s)[..i]);
  }

  lemma ComponentwiseRow(s: string)
    requires Componentwise(s)
    ensures RowViolation(Derived(s)).None?
  {
    SplitFacts(s);
    var parts := Split(s);
    assert parts[|parts| - 1] in parts;
    assert Split("") == [""];
    if Parent(s).Some? {
      SplitJoin(parts[..|parts| - 1]);
      assert parts[..|parts| - 1][0] == parts[0] && parts[0] in parts;
    }
  }

  /** An empty component shows up as an empty leaf name, of the name or of one of its ancestors. */
  lemma EmptyComponentShows(s: string) returns (a: string)
    requires !Componentwise(s)
    ensures (a == s || a in Ancestors(s)) && Leaf(a) == ""
  {
    var parts := Split(s);
    var k :| 0 <= k < |parts| && parts[k] == "";
    SplitFacts(s);
    if k + 1 == |parts| {
      a := s;
    } else {
      a := Join(parts[..k + 1]);
      SplitJoin(parts[..k + 1]);
      SplitFacts(a);
    }
  }

  /**
   The rows of the closure, in any order, pass the canonical validator if and only if no instance
   name has an empty component.
   */
  lemma ClosureIsAcceptedIffComponentwise(names: set<string>, raw: seq<Scope>)
    requires forall i :: 0 <= i < |raw| ==> raw[i] == Derived(raw[i].fullName)
    requires forall i, j :: 0 <= i < j < |raw| ==> raw[i].fullName != raw[j].fullName
    requires (set i | 0 <= i < |raw| :: raw[i].fullName) == Closure(names)
    ensures Accepted(raw) <==> forall n :: n in names ==> Componentwise(n)
  {
    if forall n :: n in names ==> Componentwise(n) {
      ClosureIsLeast(names);
      forall i | 0 <= i < |raw| ensures RowViolation(raw[i]).None? {
        assert raw[i].fullName in Closure(names);
        if raw[i].fullName !in names {
          var m :| m in names && raw[i].fullName in Ancestors(m);
          AncestorComponents(m, raw[i].fullName);
        }
        ComponentwiseRow(raw[i].fullName);
      }
      forall i | 0 <= i < |raw| && raw[i].parent.Some?
        ensures exists j :: 0 <= j < |raw| && raw[j].fullName == raw[i].parent.value
      {
        assert raw[i].fullName in Closure(names);
        assert raw[i].parent.value in Closure(names);
      }
    } else {
      var n :| n in names && !Componentwise(n);
      var a := EmptyComponentShows(n);
      assert a in Closure(names);
      var i :| 0 <= i < |raw| && raw[i].fullName == a;
      assert RowViolation(raw[i]) == Some(EmptyName);
    }
  }
}
