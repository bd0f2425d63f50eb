/**
 Metric totals over a set of scopes: URG gives subtree totals, so only scopes without a parent in the
 set are added up.
 */
module Aggregation {
  import opened Wrappers
  import opened ScopeClosure

  datatype Counts = Counts(covered: int, coverable: int)

  const ZERO: Counts := Counts(0, 0)

  function Add(a: Counts, b: Counts): Counts {
    Counts(a.covered + b.covered, a.coverable + b.coverable)
  }

  /** `scope == root or scope.startswith(root + ".")`. */
  predicate Within(s: string, root: string) {
    s == root || root + "." <= s
  }

  /** No dot, or no parent in the set. */
  predicate IsRoot(names: set<string>, s: string) {
    Parent(s).None? || Parent(s).value !in names
  }

  /** The sum of `self` over a set of names. */
  ghost function Sum(self: map<string, Counts>, names: set<string>): Counts
    requires names <= self.Keys
  {
    if names == {} then ZERO
    else
      var n :| n in names;
      Add(self[n], Sum(self, names - {n}))
  }

  lemma {:induction false} SumAny(self: map<string, Counts>, names: set<string>, n: string)
    requires names <= self.Keys && n in names
    ensures Sum(self, names) == Add(self[n], Sum(self, names - {n}))
  {
    var m :| m in names && Sum(self, names) == Add(self[m], Sum(self, names - {m}));
    if m != n {
      assert names - {m} - {n} == names - {n} - {m};
      SumAny(self, names - {m}, n);
      SumAny(self, names - {n}, m);
      var rest := Sum(self, names - {m} - {n});
      assert Sum(self, names) == Add(self[m], Add(self[n], rest));
      assert Sum(self, names - {n}) == Add(self[m], rest);
    }
  }

  lemma {:induction false} SumUnion(self: map<string, Counts>, a: set<string>, b: set<string>)
    requires a !! b && a + b <= self.Keys
    ensures Sum(self, a + b) == Add(Sum(self, a), Sum(self, b))
  {
    if a == {} {
      assert a + b == b;
    } else {
      var n :| n in a;
      SumAny(self, a, n);
      SumAny(self, a + b, n);
      assert a + b - {n} == (a - {n}) + b;
      SumUnion(self, a - {n}, b);
    }
  }

  /** Every name below `root` that is in the set, the root included. */
  function Subtree(names: set<string>, root: string): set<string> {
    set n | n in names && Within(n, root)
  }

  /** The totals at these scopes are true subtree totals of the scopes' own counts. */
  ghost predicate TrueAt(self: map<string, Counts>, totals: map<string, Counts>, names: set<string>) {
    names <= self.Keys && names <= totals.Keys && forall n :: n in names ==> totals[n] == Sum(self, Subtree(self.Keys, n))
  }

  function Roots(names: set<string>): set<string> {
    set n | n in names && IsRoot(names, n)
  }

  /** No root lies below another scope of the set. */
  ghost predicate RootsApart(names: set<string>) {
    forall n, r :: n in Roots(names) && r in names && Within(n, r) ==> n == r
  }

  // ---------- dotted prefixes ----------

  lemma {:induction false} ParentFacts(s: string, r: string)
    ensures Parent(s).Some? ==> |Parent(s).value| < |s| && Within(s, Parent(s).value)
    ensures Within(s, r) && s != r ==> Parent(s).Some? && Within(Parent(s).value, r)
  {
    if s != "" {
      var n := |s| - 1;
      ParentFacts(s[..n], r);
      assert s == s[..n] + [s[n]];
      if Within(s, r) && s != r {
        assert (r + ".")[|r|] == '.' && s[|r|] == '.';
        if |r| < n { assert r + "." <= s[..n]; } else { assert r == s[..n]; }
      }
    }
  }

  /** The longer of two names above one name lies below the shorter. */
  lemma WithinLonger(n: string, r: string, q: string)
    requires Within(n, r) && Within(n, q) && |q| <= |r|
    ensures Within(r, q)
  {
    assert n[..|r|] == r && n[..|q|] == q;
    if |q| < |r| {
      assert n[..|q| + 1] == q + ".";
      assert r[..|q| + 1] == n[..|q| + 1];
    }
  }

  /** Two names above one name are comparable. */
  lemma WithinBoth(n: string, r: string, q: string)
    requires Within(n, r) && Within(n, q)
    ensures Within(r, q) || Within(q, r)
  {
    if |q| <= |r| { WithinLonger(n, r, q); } else { WithinLonger(n, q, r); }
  }

  lemma WithinTransitive(n: string, r: string, q: string)
    requires Within(n, r) && Within(r, q)
    ensures Within(n, q) && (Within(q, n) ==> n == q)
  {
    if n != r && r != q { assert q + "." <= r <= n; }
  }

  lemma {:induction false} RootAbove(names: set<string>, n: string) returns (r: string)
    requires n in names
    ensures r in Roots(names) && Within(n, r)
    decreases |n|
  {
    if IsRoot(names, n) {
      r := n;
    } else {
      ParentFacts(n, n);
      r := RootAbove(names, Parent(n).value);
      WithinTransitive(n, Parent(n).value, r);
    }
  }

  // ---------- every scope is counted once ----------

  function Cover(names: set<string>, roots: set<string>): set<string> {
    set n, r | n in names && r in roots && Within(n, r) :: n
  }

  lemma CoversApart(names: set<string>, r: string, rest: set<string>)
    requires RootsApart(names) && r in Roots(names) && rest <= Roots(names) && r !in rest
    ensures Subtree(names, r) !! Cover(names, rest)
  {
    forall n | n in Subtree(names, r) ensures n !in Cover(names, rest) {
      if n in Cover(names, rest) {
        var q :| q in rest && Within(n, q);
        WithinBoth(n, r, q);
      }
    }
  }

  lemma CoverGrows(names: set<string>, r: string, rest: set<string>)
    ensures Cover(names, rest + {r}) == Subtree(names, r) + Cover(names, rest)
  {
  }

  /** One more root and what it covers, added to a sum that matches. */
  lemma JoinSums(self: map<string, Counts>, below: set<string>, cover: set<string>, both: set<string>,
                 totals: map<string, Counts>, roots: set<string>, r: string)
    requires below !! cover && both == below + cover && both <= self.Keys && r in roots && roots <= totals.Keys
    requires totals[r] == Sum(self, below) && Sum(totals, roots - {r}) == Sum(self, cover)
    ensures Sum(totals, roots) == Sum(self, both)
  {
    SumAny(totals, roots, r);
    SumUnion(self, below, cover);
  }

  lemma {:induction false} RootsSumTheirCover(self: map<string, Counts>, totals: map<string, Counts>, roots: set<string>)
    requires TrueAt(self, totals, roots) && RootsApart(self.Keys) && roots <= Roots(self.Keys)
    ensures Sum(totals, roots) == Sum(self, Cover(self.Keys, roots))
  {
    if roots == {} {
      assert Cover(self.Keys, {}) == {};
    } else {
      var r :| r in roots;
      var rest := roots - {r};
      RootsSumTheirCover(self, totals, rest);
      CoversApart(self.Keys, r, rest);
      CoverGrows(self.Keys, r, rest);
      assert roots == rest + {r};
      JoinSums(self, Subtree(self.Keys, r), Cover(self.Keys, rest), Cover(self.Keys, roots), totals, roots, r);
    }
  }

  lemma RootsCoverAll(names: set<string>)
    ensures Cover(names, Roots(names)) == names
  {
    forall n | n in names ensures n in Cover(names, Roots(names)) { var r := RootAbove(names, n); }
  }

  /** If no root lies below another scope, adding true totals of the roots counts every scope's own counts once. */
  lemma RootTotalsAreSelfTotals(self: map<string, Counts>, totals: map<string, Counts>)
    requires TrueAt(self, totals, Roots(self.Keys)) && RootsApart(self.Keys)
    ensures Sum(totals, Roots(self.Keys)) == Sum(self, self.Keys)
  {
    RootsSumTheirCover(self, totals, Roots(self.Keys));
    RootsCoverAll(self.Keys);
  }

  /** The condition again: below any scope of the set, parents are in the set. */
  lemma RootsApartMeansClosedBelow(names: set<string>)
    ensures RootsApart(names) <==> forall n, r :: n in names && r in names && Within(n, r) && n != r ==> Parent(n).Some? && Parent(n).value in names
  {
    if RootsApart(names) {
      forall n, r | n in names && r in names && Within(n, r) && n != r ensures Parent(n).Some? && Parent(n).value in names {
        ParentFacts(n, r);
        assert n !in Roots(names);
      }
    } else {
      var n, r :| n in Roots(names) && r in names && Within(n, r) && n != r;
      ParentFacts(n, r);
    }
  }

  /** Names closed below stay so below any filter. */
  lemma KeptRootsApart(names: set<string>, scope: string)
    requires RootsApart(names)
    ensures RootsApart(Subtree(names, scope))
  {
    var kept := Subtree(names, scope);
    RootsApartMeansClosedBelow(names);
    forall n, r | n in kept && r in kept && Within(n, r) && n != r ensures Parent(n).Some? && Parent(n).value in kept {
      ParentFacts(n, r);
      WithinTransitive(Parent(n).value, r, scope);
    }
    RootsApartMeansClosedBelow(kept);
  }

  /** Below a filter that names a scope, that scope is the only root. */
  lemma FilterIsOnlyRoot(names: set<string>, scope: string)
    requires scope in names && RootsApart(Subtree(names, scope))
    ensures Roots(Subtree(names, scope)) == {scope}
  {
    var kept := Subtree(names, scope);
    forall n | n in Roots(kept) ensures n == scope { assert Within(n, scope); }
    ParentFacts(scope, scope);
    if Parent(scope).Some? && Parent(scope).value in kept { WithinTransitive(scope, Parent(scope).value, scope); }
    assert scope in Roots(kept);
  }

  /** The names the parser reports hold every dotted prefix, so no root lies below another scope. */
  lemma ClosedRootsApart(names: set<string>)
    requires Closed(names)
    ensures RootsApart(names)
  {
    forall n, r | n in names && r in names && Within(n, r) && n != r ensures Parent(n).Some? && Parent(n).value in names {
      ParentFacts(n, r);
    }
    RootsApartMeansClosedBelow(names);
  }

  /** Whatever lies in a closed set below a name has that name in the set. */
  lemma {:induction false} ClosedAbove(names: set<string>, n: string, scope: string)
    requires Closed(names) && n in names && Within(n, scope)
    ensures scope in names
    decreases |n|
  {
    if n != scope {
      ParentFacts(n, scope);
      ParentFacts(n, n);
      ClosedAbove(names, Parent(n).value, scope);
    }
  }

  /** In a closed set a filter keeps one root, the scope it names, or nothing. */
  lemma FilteredRoots(names: set<string>, scope: string)
    requires Closed(names)
    ensures RootsApart(Subtree(names, scope))
    ensures Roots(Subtree(names, scope)) == if scope in names then {scope} else {}
    ensures scope !in names ==> Subtree(names, scope) == {}
  {
    ClosedRootsApart(names);
    KeptRootsApart(names, scope);
    if scope in names {
      FilterIsOnlyRoot(names, scope);
    } else {
      forall n | n in Subtree(names, scope) ensures false { ClosedAbove(names, n, scope); }
    }
  }

  lemma {:induction false} SumIsPositive(self: map<string, Counts>, names: set<string>)
    requires names <= self.Keys && forall n :: n in names ==> self[n].covered >= 0
    ensures Sum(self, names).covered >= 0
  {
    if names != {} {
      var n :| n in names;
      SumAny(self, names, n);
      SumIsPositive(self, names - {n});
    }
  }

  lemma {:induction false} SumOfOne(self: map<string, Counts>, names: set<string>, d: string)
    requires names <= self.Keys && forall n :: n in names ==> self[n].covered == if n == d then 1 else 0
    ensures Sum(self, names).covered == if d in names then 1 else 0
  {
    if names != {} {
      var n :| n in names;
      SumAny(self, names, n);
      SumOfOne(self, names - {n}, d);
    }
  }

  /** If some root lies below another scope, there are counts for which it is counted twice. */
  lemma NestedRootsAreCountedTwice(names: set<string>) returns (self: map<string, Counts>, totals: map<string, Counts>)
    requires !RootsApart(names)
    ensures self.Keys == names && TrueAt(self, totals, Roots(names))
    ensures Sum(totals, Roots(names)).covered > Sum(self, names).covered
  {
    var d, r :| d in Roots(names) && r in names && Within(d, r) && d != r;
    var q := RootAbove(names, r);
    WithinTransitive(d, r, q);
    self := map n | n in names :: Counts(if n == d then 1 else 0, 0);
    totals := map n | n in names :: Sum(self, Subtree(names, n));
    SumOfOne(self, names, d);
    forall n | n in names ensures totals[n].covered >= 0 { SumIsPositive(self, Subtree(names, n)); }
    SumOfOne(self, Subtree(names, d), d);
    SumOfOne(self, Subtree(names, q), d);
    var roots := Roots(names);
    assert q != d by { if q == d { WithinTransitive(r, d, r); } }
    SumAny(totals, roots, d);
    SumAny(totals, roots - {d}, q);
    SumIsPositive(totals, roots - {d} - {q});
  }

  /** So adding the roots is right for all true totals exactly when no root lies below another scope. */
  lemma RootsApartIsExact(names: set<string>)
    ensures RootsApart(names) <==>
              forall self: map<string, Counts>, totals: map<string, Counts> ::
                self.Keys == names && TrueAt(self, totals, Roots(names)) ==> Sum(totals, Roots(names)) == Sum(self, names)
  {
    if RootsApart(names) {
      forall self: map<string, Counts>, totals: map<string, Counts> | self.Keys == names && TrueAt(self, totals, Roots(names))
        ensures Sum(totals, Roots(names)) == Sum(self, names)
      {
        RootTotalsAreSelfTotals(self, totals);
      }
    } else {
      var self, totals := NestedRootsAreCountedTwice(names);
    }
  }

  // ---------- the computation ----------

  type Metrics = map<string, Counts>

  /** One metric of every scope; scopes without it contribute nothing. */
  function Project(scopes: map<string, Metrics>, metric: string): map<string, Counts> {
    map s | s in scopes :: if metric in scopes[s] then scopes[s][metric] else ZERO
  }

  predicate Present(scopes: map<string, Metrics>, roots: set<string>, metric: string) {
    exists s :: s in roots && s in scopes && metric in scopes[s]
  }

  /** One root's metrics added to the running totals. */
  method AddRoot(totals: map<string, Counts>, seen: set<string>, metrics: Metrics) returns (totals': map<string, Counts>, seen': set<string>)
    ensures totals'.Keys == totals.Keys
    ensures forall m :: m in totals ==> totals'[m] == if m in metrics then Add(totals[m], metrics[m]) else totals[m]
    ensures seen' == seen + totals.Keys * metrics.Keys
  {
    totals', seen' := totals, seen;
    var left := metrics.Keys;
    while left != {}
      invariant left <= metrics.Keys && totals'.Keys == totals.Keys
      invariant forall m :: m in totals ==>
        totals'[m] == if m in metrics && m !in left then Add(totals[m], metrics[m]) else totals[m]
      invariant seen' == seen + totals.Keys * (metrics.Keys - left)
      decreases left
    {
      var m :| m in left;
      if m in totals' {
        totals' := totals'[m := Add(totals'[m], metrics[m])];
        seen' := seen' + {m};
      }
      left := left - {m};
    }
  }

  /** What the running totals and the metrics seen say once the roots in `done` are added. */
  ghost predicate Accounted(scopes: map<string, Metrics>, wanted: set<string>, done: set<string>, totals: map<string, Counts>, seen: set<string>) {
    && totals.Keys == wanted && seen <= wanted && done <= scopes.Keys
    && (forall m :: m in wanted ==> totals[m] == Sum(Project(scopes, m), done))
    && (forall m :: m in wanted ==> (m in seen <==> Present(scopes, done, m)))
  }

  lemma AccountedOne(scopes: map<string, Metrics>, done: set<string>, s: string, m: string)
    requires done <= scopes.Keys && s in scopes && s !in done
    ensures Sum(Project(scopes, m), done + {s})
            == if m in scopes[s] then Add(Sum(Project(scopes, m), done), scopes[s][m]) else Sum(Project(scopes, m), done)
    ensures Present(scopes, done + {s}, m) <==> Present(scopes, done, m) || m in scopes[s]
  {
    SumAny(Project(scopes, m), done + {s}, s);
    assert done + {s} - {s} == done;
    if m in scopes[s] { assert s in done + {s}; }
    if Present(scopes, done, m) {
      var t :| t in done && t in scopes && m in scopes[t];
      assert t in done + {s};
    }
  }

  lemma AccountedNext(scopes: map<string, Metrics>, wanted: set<string>, done: set<string>, s: string,
                      totals: map<string, Counts>, seen: set<string>, totals': map<string, Counts>, seen': set<string>)
    requires Accounted(scopes, wanted, done, totals, seen) && s in scopes && s !in done
    requires totals'.Keys == totals.Keys
    requires forall m :: m in totals ==> totals'[m] == if m in scopes[s] then Add(totals[m], scopes[s][m]) else totals[m]
    requires seen' == seen + totals.Keys * scopes[s].Keys
    ensures Accounted(scopes, wanted, done + {s}, totals', seen')
  {
    forall m | m in wanted
      ensures totals'[m] == Sum(Project(scopes, m), done + {s})
      ensures m in seen' <==> Present(scopes, done + {s}, m)
    {
      AccountedOne(scopes, done, s, m);
    }
  }

  /** `_metrics_from_urg`: counts per wanted metric, for the metrics some root has. */
  method MetricsFromUrg(scopes: map<string, Metrics>, wanted: set<string>) returns (rows: map<string, Counts>)
    ensures rows.Keys == set m | m in wanted && Present(scopes, Roots(scopes.Keys), m)
    ensures forall m :: m in rows ==> rows[m] == Sum(Project(scopes, m), Roots(scopes.Keys))
  {
    var totals := map m | m in wanted :: ZERO;
    var seen: set<string> := {};
    var left := Roots(scopes.Keys);
    ghost var done: set<string> := {};
    while left != {}
      invariant done + left == Roots(scopes.Keys) && done !! left
      invariant Accounted(scopes, wanted, done, totals, seen)
      decreases left
    {
      var s :| s in left;
      ghost var before, seenBefore := totals, seen;
      totals, seen := AddRoot(totals, seen, scopes[s]);
      AccountedNext(scopes, wanted, done, s, before, seenBefore, totals, seen);
      done, left := done + {s}, left - {s};
    }
    assert done == Roots(scopes.Keys);
    rows := map m | m in totals && m in seen :: totals[m];
  }

  /** `s == filter or s.startswith(filter + ".")`. */
  function Filtered(scopes: map<string, Metrics>, filter: string): (r: map<string, Metrics>)
    ensures r.Keys == Subtree(scopes.Keys, filter)
  {
    map s | s in scopes && Within(s, filter) :: scopes[s]
  }

  function MetricsOf(scopes: map<string, Metrics>): set<string> {
    set s, m | s in scopes && m in scopes[s] :: m
  }

  lemma OnlyRoot(scopes: map<string, Metrics>, m: string, s: string)
    requires s in scopes && Roots(scopes.Keys) == {s}
    ensures Present(scopes, Roots(scopes.Keys), m) <==> m in scopes[s]
    ensures m in scopes[s] ==> Sum(Project(scopes, m), Roots(scopes.Keys)) == scopes[s][m]
  {
    SumAny(Project(scopes, m), {s}, s);
    assert {s} - {s} == {};
  }

  /**
   `metrics.list`: the rows of all scopes, or of those a filter keeps.  In a closed set the latter are
   the metrics of the scope the filter names, whatever lies below it.
   */
  method MetricsList(scopes: map<string, Metrics>, filter: string) returns (rows: map<string, Counts>)
    ensures filter == "" ==> rows.Keys == set m | m in MetricsOf(scopes) && Present(scopes, Roots(scopes.Keys), m)
    ensures filter == "" ==> forall m :: m in rows ==> rows[m] == Sum(Project(scopes, m), Roots(scopes.Keys))
    ensures filter != "" && Closed(scopes.Keys) ==> rows == if filter in scopes then scopes[filter] else map[]
  {
    var kept := if filter == "" then scopes else Filtered(scopes, filter);
    rows := MetricsFromUrg(kept, MetricsOf(kept));
    if filter != "" && Closed(scopes.Keys) {
      FilteredRoots(scopes.Keys, filter);
      if filter in scopes {
        assert kept[filter] == scopes[filter];
        forall m ensures m in rows <==> m in scopes[filter]
                 ensures m in rows ==> rows[m] == scopes[filter][m]
        {
          OnlyRoot(kept, m, filter);
        }
      }
    }
  }

  // ---------- what the rows leave out ----------

  /** The roots that do not have a metric; synthetic scopes have none. */
  function Bare(scopes: map<string, Metrics>, metric: string): set<string> {
    set r | r in Roots(scopes.Keys) && metric !in scopes[r]
  }

  /** The roots that have the metric report true subtree totals of it. */
  ghost predicate Truthful(self: map<string, Counts>, scopes: map<string, Metrics>, metric: string) {
    self.Keys == scopes.Keys && TrueAt(self, Project(scopes, metric), Roots(self.Keys) - Bare(scopes, metric))
  }

  predicate Zeros(totals: map<string, Counts>, names: set<string>) {
    forall n :: n in names ==> n in totals && totals[n] == ZERO
  }

  lemma {:induction false} SumOfZeros(totals: map<string, Counts>, names: set<string>)
    requires Zeros(totals, names)
    ensures Sum(totals, names) == ZERO
  {
    if names != {} {
      var n :| n in names;
      SumAny(totals, names, n);
      SumOfZeros(totals, names - {n});
    }
  }

  lemma CoverSplits(names: set<string>, roots: set<string>, bare: set<string>)
    requires RootsApart(names) && roots <= Roots(names) && bare <= Roots(names) && roots !! bare
    ensures Cover(names, roots) !! Cover(names, bare) && Cover(names, roots) + Cover(names, bare) == Cover(names, roots + bare)
  {
    forall n | n in Cover(names, roots) ensures n !in Cover(names, bare) {
      var r :| r in roots && Within(n, r);
      assert n in Subtree(names, r);
      CoversApart(names, r, bare);
    }
  }

  /** The sum over the roots misses exactly the counts below the roots that do not have the metric. */
  lemma ShortfallIsBelowBareRoots(self: map<string, Counts>, scopes: map<string, Metrics>, metric: string)
    requires Truthful(self, scopes, metric) && RootsApart(self.Keys)
    ensures Sum(self, self.Keys)
            == Add(Sum(Project(scopes, metric), Roots(self.Keys)), Sum(self, Cover(self.Keys, Bare(scopes, metric))))
  {
    var totals, bare := Project(scopes, metric), Bare(scopes, metric);
    var carrying := Roots(self.Keys) - bare;
    assert carrying + bare == Roots(self.Keys);
    SumUnion(totals, carrying, bare);
    SumOfZeros(totals, bare);
    RootsSumTheirCover(self, totals, carrying);
    CoverSplits(self.Keys, carrying, bare);
    RootsCoverAll(self.Keys);
    SumUnion(self, Cover(self.Keys, carrying), Cover(self.Keys, bare));
  }

  predicate Counted(self: map<string, Counts>) {
    forall n :: n in self ==> self[n].covered >= 0 && self[n].coverable >= 0
  }

  lemma ZerosSplit(totals: map<string, Counts>, names: set<string>, n: string)
    requires names <= totals.Keys && n in names
    ensures Zeros(totals, names) <==> totals[n] == ZERO && Zeros(totals, names - {n})
  {
  }

  lemma NoneAddsToNothing(m: int, n: int)
    requires m >= 0 && n >= 0
    ensures m + n == 0 <==> m == 0 && n == 0
  {
  }

  lemma ZeroParts(a: Counts, b: Counts)
    requires a.covered >= 0 && a.coverable >= 0 && b.covered >= 0 && b.coverable >= 0
    ensures Add(a, b) == ZERO <==> a == ZERO && b == ZERO
  {
    NoneAddsToNothing(a.covered, b.covered);
    NoneAddsToNothing(a.coverable, b.coverable);
  }

  lemma {:induction false} SumIsZeroIff(self: map<string, Counts>, names: set<string>)
    requires names <= self.Keys && Counted(self)
    ensures Sum(self, names).covered >= 0 && Sum(self, names).coverable >= 0
    ensures Sum(self, names) == ZERO <==> Zeros(self, names)
  {
    if names != {} {
      var n :| n in names;
      var rest := names - {n};
      SumAny(self, names, n);
      SumIsZeroIff(self, rest);
      ZeroParts(self[n], Sum(self, rest));
      ZerosSplit(self, names, n);
    }
  }

  lemma WholeIffNothingMissed(whole: Counts, part: Counts, missed: Counts)
    requires whole == Add(part, missed)
    ensures part == whole <==> missed == ZERO
  {
  }

  /**
   For the names the parser reports: a metric's row is the sum of every scope's own counts if and only
   if nothing is counted below a root that does not have the metric.
   */
  lemma RowIsWholeIff(self: map<string, Counts>, scopes: map<string, Metrics>, metric: string)
    requires Truthful(self, scopes, metric) && Closed(self.Keys) && Counted(self)
    ensures Sum(Project(scopes, metric), Roots(self.Keys)) == Sum(self, self.Keys)
            <==> Zeros(self, Cover(self.Keys, Bare(scopes, metric)))
  {
    ClosedRootsApart(self.Keys);
    ShortfallIsBelowBareRoots(self, scopes, metric);
    var missed := Cover(self.Keys, Bare(scopes, metric));
    SumIsZeroIff(self, missed);
    WholeIffNothingMissed(Sum(self, self.Keys), Sum(Project(scopes, metric), Roots(self.Keys)), Sum(self, missed));
  }

  /**
   The same under a filter that names a scope: what is reported of a metric is the sum of the own
   counts kept if and only if that scope has the metric or nothing is counted there.
   */
  lemma FilteredRowIsWholeIff(self: map<string, Counts>, scopes: map<string, Metrics>, metric: string, scope: string)
    requires self.Keys == scopes.Keys && Closed(self.Keys) && Counted(self) && scope in scopes
    requires metric in scopes[scope] ==> scopes[scope][metric] == Sum(self, Subtree(self.Keys, scope))
    ensures var kept := Filtered(scopes, scope);
            Sum(Project(kept, metric), Roots(kept.Keys)) == Sum(self, Subtree(self.Keys, scope))
            <==> metric in scopes[scope] || Zeros(self, Subtree(self.Keys, scope))
  {
    var kept := Filtered(scopes, scope);
    FilteredRoots(self.Keys, scope);
    OnlyRoot(kept, metric, scope);
    if metric !in scopes[scope] { SumOfZeros(Project(kept, metric), {scope}); }
    SumIsZeroIff(self, Subtree(self.Keys, scope));
  }

  lemma {:induction false} DotlessIffTop(s: string)
    ensures Dotless(s) <==> Parent(s).None?
  {
    if s != "" {
      DotlessIffTop(s[..|s| - 1]);
      assert s == s[..|s| - 1] + [s[|s| - 1]];
    }
  }

  /**
   When only the instances of the document have metrics, the other prefixes being synthetic, a metric
   of the whole design is reported if and only if an instance without a dot in its name has it.
   */
  lemma ReportedIffAtTop(instances: set<string>, scopes: map<string, Metrics>, metric: string)
    requires scopes.Keys == Closure(instances) && forall s :: s in scopes && s !in instances ==> scopes[s] == map[]
    ensures Present(scopes, Roots(scopes.Keys), metric)
            <==> exists n :: n in instances && Dotless(n) && n in scopes && metric in scopes[n]
  {
    ClosureIsLeast(instances);
    forall s | s in scopes ensures s in Roots(scopes.Keys) <==> Dotless(s) { DotlessIffTop(s); }
  }

  // ---------- a generated scope ----------

  lemma {:induction false} ParentOfJoined(a: string, b: string)
    requires Dotless(b)
    ensures Parent(a + "." + b) == Some(a)
  {
    var s := a + "." + b;
    if b == "" {
      assert s[..|s| - 1] == a;
    } else {
      var n := |b| - 1;
      assert b == b[..n] + [b[n]] && b[n] in b;
      assert s[..|s| - 1] == a + "." + b[..n];
      ParentOfJoined(a, b[..n]);
    }
  }

  /** The three names of a report whose instance `generated.u0`, say, stands in `top`; the middle one is synthetic. */
  function Generated(top: string, mid: string, leaf: string): (string, string, string) {
    (top, top + "." + mid, top + "." + mid + "." + leaf)
  }

  lemma GeneratedNames(top: string, mid: string, leaf: string)
    requires Dotless(top) && Dotless(mid) && Dotless(leaf)
    ensures var (a, b, c) := Generated(top, mid, leaf);
            Closure({a, c}) == {a, b, c} && Closed({a, b, c}) && Within(c, b) && |a| < |b| < |c|
  {
    var (a, b, c) := Generated(top, mid, leaf);
    DotlessIffTop(top);
    ParentOfJoined(a, mid);
    ParentOfJoined(b, leaf);
    ClosureIsLeast({a, c});
    assert Closed({a, b, c});
  }

  function GeneratedScopes(a: string, b: string, c: string, top: Counts, unit: Counts): map<string, Metrics> {
    map[a := map["line" := top], b := map[], c := map["line" := unit]]
  }

  /** Filtered by the synthetic scope such a report gives no row, although the instance below it has counts. */
  lemma SyntheticScopeHidesCounts(top: string, mid: string, leaf: string, whole: Counts, unit: Counts)
    requires Dotless(top) && Dotless(mid) && Dotless(leaf)
    ensures var (a, b, c) := Generated(top, mid, leaf);
            var scopes := GeneratedScopes(a, b, c, whole, unit);
            && scopes.Keys == Closure({a, c}) && scopes[b] == map[] && scopes[c] == map["line" := unit]
            && c in Filtered(scopes, b) && !Present(Filtered(scopes, b), Roots(Filtered(scopes, b).Keys), "line")
  {
    var (a, b, c) := Generated(top, mid, leaf);
    var scopes := GeneratedScopes(a, b, c, whole, unit);
    GeneratedNames(top, mid, leaf);
    assert scopes.Keys == {a, b, c};
    FilteredRoots(scopes.Keys, b);
    OnlyRoot(Filtered(scopes, b), "line", b);
  }

  lemma GeneratedWords()
    ensures Generated("top", "generated", "u0") == ("top", "top.generated", "top.generated.u0")
    ensures Dotless("top") && Dotless("generated") && Dotless("u0")
  {
    assert "top" + "." + "generated" == "top.generated" && "top.generated" + "." + "u0" == "top.generated.u0";
  }

  /** For instance the scope `top.generated` above the instance `top.generated.u0`. */
  lemma GeneratedUnitIsHidden()
    ensures Generated("top", "generated", "u0") == ("top", "top.generated", "top.generated.u0")
    ensures var scopes := GeneratedScopes("top", "top.generated", "top.generated.u0", Counts(8, 10), Counts(1, 2));
            && scopes.Keys == Closure({"top", "top.generated.u0"})
            && !Present(Filtered(scopes, "top.generated"), Roots(Filtered(scopes, "top.generated").Keys), "line")
  {
    GeneratedWords();
    SyntheticScopeHidesCounts("top", "generated", "u0", Counts(8, 10), Counts(1, 2));
  }
}
