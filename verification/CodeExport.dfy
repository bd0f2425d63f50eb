/**
 Line-coverage export: uncovered statements are handed out, in report order, to the constructs whose
 line interval they fall in, each construct taking as many as the summary says it misses.
 */
module CodeExport {
  import opened Wrappers
  import opened KeySort

  /** One construct row of the summary table. */
  datatype Context = Context(kind: string, line: int, coverable: int, covered: int)

  /** An emitted construct with the positions of its gaps in the report. */
  datatype Group = Group(context: Context, uncovered: seq<nat>)

  datatype Error = Unmapped | CountMismatch

  function Missing(c: Context): int {
    c.coverable - c.covered
  }

  /** How many gaps a construct can take. */
  function Capacity(c: Context): nat {
    if Missing(c) > 0 then Missing(c) else 0
  }

  predicate Sorted(cs: seq<Context>) {
    forall i, j :: 0 <= i < j < |cs| ==> cs[i].line <= cs[j].line
  }

  // ---------- stable sort by line ----------

  function ByLine(): Context -> Key {
    (c: Context) => [Number(c.line)]
  }

  /** `contexts.sort(key=line)`. */
  function SortByLine(cs: seq<Context>): seq<Context> {
    Sort(cs, ByLine())
  }

  /** The rows of one line, in order. */
  function AtLine(cs: seq<Context>, line: int): seq<Context> {
    AtKey(cs, ByLine(), [Number(line)])
  }

  lemma NumberOrder(m: int, n: int)
    requires KeyLe([Number(m)], [Number(n)])
    ensures m <= n
  {
    if m != n { assert PartLess([Number(m)][0], [Number(n)][0]); }
  }

  /** Sorting orders by line, keeps every row and keeps the order of the rows of each line. */
  lemma SortByLineIsStable(cs: seq<Context>, line: int)
    ensures Sorted(SortByLine(cs)) && multiset(SortByLine(cs)) == multiset(cs)
    ensures AtLine(SortByLine(cs), line) == AtLine(cs, line)
  {
    SortOrders(cs, ByLine());
    SortIsStable(cs, ByLine(), [Number(line)]);
    var r := SortByLine(cs);
    forall i, j | 0 <= i < j < |r| ensures r[i].line <= r[j].line {
      assert KeyLe(ByLine()(r[i]), ByLine()(r[j]));
      NumberOrder(r[i].line, r[j].line);
    }
  }

  // ---------- which construct a line belongs to ----------

  /** The first line after position `from` that exceeds `line`. */
  function NextLine(cs: seq<Context>, from: nat, line: int): Option<int>
    decreases |cs| - from
  {
    if from >= |cs| then None
    else if cs[from].line > line then Some(cs[from].line)
    else NextLine(cs, from + 1, line)
  }

  predicate InRange(cs: seq<Context>, i: nat, line: int)
    requires i < |cs|
  {
    var next := NextLine(cs, i + 1, cs[i].line);
    line >= cs[i].line && (next.None? || line < next.value)
  }

  lemma {:induction false} NextLineIsLeast(cs: seq<Context>, from: nat, line: int)
    requires Sorted(cs)
    ensures var next := NextLine(cs, from, line);
            forall k :: from <= k < |cs| && cs[k].line > line ==> next.Some? && next.value <= cs[k].line
    ensures var next := NextLine(cs, from, line);
            next.Some? ==> exists k :: from <= k < |cs| && cs[k].line == next.value > line
    decreases |cs| - from
  {
    if from < |cs| && cs[from].line <= line { NextLineIsLeast(cs, from + 1, line); }
  }

  /** In a sorted table the range runs up to the next greater line, wherever it is. */
  lemma RangeMeans(cs: seq<Context>, i: nat, line: int)
    requires Sorted(cs) && i < |cs|
    ensures InRange(cs, i, line) <==>
              (cs[i].line <= line && forall k :: 0 <= k < |cs| && cs[k].line > cs[i].line ==> line < cs[k].line)
  {
    NextLineIsLeast(cs, i + 1, cs[i].line);
  }

  /** Ranges of equal lines coincide; ranges of different lines are disjoint. */
  lemma RangesPartition(cs: seq<Context>, i: nat, j: nat, line: int)
    requires Sorted(cs) && i < |cs| && j < |cs| && InRange(cs, i, line)
    ensures InRange(cs, j, line) <==> cs[i].line == cs[j].line
  {
    RangeMeans(cs, i, line);
    RangeMeans(cs, j, line);
  }

  /** A line at or after the first construct is in somebody's range. */
  lemma {:induction false} SomeRange(cs: seq<Context>, n: nat, line: int) returns (i: nat)
    requires Sorted(cs) && 0 < n <= |cs| && cs[0].line <= line
    requires forall k :: n <= k < |cs| ==> line < cs[k].line
    ensures i < |cs| && InRange(cs, i, line)
  {
    if cs[n - 1].line <= line {
      i := n - 1;
      RangeMeans(cs, i, line);
    } else {
      i := SomeRange(cs, n - 1, line);
    }
  }

  // ---------- the specification of the assignment ----------

  /** Gaps in the range of construct `i`. */
  function CountIn(cs: seq<Context>, i: nat, gaps: seq<int>): nat
    requires i < |cs|
  {
    if gaps == [] then 0
    else CountIn(cs, i, gaps[..|gaps| - 1]) + if InRange(cs, i, gaps[|gaps| - 1]) then 1 else 0
  }

  /** Summed capacity of the constructs at `line` among the first `k`. */
  function CapacityAt(cs: seq<Context>, line: int, k: nat): nat
    requires k <= |cs|
  {
    if k == 0 then 0
    else CapacityAt(cs, line, k - 1) + if cs[k - 1].line == line then Capacity(cs[k - 1]) else 0
  }

  /** `n` is the summed capacity of some leading constructs of that line. */
  ghost predicate PrefixSum(cs: seq<Context>, line: int, n: nat) {
    exists k :: 0 <= k <= |cs| && CapacityAt(cs, line, k) == n
  }

  /** The report and the summary agree. */
  ghost predicate Consistent(cs: seq<Context>, gaps: seq<int>) {
    cs != [] ==>
      && (forall g :: g in gaps ==> cs[0].line <= g)
      && (forall i :: 0 <= i < |cs| ==> PrefixSum(cs, cs[i].line, CountIn(cs, i, gaps)))
  }

  /** What the greedy rule has given construct `i` after `n` gaps in its range. */
  function Share(cs: seq<Context>, i: nat, n: nat): nat
    requires i < |cs|
  {
    var before := CapacityAt(cs, cs[i].line, i);
    if n <= before then 0 else if n - before <= Capacity(cs[i]) then n - before else Capacity(cs[i])
  }

  /** The positions handed to construct `i`. */
  function Owned(owners: seq<nat>, i: int): seq<nat> {
    if owners == [] then []
    else Owned(owners[..|owners| - 1], i) + if owners[|owners| - 1] == i then [|owners| - 1] else []
  }

  lemma {:induction false} CapacityGrows(cs: seq<Context>, line: int, j: nat, k: nat)
    requires j <= k <= |cs|
    ensures CapacityAt(cs, line, j) <= CapacityAt(cs, line, k)
  {
    if j < k { CapacityGrows(cs, line, j, k - 1); }
  }

  /** After a construct of that line, its own capacity is included. */
  lemma CapacityIncludes(cs: seq<Context>, i: nat, k: nat)
    requires i < k <= |cs|
    ensures CapacityAt(cs, cs[i].line, i) + Capacity(cs[i]) <= CapacityAt(cs, cs[i].line, k)
  {
    CapacityGrows(cs, cs[i].line, i + 1, k);
  }

  /** Construct `i` has exactly its share of the gaps seen, and they were not too many. */
  ghost predicate Fair(cs: seq<Context>, seen: seq<int>, owners: seq<nat>, uncovered: seq<nat>, i: nat)
    requires i < |cs|
  {
    && uncovered == Owned(owners, i)
    && |uncovered| == Share(cs, i, CountIn(cs, i, seen))
    && CountIn(cs, i, seen) <= CapacityAt(cs, cs[i].line, |cs|)
  }

  /** The bookkeeping once the gaps in `seen` are handed out. */
  ghost predicate Assigned(cs: seq<Context>, seen: seq<int>, owners: seq<nat>, uncovered: seq<seq<nat>>) {
    && |uncovered| == |cs| && |owners| == |seen|
    && (forall k :: 0 <= k < |owners| ==> owners[k] < |cs| && InRange(cs, owners[k], seen[k]))
    && (forall i :: 0 <= i < |cs| ==> Fair(cs, seen, owners, uncovered[i], i))
  }

  /** When gap `k` was handed out, everything before its owner that covers it was full. */
  predicate FirstAt(cs: seq<Context>, gaps: seq<int>, owners: seq<nat>, k: nat)
    requires k < |owners| && k < |gaps|
  {
    forall i :: 0 <= i < owners[k] && i < |cs| && InRange(cs, i, gaps[k]) ==> |Owned(owners[..k], i)| >= Missing(cs[i])
  }

  predicate FirstFit(cs: seq<Context>, gaps: seq<int>, owners: seq<nat>) {
    forall k :: 0 <= k < |owners| && k < |gaps| ==> FirstAt(cs, gaps, owners, k)
  }

  /** The first construct in range with room, as the source looks for it. */
  method FindOwner(cs: seq<Context>, uncovered: seq<seq<nat>>, line: int) returns (owner: Option<nat>)
    requires |uncovered| == |cs|
    ensures owner.Some? ==> owner.value < |cs| && InRange(cs, owner.value, line)
                            && |uncovered[owner.value]| < Missing(cs[owner.value])
    ensures var end := if owner.Some? then owner.value else |cs|;
            forall i :: 0 <= i < end && InRange(cs, i, line) ==> |uncovered[i]| >= Missing(cs[i])
  {
    var index := 0;
    while index < |cs|
      invariant index <= |cs|
      invariant forall i :: 0 <= i < index && InRange(cs, i, line) ==> |uncovered[i]| >= Missing(cs[i])
    {
      if InRange(cs, index, line) && |uncovered[index]| < Missing(cs[index]) { return Some(index); }
      index := index + 1;
    }
    owner := None;
  }

  /** If all earlier constructs of its line are full, a construct's predecessors took exactly their sum. */
  lemma {:induction false} FullBefore(cs: seq<Context>, line: int, n: nat, k: nat)
    requires k <= |cs|
    requires forall i :: 0 <= i < k && cs[i].line == line ==> Share(cs, i, n) >= Capacity(cs[i])
    ensures CapacityAt(cs, line, k) <= n || CapacityAt(cs, line, k) == 0
  {
    if k > 0 {
      FullBefore(cs, line, n, k - 1);
      if cs[k - 1].line == line { assert Share(cs, k - 1, n) >= Capacity(cs[k - 1]); }
    }
  }

  /** Handing the next gap in a range to the first construct with room keeps every share right. */
  lemma ShareStep(cs: seq<Context>, owner: nat, i: nat, n: nat)
    requires Sorted(cs) && owner < |cs| && i < |cs| && cs[i].line == cs[owner].line
    requires Share(cs, owner, n) < Capacity(cs[owner])
    requires forall j :: 0 <= j < owner && cs[j].line == cs[owner].line ==> Share(cs, j, n) >= Capacity(cs[j])
    ensures Share(cs, i, n + 1) == Share(cs, i, n) + if i == owner then 1 else 0
    ensures n + 1 <= CapacityAt(cs, cs[i].line, |cs|)
  {
    FullBefore(cs, cs[owner].line, n, owner);
    CapacityIncludes(cs, owner, |cs|);
    if i < owner {
      CapacityIncludes(cs, i, owner);
    } else if owner < i {
      CapacityIncludes(cs, owner, i);
    }
  }

  /** The effect of the next gap on one construct. */
  lemma AssignAt(cs: seq<Context>, seen: seq<int>, owners: seq<nat>, uncovered: seq<seq<nat>>, g: int, owner: nat, i: nat)
    requires Sorted(cs) && Assigned(cs, seen, owners, uncovered) && owner < |cs| && i < |cs|
    requires InRange(cs, owner, g) && |uncovered[owner]| < Missing(cs[owner])
    requires forall j :: 0 <= j < owner && InRange(cs, j, g) ==> |uncovered[j]| >= Missing(cs[j])
    ensures Fair(cs, seen + [g], owners + [owner], if i == owner then uncovered[i] + [|owners|] else uncovered[i], i)
  {
    assert (seen + [g])[..|seen|] == seen && (owners + [owner])[..|owners|] == owners;
    assert Fair(cs, seen, owners, uncovered[i], i) && Fair(cs, seen, owners, uncovered[owner], owner);
    RangesPartition(cs, owner, i, g);
    if cs[i].line == cs[owner].line {
      var n := CountIn(cs, i, seen);
      SameCount(cs, owner, i, seen);
      forall j | 0 <= j < owner && cs[j].line == cs[owner].line ensures Share(cs, j, n) >= Capacity(cs[j]) {
        RangesPartition(cs, owner, j, g);
        SameCount(cs, i, j, seen);
        assert Fair(cs, seen, owners, uncovered[j], j);
      }
      ShareStep(cs, owner, i, n);
    }
  }

  lemma AssignOne(cs: seq<Context>, seen: seq<int>, owners: seq<nat>, uncovered: seq<seq<nat>>, g: int, owner: nat)
    requires Sorted(cs) && Assigned(cs, seen, owners, uncovered) && owner < |cs|
    requires InRange(cs, owner, g) && |uncovered[owner]| < Missing(cs[owner])
    requires forall j :: 0 <= j < owner && InRange(cs, j, g) ==> |uncovered[j]| >= Missing(cs[j])
    ensures Assigned(cs, seen + [g], owners + [owner], uncovered[owner := uncovered[owner] + [|owners|]])
  {
    var uncovered' := uncovered[owner := uncovered[owner] + [|owners|]];
    forall i | 0 <= i < |cs| ensures Fair(cs, seen + [g], owners + [owner], uncovered'[i], i) {
      AssignAt(cs, seen, owners, uncovered, g, owner, i);
    }
  }

  lemma AssignNext(cs: seq<Context>, gaps: seq<int>, k: nat, owners: seq<nat>, uncovered: seq<seq<nat>>, owner: nat)
    requires Sorted(cs) && k < |gaps| && Assigned(cs, gaps[..k], owners, uncovered) && owner < |cs|
    requires InRange(cs, owner, gaps[k]) && |uncovered[owner]| < Missing(cs[owner])
    requires forall j :: 0 <= j < owner && InRange(cs, j, gaps[k]) ==> |uncovered[j]| >= Missing(cs[j])
    ensures Assigned(cs, gaps[..k + 1], owners + [owner], uncovered[owner := uncovered[owner] + [k]])
  {
    AssignOne(cs, gaps[..k], owners, uncovered, gaps[k], owner);
    assert gaps[..k] + [gaps[k]] == gaps[..k + 1];
  }

  lemma FirstFitNext(cs: seq<Context>, gaps: seq<int>, k: nat, owners: seq<nat>, uncovered: seq<seq<nat>>, owner: nat)
    requires k < |gaps| && |owners| == k && Assigned(cs, gaps[..k], owners, uncovered) && FirstFit(cs, gaps, owners)
    requires forall j :: 0 <= j < owner && j < |cs| && InRange(cs, j, gaps[k]) ==> |uncovered[j]| >= Missing(cs[j])
    ensures FirstFit(cs, gaps, owners + [owner])
  {
    var more := owners + [owner];
    assert more[..k] == owners;
    forall i | 0 <= i < owner && i < |cs| && InRange(cs, i, gaps[k]) ensures |Owned(more[..k], i)| >= Missing(cs[i]) {
      assert Fair(cs, gaps[..k], owners, uncovered[i], i);
    }
    forall l | 0 <= l < k ensures FirstAt(cs, gaps, more, l) {
      assert more[..l] == owners[..l] && FirstAt(cs, gaps, owners, l);
    }
  }

  lemma {:induction false} SameCount(cs: seq<Context>, i: nat, j: nat, gaps: seq<int>)
    requires Sorted(cs) && i < |cs| && j < |cs| && cs[i].line == cs[j].line
    ensures CountIn(cs, i, gaps) == CountIn(cs, j, gaps)
  {
    if gaps != [] {
      SameCount(cs, i, j, gaps[..|gaps| - 1]);
      RangeMeans(cs, i, gaps[|gaps| - 1]);
      RangeMeans(cs, j, gaps[|gaps| - 1]);
    }
  }

  lemma {:induction false} CountGrows(cs: seq<Context>, i: nat, gaps: seq<int>, k: nat)
    requires i < |cs| && k <= |gaps|
    ensures CountIn(cs, i, gaps[..k]) <= CountIn(cs, i, gaps)
  {
    if k < |gaps| {
      assert gaps[..|gaps| - 1][..k] == gaps[..k];
      CountGrows(cs, i, gaps[..|gaps| - 1], k);
    } else {
      assert gaps[..k] == gaps;
    }
  }

  /** A gap nobody can take is one too many for its line. */
  lemma StuckExceeds(cs: seq<Context>, seen: seq<int>, owners: seq<nat>, uncovered: seq<seq<nat>>, g: int, i: nat)
    requires Sorted(cs) && Assigned(cs, seen, owners, uncovered) && i < |cs| && InRange(cs, i, g)
    requires forall j :: 0 <= j < |cs| && InRange(cs, j, g) ==> |uncovered[j]| >= Missing(cs[j])
    ensures CountIn(cs, i, seen + [g]) > CapacityAt(cs, cs[i].line, |cs|)
  {
    var line, n := cs[i].line, CountIn(cs, i, seen);
    forall j | 0 <= j < |cs| && cs[j].line == line ensures Share(cs, j, n) >= Capacity(cs[j]) {
      RangesPartition(cs, i, j, g);
      SameCount(cs, i, j, seen);
      assert Fair(cs, seen, owners, uncovered[j], j);
    }
    FullBefore(cs, line, n, |cs|);
    assert (seen + [g])[..|seen|] == seen;
  }

  lemma TooManyIsNoPrefix(cs: seq<Context>, line: int, n: nat)
    requires n > CapacityAt(cs, line, |cs|)
    ensures !PrefixSum(cs, line, n)
  {
    forall m | 0 <= m <= |cs| ensures CapacityAt(cs, line, m) != n {
      CapacityGrows(cs, line, m, |cs|);
    }
  }

  lemma CountSeen(cs: seq<Context>, i: nat, gaps: seq<int>, k: nat)
    requires i < |cs| && k < |gaps|
    ensures CountIn(cs, i, gaps[..k] + [gaps[k]]) <= CountIn(cs, i, gaps)
  {
    assert gaps[..k] + [gaps[k]] == gaps[..k + 1];
    CountGrows(cs, i, gaps, k + 1);
  }

  lemma StuckIsInconsistent(cs: seq<Context>, gaps: seq<int>, k: nat, owners: seq<nat>, uncovered: seq<seq<nat>>)
    requires Sorted(cs) && cs != [] && k < |gaps| && Assigned(cs, gaps[..k], owners, uncovered)
    requires forall i :: 0 <= i < |cs| && InRange(cs, i, gaps[k]) ==> |uncovered[i]| >= Missing(cs[i])
    ensures !Consistent(cs, gaps)
  {
    if cs[0].line <= gaps[k] {
      var i := SomeRange(cs, |cs|, gaps[k]);
      StuckExceeds(cs, gaps[..k], owners, uncovered, gaps[k], i);
      CountSeen(cs, i, gaps, k);
      TooManyIsNoPrefix(cs, cs[i].line, CountIn(cs, i, gaps));
    } else {
      assert gaps[k] in gaps;
    }
  }

  /** The outer loop over all gaps. */
  method AssignGaps(cs: seq<Context>, gaps: seq<int>) returns (r: Option<(seq<nat>, seq<seq<nat>>)>)
    requires Sorted(cs) && cs != []
    ensures r.Some? ==> Assigned(cs, gaps, r.value.0, r.value.1) && FirstFit(cs, gaps, r.value.0)
    ensures r.None? ==> !Consistent(cs, gaps)
  {
    var owners: seq<nat> := [];
    var uncovered: seq<seq<nat>> := seq(|cs|, _ => []);
    assert gaps[..0] == [];
    while |owners| < |gaps|
      invariant |owners| <= |gaps| && Assigned(cs, gaps[..|owners|], owners, uncovered) && FirstFit(cs, gaps, owners)
      decreases |gaps| - |owners|
    {
      var k := |owners|;
      var owner := FindOwner(cs, uncovered, gaps[k]);
      if owner.None? {
        StuckIsInconsistent(cs, gaps, k, owners, uncovered);
        return None;
      }
      AssignNext(cs, gaps, k, owners, uncovered, owner.value);
      FirstFitNext(cs, gaps, k, owners, uncovered, owner.value);
      uncovered := uncovered[owner.value := uncovered[owner.value] + [k]];
      owners := owners + [owner.value];
    }
    assert gaps[..|owners|] == gaps;
    r := Some((owners, uncovered));
  }

  // ---------- emission ----------

  /** Full or untouched. */
  predicate Settled(c: Context, uncovered: seq<nat>) {
    uncovered == [] || |uncovered| == Missing(c)
  }

  function Emitted(cs: seq<Context>, uncovered: seq<seq<nat>>): seq<Group>
    requires |cs| == |uncovered|
  {
    if cs == [] then []
    else
      var n := |cs| - 1;
      Emitted(cs[..n], uncovered[..n]) + if uncovered[n] == [] then [] else [Group(cs[n], uncovered[n])]
  }

  /** A construct that does not settle leaves its line's count between two prefix sums. */
  lemma UnsettledIsNoPrefix(cs: seq<Context>, gaps: seq<int>, owners: seq<nat>, uncovered: seq<seq<nat>>, i: nat)
    requires Assigned(cs, gaps, owners, uncovered) && i < |cs| && !Settled(cs[i], uncovered[i])
    ensures !PrefixSum(cs, cs[i].line, CountIn(cs, i, gaps))
  {
    assert Fair(cs, gaps, owners, uncovered[i], i);
    forall k | 0 <= k <= |cs| ensures CapacityAt(cs, cs[i].line, k) != CountIn(cs, i, gaps) {
      if k <= i { CapacityGrows(cs, cs[i].line, k, i); } else { CapacityIncludes(cs, i, k); }
    }
  }

  /** A settled construct is either beyond the last gap of its line or wholly before it. */
  lemma SettledShare(cs: seq<Context>, i: nat, n: nat, uncovered: seq<nat>)
    requires i < |cs| && |uncovered| == Share(cs, i, n) && Settled(cs[i], uncovered)
    ensures n <= CapacityAt(cs, cs[i].line, i) || n >= CapacityAt(cs, cs[i].line, i + 1)
  {
  }

  /** If all settle, the number of gaps of a line is where the full constructs end. */
  lemma {:induction false} SettledGivesPrefix(cs: seq<Context>, line: int, n: nat, k: nat)
    requires k <= |cs| && n <= CapacityAt(cs, line, k)
    requires forall j :: 0 <= j < |cs| && cs[j].line == line ==> n <= CapacityAt(cs, line, j) || n >= CapacityAt(cs, line, j + 1)
    ensures PrefixSum(cs, line, n)
    decreases k
  {
    if CapacityAt(cs, line, k) != n {
      SettledGivesPrefix(cs, line, n, k - 1);
    }
  }

  /** Everything assigned: all constructs settle exactly when the counts are prefix sums. */
  lemma SettledIffConsistent(cs: seq<Context>, gaps: seq<int>, owners: seq<nat>, uncovered: seq<seq<nat>>)
    requires Sorted(cs) && cs != [] && Assigned(cs, gaps, owners, uncovered)
    ensures (forall i :: 0 <= i < |cs| ==> Settled(cs[i], uncovered[i])) <==> Consistent(cs, gaps)
  {
    forall g | g in gaps ensures cs[0].line <= g {
      var k :| 0 <= k < |gaps| && gaps[k] == g;
      assert InRange(cs, owners[k], gaps[k]);
    }
    if forall i :: 0 <= i < |cs| ==> Settled(cs[i], uncovered[i]) {
      forall i | 0 <= i < |cs| ensures PrefixSum(cs, cs[i].line, CountIn(cs, i, gaps)) {
        var line, n := cs[i].line, CountIn(cs, i, gaps);
        assert Fair(cs, gaps, owners, uncovered[i], i);
        forall j | 0 <= j < |cs| && cs[j].line == line
          ensures n <= CapacityAt(cs, line, j) || n >= CapacityAt(cs, line, j + 1)
        {
          SameCount(cs, i, j, gaps);
          assert Fair(cs, gaps, owners, uncovered[j], j);
          SettledShare(cs, j, n, uncovered[j]);
        }
        SettledGivesPrefix(cs, line, n, |cs|);
      }
    } else {
      var i :| 0 <= i < |cs| && !Settled(cs[i], uncovered[i]);
      UnsettledIsNoPrefix(cs, gaps, owners, uncovered, i);
    }
  }

  // ---------- the whole export ----------

  /** Every gap has exactly one owner, in range; the groups list what each construct owns, exactly full. */
  ghost predicate Explains(cs: seq<Context>, gaps: seq<int>, owners: seq<nat>, uncovered: seq<seq<nat>>, groups: seq<Group>) {
    && |owners| == |gaps| && |uncovered| == |cs|
    && (forall k :: 0 <= k < |gaps| ==> owners[k] < |cs| && InRange(cs, owners[k], gaps[k]))
    && (forall i :: 0 <= i < |cs| ==> uncovered[i] == Owned(owners, i))
    && groups == Emitted(cs, uncovered)
    && (forall g :: g in groups ==> g.uncovered != [] && |g.uncovered| == Missing(g.context))
  }

  /** The positions a construct owns are exactly the gaps assigned to it, in report order. */
  lemma {:induction false} OwnedMeans(owners: seq<nat>, i: nat, k: nat)
    ensures k in Owned(owners, i) <==> k < |owners| && owners[k] == i
    ensures forall a, b :: 0 <= a < b < |Owned(owners, i)| ==> Owned(owners, i)[a] < Owned(owners, i)[b] < |owners|
  {
    if owners != [] {
      var n := |owners| - 1;
      OwnedMeans(owners[..n], i, k);
      forall a | 0 <= a < |Owned(owners[..n], i)| ensures Owned(owners[..n], i)[a] < n {
        OwnedMeans(owners[..n], i, Owned(owners[..n], i)[a]);
      }
    }
  }

  /** The final loop: full constructs become groups, a partly filled one is an error. */
  method EmitGroups(cs: seq<Context>, uncovered: seq<seq<nat>>) returns (r: Option<seq<Group>>)
    requires |cs| == |uncovered|
    ensures r.Some? <==> forall i :: 0 <= i < |cs| ==> Settled(cs[i], uncovered[i])
    ensures r.Some? ==> r.value == Emitted(cs, uncovered)
    ensures r.Some? ==> forall g :: g in r.value ==> g.uncovered != [] && |g.uncovered| == Missing(g.context)
  {
    var groups: seq<Group> := [];
    var n := 0;
    while n < |cs|
      invariant n <= |cs|
      invariant groups == Emitted(cs[..n], uncovered[..n])
      invariant forall i :: 0 <= i < n ==> Settled(cs[i], uncovered[i])
      invariant forall g :: g in groups ==> g.uncovered != [] && |g.uncovered| == Missing(g.context)
    {
      assert cs[..n + 1][..n] == cs[..n] && uncovered[..n + 1][..n] == uncovered[..n];
      if uncovered[n] != [] {
        if |uncovered[n]| != Missing(cs[n]) { return None; }
        groups := groups + [Group(cs[n], uncovered[n])];
      }
      n := n + 1;
    }
    assert cs[..n] == cs && uncovered[..n] == uncovered;
    r := Some(groups);
  }

  // ---------- the groups by themselves ----------

  /** Where in the table the groups come from. */
  predicate Subsequence(cs: seq<Context>, groups: seq<Group>, places: seq<nat>) {
    && |places| == |groups|
    && (forall j :: 0 <= j < |places| ==> places[j] < |cs| && groups[j].context == cs[places[j]])
    && (forall i, j :: 0 <= i < j < |places| ==> places[i] < places[j])
  }

  /** The gap's line is at or after the construct's, with no construct of the table between. */
  predicate Covers(cs: seq<Context>, c: Context, gap: int) {
    c.line <= gap && forall d :: d in cs && d.line > c.line ==> gap < d.line
  }

  /** A group is exactly full, its positions increase, and it covers the gap at each. */
  predicate FullGroup(cs: seq<Context>, gaps: seq<int>, g: Group) {
    && |g.uncovered| == g.context.coverable - g.context.covered > 0
    && (forall a :: 0 <= a < |g.uncovered| ==> g.uncovered[a] < |gaps| && Covers(cs, g.context, gaps[g.uncovered[a]]))
    && (forall a, b :: 0 <= a < b < |g.uncovered| ==> g.uncovered[a] < g.uncovered[b])
  }

  predicate InSomeGroup(groups: seq<Group>, k: nat) {
    exists j :: 0 <= j < |groups| && k in groups[j].uncovered
  }

  /** Every gap stands in exactly one group. */
  predicate EachOnce(gaps: seq<int>, groups: seq<Group>) {
    && (forall k :: 0 <= k < |gaps| ==> InSomeGroup(groups, k))
    && (forall i, j :: 0 <= i < j < |groups| ==> Apart(groups[i].uncovered, groups[j].uncovered))
  }

  predicate Apart(a: seq<nat>, b: seq<nat>) {
    forall k :: k in a ==> k !in b
  }

  predicate AllBefore(a: seq<nat>, b: seq<nat>) {
    forall k, l :: k in a && l in b ==> k < l
  }

  /** Of one line the earlier construct takes the earlier gaps, and none with something missing is passed over. */
  predicate InTurn(cs: seq<Context>, groups: seq<Group>, places: seq<nat>) {
    && (forall i, j :: 0 <= i < j < |groups| && groups[i].context.line == groups[j].context.line ==>
          AllBefore(groups[i].uncovered, groups[j].uncovered))
    && (forall q, j :: 0 <= j < |places| && 0 <= q < places[j] < |cs| && SameLineMissing(cs, q, places[j]) ==> q in places)
  }

  predicate SameLineMissing(cs: seq<Context>, q: nat, p: nat)
    requires q < p < |cs|
  {
    cs[q].line == cs[p].line && cs[q].coverable > cs[q].covered
  }

  /** What the groups say of the table and the report, and nothing else about how they were made. */
  predicate Exported(cs: seq<Context>, gaps: seq<int>, groups: seq<Group>, places: seq<nat>) {
    && Subsequence(cs, groups, places)
    && (forall g :: g in groups ==> FullGroup(cs, gaps, g))
    && EachOnce(gaps, groups)
    && InTurn(cs, groups, places)
  }

  /** The constructs that own something. */
  function Places(uncovered: seq<seq<nat>>): seq<nat> {
    if uncovered == [] then []
    else
      var n := |uncovered| - 1;
      Places(uncovered[..n]) + if uncovered[n] == [] then [] else [n]
  }

  lemma {:induction false} PlacesAre(uncovered: seq<seq<nat>>)
    ensures forall j :: 0 <= j < |Places(uncovered)| ==> Places(uncovered)[j] < |uncovered| && uncovered[Places(uncovered)[j]] != []
    ensures forall i, j :: 0 <= i < j < |Places(uncovered)| ==> Places(uncovered)[i] < Places(uncovered)[j]
    ensures forall i :: 0 <= i < |uncovered| && uncovered[i] != [] ==> i in Places(uncovered)
    decreases |uncovered|
  {
    if uncovered != [] {
      var n := |uncovered| - 1;
      PlacesAre(uncovered[..n]);
      forall i | 0 <= i < |uncovered| && uncovered[i] != [] ensures i in Places(uncovered) {
        if i < n { assert uncovered[..n][i] == uncovered[i]; }
      }
    }
  }

  lemma {:induction false} EmittedAt(cs: seq<Context>, uncovered: seq<seq<nat>>)
    requires |cs| == |uncovered|
    ensures var groups, places := Emitted(cs, uncovered), Places(uncovered);
            && |groups| == |places|
            && forall j :: 0 <= j < |groups| ==> places[j] < |cs| && groups[j] == Group(cs[places[j]], uncovered[places[j]])
    decreases |cs|
  {
    PlacesAre(uncovered);
    if cs != [] {
      var n := |cs| - 1;
      EmittedAt(cs[..n], uncovered[..n]);
    }
  }

  /** Later gaps come after those already owned. */
  lemma {:induction false} OwnedPrefix(owners: seq<nat>, l: nat, i: int)
    requires l <= |owners|
    ensures Owned(owners[..l], i) <= Owned(owners, i)
    decreases |owners|
  {
    if l < |owners| {
      OwnedPrefix(owners[..|owners| - 1], l, i);
      assert owners[..|owners| - 1][..l] == owners[..l];
    } else {
      assert owners[..l] == owners;
    }
  }

  /** If everything that covers the gap before its owner was full then, those own earlier gaps only. */
  lemma EarlierOwnsEarlier(cs: seq<Context>, gaps: seq<int>, owners: seq<nat>, i: nat, k: nat, l: nat)
    requires FirstFit(cs, gaps, owners) && |owners| == |gaps| && l < |owners| && i < owners[l] && i < |cs| && InRange(cs, i, gaps[l])
    requires |Owned(owners, i)| <= Missing(cs[i]) && k in Owned(owners, i)
    ensures k < l
  {
    assert FirstAt(cs, gaps, owners, l);
    OwnedPrefix(owners, l, i);
    assert Owned(owners[..l], i) == Owned(owners, i);
    OwnedMeans(owners[..l], i, k);
  }

  /** The bookkeeping of all gaps with everything settled. */
  ghost predicate Finished(cs: seq<Context>, gaps: seq<int>, owners: seq<nat>, uncovered: seq<seq<nat>>) {
    && Sorted(cs) && Assigned(cs, gaps, owners, uncovered) && FirstFit(cs, gaps, owners)
    && (forall i :: 0 <= i < |cs| ==> Settled(cs[i], uncovered[i]))
  }

  lemma OwnsInRange(cs: seq<Context>, gaps: seq<int>, owners: seq<nat>, uncovered: seq<seq<nat>>, i: nat, k: nat)
    requires Finished(cs, gaps, owners, uncovered) && i < |cs|
    ensures k in uncovered[i] <==> k < |gaps| && owners[k] == i
    ensures k in uncovered[i] ==> Covers(cs, cs[i], gaps[k])
  {
    assert Fair(cs, gaps, owners, uncovered[i], i);
    OwnedMeans(owners, i, k);
    if k in uncovered[i] { RangeMeans(cs, i, gaps[k]); }
  }

  lemma OwnsFullGroup(cs: seq<Context>, gaps: seq<int>, owners: seq<nat>, uncovered: seq<seq<nat>>, i: nat)
    requires Finished(cs, gaps, owners, uncovered) && i < |cs| && uncovered[i] != []
    ensures FullGroup(cs, gaps, Group(cs[i], uncovered[i]))
  {
    assert Fair(cs, gaps, owners, uncovered[i], i) && Settled(cs[i], uncovered[i]);
    OwnedMeans(owners, i, 0);
    forall a | 0 <= a < |uncovered[i]| ensures uncovered[i][a] < |gaps| && Covers(cs, cs[i], gaps[uncovered[i][a]]) {
      OwnsInRange(cs, gaps, owners, uncovered, i, uncovered[i][a]);
    }
  }

  /** A construct that owns nothing comes after all owning constructs of its line, or misses nothing. */
  lemma NonePassedOver(cs: seq<Context>, gaps: seq<int>, owners: seq<nat>, uncovered: seq<seq<nat>>, q: nat, p: nat)
    requires Finished(cs, gaps, owners, uncovered) && q < p < |cs| && cs[q].line == cs[p].line
    requires uncovered[p] != [] && Missing(cs[q]) > 0
    ensures uncovered[q] != []
  {
    assert Fair(cs, gaps, owners, uncovered[q], q) && Fair(cs, gaps, owners, uncovered[p], p);
    SameCount(cs, q, p, gaps);
    CapacityIncludes(cs, q, p);
  }

  lemma TurnsAreKept(cs: seq<Context>, gaps: seq<int>, owners: seq<nat>, uncovered: seq<seq<nat>>, i: nat, j: nat, k: nat, l: nat)
    requires Finished(cs, gaps, owners, uncovered) && i < j < |cs| && cs[i].line == cs[j].line && k in uncovered[i] && l in uncovered[j]
    ensures k < l
  {
    OwnsInRange(cs, gaps, owners, uncovered, j, l);
    RangesPartition(cs, j, i, gaps[l]);
    assert Fair(cs, gaps, owners, uncovered[i], i) && Settled(cs[i], uncovered[i]);
    EarlierOwnsEarlier(cs, gaps, owners, i, k, l);
  }

  lemma GapHasGroup(cs: seq<Context>, gaps: seq<int>, owners: seq<nat>, uncovered: seq<seq<nat>>, groups: seq<Group>, k: nat)
    requires Finished(cs, gaps, owners, uncovered) && groups == Emitted(cs, uncovered) && k < |gaps|
    ensures InSomeGroup(groups, k)
  {
    var places := Places(uncovered);
    EmittedAt(cs, uncovered);
    PlacesAre(uncovered);
    OwnsInRange(cs, gaps, owners, uncovered, owners[k], k);
    var j :| 0 <= j < |places| && places[j] == owners[k];
    assert groups[j] == Group(cs[places[j]], uncovered[places[j]]);
  }

  lemma OwnersApart(cs: seq<Context>, gaps: seq<int>, owners: seq<nat>, uncovered: seq<seq<nat>>, p: nat, q: nat)
    requires Finished(cs, gaps, owners, uncovered) && p < q < |cs|
    ensures Apart(uncovered[p], uncovered[q])
    ensures cs[p].line == cs[q].line ==> AllBefore(uncovered[p], uncovered[q])
  {
    forall k | k in uncovered[p] ensures k !in uncovered[q] {
      OwnsInRange(cs, gaps, owners, uncovered, p, k);
      OwnsInRange(cs, gaps, owners, uncovered, q, k);
    }
    if cs[p].line == cs[q].line {
      forall k, l | k in uncovered[p] && l in uncovered[q] ensures k < l { TurnsAreKept(cs, gaps, owners, uncovered, p, q, k, l); }
    }
  }

  lemma EachGapOnce(cs: seq<Context>, gaps: seq<int>, owners: seq<nat>, uncovered: seq<seq<nat>>, groups: seq<Group>, places: seq<nat>)
    requires Finished(cs, gaps, owners, uncovered) && groups == Emitted(cs, uncovered) && places == Places(uncovered)
    ensures EachOnce(gaps, groups)
  {
    forall k | 0 <= k < |gaps| ensures InSomeGroup(groups, k) { GapHasGroup(cs, gaps, owners, uncovered, groups, k); }
    EmittedAt(cs, uncovered);
    PlacesAre(uncovered);
    forall i, j | 0 <= i < j < |groups| ensures Apart(groups[i].uncovered, groups[j].uncovered) {
      OwnersApart(cs, gaps, owners, uncovered, places[i], places[j]);
    }
  }

  lemma GroupsInTurn(cs: seq<Context>, gaps: seq<int>, owners: seq<nat>, uncovered: seq<seq<nat>>, groups: seq<Group>, places: seq<nat>)
    requires Finished(cs, gaps, owners, uncovered) && groups == Emitted(cs, uncovered) && places == Places(uncovered)
    ensures InTurn(cs, groups, places)
  {
    EmittedAt(cs, uncovered);
    PlacesAre(uncovered);
    forall i, j | 0 <= i < j < |groups| && groups[i].context.line == groups[j].context.line
      ensures AllBefore(groups[i].uncovered, groups[j].uncovered)
    {
      OwnersApart(cs, gaps, owners, uncovered, places[i], places[j]);
    }
    forall q, j | 0 <= j < |places| && 0 <= q < places[j] < |cs| && SameLineMissing(cs, q, places[j]) ensures q in places {
      NonePassedOver(cs, gaps, owners, uncovered, q, places[j]);
    }
  }

  lemma GroupsAreFull(cs: seq<Context>, gaps: seq<int>, owners: seq<nat>, uncovered: seq<seq<nat>>, groups: seq<Group>, places: seq<nat>)
    requires Finished(cs, gaps, owners, uncovered) && groups == Emitted(cs, uncovered) && places == Places(uncovered)
    ensures Subsequence(cs, groups, places) && forall g :: g in groups ==> FullGroup(cs, gaps, g)
  {
    EmittedAt(cs, uncovered);
    PlacesAre(uncovered);
    forall g | g in groups ensures FullGroup(cs, gaps, g) {
      var j :| 0 <= j < |groups| && groups[j] == g;
      OwnsFullGroup(cs, gaps, owners, uncovered, places[j]);
    }
  }

  lemma FinishedIsExported(cs: seq<Context>, gaps: seq<int>, owners: seq<nat>, uncovered: seq<seq<nat>>, groups: seq<Group>)
    requires Finished(cs, gaps, owners, uncovered) && groups == Emitted(cs, uncovered)
    ensures Exported(cs, gaps, groups, Places(uncovered))
  {
    var places := Places(uncovered);
    GroupsAreFull(cs, gaps, owners, uncovered, groups, places);
    EachGapOnce(cs, gaps, owners, uncovered, groups, places);
    GroupsInTurn(cs, gaps, owners, uncovered, groups, places);
  }

  // ---------- no other input has such groups ----------

  /** The positions of the gaps in range of construct `i`. */
  function InRangeAt(cs: seq<Context>, i: nat, gaps: seq<int>): set<nat>
    requires i < |cs|
  {
    set k: nat | k < |gaps| && InRange(cs, i, gaps[k])
  }

  lemma {:induction false} CountIsSize(cs: seq<Context>, i: nat, gaps: seq<int>)
    requires i < |cs|
    ensures |InRangeAt(cs, i, gaps)| == CountIn(cs, i, gaps)
    decreases |gaps|
  {
    if gaps != [] {
      var n := |gaps| - 1;
      CountIsSize(cs, i, gaps[..n]);
      var before := InRangeAt(cs, i, gaps[..n]);
      assert InRangeAt(cs, i, gaps) == before + if InRange(cs, i, gaps[n]) then {n} else {};
    }
  }

  /** The positions in the groups of one line among the first `n`. */
  function Given(groups: seq<Group>, line: int, n: nat): set<nat>
    requires n <= |groups|
  {
    set j, k | 0 <= j < n && groups[j].context.line == line && k in groups[j].uncovered :: k
  }

  function Members(s: seq<nat>): set<nat> {
    set k | k in s
  }

  lemma {:induction false} IncreasingSize(s: seq<nat>)
    requires forall a, b :: 0 <= a < b < |s| ==> s[a] < s[b]
    ensures |Members(s)| == |s|
  {
    if s != [] {
      var n := |s| - 1;
      IncreasingSize(s[..n]);
      assert Members(s) == Members(s[..n]) + {s[n]};
    }
  }

  lemma GivenNext(gaps: seq<int>, groups: seq<Group>, line: int, n: nat)
    requires EachOnce(gaps, groups) && n < |groups|
    ensures Given(groups, line, n + 1) == Given(groups, line, n) + if groups[n].context.line == line then Members(groups[n].uncovered) else {}
    ensures Given(groups, line, n) !! Members(groups[n].uncovered)
  {
    forall k | k in Given(groups, line, n) ensures k !in groups[n].uncovered {
      var j :| 0 <= j < n && groups[j].context.line == line && k in groups[j].uncovered;
      assert Apart(groups[j].uncovered, groups[n].uncovered);
    }
  }

  /** Constructs that miss nothing have no capacity. */
  lemma {:induction false} NothingMissing(cs: seq<Context>, line: int, lo: nat, hi: nat)
    requires lo <= hi <= |cs|
    requires forall q :: lo <= q < hi && cs[q].line == line ==> cs[q].coverable <= cs[q].covered
    ensures CapacityAt(cs, line, hi) == CapacityAt(cs, line, lo)
    decreases hi
  {
    if lo < hi { NothingMissing(cs, line, lo, hi - 1); }
  }

  /** After the first `n` groups, the constructs of the line up to `upto` are exactly provided for. */
  ghost predicate Provided(cs: seq<Context>, groups: seq<Group>, places: seq<nat>, line: int, n: nat, upto: nat)
    requires n <= |groups| && |places| == |groups|
  {
    && upto <= |cs| && |Given(groups, line, n)| == CapacityAt(cs, line, upto)
    && (forall j :: 0 <= j < n && groups[j].context.line == line ==> places[j] < upto)
    && (forall j :: n <= j < |groups| && groups[j].context.line == line ==> upto <= places[j])
  }

  lemma ProvidedSkip(cs: seq<Context>, gaps: seq<int>, groups: seq<Group>, places: seq<nat>, line: int, n: nat, upto: nat)
    requires Exported(cs, gaps, groups, places) && n < |groups| && groups[n].context.line != line
    requires Provided(cs, groups, places, line, n, upto)
    ensures Provided(cs, groups, places, line, n + 1, upto)
  {
    GivenNext(gaps, groups, line, n);
  }

  lemma ProvidedNext(cs: seq<Context>, gaps: seq<int>, groups: seq<Group>, places: seq<nat>, line: int, n: nat, upto: nat)
    requires Exported(cs, gaps, groups, places) && n < |groups| && groups[n].context.line == line
    requires Provided(cs, groups, places, line, n, upto)
    ensures Provided(cs, groups, places, line, n + 1, places[n] + 1)
  {
    UpToPlace(cs, groups, places, line, n, upto);
    assert groups[n] in groups && FullGroup(cs, gaps, groups[n]);
    OneGroupMore(gaps, groups, line, n);
  }

  /** Between what is provided for and the next group nothing is missing. */
  lemma UpToPlace(cs: seq<Context>, groups: seq<Group>, places: seq<nat>, line: int, n: nat, upto: nat)
    requires Subsequence(cs, groups, places) && InTurn(cs, groups, places) && n < |groups| && groups[n].context.line == line
    requires Provided(cs, groups, places, line, n, upto)
    ensures CapacityAt(cs, line, places[n] + 1) == |Given(groups, line, n)| + Capacity(groups[n].context)
  {
    var p := places[n];
    forall q | upto <= q < p && cs[q].line == line ensures cs[q].coverable <= cs[q].covered {
      if cs[q].coverable > cs[q].covered { NotBetween(cs, groups, places, line, n, upto, q); }
    }
    NothingMissing(cs, line, upto, p);
  }

  lemma OneGroupMore(gaps: seq<int>, groups: seq<Group>, line: int, n: nat)
    requires EachOnce(gaps, groups) && n < |groups| && groups[n].context.line == line
    requires forall a, b :: 0 <= a < b < |groups[n].uncovered| ==> groups[n].uncovered[a] < groups[n].uncovered[b]
    ensures |Given(groups, line, n + 1)| == |Given(groups, line, n)| + |groups[n].uncovered|
  {
    GivenNext(gaps, groups, line, n);
    IncreasingSize(groups[n].uncovered);
  }

  lemma NotBetween(cs: seq<Context>, groups: seq<Group>, places: seq<nat>, line: int, n: nat, upto: nat, q: nat)
    requires Subsequence(cs, groups, places) && InTurn(cs, groups, places) && n < |groups| && groups[n].context.line == line
    requires Provided(cs, groups, places, line, n, upto) && q < places[n] && cs[q].line == line && cs[q].coverable > cs[q].covered
    ensures q < upto
  {
    assert SameLineMissing(cs, q, places[n]) && q in places;
    var j :| 0 <= j < |places| && places[j] == q;
    assert j < n && groups[j].context == cs[q];
  }

  lemma {:induction false} AllProvided(cs: seq<Context>, gaps: seq<int>, groups: seq<Group>, places: seq<nat>, line: int, n: nat)
    returns (upto: nat)
    requires Exported(cs, gaps, groups, places) && n <= |groups|
    ensures Provided(cs, groups, places, line, n, upto)
  {
    if n == 0 {
      upto := 0;
      assert Given(groups, line, 0) == {};
    } else {
      upto := AllProvided(cs, gaps, groups, places, line, n - 1);
      if groups[n - 1].context.line == line {
        ProvidedNext(cs, gaps, groups, places, line, n - 1, upto);
        upto := places[n - 1] + 1;
      } else {
        ProvidedSkip(cs, gaps, groups, places, line, n - 1, upto);
      }
    }
  }

  lemma CoversIsRange(cs: seq<Context>, i: nat, g: int)
    requires Sorted(cs) && i < |cs|
    ensures Covers(cs, cs[i], g) <==> InRange(cs, i, g)
  {
    RangeMeans(cs, i, g);
  }

  /** The gaps in range of a construct are those in the groups of its line. */
  lemma GivenIsInRange(cs: seq<Context>, gaps: seq<int>, groups: seq<Group>, places: seq<nat>, i: nat)
    requires Sorted(cs) && Exported(cs, gaps, groups, places) && i < |cs|
    ensures Given(groups, cs[i].line, |groups|) == InRangeAt(cs, i, gaps)
  {
    forall k: nat ensures k in Given(groups, cs[i].line, |groups|) <==> k in InRangeAt(cs, i, gaps) {
      if k in InRangeAt(cs, i, gaps) {
        assert InSomeGroup(groups, k);
        var j :| 0 <= j < |groups| && k in groups[j].uncovered;
        InGroupIsInRange(cs, gaps, groups, places, j, k);
        RangesPartition(cs, places[j], i, gaps[k]);
      }
      if k in Given(groups, cs[i].line, |groups|) {
        var j :| 0 <= j < |groups| && groups[j].context.line == cs[i].line && k in groups[j].uncovered;
        InGroupIsInRange(cs, gaps, groups, places, j, k);
        RangesPartition(cs, places[j], i, gaps[k]);
      }
    }
  }

  lemma InGroupIsInRange(cs: seq<Context>, gaps: seq<int>, groups: seq<Group>, places: seq<nat>, j: nat, k: nat)
    requires Sorted(cs) && Exported(cs, gaps, groups, places) && j < |groups| && k in groups[j].uncovered
    ensures k < |gaps| && places[j] < |cs| && groups[j].context == cs[places[j]] && InRange(cs, places[j], gaps[k])
  {
    assert groups[j] in groups && FullGroup(cs, gaps, groups[j]);
    var a :| 0 <= a < |groups[j].uncovered| && groups[j].uncovered[a] == k;
    CoversIsRange(cs, places[j], gaps[k]);
  }

  /** Wherever there are groups with these properties the report and the summary agree. */
  lemma ExportedIsConsistent(cs: seq<Context>, gaps: seq<int>, groups: seq<Group>, places: seq<nat>)
    requires Sorted(cs) && cs != [] && Exported(cs, gaps, groups, places)
    ensures Consistent(cs, gaps)
  {
    forall g | g in gaps ensures cs[0].line <= g {
      var k :| 0 <= k < |gaps| && gaps[k] == g;
      assert InSomeGroup(groups, k);
      var j :| 0 <= j < |groups| && k in groups[j].uncovered;
      InGroupIsInRange(cs, gaps, groups, places, j, k);
    }
    forall i | 0 <= i < |cs| ensures PrefixSum(cs, cs[i].line, CountIn(cs, i, gaps)) {
      var upto := AllProvided(cs, gaps, groups, places, cs[i].line, |groups|);
      GivenIsInRange(cs, gaps, groups, places, i);
      CountIsSize(cs, i, gaps);
    }
  }

  lemma InconsistentHasNoGroups(cs: seq<Context>, gaps: seq<int>)
    requires Sorted(cs) && cs != [] && !Consistent(cs, gaps)
    ensures forall groups, places :: !Exported(cs, gaps, groups, places)
  {
    forall groups, places ensures !Exported(cs, gaps, groups, places) {
      if Exported(cs, gaps, groups, places) { ExportedIsConsistent(cs, gaps, groups, places); }
    }
  }

  /** `_line_groups`, from the extracted constructs and gap lines. */
  method LineGroups(contexts: seq<Context>, gaps: seq<int>) returns (r: Result<seq<Group>, Error>)
    ensures r.Ok? <==> Consistent(SortByLine(contexts), gaps)
    ensures r.Ok? && contexts == [] ==> r.value == []
    ensures r.Ok? && contexts != [] ==>
              exists owners, uncovered :: Explains(SortByLine(contexts), gaps, owners, uncovered, r.value)
    ensures r.Ok? && contexts != [] ==> exists places :: Exported(SortByLine(contexts), gaps, r.value, places)
    ensures r.Err? ==> forall groups, places :: !Exported(SortByLine(contexts), gaps, groups, places)
  {
    if contexts == [] { return Ok([]); }
    var cs := SortByLine(contexts);
    SortByLineIsStable(contexts, 0);
    assert |multiset(cs)| == |multiset(contexts)|;
    if !Consistent(cs, gaps) { InconsistentHasNoGroups(cs, gaps); }
    var handed := AssignGaps(cs, gaps);
    if handed.None? { return Err(Unmapped); }
    var (owners, uncovered) := handed.value;
    SettledIffConsistent(cs, gaps, owners, uncovered);
    var groups := EmitGroups(cs, uncovered);
    if groups.None? { return Err(CountMismatch); }
    forall i | 0 <= i < |cs| ensures uncovered[i] == Owned(owners, i) {
      assert Fair(cs, gaps, owners, uncovered[i], i);
    }
    assert Explains(cs, gaps, owners, uncovered, groups.value);
    FinishedIsExported(cs, gaps, owners, uncovered, groups.value);
    r := Ok(groups.value);
  }
}
