/**
 Report-time exclusions of one coverage session: the native exclusion set behind the backend, the
 lazily rebuilt URG summary index, and the requests that change exclusions as transactions.

 The native database is an abstract set.  Every setter may be told to fail, leaving the set in any
 state at all; saving, loading and URG runs may fail too.
 */
module Exclusions {
  import opened Wrappers

  datatype BoxKind = Instance | Covergroup | Coverpoint | Cross

  /** A container row of the portable CSV format. */
  datatype Box = Box(kind: BoxKind, scope: string, covergroup: string, item: string, root: string)
  datatype Identity = Identity(kind: BoxKind, scope: string, covergroup: string, item: string)

  /** Where an exclusion would be persisted: a container row, or a leaf row (contents irrelevant here). */
  datatype Row = BoxRow(box: Box) | LeafRow(text: string)

  /** Session record keys: `coverage_ref:<ref>` and `csv:<canonical JSON of the row>`. */
  datatype Key = RefKey(ref: string) | RowKey(row: Row)
  datatype Record = Record(reason: string, row: Option<Row>)

  datatype Target = RefTarget(ref: string) | BoxTarget(id: Identity) | GapTarget(path: seq<nat>)
  type Native = set<Target>

  datatype Error =
    | SchemaInvalid | BaselineFailed | ApplyFailed | RollbackFailed | NotOwned | OwnershipConflict
    | ScopeNotFound | ResolveFailed | LoadFailed | SaveFailed | SummaryFailed

  datatype Status = Changed | AlreadyInState | ImmutableCompileTime | SetterFailed

  /** What the vendor calls made by one request do; `faults[i]` is what the i-th setter leaves behind. */
  datatype Env = Env(baselineFails: bool, faults: map<nat, Native>, rollback: Option<Native>)

  const CURRENT_EL: string := "current.el"

  /** Everything a session and its backend hold. */
  datatype Snapshot = Snapshot(
    excluded: Native,
    index: Option<Native>,
    summaryElPath: Option<string>,
    elPath: Option<string>,
    elDirty: bool,
    records: map<Key, Record>,
    reasonRevision: nat,
    files: map<string, Native>)

  function IdentityOf(b: Box): Identity {
    Identity(b.kind, b.scope, b.covergroup, b.item)
  }

  // ---------- what requests do to a session, as a function ----------

  /** The exclusion set a summary run would apply: that of the EL file in use. */
  function Basis(v: Snapshot): Option<Native> {
    match v.summaryElPath
    case None => Some({})
    case Some(path) => if path in v.files then Some(v.files[path]) else None
  }

  /** Any access to the summary index. */
  function Indexed(v: Snapshot): Snapshot {
    if v.index.Some? then v else v.(index := Basis(v))
  }

  /** `mark_exclusion_dirty`. */
  function Dirtied(v: Snapshot): Snapshot {
    v.(elDirty := true, index := None)
  }

  /** `ensure_el_ready`: the EL file always has the same name. */
  function Ready(v: Snapshot): Snapshot {
    if !v.elDirty then v
    else
      v.(files := v.files[CURRENT_EL := v.excluded], elPath := Some(CURRENT_EL), elDirty := false,
         summaryElPath := Some(CURRENT_EL),
         index := if v.summaryElPath == Some(CURRENT_EL) then v.index else None)
  }

  function Read(v: Snapshot): Snapshot {
    Indexed(Ready(v))
  }

  /** A committed transaction: new set, new records, revision bumped when the records changed. */
  function Committed(v: Snapshot, excluded: Native, records: map<Key, Record>): Snapshot {
    Dirtied(v).(excluded := excluded, records := records,
                reasonRevision := v.reasonRevision + if records != v.records then 1 else 0)
  }

  function RefTargets(refs: seq<string>): Native {
    set r | r in refs :: RefTarget(r)
  }

  function RefRecords(refs: seq<string>, reasons: map<string, string>, rows: map<string, Row>): map<Key, Record> {
    map r | r in refs && r in reasons :: RefKey(r) := Record(reasons[r], if r in rows then Some(rows[r]) else None)
  }

  function RefKeys(refs: seq<string>): set<Key> {
    set r | r in refs :: RefKey(r)
  }

  /** The exclusion set after setting or clearing all of `refs`. */
  function SetRefs(excluded: Native, refs: seq<string>, adding: bool): Native {
    if adding then excluded + RefTargets(refs) else excluded - RefTargets(refs)
  }

  /** The session records after a request for all of `refs`. */
  function StageRefs(records: map<Key, Record>, refs: seq<string>, adding: bool,
                     reasons: map<string, string>, rows: map<string, Row>): map<Key, Record>
  {
    if adding then records + RefRecords(refs, reasons, rows) else records - RefKeys(refs)
  }

  /** One reference staged on top of `records`. */
  function StageRef(records: map<Key, Record>, ref: string, adding: bool,
                    reasons: map<string, string>, rows: map<string, Row>): map<Key, Record>
    requires adding ==> ref in reasons
  {
    if adding then records[RefKey(ref) := Record(reasons[ref], if ref in rows then Some(rows[ref]) else None)]
    else records - {RefKey(ref)}
  }

  lemma StageOneRef(records: map<Key, Record>, refs: seq<string>, i: nat, adding: bool,
                    reasons: map<string, string>, rows: map<string, Row>)
    requires i < |refs| && (adding ==> refs[i] in reasons)
    ensures StageRefs(records, refs[..i + 1], adding, reasons, rows)
         == StageRef(StageRefs(records, refs[..i], adding, reasons, rows), refs[i], adding, reasons, rows)
  {
    if adding {
      OneRefMore(refs, i, reasons, rows);
      PutOneMore(records, RefRecords(refs[..i], reasons, rows), RefKey(refs[i]),
                 Record(reasons[refs[i]], if refs[i] in rows then Some(rows[refs[i]]) else None));
    } else {
      OneKeyMore(refs, i);
      DropOneMore(records, RefKeys(refs[..i]), RefKey(refs[i]));
    }
  }

  lemma PutOneMore(records: map<Key, Record>, staged: map<Key, Record>, k: Key, r: Record)
    ensures records + staged[k := r] == (records + staged)[k := r]
  {
  }

  lemma DropOneMore(records: map<Key, Record>, keys: set<Key>, k: Key)
    ensures records - (keys + {k}) == (records - keys) - {k}
  {
  }

  lemma OneRefMore(refs: seq<string>, i: nat, reasons: map<string, string>, rows: map<string, Row>)
    requires i < |refs| && refs[i] in reasons
    ensures RefRecords(refs[..i + 1], reasons, rows)
         == RefRecords(refs[..i], reasons, rows)
              [RefKey(refs[i]) := Record(reasons[refs[i]], if refs[i] in rows then Some(rows[refs[i]]) else None)]
  {
    assert refs[..i + 1] == refs[..i] + [refs[i]];
  }

  lemma OneKeyMore(refs: seq<string>, i: nat)
    requires i < |refs|
    ensures RefKeys(refs[..i + 1]) == RefKeys(refs[..i]) + {RefKey(refs[i])}
  {
    assert refs[..i + 1] == refs[..i] + [refs[i]];
  }

  lemma SetOneRef(excluded: Native, refs: seq<string>, i: nat, adding: bool)
    requires i < |refs|
    ensures var before := SetRefs(excluded, refs[..i], adding);
            SetRefs(excluded, refs[..i + 1], adding)
            == if adding then before + {RefTarget(refs[i])} else before - {RefTarget(refs[i])}
  {
    assert refs[..i + 1] == refs[..i] + [refs[i]];
    assert RefTargets(refs[..i + 1]) == RefTargets(refs[..i]) + {RefTarget(refs[i])};
  }

  /** One exact container target of an add request, and who asks for it. */
  datatype Claim = Claim(box: Box, reason: string)

  function ClaimTargets(claims: set<Claim>): Native {
    set c | c in claims :: BoxTarget(IdentityOf(c.box))
  }

  /** No exact target is asked for under two reasons or two roots. */
  predicate Coherent(claims: set<Claim>) {
    forall c, d :: c in claims && d in claims && IdentityOf(c.box) == IdentityOf(d.box) ==> c == d
  }

  predicate IsBox(r: Record) {
    r.row.Some? && r.row.value.BoxRow?
  }

  function ClaimKeys(claims: set<Claim>): set<Key> {
    set c | c in claims :: RowKey(BoxRow(c.box))
  }

  ghost function ReasonFor(claims: set<Claim>, key: Key): string
    requires key in ClaimKeys(claims)
  {
    var c :| c in claims && key == RowKey(BoxRow(c.box));
    c.reason
  }

  /** The records of an add request: one per claim, under the key of its row. */
  ghost function ClaimRecords(claims: set<Claim>): map<Key, Record> {
    map k | k in ClaimKeys(claims) :: Record(ReasonFor(claims, k), Some(k.row))
  }

  function SetBoxes(excluded: Native, claims: set<Claim>, adding: bool): Native {
    if adding then excluded + ClaimTargets(claims) else excluded - ClaimTargets(claims)
  }

  ghost function StageBoxes(records: map<Key, Record>, claims: set<Claim>, adding: bool): map<Key, Record> {
    if adding then records + ClaimRecords(claims) else records - ClaimKeys(claims)
  }

  /** One claim staged on top of `records`. */
  function StageBox(records: map<Key, Record>, c: Claim, adding: bool): map<Key, Record> {
    var key := RowKey(BoxRow(c.box));
    if adding then records[key := Record(c.reason, Some(BoxRow(c.box)))] else records - {key}
  }

  lemma SetOneBox(excluded: Native, claims: set<Claim>, c: Claim, adding: bool)
    ensures var before := SetBoxes(excluded, claims, adding);
            var t := BoxTarget(IdentityOf(c.box));
            SetBoxes(excluded, claims + {c}, adding) == if adding then before + {t} else before - {t}
  {
    assert ClaimTargets(claims + {c}) == ClaimTargets(claims) + {BoxTarget(IdentityOf(c.box))};
  }

  lemma ClaimRecordAt(claims: set<Claim>, c: Claim)
    requires Coherent(claims) && c in claims
    ensures RowKey(BoxRow(c.box)) in ClaimRecords(claims)
    ensures ClaimRecords(claims)[RowKey(BoxRow(c.box))] == Record(c.reason, Some(BoxRow(c.box)))
  {
    var key := RowKey(BoxRow(c.box));
    var d :| d in claims && key == RowKey(BoxRow(d.box)) && ReasonFor(claims, key) == d.reason;
  }

  lemma ClaimRecordStays(claims: set<Claim>, c: Claim, k: Key)
    requires Coherent(claims + {c}) && Coherent(claims) && k in ClaimKeys(claims)
    ensures k in ClaimRecords(claims + {c}) && ClaimRecords(claims + {c})[k] == ClaimRecords(claims)[k]
  {
    var d :| d in claims && k == RowKey(BoxRow(d.box));
    ClaimRecordAt(claims, d);
    ClaimRecordAt(claims + {c}, d);
  }

  lemma ClaimOneRecord(claims: set<Claim>, c: Claim)
    requires Coherent(claims + {c}) && Coherent(claims)
    ensures ClaimRecords(claims + {c}) == ClaimRecords(claims)[RowKey(BoxRow(c.box)) := Record(c.reason, Some(BoxRow(c.box)))]
  {
    assert ClaimKeys(claims + {c}) == ClaimKeys(claims) + {RowKey(BoxRow(c.box))};
    ClaimRecordAt(claims + {c}, c);
    forall k | k in ClaimKeys(claims) ensures ClaimRecords(claims)[k] == ClaimRecords(claims + {c})[k] {
      ClaimRecordStays(claims, c, k);
    }
  }

  lemma StageOneBox(records: map<Key, Record>, claims: set<Claim>, c: Claim, adding: bool)
    requires Coherent(claims + {c}) && Coherent(claims)
    ensures StageBoxes(records, claims + {c}, adding) == StageBox(StageBoxes(records, claims, adding), c, adding)
  {
    assert ClaimKeys(claims + {c}) == ClaimKeys(claims) + {RowKey(BoxRow(c.box))};
    ClaimOneRecord(claims, c);
  }

  /** One turn of the setter loop over `claims`, of which `applied` are done. */
  lemma NextBox(records: map<Key, Record>, excluded: Native, claims: set<Claim>, applied: set<Claim>, c: Claim, adding: bool)
    requires Coherent(claims) && applied <= claims && c in claims && c !in applied
    ensures StageBoxes(records, applied + {c}, adding) == StageBox(StageBoxes(records, applied, adding), c, adding)
    ensures var before := SetBoxes(excluded, applied, adding);
            var t := BoxTarget(IdentityOf(c.box));
            SetBoxes(excluded, applied + {c}, adding) == if adding then before + {t} else before - {t}
    ensures applied + {c} <= claims && |applied + {c}| == |applied| + 1 <= |claims|
  {
    StageOneBox(records, applied, c, adding);
    SetOneBox(excluded, applied, c, adding);
    SubsetSize(applied + {c}, claims);
  }

  /** One requested container; `expansion` is what the XML hierarchy made of an instance root. */
  datatype Item = Item(kind: BoxKind, scope: string, covergroup: string, item: string, reason: string,
                       expansion: Option<seq<string>>)

  /** The exact rows of one item of an add request, in order. */
  function ItemRows(item: Item, instances: bool): seq<Claim> {
    if !instances then [Claim(Box(item.kind, item.scope, item.covergroup, item.item, ""), item.reason)]
    else if item.expansion.None? then []
    else seq(|item.expansion.value|, i requires 0 <= i < |item.expansion.value| =>
           Claim(Box(Instance, item.expansion.value[i], "", "", item.scope), item.reason))
  }

  function Rows(items: seq<Item>, instances: bool): seq<Claim> {
    if items == [] then [] else Rows(items[..|items| - 1], instances) + ItemRows(items[|items| - 1], instances)
  }

  function ClaimSet(rows: seq<Claim>): set<Claim> {
    set c | c in rows
  }

  function ItemIdentities(items: seq<Item>): set<Identity> {
    set i | i in items :: Identity(i.kind, i.scope, i.covergroup, i.item)
  }

  function ItemRoots(items: seq<Item>): set<string> {
    set i | i in items :: i.scope
  }

  /** The records a remove request is about. */
  function Requested(v: Snapshot, items: seq<Item>, instances: bool): set<Key> {
    if instances then OwnedBy(v, ItemRoots(items)) else OwnedAs(v, ItemIdentities(items))
  }

  /** What those records claim. */
  function RecordedClaims(v: Snapshot, keys: set<Key>): set<Claim> {
    set k | k in keys && k in v.records && IsBox(v.records[k]) :: Claim(v.records[k].row.value.box, v.records[k].reason)
  }

  /** Container records sit under the key of their own row. */
  predicate KeyedByRow(records: map<Key, Record>) {
    forall k :: k in records && IsBox(records[k]) ==> k == RowKey(records[k].row.value)
  }

  /** Every recorded container with the identity of a claim is that claim. */
  predicate Unclaimed(v: Snapshot, claims: set<Claim>) {
    forall c, k :: c in claims && k in v.records && IsBox(v.records[k])
      && IdentityOf(v.records[k].row.value.box) == IdentityOf(c.box)
      ==> v.records[k] == Record(c.reason, Some(BoxRow(c.box)))
  }

  /** Keys of the instance records held by the given expansion roots. */
  function OwnedBy(v: Snapshot, roots: set<string>): set<Key> {
    set k | k in v.records && IsBox(v.records[k]) && v.records[k].row.value.box.kind.Instance?
            && v.records[k].row.value.box.root in roots
  }

  /** Keys of the recorded containers with one of the given identities. */
  function OwnedAs(v: Snapshot, ids: set<Identity>): set<Key> {
    set k | k in v.records && IsBox(v.records[k]) && IdentityOf(v.records[k].row.value.box) in ids
  }

  function BoxTargets(v: Snapshot, keys: set<Key>): Native {
    set k | k in keys && k in v.records && IsBox(v.records[k]) :: BoxTarget(IdentityOf(v.records[k].row.value.box))
  }

  /** What a container request is about. */
  function ClaimsOf(v: Snapshot, items: seq<Item>, adding: bool, instances: bool): set<Claim> {
    if adding then ClaimSet(Rows(items, instances)) else RecordedClaims(v, Requested(v, items, instances))
  }

  /** When a container request gets as far as resolving its targets. */
  predicate Resolvable(v: Snapshot, items: seq<Item>, adding: bool, instances: bool) {
    var claims := ClaimsOf(v, items, adding, instances);
    && claims != {} && Coherent(claims)
    && (adding ==> (forall i :: i in items ==> i.reason != "" && (instances ==> i.expansion.Some?)) && Unclaimed(v, claims))
  }

  /** The summary index is there, or can be loaded. */
  predicate Indexable(v: Snapshot, urgFails: bool) {
    v.index.Some? || (!urgFails && Basis(v).Some?)
  }

  /** A gap that is excluded through its native targets and recorded under its CSV rows. */
  datatype Gap = Gap(fsm: bool, targets: seq<Target>, rows: seq<Row>, reason: string)

  function GapRecords(gap: Gap): map<Key, Record> {
    map row | row in gap.rows :: RowKey(row) := Record(gap.reason, Some(row))
  }

  function SeqSet<T>(s: seq<T>): set<T> {
    set x | x in s
  }

  /** The targets of the gaps flagged as excluded. */
  function GapTargets(gaps: seq<Gap>): Native {
    if gaps == [] then {} else GapTargets(gaps[..|gaps| - 1]) + SeqSet(gaps[|gaps| - 1].targets)
  }

  /** The records after the gaps flagged in `done`, later rows replacing earlier ones. */
  function StageGaps(records: map<Key, Record>, gaps: seq<Gap>, done: seq<bool>): map<Key, Record>
    requires |gaps| == |done|
  {
    if gaps == [] then records
    else
      var n := |gaps| - 1;
      var before := StageGaps(records, gaps[..n], done[..n]);
      if done[n] then before + GapRecords(gaps[n]) else before
  }

  /** Setting targets one after the other up to the first setter that fails: success, set, calls made. */
  function SetAll(excluded: Native, targets: seq<Target>, env: Env, calls: nat): (bool, Native, nat)
    decreases |targets|
  {
    if targets == [] then (true, excluded, calls)
    else if calls in env.faults then (false, env.faults[calls], calls + 1)
    else SetAll(excluded + {targets[0]}, targets[1..], env, calls + 1)
  }

  /** The gaps in execution order: which succeeded, or None after a failure outside FSM, and the set. */
  function GapsRun(excluded: Native, gaps: seq<Gap>, env: Env, calls: nat): (Option<seq<bool>>, Native)
    decreases |gaps|
  {
    if gaps == [] then (Some([]), excluded)
    else
      var (ok, now, calls') := SetAll(excluded, gaps[0].targets, env, calls);
      var success := ok && gaps[0].targets != [];
      if !success && !gaps[0].fsm then (None, now)
      else
        var rest := GapsRun(now, gaps[1..], env, calls');
        (if rest.0.None? then None else Some([success] + rest.0.value), rest.1)
  }

  /** Without failing setters every target is set. */
  lemma {:induction false} SetAllClean(excluded: Native, targets: seq<Target>, env: Env, calls: nat)
    requires env.faults == map[]
    ensures SetAll(excluded, targets, env, calls) == (true, excluded + SeqSet(targets), calls + |targets|)
    decreases |targets|
  {
    if targets != [] {
      SetAllClean(excluded + {targets[0]}, targets[1..], env, calls + 1);
      assert targets == [targets[0]] + targets[1..];
      assert excluded + {targets[0]} + SeqSet(targets[1..]) == excluded + SeqSet(targets);
    } else {
      assert excluded + SeqSet(targets) == excluded;
    }
  }

  lemma {:induction false} GapTargetsFirst(gaps: seq<Gap>)
    requires gaps != []
    ensures GapTargets(gaps) == SeqSet(gaps[0].targets) + GapTargets(gaps[1..])
  {
    var n := |gaps| - 1;
    if n > 0 {
      GapTargetsFirst(gaps[..n]);
      assert gaps[..n][1..] == gaps[1..][..n - 1];
    } else {
      assert gaps[..0] == [] && gaps[1..] == [];
    }
  }

  /** Without failing setters, gaps that all have targets all succeed and all their targets are set. */
  lemma {:induction false} GapsRunClean(excluded: Native, gaps: seq<Gap>, env: Env, calls: nat)
    requires env.faults == map[] && forall g :: g in gaps ==> g.targets != []
    ensures var r := GapsRun(excluded, gaps, env, calls);
            r.0.Some? && (forall i :: 0 <= i < |r.0.value| ==> r.0.value[i]) && r.1 == excluded + GapTargets(gaps)
    decreases |gaps|
  {
    if gaps == [] {
      assert excluded + GapTargets(gaps) == excluded;
    } else {
      assert gaps[0] in gaps;
      SetAllClean(excluded, gaps[0].targets, env, calls);
      GapsRunClean(excluded + SeqSet(gaps[0].targets), gaps[1..], env, calls + |gaps[0].targets|);
      GapTargetsFirst(gaps);
    }
  }

  datatype Entry = Entry(key: Key, record: Record)

  /** `record_exclusion` for each entry: every entry that changes something bumps the revision. */
  function RecordAll(records: map<Key, Record>, revision: nat, entries: seq<Entry>): (map<Key, Record>, nat) {
    if entries == [] then (records, revision)
    else
      var n := |entries| - 1;
      var (before, count) := RecordAll(records, revision, entries[..n]);
      var e := entries[n];
      (before[e.key := e.record], if e.key in before && before[e.key] == e.record then count else count + 1)
  }

  function Union(parts: seq<Native>): Native {
    if parts == [] then {} else Union(parts[..|parts| - 1]) + parts[|parts| - 1]
  }

  // ---------- container requests, row by row ----------

  /** What one item of an add request asks for: its whole expansion under its own scope, or just itself. */
  predicate Asks(item: Item, instances: bool, c: Claim) {
    && c.reason == item.reason
    && if instances
       then item.expansion.Some? && c.box.kind == Instance && c.box.scope in item.expansion.value
            && c.box.covergroup == "" && c.box.item == "" && c.box.root == item.scope
       else c.box == Box(item.kind, item.scope, item.covergroup, item.item, "")
  }

  predicate Asked(items: seq<Item>, instances: bool, c: Claim) {
    exists i :: i in items && Asks(i, instances, c)
  }

  /** What one item of a remove request is about: the rows with its scope as expansion root, or those that name it. */
  predicate Names(item: Item, instances: bool, r: Record) {
    && r.row.Some? && r.row.value.BoxRow?
    && var box := r.row.value.box;
       if instances then box.kind == Instance && box.root == item.scope
       else box.kind == item.kind && box.scope == item.scope && box.covergroup == item.covergroup && box.item == item.item
  }

  predicate Named(items: seq<Item>, instances: bool, r: Record) {
    exists i :: i in items && Names(i, instances, r)
  }

  predicate TargetOf(box: Box, t: Target) {
    t == BoxTarget(Identity(box.kind, box.scope, box.covergroup, box.item))
  }

  predicate Targets(r: Record, t: Target) {
    r.row.Some? && r.row.value.BoxRow? && TargetOf(r.row.value.box, t)
  }

  /** All that is asked for is excluded and recorded under its own row, and nothing else has changed. */
  ghost predicate Added(v: Snapshot, w: Snapshot, items: seq<Item>, instances: bool) {
    && (forall t :: t in w.excluded <==> t in v.excluded || exists c :: Asked(items, instances, c) && TargetOf(c.box, t))
    && (forall c :: Asked(items, instances, c) ==>
          RowKey(BoxRow(c.box)) in w.records && w.records[RowKey(BoxRow(c.box))] == Record(c.reason, Some(BoxRow(c.box))))
    && (forall k :: k in w.records ==>
          (k in v.records && w.records[k] == v.records[k]) || exists c :: Asked(items, instances, c) && k == RowKey(BoxRow(c.box)))
    && (forall k :: k in v.records ==> k in w.records)
  }

  /** The records named and their targets are gone, and nothing else has changed. */
  ghost predicate Removed(v: Snapshot, w: Snapshot, items: seq<Item>, instances: bool) {
    && (forall k :: k in w.records <==> k in v.records && !Named(items, instances, v.records[k]))
    && (forall k :: k in w.records ==> w.records[k] == v.records[k])
    && (forall t :: t in w.excluded <==>
          t in v.excluded && !exists k :: k in v.records && Named(items, instances, v.records[k]) && TargetOf(v.records[k].row.value.box, t))
  }

  lemma ItemRowsAre(item: Item, instances: bool, c: Claim)
    ensures c in ItemRows(item, instances) <==> Asks(item, instances, c)
  {
    if instances && item.expansion.Some? && c.box.scope in item.expansion.value {
      var i :| 0 <= i < |item.expansion.value| && item.expansion.value[i] == c.box.scope;
      assert ItemRows(item, instances)[i] == Claim(Box(Instance, c.box.scope, "", "", item.scope), item.reason);
    }
  }

  lemma {:induction false} RowsAreAsked(items: seq<Item>, instances: bool, c: Claim)
    ensures c in Rows(items, instances) <==> Asked(items, instances, c)
    decreases |items|
  {
    if items != [] {
      var n := |items| - 1;
      RowsAreAsked(items[..n], instances, c);
      ItemRowsAre(items[n], instances, c);
      assert items == items[..n] + [items[n]];
    }
  }

  lemma ClaimsAreAsked(items: seq<Item>, instances: bool)
    ensures forall c :: c in ClaimSet(Rows(items, instances)) <==> Asked(items, instances, c)
  {
    forall c ensures c in ClaimSet(Rows(items, instances)) <==> Asked(items, instances, c) { RowsAreAsked(items, instances, c); }
  }

  lemma RequestedAreNamed(v: Snapshot, items: seq<Item>, instances: bool, k: Key)
    ensures k in Requested(v, items, instances) <==> k in v.records && Named(items, instances, v.records[k])
  {
    if k in v.records && IsBox(v.records[k]) {
      var box := v.records[k].row.value.box;
      if instances {
        assert box.root in ItemRoots(items) <==> exists i :: i in items && i.scope == box.root;
      } else {
        assert IdentityOf(box) in ItemIdentities(items) <==>
               exists i :: i in items && Identity(i.kind, i.scope, i.covergroup, i.item) == IdentityOf(box);
      }
    }
  }

  lemma AddMeans(v: Snapshot, w: Snapshot, items: seq<Item>, instances: bool, claims: set<Claim>)
    requires claims == ClaimSet(Rows(items, instances)) && Coherent(claims)
    requires w.excluded == SetBoxes(v.excluded, claims, true) && w.records == StageBoxes(v.records, claims, true)
    ensures Added(v, w, items, instances)
  {
    ClaimsAreAsked(items, instances);
    forall c | Asked(items, instances, c)
      ensures RowKey(BoxRow(c.box)) in w.records && w.records[RowKey(BoxRow(c.box))] == Record(c.reason, Some(BoxRow(c.box)))
    {
      ClaimRecordAt(claims, c);
    }
    forall k | k in w.records && k in ClaimKeys(claims) ensures exists c :: Asked(items, instances, c) && k == RowKey(BoxRow(c.box)) {
      var c :| c in claims && k == RowKey(BoxRow(c.box));
    }
    forall t ensures t in ClaimTargets(claims) <==> exists c :: Asked(items, instances, c) && TargetOf(c.box, t) { }
  }

  lemma RemoveMeans(v: Snapshot, w: Snapshot, items: seq<Item>, instances: bool, claims: set<Claim>)
    requires claims == RecordedClaims(v, Requested(v, items, instances)) && Coherent(claims) && KeyedByRow(v.records)
    requires w.excluded == SetBoxes(v.excluded, claims, false) && w.records == StageBoxes(v.records, claims, false)
    ensures Removed(v, w, items, instances)
  {
    forall k ensures k in Requested(v, items, instances) <==> k in v.records && Named(items, instances, v.records[k]) {
      RequestedAreNamed(v, items, instances, k);
    }
    NamedAreClaimed(v, items, instances, claims);
  }

  lemma ContainerMeans(v: Snapshot, w: Snapshot, items: seq<Item>, adding: bool, instances: bool, claims: set<Claim>)
    requires claims == ClaimsOf(v, items, adding, instances) && Coherent(claims)
    requires w.excluded == SetBoxes(v.excluded, claims, adding) && w.records == StageBoxes(v.records, claims, adding)
    ensures adding ==> Added(v, w, items, instances)
    ensures !adding && KeyedByRow(v.records) ==> Removed(v, w, items, instances)
  {
    if adding { AddMeans(v, w, items, instances, claims); }
    else if KeyedByRow(v.records) { RemoveMeans(v, w, items, instances, claims); }
  }

  lemma NamedAreClaimed(v: Snapshot, items: seq<Item>, instances: bool, claims: set<Claim>)
    requires claims == RecordedClaims(v, Requested(v, items, instances)) && KeyedByRow(v.records)
    requires forall k :: k in Requested(v, items, instances) <==> k in v.records && Named(items, instances, v.records[k])
    ensures forall k :: k in ClaimKeys(claims) <==> k in v.records && Named(items, instances, v.records[k])
    ensures forall t :: t in ClaimTargets(claims) <==>
              exists k :: k in v.records && Named(items, instances, v.records[k]) && TargetOf(v.records[k].row.value.box, t)
  {
    forall k | k in v.records && Named(items, instances, v.records[k])
      ensures k in ClaimKeys(claims) && BoxTarget(IdentityOf(v.records[k].row.value.box)) in ClaimTargets(claims)
    {
      assert Claim(v.records[k].row.value.box, v.records[k].reason) in claims;
    }
    forall t | t in ClaimTargets(claims)
      ensures exists k :: k in v.records && Named(items, instances, v.records[k]) && TargetOf(v.records[k].row.value.box, t)
    {
      var c :| c in claims && t == BoxTarget(IdentityOf(c.box));
      var k :| k in Requested(v, items, instances) && k in v.records && IsBox(v.records[k])
               && c == Claim(v.records[k].row.value.box, v.records[k].reason);
    }
  }

  /** What an add excluded for an instance item, a remove of its scope clears, whatever was expanded. */
  lemma AddThenRemoveInstance(u: Snapshot, v: Snapshot, w: Snapshot, item: Item, x: string)
    requires Added(u, v, [item], true) && Removed(v, w, [item], true) && item.expansion.Some? && x in item.expansion.value
    ensures var t := BoxTarget(Identity(Instance, x, "", "")); var k := RowKey(BoxRow(Box(Instance, x, "", "", item.scope)));
            && t in v.excluded && k in v.records && v.records[k] == Record(item.reason, Some(k.row))
            && t !in w.excluded && k !in w.records
  {
    var c := Claim(Box(Instance, x, "", "", item.scope), item.reason);
    assert item in [item] && Asks(item, true, c);
    assert Asked([item], true, c) && TargetOf(c.box, BoxTarget(Identity(Instance, x, "", "")));
    assert Names(item, true, v.records[RowKey(BoxRow(c.box))]);
  }

  /** The claim is asked for, and its target is this. */
  predicate AskedAt(items: seq<Item>, instances: bool, c: Claim, t: Target) {
    Asked(items, instances, c) && TargetOf(c.box, t)
  }

  /** No target is asked for twice in different ways. */
  ghost predicate AskedOnce(items: seq<Item>, instances: bool) {
    forall c, d, t :: AskedAt(items, instances, c, t) && AskedAt(items, instances, d, t) ==> c == d
  }

  /** Whatever record holds a target asked for is the one the request would write. */
  ghost predicate HeldAlike(v: Snapshot, items: seq<Item>, instances: bool) {
    forall c, k, t :: AskedAt(items, instances, c, t) && k in v.records && Targets(v.records[k], t) ==>
      v.records[k] == Record(c.reason, Some(BoxRow(c.box)))
  }

  lemma AskedOnceIsCoherent(items: seq<Item>, instances: bool, claims: set<Claim>)
    requires forall c :: c in claims <==> Asked(items, instances, c)
    ensures AskedOnce(items, instances) <==> Coherent(claims)
  {
    if AskedOnce(items, instances) {
      forall c, d | c in claims && d in claims && IdentityOf(c.box) == IdentityOf(d.box) ensures c == d {
        var t := BoxTarget(IdentityOf(c.box));
        assert AskedAt(items, instances, c, t) && AskedAt(items, instances, d, t);
      }
    }
  }

  lemma HeldAlikeIsUnclaimed(v: Snapshot, items: seq<Item>, instances: bool, claims: set<Claim>)
    requires forall c :: c in claims <==> Asked(items, instances, c)
    ensures HeldAlike(v, items, instances) <==> Unclaimed(v, claims)
  {
    if HeldAlike(v, items, instances) {
      forall c, k | c in claims && k in v.records && IsBox(v.records[k]) && IdentityOf(v.records[k].row.value.box) == IdentityOf(c.box)
        ensures v.records[k] == Record(c.reason, Some(BoxRow(c.box)))
      {
        var t := BoxTarget(IdentityOf(c.box));
        assert AskedAt(items, instances, c, t) && Targets(v.records[k], t);
      }
    }
  }

  /** An add gets to the database exactly if every item is complete, they agree, and no other row holds a target. */
  lemma AddIsResolvableIff(v: Snapshot, items: seq<Item>, instances: bool)
    ensures Resolvable(v, items, true, instances) <==>
              && (exists c :: Asked(items, instances, c))
              && (forall i :: i in items ==> i.reason != "" && (instances ==> i.expansion.Some?))
              && AskedOnce(items, instances) && HeldAlike(v, items, instances)
  {
    ClaimsAreAsked(items, instances);
    var claims := ClaimSet(Rows(items, instances));
    assert claims != {} <==> exists c :: Asked(items, instances, c) by {
      if claims != {} { var c :| c in claims; assert Asked(items, instances, c); }
    }
    AskedOnceIsCoherent(items, instances, claims);
    HeldAlikeIsUnclaimed(v, items, instances, claims);
  }

  /** The record under this key is named, and its target is this. */
  predicate NamedAt(v: Snapshot, items: seq<Item>, instances: bool, k: Key, t: Target) {
    k in v.records && Named(items, instances, v.records[k]) && Targets(v.records[k], t)
  }

  /** A remove gets there exactly if some record is named and those named agree. */
  lemma RemoveIsResolvableIff(v: Snapshot, items: seq<Item>, instances: bool)
    ensures Resolvable(v, items, false, instances) <==>
              && (exists k :: k in v.records && Named(items, instances, v.records[k]))
              && (forall k, l, t :: NamedAt(v, items, instances, k, t) && NamedAt(v, items, instances, l, t) ==> v.records[k] == v.records[l])
  {
    forall k ensures k in Requested(v, items, instances) <==> k in v.records && Named(items, instances, v.records[k]) {
      RequestedAreNamed(v, items, instances, k);
    }
    var claims := RecordedClaims(v, Requested(v, items, instances));
    forall k | k in v.records && Named(items, instances, v.records[k])
      ensures Claim(v.records[k].row.value.box, v.records[k].reason) in claims
    {
    }
    if forall k, l, t :: NamedAt(v, items, instances, k, t) && NamedAt(v, items, instances, l, t) ==> v.records[k] == v.records[l] {
      AgreedIsCoherent(v, items, instances, claims);
    }
    if Coherent(claims) { CoherentAgrees(v, items, instances, claims); }
  }

  lemma AgreedIsCoherent(v: Snapshot, items: seq<Item>, instances: bool, claims: set<Claim>)
    requires claims == RecordedClaims(v, Requested(v, items, instances))
    requires forall k, l, t :: NamedAt(v, items, instances, k, t) && NamedAt(v, items, instances, l, t) ==> v.records[k] == v.records[l]
    ensures Coherent(claims)
  {
    forall c, d | c in claims && d in claims && IdentityOf(c.box) == IdentityOf(d.box) ensures c == d {
      var k :| k in Requested(v, items, instances) && k in v.records && IsBox(v.records[k])
               && c == Claim(v.records[k].row.value.box, v.records[k].reason);
      var l :| l in Requested(v, items, instances) && l in v.records && IsBox(v.records[l])
               && d == Claim(v.records[l].row.value.box, v.records[l].reason);
      RequestedAreNamed(v, items, instances, k);
      RequestedAreNamed(v, items, instances, l);
      var t := BoxTarget(IdentityOf(c.box));
      assert NamedAt(v, items, instances, k, t) && NamedAt(v, items, instances, l, t);
    }
  }

  lemma CoherentAgrees(v: Snapshot, items: seq<Item>, instances: bool, claims: set<Claim>)
    requires claims == RecordedClaims(v, Requested(v, items, instances)) && Coherent(claims)
    ensures forall k, l, t :: NamedAt(v, items, instances, k, t) && NamedAt(v, items, instances, l, t) ==> v.records[k] == v.records[l]
  {
    forall k, l, t | NamedAt(v, items, instances, k, t) && NamedAt(v, items, instances, l, t) ensures v.records[k] == v.records[l] {
      RequestedAreNamed(v, items, instances, k);
      RequestedAreNamed(v, items, instances, l);
      assert Claim(v.records[k].row.value.box, v.records[k].reason) in claims;
      assert Claim(v.records[l].row.value.box, v.records[l].reason) in claims;
    }
  }

  // ---------- reference and gap requests, record by record ----------

  /** A reference request sets or clears exactly the references named, and records each with its own reason and row. */
  lemma RefRequestMeans(excluded: Native, records: map<Key, Record>, refs: seq<string>, adding: bool,
                        reasons: map<string, string>, rows: map<string, Row>, t: Target, k: Key)
    requires adding ==> forall r :: r in refs ==> r in reasons
    ensures t in SetRefs(excluded, refs, adding) <==>
              if t.RefTarget? && t.ref in refs then adding else t in excluded
    ensures var now := StageRefs(records, refs, adding, reasons, rows);
            if k.RefKey? && k.ref in refs
            then (k in now <==> adding) && (adding ==> now[k] == Record(reasons[k.ref], if k.ref in rows then Some(rows[k.ref]) else None))
            else (k in now <==> k in records) && (k in now ==> now[k] == records[k])
  {
  }

  /** The gap writes a record under this key. */
  predicate Writes(gap: Gap, k: Key) {
    k.RowKey? && k.row in gap.rows
  }

  /** What the last gap does to the record under a key. */
  lemma StageGapsLast(records: map<Key, Record>, gaps: seq<Gap>, done: seq<bool>, k: Key)
    requires |gaps| == |done| && gaps != []
    ensures var n := |gaps| - 1;
            var before, now := StageGaps(records, gaps[..n], done[..n]), StageGaps(records, gaps, done);
            if done[n] && Writes(gaps[n], k) then k in now && now[k] == Record(gaps[n].reason, Some(k.row)) else SameAt(now, before, k)
  {
  }

  predicate SameAt(now: map<Key, Record>, before: map<Key, Record>, k: Key) {
    (k in now <==> k in before) && (k in now ==> now[k] == before[k])
  }

  predicate NoneWrites(gaps: seq<Gap>, done: seq<bool>, k: Key)
    requires |gaps| == |done|
  {
    forall i :: 0 <= i < |gaps| && done[i] ==> !Writes(gaps[i], k)
  }

  lemma StillRecordedBy(gaps: seq<Gap>, done: seq<bool>, i: nat, k: Key, before: map<Key, Record>, now: map<Key, Record>)
    requires |gaps| == |done| && gaps != [] && SameAt(now, before, k)
    requires var n := |gaps| - 1; !(done[n] && Writes(gaps[n], k)) && RecordedBy(gaps[..n], done[..n], i, k, before)
    ensures RecordedBy(gaps, done, i, k, now)
  {
    var n := |gaps| - 1;
    forall j | i < j < |gaps| && done[j] ensures !Writes(gaps[j], k) {
      if j < n { assert gaps[..n][j] == gaps[j] && done[..n][j] == done[j]; }
    }
  }

  lemma StillNoneWrites(gaps: seq<Gap>, done: seq<bool>, k: Key)
    requires |gaps| == |done| && gaps != []
    requires var n := |gaps| - 1; !(done[n] && Writes(gaps[n], k)) && NoneWrites(gaps[..n], done[..n], k)
    ensures NoneWrites(gaps, done, k)
  {
    var n := |gaps| - 1;
    forall j | 0 <= j < |gaps| && done[j] ensures !Writes(gaps[j], k) {
      if j < n { assert gaps[..n][j] == gaps[j] && done[..n][j] == done[j]; }
    }
  }

  /** The last gap done that writes the key decides its record; a key that none writes keeps what it had. */
  lemma {:induction false} StageGapsMeans(records: map<Key, Record>, gaps: seq<Gap>, done: seq<bool>, k: Key)
    requires |gaps| == |done|
    ensures var now := StageGaps(records, gaps, done);
            (exists i :: RecordedBy(gaps, done, i, k, now)) || (NoneWrites(gaps, done, k) && SameAt(now, records, k))
    decreases |gaps|
  {
    if gaps != [] {
      var n := |gaps| - 1;
      var before, now := StageGaps(records, gaps[..n], done[..n]), StageGaps(records, gaps, done);
      StageGapsMeans(records, gaps[..n], done[..n], k);
      StageGapsLast(records, gaps, done, k);
      if done[n] && Writes(gaps[n], k) {
        assert RecordedBy(gaps, done, n, k, now);
      } else if i :| RecordedBy(gaps[..n], done[..n], i, k, before) {
        StillRecordedBy(gaps, done, i, k, before, now);
      } else {
        StillNoneWrites(gaps, done, k);
      }
    }
  }

  /** Gap `i` is the last one done that writes the key, and the record is of it. */
  predicate RecordedBy(gaps: seq<Gap>, done: seq<bool>, i: nat, k: Key, now: map<Key, Record>)
    requires |gaps| == |done|
  {
    && i < |gaps| && done[i] && Writes(gaps[i], k) && (forall j :: i < j < |gaps| && done[j] ==> !Writes(gaps[j], k))
    && k in now && now[k] == Record(gaps[i].reason, Some(k.row))
  }

  // ---------- the session object ----------

  class XcovSession {
    // native database and URG backend
    var excluded: Native
    var index: Option<Native>
    var summaryElPath: Option<string>
    // session
    var elPath: Option<string>
    var elDirty: bool
    var records: map<Key, Record>
    var reasonRevision: nat
    // EL files on disk
    var files: map<string, Native>
    // references that were excluded when the database was compiled
    const compileTime: set<string>

    function View(): Snapshot
      reads this
    {
      Snapshot(excluded, index, summaryElPath, elPath, elDirty, records, reasonRevision, files)
    }

    constructor (compileTime: set<string>)
      ensures View() == Snapshot({}, None, None, None, false, map[], 0, map[])
    {
      this.compileTime := compileTime;
      excluded, index, summaryElPath, elPath, elDirty := {}, None, None, None, false;
      records, reasonRevision, files := map[], 0, map[];
    }

    method SetTarget(t: Target, on: bool, env: Env, call: nat) returns (status: Status)
      modifies this`excluded
      ensures status.SetterFailed? <==> call in env.faults
      ensures status.ImmutableCompileTime? ==> !on && t.RefTarget?
      ensures call in env.faults ==> excluded == env.faults[call]
      ensures call !in env.faults ==> excluded == if on then old(excluded) + {t} else old(excluded) - {t}
    {
      if call in env.faults {
        excluded := env.faults[call];
        return SetterFailed;
      }
      var before := t in excluded;
      excluded := if on then excluded + {t} else excluded - {t};
      status := if !on && t.RefTarget? && t.ref in compileTime then ImmutableCompileTime
                else if before == on then AlreadyInState else Changed;
    }

    /** `unload` then `load` of the saved baseline. */
    method Restore(baseline: Native, env: Env) returns (ok: bool)
      modifies this`excluded
      ensures ok <==> env.rollback.None?
      ensures excluded == if ok then baseline else env.rollback.value
    {
      excluded := {};
      if env.rollback.Some? {
        excluded := env.rollback.value;
        return false;
      }
      excluded := excluded + baseline;
      ok := true;
    }

    method InvalidateSummary()
      modifies this`index
      ensures index == None
    {
      index := None;
    }

    method SetSummaryExclusion(path: Option<string>)
      modifies this`summaryElPath, this`index
      ensures summaryElPath == path
      ensures index == if path == old(summaryElPath) then old(index) else None
    {
      if path != summaryElPath {
        summaryElPath := path;
        index := None;
      }
    }

    method SummaryIndex(fails: bool) returns (r: Result<Native, Error>)
      modifies this`index
      ensures r.Ok? ==> View() == Indexed(old(View())) && index == Some(r.value)
      ensures r.Err? ==> View() == old(View())
      ensures r.Ok? <==> old(index).Some? || (!fails && Basis(old(View())).Some?)
      ensures r.Err? ==> r.error == SummaryFailed
    {
      if index.None? {
        var basis := Basis(View());
        if fails || basis.None? { return Err(SummaryFailed); }
        index := basis;
      }
      r := Ok(index.value);
    }

    method MarkExclusionDirty()
      modifies this`elDirty, this`index
      ensures View() == Dirtied(old(View()))
    {
      elDirty := true;
      InvalidateSummary();
    }

    method EnsureElReady(fails: bool) returns (r: Result<Option<string>, Error>)
      modifies this`files, this`elPath, this`elDirty, this`summaryElPath, this`index
      ensures r.Ok? ==> View() == Ready(old(View())) && r.value == elPath
      ensures r.Err? ==> View() == old(View())
      ensures r.Err? <==> fails && old(elDirty)
    {
      if elDirty {
        if fails { return Err(SaveFailed); }
        files := files[CURRENT_EL := excluded];
        elPath := Some(CURRENT_EL);
        elDirty := false;
        SetSummaryExclusion(Some(CURRENT_EL));
      }
      r := Ok(elPath);
    }

    /** A coverage read as dispatched: prepare, then use the summary index. */
    method CoverageRead(saveFails: bool, urgFails: bool) returns (r: Result<Native, Error>)
      modifies this
      ensures r.Ok? ==> View() == Read(old(View())) && index == Some(r.value)
      ensures r.Err? ==> View() == old(View()) || View() == Ready(old(View()))
    {
      var ready := EnsureElReady(saveFails);
      if ready.Err? { return Err(ready.error); }
      r := SummaryIndex(urgFails);
    }

    /** `exclude.unload_all`: the summary index and its EL path are left alone. */
    method UnloadAll()
      modifies this
      ensures View() == old(View()).(excluded := {}, elPath := None, elDirty := false, records := map[],
                                     reasonRevision := old(reasonRevision) + 1)
    {
      excluded := {};
      elPath := None;
      elDirty := false;
      records := map[];
      reasonRevision := reasonRevision + 1;
    }

    /** `exclude.load`: EL files in order, by union; `badAt` is the first file the vendor refuses. */
    method ExcludeLoad(contents: seq<Native>, badAt: nat, env: Env) returns (r: Result<(), Error>)
      modifies this
      ensures r.Ok? <==> !env.baselineFails && |contents| <= badAt
      ensures r.Ok? ==> View() == Dirtied(old(View())).(excluded := old(excluded) + Union(contents), elPath := None)
      ensures r.Err? && r.error != RollbackFailed ==> View() == old(View())
      ensures r.Err? && r.error == RollbackFailed ==> env.rollback.Some? && View() == old(View()).(excluded := env.rollback.value)
    {
      if env.baselineFails { return Err(BaselineFailed); }
      var baseline := excluded;
      var i := 0;
      while i < |contents|
        modifies this`excluded
        invariant i <= |contents| && i <= badAt
        invariant excluded == baseline + Union(contents[..i])
      {
        if i == badAt {
          var ok := Restore(baseline, env);
          return Err(if ok then LoadFailed else RollbackFailed);
        }
        excluded := excluded + contents[i];
        assert contents[..i + 1][..i] == contents[..i];
        i := i + 1;
      }
      assert contents[..i] == contents;
      elPath := None;
      elDirty := false;
      MarkExclusionDirty();
      r := Ok(());
    }

    /** The setter loop of a reference request: the staged records, or None after a failing setter. */
    method ApplyRefs(refs: seq<string>, adding: bool, reasons: map<string, string>, rows: map<string, Row>, env: Env)
      returns (staged: Option<map<Key, Record>>)
      requires adding ==> forall ref :: ref in refs ==> ref in reasons
      modifies this`excluded
      ensures staged.Some? <==> forall i :: 0 <= i < |refs| ==> i !in env.faults
      ensures staged.Some? ==> staged.value == StageRefs(records, refs, adding, reasons, rows)
      ensures staged.Some? ==> excluded == SetRefs(old(excluded), refs, adding)
    {
      var next := records;
      var i := 0;
      while i < |refs|
        invariant i <= |refs|
        invariant forall j :: 0 <= j < i ==> j !in env.faults
        invariant excluded == SetRefs(old(excluded), refs[..i], adding)
        invariant next == StageRefs(records, refs[..i], adding, reasons, rows)
      {
        var ref := refs[i];
        var status := SetTarget(RefTarget(ref), adding, env, i);
        if status.SetterFailed? { return None; }
        SetOneRef(old(excluded), refs, i, adding);
        StageOneRef(records, refs, i, adding, reasons, rows);
        next := StageRef(next, ref, adding, reasons, rows);
        i := i + 1;
      }
      assert refs[..i] == refs;
      staged := Some(next);
    }

    /** The common tail of a successful transaction. */
    method Commit(staged: map<Key, Record>)
      modifies this
      ensures View() == Committed(old(View()), old(excluded), staged)
    {
      var changed := staged != records;
      records := staged;
      MarkExclusionDirty();
      if changed { reasonRevision := reasonRevision + 1; }
    }

    /** The common tail of a failed one. */
    method RollBack(baseline: Native, env: Env) returns (error: Error)
      modifies this`excluded
      ensures error == if env.rollback.None? then ApplyFailed else RollbackFailed
      ensures excluded == if env.rollback.None? then baseline else env.rollback.value
    {
      var ok := Restore(baseline, env);
      error := if ok then ApplyFailed else RollbackFailed;
    }

    /** `exclude.add` and `exclude.remove` by coverage reference. */
    method ExcludeSet(refs: seq<string>, adding: bool, reasons: map<string, string>, rows: map<string, Row>, env: Env)
      returns (r: Result<(), Error>)
      requires adding ==> forall ref :: ref in refs ==> ref in reasons
      modifies this
      ensures r.Ok? ==> View() == Committed(old(View()), SetRefs(old(excluded), refs, adding),
                                            StageRefs(old(records), refs, adding, reasons, rows))
      ensures r.Err? && r.error != RollbackFailed ==> View() == old(View())
      ensures r.Err? && r.error == RollbackFailed ==> env.rollback.Some? && View() == old(View()).(excluded := env.rollback.value)
      ensures r.Ok? <==> (refs != [] && (adding ==> forall ref :: ref in refs ==> reasons[ref] != "")
                          && !env.baselineFails && forall i :: 0 <= i < |refs| ==> i !in env.faults)
    {
      if adding && exists ref :: ref in refs && reasons[ref] == "" { return Err(SchemaInvalid); }
      if refs == [] { return Err(SchemaInvalid); }
      if env.baselineFails { return Err(BaselineFailed); }
      var baseline := excluded;
      var staged := ApplyRefs(refs, adding, reasons, rows, env);
      if staged.None? {
        var error := RollBack(baseline, env);
        return Err(error);
      }
      Commit(staged.value);
      r := Ok(());
    }

    /** The rows of an add request: every reason given, every instance root known to the XML hierarchy. */
    method CollectRows(items: seq<Item>, instances: bool) returns (r: Result<seq<Claim>, Error>)
      ensures r.Ok? <==> forall i :: i in items ==> i.reason != "" && (instances ==> i.expansion.Some?)
      ensures r.Ok? ==> r.value == Rows(items, instances)
      ensures r.Err? ==> r.error == SchemaInvalid || r.error == ScopeNotFound
    {
      var rows := [];
      var n := 0;
      while n < |items|
        invariant n <= |items|
        invariant forall i :: i in items[..n] ==> i.reason != "" && (instances ==> i.expansion.Some?)
        invariant rows == Rows(items[..n], instances)
      {
        if items[n].reason == "" { return Err(SchemaInvalid); }
        if instances && items[n].expansion.None? { return Err(ScopeNotFound); }
        rows := rows + ItemRows(items[n], instances);
        assert items[..n + 1][..n] == items[..n];
        n := n + 1;
      }
      assert items[..n] == items;
      r := Ok(rows);
    }

    /** One row per exact target; two reasons or two roots for one target are a conflict. */
    method Unify(rows: seq<Claim>) returns (r: Result<set<Claim>, Error>)
      ensures r.Ok? <==> Coherent(ClaimSet(rows))
      ensures r.Ok? ==> r.value == ClaimSet(rows)
      ensures r.Err? ==> r.error == OwnershipConflict
    {
      var unique: map<Identity, Claim> := map[];
      var n := 0;
      while n < |rows|
        invariant n <= |rows|
        invariant forall id :: id in unique ==> IdentityOf(unique[id].box) == id && unique[id] in rows[..n]
        invariant forall c :: c in rows[..n] ==> IdentityOf(c.box) in unique && unique[IdentityOf(c.box)] == c
      {
        var id := IdentityOf(rows[n].box);
        if id in unique && (unique[id].reason != rows[n].reason || unique[id].box.root != rows[n].box.root) {
          assert unique[id] in ClaimSet(rows) && rows[n] in ClaimSet(rows);
          return Err(OwnershipConflict);
        }
        unique := unique[id := rows[n]];
        n := n + 1;
      }
      r := Ok(set id | id in unique :: unique[id]);
    }

    /** The setter loop of a container request, in any order of the targets. */
    method ApplyBoxes(claims: set<Claim>, adding: bool, env: Env) returns (staged: Option<map<Key, Record>>)
      requires Coherent(claims)
      modifies this`excluded
      ensures staged.Some? <==> forall i :: 0 <= i < |claims| ==> i !in env.faults
      ensures staged.Some? ==> staged.value == StageBoxes(records, claims, adding)
      ensures staged.Some? ==> excluded == SetBoxes(old(excluded), claims, adding)
    {
      var next := records;
      var applied: set<Claim> := {};
      while applied != claims
        invariant applied <= claims && |applied| <= |claims|
        invariant forall j :: 0 <= j < |applied| ==> j !in env.faults
        invariant excluded == SetBoxes(old(excluded), applied, adding)
        invariant next == StageBoxes(records, applied, adding)
        decreases claims - applied
      {
        assert claims == applied + (claims - applied);
        var c :| c in claims - applied;
        NextBox(records, old(excluded), claims, applied, c, adding);
        var status := SetTarget(BoxTarget(IdentityOf(c.box)), adding, env, |applied|);
        if status.SetterFailed? || status.ImmutableCompileTime? { return None; }
        next := StageBox(next, c, adding);
        applied := applied + {c};
      }
      staged := Some(next);
    }

    /** What an add or remove request for containers is about, before the database is touched. */
    method ResolveClaims(items: seq<Item>, adding: bool, instances: bool) returns (r: Result<set<Claim>, Error>)
      ensures r.Ok? <==> Resolvable(View(), items, adding, instances)
      ensures r.Ok? ==> r.value == ClaimsOf(View(), items, adding, instances)
      ensures r.Err? ==> r.error != RollbackFailed
    {
      var claims: set<Claim>;
      if adding {
        var rows := CollectRows(items, instances);
        if rows.Err? { return Err(rows.error); }
        if rows.value == [] { return Err(NotOwned); }
        assert rows.value[0] in ClaimSet(rows.value);
        var unique := Unify(rows.value);
        if unique.Err? { return Err(unique.error); }
        claims := unique.value;
        if !Unclaimed(View(), claims) { return Err(OwnershipConflict); }
      } else {
        claims := RecordedClaims(View(), Requested(View(), items, instances));
        if claims == {} { return Err(NotOwned); }
        if !Coherent(claims) { return Err(OwnershipConflict); }
      }
      r := Ok(claims);
    }

    /** `exclude.instance.*` and `exclude.functional.*`. */
    method ExcludeContainer(items: seq<Item>, adding: bool, instances: bool, unresolved: bool, urgFails: bool, env: Env)
      returns (r: Result<set<Claim>, Error>)
      modifies this
      ensures var v := old(View()); var claims := ClaimsOf(v, items, adding, instances);
              && (r.Ok? <==> (adding && instances ==> Indexable(v, urgFails)) && Resolvable(v, items, adding, instances)
                             && !unresolved && !env.baselineFails && forall i :: 0 <= i < |claims| ==> i !in env.faults)
              && (r.Ok? ==> r.value == claims && Coherent(claims)
                            && View() == Committed(v, SetBoxes(v.excluded, claims, adding), StageBoxes(v.records, claims, adding)))
      ensures r.Ok? && adding ==> Added(old(View()), View(), items, instances)
      ensures r.Ok? && !adding && KeyedByRow(old(records)) ==> Removed(old(View()), View(), items, instances)
      ensures r.Err? && r.error != RollbackFailed ==>
                View() == old(View()) || (adding && instances && View() == Indexed(old(View())))
      ensures r.Err? && r.error == RollbackFailed ==> env.rollback.Some? && records == old(records)
    {
      if adding && instances {
        var index := SummaryIndex(urgFails);
        if index.Err? { return Err(index.error); }
      }
      ClaimsFromRecords(old(View()), View(), items, adding, instances);
      var claims := ResolveClaims(items, adding, instances);
      if claims.Err? { return claims; }
      if unresolved { return Err(ResolveFailed); }
      if env.baselineFails { return Err(BaselineFailed); }
      var baseline := excluded;
      var staged := ApplyBoxes(claims.value, adding, env);
      if staged.None? {
        var error := RollBack(baseline, env);
        return Err(error);
      }
      Commit(staged.value);
      r := claims;
      ContainerMeans(old(View()), View(), items, adding, instances, claims.value);
    }

    /** The targets of one gap, stopping at the first setter that fails. */
    method ApplyGap(gap: Gap, env: Env, calls: nat) returns (success: bool, calls': nat)
      modifies this`excluded
      ensures var run := SetAll(old(excluded), gap.targets, env, calls);
              success == (run.0 && gap.targets != []) && excluded == run.1 && calls' == run.2
    {
      calls' := calls;
      ghost var run := SetAll(excluded, gap.targets, env, calls);
      var i := 0;
      assert gap.targets[i..] == gap.targets;
      while i < |gap.targets|
        invariant i <= |gap.targets|
        invariant run == SetAll(excluded, gap.targets[i..], env, calls')
      {
        assert gap.targets[i..][1..] == gap.targets[i + 1..];
        var status := SetTarget(gap.targets[i], true, env, calls');
        calls' := calls' + 1;
        if status.SetterFailed? || status.ImmutableCompileTime? { return false, calls'; }
        i := i + 1;
      }
      success := gap.targets != [];
    }

    /** The setter loop over all gaps: None after the first gap outside FSM coverage that fails. */
    method ApplyGaps(gaps: seq<Gap>, env: Env) returns (done: Option<seq<bool>>, staged: map<Key, Record>)
      modifies this`excluded
      ensures (done, excluded) == GapsRun(old(excluded), gaps, env, 0)
      ensures done.Some? ==> |done.value| == |gaps| && staged == StageGaps(records, gaps, done.value)
    {
      var flags: seq<bool> := [];
      var calls, n := 0, 0;
      staged := records;
      ghost var run := GapsRun(excluded, gaps, env, 0);
      assert gaps[n..] == gaps;
      RunNothing(run);
      while n < |gaps|
        invariant |flags| == n <= |gaps|
        invariant run == RunFlags(flags, GapsRun(excluded, gaps[n..], env, calls))
        invariant staged == StageGaps(records, gaps[..n], flags)
      {
        RunStep(excluded, gaps, n, env, calls, flags);
        StageStep(records, gaps, n, flags);
        var success: bool;
        success, calls := ApplyGap(gaps[n], env, calls);
        if !success && !gaps[n].fsm { return None, staged; }
        if success { staged := staged + GapRecords(gaps[n]); }
        flags, n := flags + [success], n + 1;
      }
      assert gaps[..n] == gaps && flags + [] == flags;
      done := Some(flags);
    }

    /**
     `exclude.add` by exported gaps, given in execution order.  FSM gaps may fail on their own; any
     other failure undoes the request, and if that fails too the session is torn down.
     */
    method ExportGaps(gaps: seq<Gap>, preflightFails: bool, unresolved: bool, urgFails: bool, env: Env)
      returns (r: Result<seq<bool>, Error>)
      modifies this
      ensures var run := GapsRun(old(excluded), gaps, env, 0);
              && (r.Ok? <==> Indexable(old(View()), urgFails) && !preflightFails && !env.baselineFails && !unresolved
                             && (forall g :: g in gaps && !g.fsm ==> g.targets != []) && run.0.Some?)
              && (r.Ok? ==> r.value == run.0.value && |r.value| == |gaps|
                            && View() == Committed(old(View()), run.1, StageGaps(old(records), gaps, r.value)))
      ensures r.Err? && r.error != RollbackFailed ==> View() == old(View()) || View() == Indexed(old(View()))
      ensures r.Err? && r.error == RollbackFailed ==> env.rollback.Some? && records == map[] && index == None && !elDirty
    {
      var index := SummaryIndex(urgFails);
      if index.Err? { return Err(index.error); }
      if preflightFails { return Err(SchemaInvalid); }
      if env.baselineFails { return Err(BaselineFailed); }
      if unresolved || exists g :: g in gaps && !g.fsm && g.targets == [] { return Err(ResolveFailed); }
      var baseline := excluded;
      var done, staged := ApplyGaps(gaps, env);
      if done.None? {
        var error := RollBack(baseline, env);
        if error == RollbackFailed { Close(); }
        return Err(error);
      }
      Commit(staged);
      r := Ok(done.value);
    }

    method Close()
      modifies this
      ensures index == None && elPath == None && !elDirty && records == map[]
    {
      index, elPath, elDirty, records := None, None, false, map[];
    }

    /** `exclude.csv.apply`, every row resolved to one target: nothing marks the EL file dirty. */
    method CsvApply(targets: seq<Target>, entries: seq<Entry>, env: Env) returns (r: Result<(), Error>)
      modifies this
      ensures r.Ok? ==> View() == old(View()).(excluded := old(excluded) + SeqSet(targets),
                                               records := RecordAll(old(records), old(reasonRevision), entries).0,
                                               reasonRevision := RecordAll(old(records), old(reasonRevision), entries).1)
      ensures r.Err? && r.error != RollbackFailed ==> View() == old(View())
      ensures r.Err? && r.error == RollbackFailed ==> env.rollback.Some? && View() == old(View()).(excluded := env.rollback.value)
      ensures r.Ok? <==> !env.baselineFails && forall i :: 0 <= i < |targets| ==> i !in env.faults
    {
      if env.baselineFails { return Err(BaselineFailed); }
      var baseline := excluded;
      var i := 0;
      while i < |targets|
        modifies this`excluded
        invariant i <= |targets|
        invariant forall j :: 0 <= j < i ==> j !in env.faults
        invariant excluded == baseline + SeqSet(targets[..i])
      {
        var status := SetTarget(targets[i], true, env, i);
        if status.SetterFailed? {
          var error := RollBack(baseline, env);
          return Err(error);
        }
        assert SeqSet(targets[..i + 1]) == SeqSet(targets[..i]) + {targets[i]};
        i := i + 1;
      }
      assert targets[..i] == targets;
      RecordEntries(entries);
      r := Ok(());
    }

    method RecordEntries(entries: seq<Entry>)
      modifies this`records, this`reasonRevision
      ensures (records, reasonRevision) == RecordAll(old(records), old(reasonRevision), entries)
    {
      var i := 0;
      while i < |entries|
        invariant i <= |entries|
        invariant (records, reasonRevision) == RecordAll(old(records), old(reasonRevision), entries[..i])
      {
        assert entries[..i + 1][..i] == entries[..i];
        RecordExclusion(entries[i].key, entries[i].record);
        i := i + 1;
      }
      assert entries[..i] == entries;
    }

    method RecordExclusion(key: Key, record: Record)
      modifies this`records, this`reasonRevision
      ensures records == old(records)[key := record]
      ensures reasonRevision == old(reasonRevision) + if key in old(records) && old(records)[key] == record then 0 else 1
    {
      var same := key in records && records[key] == record;
      records := records[key := record];
      if !same { reasonRevision := reasonRevision + 1; }
    }
  }

  /** What a container request is about depends on the records only. */
  lemma ClaimsFromRecords(v: Snapshot, w: Snapshot, items: seq<Item>, adding: bool, instances: bool)
    requires w.records == v.records
    ensures ClaimsOf(w, items, adding, instances) == ClaimsOf(v, items, adding, instances)
    ensures Resolvable(w, items, adding, instances) <==> Resolvable(v, items, adding, instances)
  {
    assert Requested(w, items, instances) == Requested(v, items, instances);
    assert RecordedClaims(w, Requested(w, items, instances)) == RecordedClaims(v, Requested(v, items, instances));
  }

  /** The outcome of all gaps, given that of those done. */
  function RunFlags(flags: seq<bool>, rest: (Option<seq<bool>>, Native)): (Option<seq<bool>>, Native) {
    (if rest.0.None? then None else Some(flags + rest.0.value), rest.1)
  }

  lemma RunNothing(run: (Option<seq<bool>>, Native))
    ensures RunFlags([], run) == run
  {
    if run.0.Some? { assert [] + run.0.value == run.0.value; }
  }

  lemma RunStep(excluded: Native, gaps: seq<Gap>, n: nat, env: Env, calls: nat, flags: seq<bool>)
    requires n < |gaps|
    ensures var (ok, now, calls') := SetAll(excluded, gaps[n].targets, env, calls);
            var success := ok && gaps[n].targets != [];
            RunFlags(flags, GapsRun(excluded, gaps[n..], env, calls))
            == if !success && !gaps[n].fsm then (None, now) else RunFlags(flags + [success], GapsRun(now, gaps[n + 1..], env, calls'))
  {
    var (ok, now, calls') := SetAll(excluded, gaps[n].targets, env, calls);
    var success := ok && gaps[n].targets != [];
    assert gaps[n..][1..] == gaps[n + 1..];
    var rest := GapsRun(now, gaps[n + 1..], env, calls');
    if rest.0.Some? { assert flags + ([success] + rest.0.value) == flags + [success] + rest.0.value; }
  }

  lemma StageStep(records: map<Key, Record>, gaps: seq<Gap>, n: nat, flags: seq<bool>)
    requires n < |gaps| && |flags| == n
    ensures forall success :: StageGaps(records, gaps[..n + 1], flags + [success])
              == if success then StageGaps(records, gaps[..n], flags) + GapRecords(gaps[n]) else StageGaps(records, gaps[..n], flags)
  {
    assert gaps[..n + 1][..n] == gaps[..n];
    forall success: bool ensures (flags + [success])[..n] == flags { }
  }

  // ---------- the summary a prepared read serves ----------

  /** Every way a request can change a session, as its effect on the snapshot. */
  datatype Action =
    | Prepared                                         // a dispatched coverage read
    | Peek                                             // index access without preparation: status, failing gap or instance request
    | Transact(excluded: Native, records: map<Key, Record>)  // a committed add or remove
    | LoadFiles(excluded: Native)                      // exclude.load
    | ApplyCsv(excluded: Native, records: map<Key, Record>, revision: nat)
    | Unload                                           // exclude.unload_all

  function Do(v: Snapshot, a: Action): Snapshot {
    match a
    case Prepared => Read(v)
    case Peek => Indexed(v)
    case Transact(e, r) => Committed(v, e, r)
    case LoadFiles(e) => Dirtied(v).(excluded := e, elPath := None)
    case ApplyCsv(e, r, n) => v.(excluded := e, records := r, reasonRevision := n)
    case Unload => v.(excluded := {}, elPath := None, elDirty := false, records := map[], reasonRevision := v.reasonRevision + 1)
  }

  /** A prepared read now would be served from the exclusion set now in force. */
  predicate ReadIsRight(v: Snapshot) {
    Read(v).index == Some(v.excluded)
  }

  /** A prepared read would give this exclusion set, if it is the one in force; a test of the session alone. */
  predicate Serves(v: Snapshot, excluded: Native) {
    if v.elDirty then v.index.None? || v.summaryElPath != Some(CURRENT_EL) || v.index == Some(excluded)
    else Indexed(v).index == Some(excluded)
  }

  /**
   When the next read is right after an action, from any session; checkable beforehand.  An add, a
   remove and an EL load repair whatever was stale.
   */
  predicate Guard(v: Snapshot, a: Action) {
    match a
    case Prepared => Serves(v, v.excluded)
    case Peek => Serves(Indexed(v), v.excluded)
    case Transact(_, _) => true
    case LoadFiles(_) => true
    case ApplyCsv(e, _, _) => Serves(v, e)
    case Unload => Indexed(v).index == Some({})
  }

  /** The guard is exact, from every session: after an action the next read is right if and only if it held. */
  lemma GuardIsExact(v: Snapshot, a: Action)
    ensures ReadIsRight(Do(v, a)) <==> Guard(v, a)
    ensures ReadIsRight(v) <==> Serves(v, v.excluded)
  {
  }

  ghost function After(actions: seq<Action>): Snapshot {
    if actions == [] then Snapshot({}, None, None, None, false, map[], 0, map[])
    else Do(After(actions[..|actions| - 1]), actions[|actions| - 1])
  }

  /** The last step that was no prepared read was taken under its guard. */
  ghost predicate LastChangeGuarded(actions: seq<Action>) {
    actions == []
    || (var init, last := actions[..|actions| - 1], actions[|actions| - 1];
        if last.Prepared? then LastChangeGuarded(init) else Guard(After(init), last))
  }

  /**
   A read after any run from a fresh session is right if and only if the last change before it was
   made under its guard; what happened earlier does not matter.
   */
  lemma {:induction false} ReadIsRightIffLastChangeGuarded(actions: seq<Action>)
    ensures ReadIsRight(After(actions)) <==> LastChangeGuarded(actions)
  {
    if actions != [] {
      var init, last := actions[..|actions| - 1], actions[|actions| - 1];
      GuardIsExact(After(init), last);
      if last.Prepared? { ReadIsRightIffLastChangeGuarded(init); }
    }
  }

  /** The `i`-th step of a run is a read that returned the exclusions in force. */
  ghost predicate ReadsRight(actions: seq<Action>, i: nat)
    requires i < |actions|
  {
    actions[i].Prepared? ==> After(actions[..i + 1]).index == Some(After(actions[..i]).excluded)
  }

  /**
   From a fresh session, every read that a run makes returns the exclusions in force at that read if
   and only if before every read the last change was made under its guard.  The EL file keeps one path.
   */
  lemma EveryReadIsRightIffGuarded(actions: seq<Action>)
    ensures (forall i :: 0 <= i < |actions| ==> ReadsRight(actions, i))
            <==> (forall i :: 0 <= i < |actions| && actions[i].Prepared? ==> LastChangeGuarded(actions[..i]))
  {
    forall i | 0 <= i < |actions| && actions[i].Prepared? ensures ReadsRight(actions, i) <==> LastChangeGuarded(actions[..i]) {
      assert actions[..i + 1][..i] == actions[..i];
      ReadIsRightIffLastChangeGuarded(actions[..i]);
    }
  }

  /** In particular no run of adds, removes, EL loads and prepared reads can go wrong. */
  lemma {:induction false} OrdinaryRunsReadRight(actions: seq<Action>)
    requires forall a :: a in actions ==> a.Prepared? || a.Transact? || a.LoadFiles?
    ensures ReadIsRight(After(actions))
  {
    if actions != [] {
      OrdinaryRunsReadRight(actions[..|actions| - 1]);
      GuardIsExact(After(actions[..|actions| - 1]), actions[|actions| - 1]);
    }
  }

  lemma Next(actions: seq<Action>, a: Action)
    ensures After(actions + [a]) == Do(After(actions), a)
  {
    assert (actions + [a])[..|actions|] == actions;
  }

  /** Two runs that do go wrong: a status query between an add and a read, and unloading everything. */
  lemma StaleReadsExist(t: Target, u: Target) returns (peeked: seq<Action>, unloaded: seq<Action>)
    requires t != u
    ensures After(peeked + [Prepared]).index == Some({t}) && After(peeked).excluded == {t, u}
    ensures After(unloaded + [Prepared]).index == Some({t}) && After(unloaded).excluded == {}
  {
    var a, b := Transact({t}, map[]), Transact({t, u}, map[]);
    Next([], a);
    Next([a], Prepared);
    var v := After([a] + [Prepared]);
    assert v.index == Some({t}) && v.summaryElPath == Some(CURRENT_EL) && v.files == map[CURRENT_EL := {t}] && !v.elDirty by {
      assert After([]) == Snapshot({}, None, None, None, false, map[], 0, map[]);
      assert [] + [a] == [a];
    }
    Next([a] + [Prepared], b);
    Next([a] + [Prepared] + [b], Peek);
    peeked := [a] + [Prepared] + [b] + [Peek];
    Next(peeked, Prepared);
    Next([a] + [Prepared], Unload);
    unloaded := [a] + [Prepared] + [Unload];
    Next(unloaded, Prepared);
  }

  // ---------- who owns an excluded container ----------

  /** One record per exact container, filed under its own row, and its target is excluded. */
  predicate Owned(v: Snapshot) {
    && KeyedByRow(v.records)
    && (forall k, l ::
          (k in v.records && l in v.records && IsBox(v.records[k]) && IsBox(v.records[l])
           && IdentityOf(v.records[k].row.value.box) == IdentityOf(v.records[l].row.value.box)) ==> k == l)
    && (forall k :: k in v.records && IsBox(v.records[k]) ==>
          BoxTarget(IdentityOf(v.records[k].row.value.box)) in v.excluded)
  }

  datatype Request =
    | AddBoxes(claims: set<Claim>)
    | RemoveRoots(roots: set<string>)
    | RemoveBoxes(ids: set<Identity>)
    | AddRefs(refs: seq<string>, reasons: map<string, string>, rows: map<string, Row>)
    | RemoveRefs(refs: seq<string>)

  /** What a request may rely on; a request that fails changes nothing and is not part of a run. */
  predicate Admissible(v: Snapshot, q: Request) {
    match q
    case AddBoxes(claims) => Coherent(claims) && Unclaimed(v, claims)
    case AddRefs(refs, reasons, rows) => (forall r :: r in refs ==> r in reasons) && forall r :: r in rows ==> rows[r].LeafRow?
    case _ => true
  }

  ghost function ServeBoxes(v: Snapshot, claims: set<Claim>, adding: bool): Snapshot
    requires Coherent(claims)
  {
    Committed(v, SetBoxes(v.excluded, claims, adding), StageBoxes(v.records, claims, adding))
  }

  ghost function Serve(v: Snapshot, q: Request): Snapshot
    requires Owned(v) && Admissible(v, q)
  {
    match q
    case AddBoxes(claims) => ServeBoxes(v, claims, true)
    case RemoveRoots(roots) =>
      OwnedRecordsAreCoherent(v, OwnedBy(v, roots));
      ServeBoxes(v, RecordedClaims(v, OwnedBy(v, roots)), false)
    case RemoveBoxes(ids) =>
      OwnedRecordsAreCoherent(v, OwnedAs(v, ids));
      ServeBoxes(v, RecordedClaims(v, OwnedAs(v, ids)), false)
    case AddRefs(refs, reasons, rows) =>
      Committed(v, SetRefs(v.excluded, refs, true), StageRefs(v.records, refs, true, reasons, rows))
    case RemoveRefs(refs) =>
      Committed(v, SetRefs(v.excluded, refs, false), StageRefs(v.records, refs, false, map[], map[]))
  }

  /** Recorded containers never conflict with each other, so no remove request is refused for it. */
  lemma OwnedRecordsAreCoherent(v: Snapshot, keys: set<Key>)
    requires Owned(v)
    ensures Coherent(RecordedClaims(v, keys))
  {
  }

  lemma AddKeepsOwned(v: Snapshot, claims: set<Claim>)
    requires Owned(v) && Coherent(claims) && Unclaimed(v, claims)
    ensures Owned(ServeBoxes(v, claims, true))
  {
    var w := ServeBoxes(v, claims, true);
    forall k | k in w.records && IsBox(w.records[k])
      ensures k == RowKey(w.records[k].row.value)
      ensures BoxTarget(IdentityOf(w.records[k].row.value.box)) in w.excluded
      ensures k in ClaimKeys(claims) || (k in v.records && w.records[k] == v.records[k])
    {
      if k in ClaimKeys(claims) {
        var c :| c in claims && k == RowKey(BoxRow(c.box));
        ClaimRecordAt(claims, c);
        assert BoxTarget(IdentityOf(c.box)) in ClaimTargets(claims);
      }
    }
    forall k, l | k in w.records && l in w.records && IsBox(w.records[k]) && IsBox(w.records[l])
      && IdentityOf(w.records[k].row.value.box) == IdentityOf(w.records[l].row.value.box)
      ensures k == l
    {
      AddedOrKept(v, claims, k);
      AddedOrKept(v, claims, l);
    }
  }

  /** After an add, a container record is one of the claims, or an old record of another identity. */
  lemma AddedOrKept(v: Snapshot, claims: set<Claim>, k: Key)
    requires Owned(v) && Coherent(claims) && Unclaimed(v, claims)
    requires k in ServeBoxes(v, claims, true).records && IsBox(ServeBoxes(v, claims, true).records[k])
    ensures var box := ServeBoxes(v, claims, true).records[k].row.value.box;
            || (exists c :: c in claims && c.box == box && k == RowKey(BoxRow(c.box)))
            || (k in v.records && v.records[k] == ServeBoxes(v, claims, true).records[k]
                && forall c :: c in claims ==> IdentityOf(c.box) != IdentityOf(box))
  {
    if k in ClaimKeys(claims) {
      var c :| c in claims && k == RowKey(BoxRow(c.box));
      ClaimRecordAt(claims, c);
    } else {
      forall c | c in claims ensures IdentityOf(c.box) != IdentityOf(v.records[k].row.value.box) {
      }
    }
  }

  /** Removing recorded containers takes away exactly those records and exactly their targets. */
  lemma RemoveIsExact(v: Snapshot, keys: set<Key>)
    requires Owned(v) && forall k :: k in keys ==> k in v.records && IsBox(v.records[k])
    ensures Coherent(RecordedClaims(v, keys))
    ensures var w := ServeBoxes(v, RecordedClaims(v, keys), false);
            && w.records == v.records - keys
            && w.excluded == v.excluded - BoxTargets(v, keys)
            && Owned(w)
  {
    var claims := RecordedClaims(v, keys);
    OwnedRecordsAreCoherent(v, keys);
    assert ClaimKeys(claims) == keys by {
      forall k | k in keys ensures k in ClaimKeys(claims) {
        assert Claim(v.records[k].row.value.box, v.records[k].reason) in claims;
      }
    }
    assert ClaimTargets(claims) == BoxTargets(v, keys) by {
      forall k | k in keys ensures BoxTarget(IdentityOf(v.records[k].row.value.box)) in ClaimTargets(claims) {
        assert Claim(v.records[k].row.value.box, v.records[k].reason) in claims;
      }
    }
  }

  lemma RefsKeepOwned(v: Snapshot, q: Request)
    requires Owned(v) && Admissible(v, q) && (q.AddRefs? || q.RemoveRefs?)
    ensures Owned(Serve(v, q))
    ensures forall k :: k in v.records && IsBox(v.records[k]) ==> k in Serve(v, q).records && Serve(v, q).records[k] == v.records[k]
  {
  }

  lemma ServeKeepsOwned(v: Snapshot, q: Request)
    requires Owned(v) && Admissible(v, q)
    ensures Owned(Serve(v, q))
  {
    match q
    case AddBoxes(claims) => AddKeepsOwned(v, claims);
    case RemoveRoots(roots) => RemoveIsExact(v, OwnedBy(v, roots));
    case RemoveBoxes(ids) => RemoveIsExact(v, OwnedAs(v, ids));
    case _ => RefsKeepOwned(v, q);
  }

  /** A run of requests, each admissible when it is served; index reads between them change no record. */
  ghost predicate Served(v: Snapshot, qs: seq<Request>, w: Snapshot)
    requires Owned(v)
    decreases |qs|
  {
    if qs == [] then v == w
    else Admissible(v, qs[0]) && (ServeKeepsOwned(v, qs[0]); Served(Serve(v, qs[0]), qs[1..], w))
  }

  lemma {:induction false} RunsKeepOwned(v: Snapshot, qs: seq<Request>, w: Snapshot)
    requires Owned(v) && Served(v, qs, w)
    ensures Owned(w)
    decreases |qs|
  {
    if qs != [] {
      ServeKeepsOwned(v, qs[0]);
      RunsKeepOwned(Serve(v, qs[0]), qs[1..], w);
    }
  }

  /**
   After any run of requests, removing one root clears exactly the targets recorded for it, and no
   record of that root is left.  The XML hierarchy plays no part in it.
   */
  lemma RemovingARootClearsItsTargets(v: Snapshot, qs: seq<Request>, w: Snapshot, root: string)
    requires Owned(v) && Served(v, qs, w)
    ensures Owned(w)
    ensures Serve(w, RemoveRoots({root})).excluded == w.excluded - BoxTargets(w, OwnedBy(w, {root}))
    ensures Serve(w, RemoveRoots({root})).records == w.records - OwnedBy(w, {root})
    ensures OwnedBy(Serve(w, RemoveRoots({root})), {root}) == {}
  {
    RunsKeepOwned(v, qs, w);
    RemoveIsExact(w, OwnedBy(w, {root}));
  }

  /** An instance record that the root was expanded to, by its own fields. */
  predicate HeldByRoot(r: Record, root: string) {
    r.row.Some? && r.row.value.BoxRow? && r.row.value.box.kind == Instance && r.row.value.box.root == root
  }

  /**
   The same by the rows' own fields, after any run: no record expanded from the root is left, the
   records gone are exactly those, and the targets gone are exactly theirs.
   */
  lemma RootRemovalIsExact(v: Snapshot, qs: seq<Request>, w: Snapshot, root: string)
    requires Owned(v) && Served(v, qs, w)
    ensures Owned(w)
    ensures var u := Serve(w, RemoveRoots({root}));
            && (forall k :: k in u.records <==> k in w.records && !HeldByRoot(w.records[k], root))
            && (forall k :: k in u.records ==> u.records[k] == w.records[k])
            && (forall t :: t in u.excluded <==>
                  t in w.excluded && !exists k :: k in w.records && HeldByRoot(w.records[k], root) && TargetOf(w.records[k].row.value.box, t))
  {
    RemovingARootClearsItsTargets(v, qs, w, root);
    forall k ensures k in OwnedBy(w, {root}) <==> k in w.records && HeldByRoot(w.records[k], root) { }
    forall t ensures t in BoxTargets(w, OwnedBy(w, {root})) <==>
                     exists k :: k in w.records && HeldByRoot(w.records[k], root) && TargetOf(w.records[k].row.value.box, t) { }
  }

  /** The targets of different roots are disjoint, and removing one root leaves the others excluded. */
  lemma OtherRootsAreUntouched(v: Snapshot, qs: seq<Request>, w: Snapshot, root: string, other: string)
    requires Owned(v) && Served(v, qs, w) && other != root
    ensures Owned(w)
    ensures OwnedBy(Serve(w, RemoveRoots({root})), {other}) == OwnedBy(w, {other})
    ensures BoxTargets(w, OwnedBy(w, {other})) !! BoxTargets(w, OwnedBy(w, {root}))
    ensures BoxTargets(w, OwnedBy(w, {other})) <= Serve(w, RemoveRoots({root})).excluded
  {
    RunsKeepOwned(v, qs, w);
    RemovingARootClearsItsTargets(v, qs, w, root);
  }

  // ---------- ownership and exclude.csv.apply ----------

  /** An entry as `exclude.csv.apply` records it, its container target among those set. */
  predicate CsvEntry(e: Entry, targets: seq<Target>) {
    && e.record.row.Some? && e.key == RowKey(e.record.row.value)
    && (IsBox(e.record) ==> BoxTarget(IdentityOf(e.record.row.value.box)) in targets)
  }

  predicate Rivals(a: Record, k: Key, b: Record, l: Key) {
    IsBox(a) && IsBox(b) && IdentityOf(a.row.value.box) == IdentityOf(b.row.value.box) && k != l
  }

  /** No container of the entries has another record, old or new, under another row. */
  predicate OneOwner(records: map<Key, Record>, entries: seq<Entry>) {
    && (forall e, k :: e in entries && k in records ==> !Rivals(e.record, e.key, records[k], k))
    && (forall e, f :: e in entries && f in entries ==> !Rivals(e.record, e.key, f.record, f.key))
  }

  /** What is recorded under a key: the last entry for it, or what was there. */
  lemma {:induction false} RecordedAt(records: map<Key, Record>, revision: nat, entries: seq<Entry>, k: Key)
    ensures var now := RecordAll(records, revision, entries).0;
            k in now <==> k in records || exists e :: e in entries && e.key == k
    ensures var now := RecordAll(records, revision, entries).0;
            k in now ==> (exists e :: e in entries && e.key == k && now[k] == e.record)
                         || ((forall e :: e in entries ==> e.key != k) && k in records && now[k] == records[k])
  {
    if entries != [] {
      var n := |entries| - 1;
      RecordedAt(records, revision, entries[..n], k);
      assert entries == entries[..n] + [entries[n]];
    }
  }

  function CsvApplied(v: Snapshot, targets: seq<Target>, entries: seq<Entry>): Snapshot {
    v.(excluded := v.excluded + SeqSet(targets), records := RecordAll(v.records, v.reasonRevision, entries).0,
       reasonRevision := RecordAll(v.records, v.reasonRevision, entries).1)
  }

  /** Records under one key of its own row are of one row. */
  lemma RecordIsOfRow(v: Snapshot, targets: seq<Target>, entries: seq<Entry>, k: Key)
    requires Owned(v) && (forall e :: e in entries ==> CsvEntry(e, targets)) && k in CsvApplied(v, targets, entries).records
    ensures var r := CsvApplied(v, targets, entries).records[k];
            IsBox(r) ==> k == RowKey(r.row.value) && BoxTarget(IdentityOf(r.row.value.box)) in CsvApplied(v, targets, entries).excluded
    ensures (forall e :: e in entries ==> e.key != k) ==> k in v.records && CsvApplied(v, targets, entries).records[k] == v.records[k]
    ensures (exists e :: e in entries && e.key == k) ==>
              exists e :: e in entries && e.key == k && CsvApplied(v, targets, entries).records[k] == e.record
  {
    RecordedAt(v.records, v.reasonRevision, entries, k);
  }

  lemma EntryIsRecorded(v: Snapshot, targets: seq<Target>, entries: seq<Entry>, e: Entry)
    requires Owned(v) && (forall f :: f in entries ==> CsvEntry(f, targets)) && e in entries
    ensures var now := CsvApplied(v, targets, entries).records; e.key in now && now[e.key].row == e.record.row
  {
    RecordedAt(v.records, v.reasonRevision, entries, e.key);
  }

  lemma OldBoxStays(v: Snapshot, targets: seq<Target>, entries: seq<Entry>, k: Key)
    requires Owned(v) && (forall f :: f in entries ==> CsvEntry(f, targets)) && k in v.records && IsBox(v.records[k])
    ensures var now := CsvApplied(v, targets, entries).records; k in now && now[k].row == v.records[k].row
  {
    RecordedAt(v.records, v.reasonRevision, entries, k);
  }

  lemma NoRivals(v: Snapshot, targets: seq<Target>, entries: seq<Entry>, k: Key, l: Key)
    requires Owned(v) && (forall e :: e in entries ==> CsvEntry(e, targets)) && OneOwner(v.records, entries)
    requires k in CsvApplied(v, targets, entries).records && l in CsvApplied(v, targets, entries).records
    ensures var now := CsvApplied(v, targets, entries).records; !Rivals(now[k], k, now[l], l)
  {
    RecordedAt(v.records, v.reasonRevision, entries, k);
    RecordedAt(v.records, v.reasonRevision, entries, l);
  }

  /**
   `exclude.csv.apply` records container rows without asking who owns them.  The ownership invariant
   survives it if and only if no container of the rows has another record under another row.
   */
  lemma CsvKeepsOwnedIffOneOwner(v: Snapshot, targets: seq<Target>, entries: seq<Entry>)
    requires Owned(v) && forall e :: e in entries ==> CsvEntry(e, targets)
    ensures Owned(CsvApplied(v, targets, entries)) <==> OneOwner(v.records, entries)
  {
    var w := CsvApplied(v, targets, entries);
    if OneOwner(v.records, entries) {
      forall k, l | k in w.records && l in w.records ensures !Rivals(w.records[k], k, w.records[l], l) {
        NoRivals(v, targets, entries, k, l);
      }
      forall k | k in w.records && IsBox(w.records[k])
        ensures k == RowKey(w.records[k].row.value) && BoxTarget(IdentityOf(w.records[k].row.value.box)) in w.excluded
      {
        RecordIsOfRow(v, targets, entries, k);
      }
    }
    if Owned(w) {
      forall e, k | e in entries && k in v.records ensures !Rivals(e.record, e.key, v.records[k], k) {
        EntryIsRecorded(v, targets, entries, e);
        if IsBox(v.records[k]) { OldBoxStays(v, targets, entries, k); }
      }
      forall e, f | e in entries && f in entries ensures !Rivals(e.record, e.key, f.record, f.key) {
        EntryIsRecorded(v, targets, entries, e);
        EntryIsRecorded(v, targets, entries, f);
      }
    }
  }
}
