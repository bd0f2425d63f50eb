/**
 What one call of `FixtureStore.prepare` comes to: why it fails, in any run, what it writes, and what it
 returns when nobody else moves.
 */
module FixtureCalls {
  import opened Wrappers
  import opened FixtureStore

  // ---------- current.json ----------

  /** `p` has finished publishing `v`: it was about to write `current.json` and now returns the version. */
  predicate Publishes(s: State, t: State, p: nat, v: Version) {
    p in s.procs && p in t.procs && s.procs[p].pc == Pointing(v) && t.procs[p].pc == Returning(Some(v))
  }

  /** In every run a caller that has published is named by `current.json`, and no other step moves `current.json`. */
  lemma CurrentFollowsPublication(steps: seq<Step>, step: Step)
    ensures var s, t := Run(steps), Apply(Run(steps), step);
            && (forall p, v :: Publishes(s, t, p, v) ==> t.current == Some(Current(v.fingerprint, v)))
            && (t.current == s.current || exists p, v :: Publishes(s, t, p, v))
  {
    var s, t := Run(steps), Apply(Run(steps), step);
    RunKeepsInv(steps);
    forall p, v | Publishes(s, t, p, v) ensures t.current == Some(Current(v.fingerprint, v)) {
      assert ProcInv(s, p, s.procs[p]);
    }
    if t.current != s.current {
      assert step.Move? && step.p in s.procs;
      assert Publishes(s, t, step.p, s.procs[step.p].pc.version);
    }
  }

  // ---------- why a call fails ----------

  predicate Failing(pc: Pc) {
    (pc.Returning? || pc.Done?) && pc.target.None?
  }

  /** On the way out with an error: the stage is still to be removed. */
  predicate Doomed(pc: Pc) {
    pc.Discarding? || Failing(pc)
  }

  /** The published version is no good to this caller. */
  predicate Unfit(s: State, proc: Proc, v: Version) {
    !(v in s.versions && s.versions[v].manifest.Some? && s.versions[v].manifest.value.fingerprint == proc.fingerprint
      && ValidOutputs(proc.outputs, s.versions[v].resources))
  }

  /** What makes the next move of a caller doom its call. */
  predicate Cause(s: State, proc: Proc, o: Choice) {
    match proc.pc
    case Validating(v) => Unfit(s, proc, v)
    case RecheckValidating(v) => Unfit(s, proc, v)
    case Aging => s.claimed && !o.stale && o.expired
    case Claimed => o.fails
    case Staging => o.fails || o.name in s.drawn
    case Building(_) => o.fails
    case Checking(t) => !(t in s.staging && ValidOutputs(proc.outputs, s.staging[t].content.resources))
    case Probing(_) => o.fails
    case Sealing(_) => o.fails
    case Renaming(t) => o.fails || t !in s.staging || Version(proc.fingerprint, t) in s.versions
    case Pointing(_) => o.fails
    case _ => false
  }

  lemma MoveIs(s: State, p: nat, o: Choice)
    requires p in s.procs
    ensures var t := Apply(s, Move(p, o)); var proc := s.procs[p]; var pc' := NextPc(s, proc, o);
            && t.procs == s.procs[p := proc.(pc := pc')]
            && t.current == NextCurrent(s, proc, pc') && t.versions == NextVersions(s, proc, pc')
            && t.staging == NextStaging(s, p, proc, pc', o)
            && t.drawn == (if proc.pc.Staging? && pc'.Building? then s.drawn + {pc'.stage} else s.drawn)
            && t.claimed == if proc.pc.Claiming? then true else if proc.pc.Seizing? || proc.pc.Returning? then false else s.claimed
  {
  }

  lemma NextIsDoomed(s: State, proc: Proc, o: Choice)
    requires !Doomed(proc.pc)
    requires proc.pc.Checking? ==> proc.pc.stage in s.staging
    ensures Doomed(NextPc(s, proc, o)) <==> Cause(s, proc, o)
  {
  }

  /** In a state of a run a move dooms a call exactly when it had a cause, and a doomed call stays so. */
  lemma FailsIffCaused(steps: seq<Step>, p: nat, o: Choice)
    requires p in Run(steps).procs
    ensures var s := Run(steps);
            var t := Apply(s, Move(p, o));
            p in t.procs && (Doomed(t.procs[p].pc) <==> Doomed(s.procs[p].pc) || Cause(s, s.procs[p], o))
  {
    var s := Run(steps);
    RunKeepsInv(steps);
    assert ProcInv(s, p, s.procs[p]);
    MoveIs(s, p, o);
    if !Doomed(s.procs[p].pc) { NextIsDoomed(s, s.procs[p], o); }
  }

  lemma OnlyMovesFail(s: State, step: Step, p: nat)
    requires p in Apply(s, step).procs && Doomed(Apply(s, step).procs[p].pc) && !(step.Move? && step.p == p)
    ensures p in s.procs && Doomed(s.procs[p].pc)
  {
  }

  /** The `i`-th step of a run is a move of `p` that had a cause to fail. */
  ghost predicate CausedAt(steps: seq<Step>, p: nat, i: nat)
    requires i < |steps|
  {
    var s := Run(steps[..i]);
    steps[i].Move? && steps[i].p == p && p in s.procs && Cause(s, s.procs[p], steps[i].choice)
  }

  /** Whatever the run, a call ends in an error only after a move of its own that had a cause. */
  lemma {:induction false} FailureHasCause(steps: seq<Step>, p: nat) returns (i: nat)
    requires p in Run(steps).procs && Doomed(Run(steps).procs[p].pc)
    ensures i < |steps| && CausedAt(steps, p, i)
    decreases |steps|
  {
    var before, last := steps[..|steps| - 1], steps[|steps| - 1];
    var s := Run(before);
    if p in s.procs && Doomed(s.procs[p].pc) {
      i := FailureHasCause(before, p);
      assert before[..i] == steps[..i] && before[i] == steps[i];
    } else {
      i := |steps| - 1;
      if !(last.Move? && last.p == p) { OnlyMovesFail(s, last, p); }
      FailsIffCaused(before, p, last.choice);
    }
  }

  // ---------- a call alone ----------

  /** What callers share, but for the contents that passed probes. */
  datatype Store = Store(current: Option<Current>, versions: map<Version, Generation>, staging: map<nat, Stage>, claimed: bool, drawn: set<nat>)

  /** A caller that moves alone, each time as its environment decides; `run(n)` is the state after `n` moves. */
  datatype Call = Call(p: nat, proc: Proc, env: nat -> Choice, run: nat -> State)

  ghost predicate Steps(call: Call, n: nat) {
    call.run(n + 1) == Apply(call.run(n), Move(call.p, call.env(n)))
  }

  ghost predicate Goes(call: Call) {
    && call.p in call.run(0).procs && call.run(0).procs[call.p] == call.proc
    && forall n :: Steps(call, n)
  }

  /** Nothing fails, `mkdtemp` draws a new name, and the builder gives the outputs and comes to an end. */
  ghost predicate Smooth(call: Call, n: nat) {
    && !call.env(n).fails && call.env(n).name !in call.run(n).drawn
    && ValidOutputs(call.proc.outputs, call.env(n).resources)
    && exists m :: Last(call, n, m)
  }

  predicate Last(call: Call, n: nat, m: nat) {
    n <= m && !call.env(m).more
  }

  ghost predicate Fair(call: Call) {
    Goes(call) && forall n :: Smooth(call, n)
  }

  function StoreOf(s: State): Store {
    Store(s.current, s.versions, s.staging, s.claimed, s.drawn)
  }

  /** After `n` moves the store is this, and the caller is at `pc`; no other caller has changed. */
  ghost predicate At(call: Call, n: nat, store: Store, pc: Pc) {
    StoreOf(call.run(n)) == store && call.run(n).procs == call.run(0).procs[call.p := call.proc.(pc := pc)]
  }

  lemma OneMove(call: Call, n: nat, store: Store, pc: Pc) returns (s: State)
    requires Goes(call) && At(call, n, store, pc)
    ensures StoreOf(s) == store && s == call.run(n)
    ensures var proc, o := call.proc.(pc := pc), call.env(n);
            var pc' := NextPc(s, proc, o);
            At(call, n + 1, Store(NextCurrent(s, proc, pc'), NextVersions(s, proc, pc'), NextStaging(s, call.p, proc, pc', o),
                                  if pc.Claiming? then true else if pc.Seizing? || pc.Returning? then false else store.claimed,
                                  if pc.Staging? && pc'.Building? then store.drawn + {pc'.stage} else store.drawn), pc')
  {
    s := call.run(n);
    assert Steps(call, n);
    MoveIs(s, call.p, call.env(n));
  }

  /** A move that changes nothing shared. */
  lemma QuietMove(call: Call, n: nat, store: Store, pc: Pc, pc': Pc)
    requires Goes(call) && At(call, n, store, pc) && NextPc(call.run(n), call.proc.(pc := pc), call.env(n)) == pc'
    requires pc.Looking? || pc.Validating? || pc.Claimed? || pc.Rechecking? || pc.Checking? || pc.Probing?
    ensures At(call, n + 1, store, pc')
  {
    var s := OneMove(call, n, store, pc);
  }

  /** What a look at the store finds: the version `current.json` names for this fingerprint, if it is there. */
  function Named(store: Store, proc: Proc): Option<Version> {
    if !proc.rebuild && store.current.Some? && store.current.value.fingerprint == proc.fingerprint
       && store.current.value.version in store.versions
    then Some(store.current.value.version) else None
  }

  /** Where a first look leads. */
  lemma LookAlone(call: Call, n: nat, store: Store)
    requires Goes(call) && At(call, n, store, Looking)
    ensures At(call, n + 1, store, if Named(store, call.proc).Some? then Validating(Named(store, call.proc).value) else Claiming)
  {
    QuietMove(call, n, store, Looking, if Named(store, call.proc).Some? then Validating(Named(store, call.proc).value) else Claiming);
  }

  /** The version has a manifest of the fingerprint and the outputs asked for. */
  predicate Fit(store: Store, proc: Proc, v: Version) {
    && v in store.versions && store.versions[v].manifest.Some?
    && store.versions[v].manifest.value.fingerprint == proc.fingerprint
    && ValidOutputs(proc.outputs, store.versions[v].resources)
  }

  lemma ValidateAlone(call: Call, n: nat, store: Store, v: Version)
    requires Goes(call) && At(call, n, store, Validating(v))
    ensures At(call, n + 1, store, Done(if Fit(store, call.proc, v) then Some(v) else None))
  {
    QuietMove(call, n, store, Validating(v), Done(if Fit(store, call.proc, v) then Some(v) else None));
  }

  lemma ClaimAlone(call: Call, n: nat, store: Store)
    requires Fair(call) && At(call, n, store, Claiming) && !store.claimed && Named(store, call.proc).None?
    ensures At(call, n + 3, store.(claimed := true), Staging)
  {
    var s := OneMove(call, n, store, Claiming);
    assert Smooth(call, n + 1);
    QuietMove(call, n + 1, store.(claimed := true), Claimed, Rechecking);
    QuietMove(call, n + 2, store.(claimed := true), Rechecking, Staging);
  }

  function Staged(store: Store, p: nat, t: nat, content: Generation): Store {
    store.(staging := store.staging[t := Stage(p, content)])
  }

  lemma StageAlone(call: Call, n: nat, store: Store) returns (t: nat)
    requires Fair(call) && At(call, n, store, Staging)
    ensures t == call.env(n).name && t !in store.drawn
    ensures At(call, n + 1, Staged(store.(drawn := store.drawn + {t}), call.p, t, Generation(None, map[])), Building(t))
  {
    assert Smooth(call, n);
    t := call.env(n).name;
    var s := OneMove(call, n, store, Staging);
  }

  /** One write of the builder. */
  lemma WriteAlone(call: Call, n: nat, store: Store, t: nat, content: Generation)
    requires Fair(call) && At(call, n, Staged(store, call.p, t, content), Building(t))
    ensures At(call, n + 1, Staged(store, call.p, t, Generation(None, call.env(n).resources)),
               if call.env(n).more then Building(t) else Checking(t))
  {
    assert Smooth(call, n);
    var s := OneMove(call, n, Staged(store, call.p, t, content), Building(t));
  }

  /** The builder writes until it has no more to write. */
  lemma {:induction false} BuildUntil(call: Call, n: nat, last: nat, store: Store, t: nat, content: Generation) returns (m: nat)
    requires Fair(call) && At(call, n, Staged(store, call.p, t, content), Building(t)) && Last(call, n, last)
    ensures n < m && At(call, m, Staged(store, call.p, t, Generation(None, call.env(m - 1).resources)), Checking(t))
    decreases last - n
  {
    WriteAlone(call, n, store, t, content);
    if call.env(n).more {
      m := BuildUntil(call, n + 1, last, store, t, Generation(None, call.env(n).resources));
    } else {
      m := n + 1;
    }
  }

  lemma CheckAlone(call: Call, n: nat, store: Store, t: nat, resources: Resources)
    requires Fair(call) && At(call, n, Staged(store, call.p, t, Generation(None, resources)), Checking(t))
    requires ValidOutputs(call.proc.outputs, resources)
    ensures At(call, n + 2, Staged(store, call.p, t, Generation(None, resources)), Sealing(t))
  {
    var here := Staged(store, call.p, t, Generation(None, resources));
    assert Smooth(call, n + 1);
    QuietMove(call, n, here, Checking(t), Probing(t));
    QuietMove(call, n + 1, here, Probing(t), Sealing(t));
  }

  function Sealed(proc: Proc, resources: Resources): Generation {
    Generation(Some(Manifest(proc.fingerprint, proc.outputs)), resources)
  }

  lemma SealAlone(call: Call, n: nat, store: Store, t: nat, resources: Resources)
    requires Fair(call) && At(call, n, Staged(store, call.p, t, Generation(None, resources)), Sealing(t))
    ensures At(call, n + 1, Staged(store, call.p, t, Sealed(call.proc, resources)), Renaming(t))
  {
    assert Smooth(call, n);
    var s := OneMove(call, n, Staged(store, call.p, t, Generation(None, resources)), Sealing(t));
  }

  lemma RenameAlone(call: Call, n: nat, store: Store, t: nat, content: Generation)
    requires Fair(call) && At(call, n, Staged(store, call.p, t, content), Renaming(t))
    requires t !in store.staging && Version(call.proc.fingerprint, t) !in store.versions
    ensures var v := Version(call.proc.fingerprint, t);
            At(call, n + 1, store.(versions := store.versions[v := content]), Pointing(v))
  {
    assert Smooth(call, n);
    var s := OneMove(call, n, Staged(store, call.p, t, content), Renaming(t));
    assert store.staging[t := Stage(call.p, content)] - {t} == store.staging;
  }

  lemma PointAlone(call: Call, n: nat, store: Store, v: Version)
    requires Fair(call) && At(call, n, store, Pointing(v))
    ensures At(call, n + 2, store.(current := Some(Current(call.proc.fingerprint, v)), claimed := false), Done(Some(v)))
  {
    assert Smooth(call, n);
    var s := OneMove(call, n, store, Pointing(v));
    s := OneMove(call, n + 1, store.(current := Some(Current(call.proc.fingerprint, v))), Returning(Some(v)));
  }

  /** The store once `v` is published with this content under a name just drawn. */
  function Published(store: Store, fingerprint: string, t: nat, content: Generation): Store {
    var v := Version(fingerprint, t);
    store.(current := Some(Current(fingerprint, v)), versions := store.versions[v := content], claimed := false, drawn := store.drawn + {t})
  }

  /** Names are drawn before they are used. */
  predicate Drawn(store: Store) {
    && (forall t :: t in store.staging ==> t in store.drawn)
    && (forall v :: v in store.versions ==> v.stage in store.drawn)
  }

  /** The version published: its name was new, its content is what the builder wrote last. */
  ghost predicate EndsNew(call: Call, n: nat, store: Store, t: nat, k: nat) {
    && k < n && t !in store.drawn && ValidOutputs(call.proc.outputs, call.env(k).resources)
    && At(call, n, Published(store, call.proc.fingerprint, t, Sealed(call.proc, call.env(k).resources)),
          Done(Some(Version(call.proc.fingerprint, t))))
  }

  lemma PrepareAlone(call: Call, n: nat, store: Store) returns (m: nat, t: nat, k: nat)
    requires Fair(call) && At(call, n, store, Claiming) && !store.claimed && Named(store, call.proc).None? && Drawn(store)
    ensures EndsNew(call, m, store, t, k)
  {
    var held := store.(claimed := true);
    ClaimAlone(call, n, store);
    t := StageAlone(call, n + 3, held);
    m, k := BuildAlone(call, n + 4, held.(drawn := held.drawn + {t}), t);
  }

  lemma BuildAlone(call: Call, n: nat, store: Store, t: nat) returns (m: nat, k: nat)
    requires Fair(call) && At(call, n, Staged(store, call.p, t, Generation(None, map[])), Building(t))
    requires t !in store.staging && Version(call.proc.fingerprint, t) !in store.versions
    ensures k < m && ValidOutputs(call.proc.outputs, call.env(k).resources)
    ensures var v := Version(call.proc.fingerprint, t);
            At(call, m, store.(versions := store.versions[v := Sealed(call.proc, call.env(k).resources)],
                               current := Some(Current(call.proc.fingerprint, v)), claimed := false), Done(Some(v)))
  {
    assert Smooth(call, n);
    var last :| Last(call, n, last);
    m := BuildUntil(call, n, last, store, t, Generation(None, map[]));
    k := m - 1;
    assert Smooth(call, k);
    var resources := call.env(k).resources;
    CheckAlone(call, m, store, t, resources);
    SealAlone(call, m + 2, store, t, resources);
    RenameAlone(call, m + 3, store, t, Sealed(call.proc, resources));
    var v := Version(call.proc.fingerprint, t);
    PointAlone(call, m + 4, store.(versions := store.versions[v := Sealed(call.proc, resources)]), v);
    m := m + 6;
  }

  /**
   From any state of any run in which nobody has the claim, a caller at its start that moves alone without
   failures returns: what `current.json` names for it, if it names anything (or an error, if that is unfit),
   and otherwise a version of its own, whole and named by it; claims and stages are as they were.
   */
  lemma CallAloneReturns(call: Call, steps: seq<Step>) returns (n: nat)
    requires call.run(0) == Run(steps) && Fair(call) && call.proc.pc.Looking? && !call.run(0).claimed
    ensures var store := StoreOf(call.run(0)); var named := Named(store, call.proc);
            if named.Some? then At(call, n, store, Done(if Fit(store, call.proc, named.value) then named else None))
            else exists t, k :: EndsNew(call, n, store, t, k)
  {
    var store := StoreOf(call.run(0));
    RunKeepsInv(steps);
    assert forall v :: v in store.versions ==> Whole(call.run(0), v);
    assert call.run(0).procs[call.p := call.proc] == call.run(0).procs;
    LookAlone(call, 0, store);
    if Named(store, call.proc).Some? {
      ValidateAlone(call, 1, store, Named(store, call.proc).value);
      n := 2;
    } else {
      var t, k;
      n, t, k := PrepareAlone(call, 1, store);
    }
  }

  /**
   A later caller with the same fingerprint and outputs, not asked to rebuild, gets in three steps the
   version that an earlier one was given and `current.json` still names; no version is made and no name drawn.
   */
  lemma SecondCallerReuses(steps: seq<Step>, p: nat, v: Version, q: nat, proc: Proc, o1: Choice, o2: Choice)
    requires var s := Run(steps);
             && p in s.procs && s.procs[p].pc == Done(Some(v)) && s.current == Some(Current(v.fingerprint, v)) && q !in s.procs
             && proc.fingerprint == s.procs[p].fingerprint && proc.outputs == s.procs[p].outputs && !proc.rebuild
    ensures var s := Run(steps); var t := Apply(Apply(Apply(s, Spawn(q, proc)), Move(q, o1)), Move(q, o2));
            && q in t.procs && t.procs[q].pc == Done(Some(v))
            && t.versions == s.versions && t.drawn == s.drawn && t.current == s.current && t.staging == s.staging
  {
    var s := Run(steps);
    ReturnedTargetIsWhole(steps, p);
    var s1 := Apply(s, Spawn(q, proc));
    MoveIs(s1, q, o1);
    MoveIs(Apply(s1, Move(q, o1)), q, o2);
  }

  ghost function After(s: State, p: nat, env: nat -> Choice, n: nat): State {
    if n == 0 then s else Apply(After(s, p, env, n - 1), Move(p, env(n - 1)))
  }

  /** From every state and for every environment there is such a call. */
  lemma CallExists(s: State, p: nat, env: nat -> Choice) returns (call: Call)
    requires p in s.procs
    ensures Goes(call) && call.run(0) == s && call.p == p && call.proc == s.procs[p] && call.env == env
  {
    var run := (n: nat) => After(s, p, env, n);
    call := Call(p, s.procs[p], env, run);
    forall n: nat ensures Steps(call, n) { assert run(n + 1) == Apply(run(n), Move(p, env(n))); }
  }
}
