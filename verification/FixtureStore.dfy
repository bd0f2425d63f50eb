/**
 The prepare/publish protocol of the test-fixture store for one fixture: processes that look up,
 claim, build in a private staging directory, publish a version and repoint `current.json`, in any
 interleaving, with crashes and claim takeover.  Names drawn by `mkdtemp` are never drawn twice.
 */
module FixtureStore {
  import opened Wrappers

  datatype Node = File(size: nat) | Dir(entries: nat)
  datatype Kind = FileKind | DirKind | UnknownKind
  datatype Output = Output(path: string, kind: Kind, minBytes: nat)

  type Resources = map<string, Node>

  datatype Manifest = Manifest(fingerprint: string, outputs: seq<Output>)
  datatype Version = Version(fingerprint: string, stage: nat)
  datatype Generation = Generation(manifest: Option<Manifest>, resources: Resources)
  datatype Stage = Stage(maker: nat, content: Generation)
  datatype Current = Current(fingerprint: string, version: Version)

  datatype Pc =
    | Looking
    | Validating(version: Version)
    | Claiming
    | Peeking
    | PeekValidating(version: Version)
    | Aging
    | Seizing
    | Claimed
    | Rechecking
    | RecheckValidating(version: Version)
    | Staging
    | Building(stage: nat)
    | Checking(stage: nat)
    | Probing(stage: nat)
    | Sealing(stage: nat)
    | Renaming(stage: nat)
    | Pointing(version: Version)
    | Discarding(stage: nat)
    | Returning(target: Option<Version>)
    | Done(target: Option<Version>)
    | Crashed

  /** One caller of `prepare`; callers may run different checkouts, hence their own spec. */
  datatype Proc = Proc(fingerprint: string, outputs: seq<Output>, rebuild: bool, pc: Pc)

  /** `drawn` records every name `mkdtemp` returned, `probed` every content that passed all probes. */
  datatype State = State(
    current: Option<Current>,
    versions: map<Version, Generation>,
    staging: map<nat, Stage>,
    claimed: bool,
    procs: map<nat, Proc>,
    drawn: set<nat>,
    probed: set<Resources>)

  datatype Choice = Choice(stale: bool, expired: bool, fails: bool, more: bool, name: nat, resources: Resources)

  datatype Step = Spawn(p: nat, proc: Proc) | Move(p: nat, choice: Choice) | Crash(p: nat)

  predicate OutputPresent(output: Output, resources: Resources) {
    match output.kind
    case FileKind => output.path in resources && resources[output.path].File? && resources[output.path].size >= output.minBytes
    case DirKind => output.path in resources && resources[output.path].Dir? && resources[output.path].entries > 0
    case UnknownKind => false
  }

  /** `_validate_outputs` raises nothing. */
  predicate ValidOutputs(outputs: seq<Output>, resources: Resources) {
    forall i :: 0 <= i < |outputs| ==> OutputPresent(outputs[i], resources)
  }

  /** `_published_target`: the version `current.json` names for this fingerprint, if its directory exists. */
  function PublishedTarget(s: State, fingerprint: string): Option<Version> {
    if s.current.Some? && s.current.value.fingerprint == fingerprint && s.current.value.version in s.versions
    then Some(s.current.value.version) else None
  }

  /** `_validate_published`: manifest present, right fingerprint, outputs in place. */
  predicate ValidPublished(s: State, proc: Proc, v: Version) {
    v in s.versions && s.versions[v].manifest.Some? && s.versions[v].manifest.value.fingerprint == proc.fingerprint
    && ValidOutputs(proc.outputs, s.versions[v].resources)
  }

  function Content(s: State, stage: nat): Generation {
    if stage in s.staging then s.staging[stage].content else Generation(None, map[])
  }

  function NextPc(s: State, proc: Proc, o: Choice): Pc {
    var target := if proc.rebuild then None else PublishedTarget(s, proc.fingerprint);
    match proc.pc
    case Looking => if target.Some? then Validating(target.value) else Claiming
    case Validating(v) => Done(if ValidPublished(s, proc, v) then Some(v) else None)
    case Claiming => if s.claimed then Peeking else Claimed
    case Peeking => if target.Some? then PeekValidating(target.value) else Aging
    case PeekValidating(v) => if ValidPublished(s, proc, v) then Done(Some(v)) else Aging
    case Aging =>
      if !s.claimed then Claiming else if o.stale then Seizing else if o.expired then Done(None) else Claiming
    case Seizing => Claiming
    case Claimed => if o.fails then Returning(None) else Rechecking
    case Rechecking => if target.Some? then RecheckValidating(target.value) else Staging
    case RecheckValidating(v) => Returning(if ValidPublished(s, proc, v) then Some(v) else None)
    case Staging => if o.fails || o.name in s.drawn then Returning(None) else Building(o.name)
    case Building(t) => if o.fails then Discarding(t) else if o.more then Building(t) else Checking(t)
    case Checking(t) => if ValidOutputs(proc.outputs, Content(s, t).resources) then Probing(t) else Discarding(t)
    case Probing(t) => if o.fails then Discarding(t) else Sealing(t)
    case Sealing(t) => if o.fails then Discarding(t) else Renaming(t)
    case Renaming(t) =>
      if o.fails || t !in s.staging || Version(proc.fingerprint, t) in s.versions then Discarding(t)
      else Pointing(Version(proc.fingerprint, t))
    case Pointing(v) => if o.fails then Discarding(v.stage) else Returning(Some(v))
    case Discarding(_) => Returning(None)
    case Returning(r) => Done(r)
    case Done(_) => proc.pc
    case Crashed => Crashed
  }

  /** The caller's own staging directory: created, filled by the builder, sealed, renamed away or removed. */
  function NextStaging(s: State, p: nat, proc: Proc, pc': Pc, o: Choice): map<nat, Stage> {
    match proc.pc
    case Staging => if pc'.Building? then s.staging[pc'.stage := Stage(p, Generation(None, map[]))] else s.staging
    case Building(t) =>
      if t in s.staging then s.staging[t := s.staging[t].(content := Generation(None, o.resources))] else s.staging
    case Sealing(t) =>
      if t in s.staging && pc'.Renaming? then
        var sealed := s.staging[t].content.(manifest := Some(Manifest(proc.fingerprint, proc.outputs)));
        s.staging[t := s.staging[t].(content := sealed)]
      else s.staging
    case Renaming(t) => if pc'.Pointing? then s.staging - {t} else s.staging
    case Discarding(t) => s.staging - {t}
    case _ => s.staging
  }

  function NextVersions(s: State, proc: Proc, pc': Pc): map<Version, Generation> {
    if proc.pc.Renaming? && pc'.Pointing? then s.versions[pc'.version := Content(s, proc.pc.stage)] else s.versions
  }

  /** `current.json` is written to a temporary file and renamed over: one step. */
  function NextCurrent(s: State, proc: Proc, pc': Pc): Option<Current> {
    if proc.pc.Pointing? && pc'.Returning? then Some(Current(proc.fingerprint, proc.pc.version)) else s.current
  }

  function MoveProc(s: State, p: nat, o: Choice): State
    requires p in s.procs
  {
    var proc := s.procs[p];
    var pc' := NextPc(s, proc, o);
    State(NextCurrent(s, proc, pc'),
          NextVersions(s, proc, pc'),
          NextStaging(s, p, proc, pc', o),
          if proc.pc.Claiming? then true else if proc.pc.Seizing? || proc.pc.Returning? then false else s.claimed,
          s.procs[p := proc.(pc := pc')],
          if proc.pc.Staging? && pc'.Building? then s.drawn + {pc'.stage} else s.drawn,
          if proc.pc.Probing? && pc'.Sealing? then s.probed + {Content(s, proc.pc.stage).resources} else s.probed)
  }

  function Apply(s: State, step: Step): State {
    match step
    case Spawn(p, proc) => if p in s.procs then s else s.(procs := s.procs[p := proc.(pc := Looking)])
    case Move(p, o) => if p in s.procs then MoveProc(s, p, o) else s
    case Crash(p) => if p in s.procs then s.(procs := s.procs[p := s.procs[p].(pc := Crashed)]) else s
  }

  ghost function Run(steps: seq<Step>): State {
    if steps == [] then State(None, map[], map[], false, map[], {}, {})
    else Apply(Run(steps[..|steps| - 1]), steps[|steps| - 1])
  }

  // ---------- the invariant ----------

  /** Complete, sealed for the fingerprint in its name, validated and probed. */
  predicate Whole(s: State, v: Version) {
    && v in s.versions && v.stage in s.drawn && v.stage !in s.staging
    && s.versions[v].manifest.Some? && s.versions[v].manifest.value.fingerprint == v.fingerprint
    && ValidOutputs(s.versions[v].manifest.value.outputs, s.versions[v].resources)
    && s.versions[v].resources in s.probed
  }

  /** The stage of process `p`, which nobody else touches, has passed `checked` and, if `probed`, the probes. */
  predicate OwnStage(s: State, p: nat, proc: Proc, stage: nat, checked: bool, probed: bool) {
    && stage in s.staging && s.staging[stage].maker == p
    && (checked ==> ValidOutputs(proc.outputs, s.staging[stage].content.resources))
    && (probed ==> s.staging[stage].content.resources in s.probed)
  }

  predicate Delivered(s: State, proc: Proc, v: Version) {
    Whole(s, v) && v.fingerprint == proc.fingerprint && ValidOutputs(proc.outputs, s.versions[v].resources)
  }

  predicate ProcInv(s: State, p: nat, proc: Proc) {
    match proc.pc
    case Building(t) => OwnStage(s, p, proc, t, false, false)
    case Checking(t) => OwnStage(s, p, proc, t, false, false)
    case Probing(t) => OwnStage(s, p, proc, t, true, false)
    case Sealing(t) => OwnStage(s, p, proc, t, true, true)
    case Renaming(t) =>
      OwnStage(s, p, proc, t, true, true)
      && s.staging[t].content.manifest == Some(Manifest(proc.fingerprint, proc.outputs))
    case Pointing(v) => Delivered(s, proc, v)
    case Discarding(t) => t in s.drawn && (t in s.staging ==> s.staging[t].maker == p)
    case Returning(r) => r.Some? ==> Delivered(s, proc, r.value)
    case Done(r) => r.Some? ==> Delivered(s, proc, r.value)
    case _ => true
  }

  ghost predicate Inv(s: State) {
    && (forall t :: t in s.staging ==> t in s.drawn)
    && (forall v :: v in s.versions ==> Whole(s, v))
    && (s.current.Some? ==> s.current.value.version in s.versions
                            && s.current.value.version.fingerprint == s.current.value.fingerprint)
    && (forall p :: p in s.procs ==> ProcInv(s, p, s.procs[p]))
  }

  /** What a move may do to anybody else's view: versions only grow, and stages of others stay put. */
  ghost predicate Frame(s: State, s': State, p: nat) {
    && s.drawn <= s'.drawn && s.probed <= s'.probed
    && (forall v :: v in s.versions ==> v in s'.versions && s'.versions[v] == s.versions[v])
    && (forall t :: t in s.staging && s.staging[t].maker != p ==> t in s'.staging && s'.staging[t] == s.staging[t])
    && (forall t :: t in s'.staging && t in s.drawn ==> t in s.staging && s'.staging[t].maker == s.staging[t].maker)
    && (forall t :: t in s'.staging ==> t in s'.drawn)
  }

  lemma MoveFrame(s: State, p: nat, o: Choice)
    requires Inv(s) && p in s.procs
    ensures Frame(s, MoveProc(s, p, o), p)
  {
    assert ProcInv(s, p, s.procs[p]);
  }

  lemma FrameKeepsWhole(s: State, s': State, p: nat, v: Version)
    requires Frame(s, s', p) && Whole(s, v)
    ensures Whole(s', v)
  {
  }

  lemma FrameKeepsOthers(s: State, s': State, p: nat, q: nat, proc: Proc)
    requires Frame(s, s', p) && p != q && ProcInv(s, q, proc)
    ensures ProcInv(s', q, proc)
  {
    if proc.pc.Pointing? { FrameKeepsWhole(s, s', p, proc.pc.version); }
    if (proc.pc.Returning? || proc.pc.Done?) && proc.pc.target.Some? { FrameKeepsWhole(s, s', p, proc.pc.target.value); }
  }

  /** A caller that was told about a published version was told about a whole one. */
  lemma PublishedIsDelivered(s: State, proc: Proc, v: Version)
    requires Inv(s) && ValidPublished(s, proc, v)
    ensures Delivered(s, proc, v)
  {
    assert Whole(s, v);
  }

  lemma Renamed(s: State, p: nat, o: Choice, s': State)
    requires Inv(s) && p in s.procs && s' == MoveProc(s, p, o) && s.procs[p].pc.Renaming? && s'.procs[p].pc.Pointing?
    ensures Delivered(s', s'.procs[p], s'.procs[p].pc.version)
  {
    assert ProcInv(s, p, s.procs[p]);
  }

  lemma MovedProc(s: State, p: nat, o: Choice, s': State)
    requires Inv(s) && p in s.procs && s' == MoveProc(s, p, o) && Frame(s, s', p)
    ensures ProcInv(s', p, s'.procs[p])
  {
    var pc := s.procs[p].pc;
    assert ProcInv(s, p, s.procs[p]);
    if pc.Validating? || pc.PeekValidating? || pc.RecheckValidating? {
      MovedValidator(s, p, o, s', pc.version);
    } else if pc.Pointing? || pc.Returning? || pc.Done? {
      MovedDeliverer(s, p, o, s');
    } else {
      MovedOther(s, p, o, s');
    }
  }

  lemma MovedValidator(s: State, p: nat, o: Choice, s': State, v: Version)
    requires Inv(s) && p in s.procs && s' == MoveProc(s, p, o) && Frame(s, s', p)
    requires var pc := s.procs[p].pc; pc == Validating(v) || pc == PeekValidating(v) || pc == RecheckValidating(v)
    ensures ProcInv(s', p, s'.procs[p])
  {
    assert ProcInv(s, p, s.procs[p]);
    if ValidPublished(s, s.procs[p], v) { PublishedIsDelivered(s, s.procs[p], v); }
  }

  lemma MovedDeliverer(s: State, p: nat, o: Choice, s': State)
    requires Inv(s) && p in s.procs && s' == MoveProc(s, p, o) && Frame(s, s', p)
    requires var pc := s.procs[p].pc; pc.Pointing? || pc.Returning? || pc.Done?
    ensures ProcInv(s', p, s'.procs[p])
  {
    var pc := s.procs[p].pc;
    assert ProcInv(s, p, s.procs[p]);
    if pc.Pointing? { FrameKeepsWhole(s, s', p, pc.version); }
    else if pc.target.Some? { FrameKeepsWhole(s, s', p, pc.target.value); }
  }

  lemma MovedOther(s: State, p: nat, o: Choice, s': State)
    requires Inv(s) && p in s.procs && s' == MoveProc(s, p, o) && Frame(s, s', p)
    requires var pc := s.procs[p].pc; !pc.Validating? && !pc.PeekValidating? && !pc.RecheckValidating?
    requires var pc := s.procs[p].pc; !pc.Pointing? && !pc.Returning? && !pc.Done?
    ensures ProcInv(s', p, s'.procs[p])
  {
    assert ProcInv(s, p, s.procs[p]);
    if s.procs[p].pc.Renaming? && s'.procs[p].pc.Pointing? { Renamed(s, p, o, s'); }
  }

  lemma NewVersionIsWhole(s: State, p: nat, o: Choice, s': State, v: Version)
    requires Inv(s) && p in s.procs && s' == MoveProc(s, p, o) && v in s'.versions && v !in s.versions
    ensures Whole(s', v)
  {
    Renamed(s, p, o, s');
  }

  lemma CurrentAfterMove(s: State, p: nat, o: Choice, s': State)
    requires Inv(s) && p in s.procs && s' == MoveProc(s, p, o) && Frame(s, s', p)
    ensures s'.current.Some? ==> s'.current.value.version in s'.versions
                                 && s'.current.value.version.fingerprint == s'.current.value.fingerprint
  {
    assert ProcInv(s, p, s.procs[p]);
  }

  lemma MoveKeepsInv(s: State, p: nat, o: Choice, s': State)
    requires Inv(s) && p in s.procs && s' == MoveProc(s, p, o) && Frame(s, s', p)
    ensures Inv(s')
  {
    CurrentAfterMove(s, p, o, s');
    MovedProc(s, p, o, s');
    forall v | v in s'.versions ensures Whole(s', v) {
      if v in s.versions { FrameKeepsWhole(s, s', p, v); } else { NewVersionIsWhole(s, p, o, s', v); }
    }
    forall q | q in s'.procs ensures ProcInv(s', q, s'.procs[q]) {
      if q != p { FrameKeepsOthers(s, s', p, q, s.procs[q]); }
    }
  }

  lemma OtherStepKeepsProc(s: State, step: Step, q: nat)
    requires Inv(s) && !step.Move? && q in Apply(s, step).procs
    ensures ProcInv(Apply(s, step), q, Apply(s, step).procs[q])
  {
    if q in s.procs { assert ProcInv(s, q, s.procs[q]); }
  }

  lemma OtherStepKeepsInv(s: State, step: Step)
    requires Inv(s) && !step.Move?
    ensures Inv(Apply(s, step)) && Apply(s, step).versions == s.versions
  {
    var s' := Apply(s, step);
    forall v | v in s'.versions ensures Whole(s', v) { assert Whole(s, v); }
    forall q | q in s'.procs ensures ProcInv(s', q, s'.procs[q]) { OtherStepKeepsProc(s, step, q); }
  }

  lemma StepKeepsInv(s: State, step: Step)
    requires Inv(s)
    ensures Inv(Apply(s, step))
    ensures forall v :: v in s.versions ==> v in Apply(s, step).versions && Apply(s, step).versions[v] == s.versions[v]
  {
    if step.Move? && step.p in s.procs {
      MoveFrame(s, step.p, step.choice);
      MoveKeepsInv(s, step.p, step.choice, Apply(s, step));
    } else if !step.Move? {
      OtherStepKeepsInv(s, step);
    }
  }

  lemma {:induction false} RunKeepsInv(steps: seq<Step>)
    ensures Inv(Run(steps))
  {
    if steps != [] {
      RunKeepsInv(steps[..|steps| - 1]);
      StepKeepsInv(Run(steps[..|steps| - 1]), steps[|steps| - 1]);
    }
  }

  // ---------- what it means ----------

  /**
   At every point of every run, `current.json` names a version directory that exists whole, whose
   manifest carries the named fingerprint and whose content passed output validation and probes.
   */
  lemma CurrentNamesAWholeVersion(steps: seq<Step>)
    ensures var s := Run(steps);
            s.current.Some? ==>
              var v := s.current.value.version;
              && v in s.versions
              && s.versions[v].manifest.Some?
              && s.versions[v].manifest.value.fingerprint == s.current.value.fingerprint
              && ValidOutputs(s.versions[v].manifest.value.outputs, s.versions[v].resources)
              && s.versions[v].resources in s.probed
  {
    RunKeepsInv(steps);
  }

  /** Every path handed back is a whole version of the caller's fingerprint with all the caller's outputs. */
  lemma ReturnedTargetIsWhole(steps: seq<Step>, p: nat)
    ensures var s := Run(steps);
            p in s.procs && s.procs[p].pc.Done? && s.procs[p].pc.target.Some? ==>
              Delivered(s, s.procs[p], s.procs[p].pc.target.value)
  {
    RunKeepsInv(steps);
    var s := Run(steps);
    if p in s.procs { assert ProcInv(s, p, s.procs[p]); }
  }

  /** A published version never changes and never disappears. */
  lemma {:induction false} VersionsAreImmutable(steps: seq<Step>, n: nat, v: Version)
    requires n <= |steps| && v in Run(steps[..n]).versions
    ensures v in Run(steps).versions && Run(steps).versions[v] == Run(steps[..n]).versions[v]
    decreases |steps|
  {
    if n == |steps| {
      assert steps[..n] == steps;
    } else {
      var before := steps[..|steps| - 1];
      assert before[..n] == steps[..n];
      VersionsAreImmutable(before, n, v);
      RunKeepsInv(before);
      StepKeepsInv(Run(before), steps[|steps| - 1]);
    }
  }
}
