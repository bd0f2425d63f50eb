/**
 What one call of `load_cached_urg_summary` comes to: why it fails, in any run, and what it returns
 when nobody else moves.
 */
module UrgCalls {
  import opened Wrappers
  import opened UrgCache

  // ---------- why a call fails ----------

  predicate Failing(pc: Pc) {
    (pc.Returning? || pc.Done?) && pc.outcome.Failed?
  }

  /** What makes the next move of a process end its call in an error. */
  predicate Cause(c: Config, s: State, proc: Proc, o: Choice) {
    var key := Key(proc.identity);
    match proc.pc
    case Waiting => key in s.claims && !o.stale && o.expired
    case Claimed => o.fails
    case Quarantining => o.fails || key !in s.entries
    case Admitting => o.fails || |s.entries| >= c.maxEntries
    case Building => o.fails || Parse(c, o.report).None?
    case Publishing(_, _) => o.fails || (key in s.entries && s.entries[key] != Entry(None, None, map[]))
    case Settling(_) => o.fails
    case _ => false
  }

  /** A move ends in an error exactly when it had a cause. */
  lemma FailsIffCaused(c: Config, s: State, p: nat, o: Choice)
    requires p in s.procs && !Failing(s.procs[p].pc)
    ensures p in Apply(c, s, Move(p, o)).procs && (Failing(Apply(c, s, Move(p, o)).procs[p].pc) <==> Cause(c, s, s.procs[p], o))
  {
    MoveIs(c, s, p, o, Apply(c, s, Move(p, o)));
    var proc := s.procs[p];
    if proc.pc.Claimed? || proc.pc.Quarantining? || proc.pc.Admitting? || proc.pc.Building? || proc.pc.Publishing? || proc.pc.Settling? {
      BuilderFails(c, s, proc, o);
    } else {
      OthersFail(c, s, proc, o);
    }
  }

  lemma BuilderFails(c: Config, s: State, proc: Proc, o: Choice)
    requires var pc := proc.pc;
             pc.Claimed? || pc.Quarantining? || pc.Admitting? || pc.Building? || pc.Publishing? || pc.Settling?
    ensures Failing(NextPc(c, s.entries, s.claims, proc, o)) <==> Cause(c, s, proc, o)
  {
  }

  lemma OthersFail(c: Config, s: State, proc: Proc, o: Choice)
    requires !Failing(proc.pc)
    requires var pc := proc.pc;
             !(pc.Claimed? || pc.Quarantining? || pc.Admitting? || pc.Building? || pc.Publishing? || pc.Settling?)
    ensures Failing(NextPc(c, s.entries, s.claims, proc, o)) <==> Cause(c, s, proc, o)
  {
  }

  lemma OnlyMovesFail(c: Config, s: State, step: Step, p: nat)
    requires p in Apply(c, s, step).procs && Failing(Apply(c, s, step).procs[p].pc)
    requires !(step.Move? && step.p == p)
    ensures p in s.procs && Failing(s.procs[p].pc)
  {
  }

  /** The `i`-th step of a run is a move of `p` that had a cause to fail. */
  ghost predicate CausedAt(c: Config, steps: seq<Step>, p: nat, i: nat)
    requires i < |steps|
  {
    var s := Run(c, steps[..i]);
    steps[i].Move? && steps[i].p == p && p in s.procs && Cause(c, s, s.procs[p], steps[i].choice)
  }

  /** Whatever the run, a call ends in an error only after a move of its own that had a cause. */
  lemma {:induction false} FailureHasCause(c: Config, steps: seq<Step>, p: nat) returns (i: nat)
    requires p in Run(c, steps).procs && Failing(Run(c, steps).procs[p].pc)
    ensures i < |steps| && CausedAt(c, steps, p, i)
    decreases |steps|
  {
    var before, last := steps[..|steps| - 1], steps[|steps| - 1];
    var s := Run(c, before);
    if p in s.procs && Failing(s.procs[p].pc) {
      i := FailureHasCause(c, before, p);
      assert before[..i] == steps[..i] && before[i] == steps[i];
    } else {
      i := |steps| - 1;
      NewFailureHasCause(c, s, last, p);
    }
  }

  lemma NewFailureHasCause(c: Config, s: State, step: Step, p: nat)
    requires p in Apply(c, s, step).procs && Failing(Apply(c, s, step).procs[p].pc)
    requires p in s.procs ==> !Failing(s.procs[p].pc)
    ensures step.Move? && step.p == p && p in s.procs && Cause(c, s, s.procs[p], step.choice)
  {
    if !(step.Move? && step.p == p) { OnlyMovesFail(c, s, step, p); }
    else if p in s.procs { FailsIffCaused(c, s, p, step.choice); }
  }

  // ---------- what an entry is read as ----------

  /** An entry is a hit exactly if it is the stage of a build of this identity, file by file. */
  function ReadsAs(c: Config, e: Entry, identity: Identity): Option<Index> {
    var index := Parse(c, e.report);
    if index.Some? && e == Stage(Build(identity, e.report, index.value)) then index else None
  }

  /** What has been read so far is what stands in the entry. */
  predicate Fits(e: Entry, identity: Identity, read: Read) {
    && e.manifest == Some(read.manifest)
    && (!read.Marking? ==> GoodHeader(read.manifest, identity, e.marker))
    && (read.Hashing? || read.Parsing? ==>
          Complete(e.report) && |read.hashed| <= |ARTIFACTS| && read.hashed == Metadata(e.report)[..|read.hashed|])
    && (read.Parsing? ==> read.hashed == Metadata(e.report) && read.tests == e.report["tests.txt"])
  }

  /** The steps of reading that are left. */
  function Left(read: Read): nat {
    match read
    case Marking(_) => 9
    case Listing(_) => 8
    case Hashing(_, hashed) => if |hashed| <= 6 then 7 - |hashed| else 0
    case Parsing(_, _, _) => 0
  }

  lemma HashFits(report: Report, n: nat)
    requires Complete(report) && n < |ARTIFACTS|
    ensures Metadata(report)[..n] + [Info(report[ARTIFACTS[n]])] == Metadata(report)[..n + 1]
  {
  }

  /** The comparisons that end a read hold exactly for the stage of a build. */
  lemma ParsedFits(c: Config, e: Entry, identity: Identity, read: Read)
    requires Fits(e, identity, read) && read.Parsing?
    ensures var next := Parsed(read.manifest, read.hashed, c.parse(read.tests, e.report["session.xml"]));
            && !next.More? && (next.Valid? <==> ReadsAs(c, e, identity).Some?)
            && (next.Valid? ==> ReadsAs(c, e, identity) == Some(next.index))
  {
    var index := c.parse(read.tests, e.report["session.xml"]);
    assert index == Parse(c, e.report);
    if index.Some? {
      var b := Build(identity, e.report, index.value);
      assert e == Stage(b) <==> read.manifest == ManifestOf(b);
    }
  }

  lemma ReadAhead(c: Config, entries: map<Key, Entry>, identity: Identity, read: Read)
    requires Key(identity) in entries && Fits(entries[Key(identity)], identity, read)
    ensures var next := NextRead(c, entries, identity, read);
            var value := ReadsAs(c, entries[Key(identity)], identity);
            && (next.More? ==> Fits(entries[Key(identity)], identity, next.read) && Left(next.read) < Left(read))
            && (next.Valid? ==> value == Some(next.index)) && (next.Invalid? ==> value == None)
  {
    var e := entries[Key(identity)];
    match read
    case Marking(m) => if !GoodHeader(m, identity, e.marker) { MarkFits(c, e, identity, m); }
    case Listing(_) =>
    case Hashing(m, hashed) => if |hashed| < |ARTIFACTS| { HashFits(e.report, |hashed|); }
    case Parsing(_, _, _) => ParsedFits(c, e, identity, read);
  }

  lemma MarkFits(c: Config, e: Entry, identity: Identity, m: Manifest)
    requires e.manifest == Some(m) && !GoodHeader(m, identity, e.marker)
    ensures ReadsAs(c, e, identity) == None
  {
  }

  // ---------- a call alone ----------

  /** A process that moves alone, each time as its environment decides; `run(n)` is the state after `n` moves. */
  datatype Call = Call(c: Config, p: nat, identity: Identity, env: nat -> Choice, run: nat -> State) {
    function Start(): State { run(0) }
  }

  ghost predicate Steps(call: Call, n: nat) {
    call.run(n + 1) == Apply(call.c, call.run(n), Move(call.p, call.env(n)))
  }

  ghost predicate Goes(call: Call) {
    && call.p in call.Start().procs && call.Start().procs[call.p].identity == call.identity
    && forall n :: Steps(call, n)
  }

  /** These are the entries and claims, and the process is at `pc`; nobody else has changed. */
  ghost predicate Stands(call: Call, u: State, entries: map<Key, Entry>, claims: map<Key, nat>, pc: Pc) {
    u.entries == entries && u.claims == claims && u.procs == call.Start().procs[call.p := Proc(call.identity, pc)]
  }

  /** So it is after `n` moves. */
  ghost predicate At(call: Call, n: nat, entries: map<Key, Entry>, claims: map<Key, nat>, pc: Pc) {
    Stands(call, call.run(n), entries, claims, pc)
  }

  lemma OneMove(call: Call, n: nat, entries: map<Key, Entry>, claims: map<Key, nat>, pc: Pc)
    requires Goes(call) && At(call, n, entries, claims, pc)
    ensures var proc := Proc(call.identity, pc);
            var pc' := NextPc(call.c, entries, claims, proc, call.env(n));
            At(call, n + 1, NextEntries(entries, proc, pc'), NextClaims(claims, call.p, proc, pc'), pc')
  {
    assert Steps(call, n);
    MoveIs(call.c, call.run(n), call.p, call.env(n), call.run(n + 1));
  }

  /** A move that touches neither entries nor claims. */
  lemma QuietMove(call: Call, n: nat, entries: map<Key, Entry>, claims: map<Key, nat>, pc: Pc, pc': Pc)
    requires Goes(call) && At(call, n, entries, claims, pc)
    requires NextPc(call.c, entries, claims, Proc(call.identity, pc), call.env(n)) == pc'
    requires !pc.Quarantining? && !pc.Publishing? && !pc.Claiming? && !pc.Seizing? && !pc.Returning?
    ensures At(call, n + 1, entries, claims, pc')
  {
    OneMove(call, n, entries, claims, pc);
  }

  /** No choice fails, and every report that URG writes parses. */
  ghost predicate Fair(call: Call) {
    Goes(call) && forall n :: Smooth(call, n)
  }

  predicate Smooth(call: Call, n: nat) {
    !call.env(n).fails && Parse(call.c, call.env(n).report).Some?
  }

  /** The two places a read can stand, and where each goes from there. */
  function ReadPc(first: bool, read: Read): Pc {
    if first then ProbingEntry(read) else RecheckingEntry(read)
  }

  function ReadEnd(first: bool, index: Option<Index>): Pc {
    match index
    case Some(i) => if first then Done(Hit(i)) else Returning(Hit(i))
    case None => if first then Claiming else Inspecting
  }

  function AfterRead(first: bool, next: Progress): Pc {
    match next
    case More(r) => ReadPc(first, r)
    case Valid(i) => ReadEnd(first, Some(i))
    case Invalid => ReadEnd(first, None)
  }

  lemma ReadPcNext(c: Config, entries: map<Key, Entry>, claims: map<Key, nat>, id: Identity, o: Choice, first: bool, read: Read)
    ensures NextPc(c, entries, claims, Proc(id, ReadPc(first, read)), o) == AfterRead(first, NextRead(c, entries, id, read))
  {
    var next := NextRead(c, entries, id, read);
  }

  lemma ReadMove(call: Call, n: nat, entries: map<Key, Entry>, claims: map<Key, nat>, first: bool, read: Read)
    requires Goes(call) && At(call, n, entries, claims, ReadPc(first, read))
    ensures At(call, n + 1, entries, claims, AfterRead(first, NextRead(call.c, entries, call.identity, read)))
  {
    ReadPcNext(call.c, entries, claims, call.identity, call.env(n), first, read);
    QuietMove(call, n, entries, claims, ReadPc(first, read), AfterRead(first, NextRead(call.c, entries, call.identity, read)));
  }

  /** A read that nobody disturbs comes to what the entry is read as. */
  lemma {:induction false} ReadAlone(call: Call, n: nat, entries: map<Key, Entry>, claims: map<Key, nat>, first: bool, read: Read)
    returns (m: nat)
    requires Goes(call) && At(call, n, entries, claims, ReadPc(first, read))
    requires Key(call.identity) in entries && Fits(entries[Key(call.identity)], call.identity, read)
    ensures n < m <= n + 1 + Left(read)
    ensures At(call, m, entries, claims, ReadEnd(first, ReadsAs(call.c, entries[Key(call.identity)], call.identity)))
    decreases Left(read)
  {
    var next := NextRead(call.c, entries, call.identity, read);
    ReadAhead(call.c, entries, call.identity, read);
    ReadMove(call, n, entries, claims, first, read);
    m := n + 1;
    if next.More? { m := ReadAlone(call, n + 1, entries, claims, first, next.read); }
  }

  /** What a look at the cache gives: nothing without an entry. */
  function Lookup(c: Config, entries: map<Key, Entry>, identity: Identity): Option<Index> {
    if Key(identity) in entries then ReadsAs(c, entries[Key(identity)], identity) else None
  }

  function LookPc(first: bool): Pc {
    if first then Probing else Rechecking
  }

  lemma LookPcNext(c: Config, entries: map<Key, Entry>, claims: map<Key, nat>, id: Identity, o: Choice, first: bool)
    ensures NextPc(c, entries, claims, Proc(id, LookPc(first)), o)
            == if Key(id) in entries && entries[Key(id)].manifest.Some? then ReadPc(first, Marking(entries[Key(id)].manifest.value))
               else ReadEnd(first, None)
  {
  }

  /** A look at the cache, before the claim or under it. */
  lemma LookAlone(call: Call, n: nat, entries: map<Key, Entry>, claims: map<Key, nat>, first: bool) returns (m: nat)
    requires Goes(call) && At(call, n, entries, claims, LookPc(first))
    ensures n < m <= n + 11
    ensures At(call, m, entries, claims, ReadEnd(first, Lookup(call.c, entries, call.identity)))
  {
    var key := Key(call.identity);
    LookPcNext(call.c, entries, claims, call.identity, call.env(n), first);
    m := n + 1;
    if key in entries && entries[key].manifest.Some? {
      var read := Marking(entries[key].manifest.value);
      QuietMove(call, n, entries, claims, LookPc(first), ReadPc(first, read));
      m := ReadAlone(call, n + 1, entries, claims, first, read);
    } else {
      QuietMove(call, n, entries, claims, LookPc(first), ReadEnd(first, None));
    }
  }

  lemma AdmitPcNext(c: Config, entries: map<Key, Entry>, claims: map<Key, nat>, id: Identity, o: Choice)
    requires !o.fails && |entries| < c.maxEntries
    ensures NextPc(c, entries, claims, Proc(id, Admitting), o) == Building
  {
  }

  lemma AdmitAlone(call: Call, n: nat, entries: map<Key, Entry>, claims: map<Key, nat>)
    requires Fair(call) && At(call, n, entries, claims, Admitting) && |entries| < call.c.maxEntries
    ensures At(call, n + 1, entries, claims, Building)
  {
    assert Smooth(call, n);
    AdmitPcNext(call.c, entries, claims, call.identity, call.env(n));
    QuietMove(call, n, entries, claims, Admitting, Building);
  }

  lemma WriteAlone(call: Call, n: nat, entries: map<Key, Entry>, claims: map<Key, nat>, b: Build)
    requires Fair(call) && At(call, n, entries, claims, Building)
    requires Parse(call.c, call.env(n).report).Some?
    requires b == Build(call.identity, call.env(n).report, Parse(call.c, call.env(n).report).value)
    ensures At(call, n + 1, entries, claims, Publishing(b, Stage(b)))
  {
    assert Smooth(call, n);
    QuietMove(call, n, entries, claims, Building, Publishing(b, Stage(b)));
  }

  lemma PublishAlone(call: Call, n: nat, entries: map<Key, Entry>, claims: map<Key, nat>, b: Build)
    requires Fair(call) && Complete(b.report) && b.identity == call.identity && Key(b.identity) !in entries
    requires At(call, n, entries, claims, Publishing(b, Stage(b)))
    ensures At(call, n + 1, entries[Key(b.identity) := Stage(b)], claims, Settling(b))
  {
    assert Smooth(call, n);
    OneMove(call, n, entries, claims, Publishing(b, Stage(b)));
  }

  lemma SettleAlone(call: Call, n: nat, entries: map<Key, Entry>, claims: map<Key, nat>, b: Build)
    requires Fair(call) && At(call, n, entries, claims, Settling(b))
    ensures At(call, n + 1, entries, claims, Returning(Cold(b.index)))
  {
    assert Smooth(call, n);
    QuietMove(call, n, entries, claims, Settling(b), Returning(Cold(b.index)));
  }

  lemma ReturnAlone(call: Call, n: nat, entries: map<Key, Entry>, claims: map<Key, nat>, r: Outcome)
    requires Goes(call) && At(call, n, entries, claims, Returning(r))
    ensures At(call, n + 1, entries, claims - {Key(call.identity)}, Done(r))
  {
    OneMove(call, n, entries, claims, Returning(r));
  }

  /** Under the claim, with the entry away and room: the build is published and returned. */
  lemma BuildAlone(call: Call, n: nat, entries: map<Key, Entry>, claims: map<Key, nat>) returns (b: Build)
    requires Fair(call) && At(call, n, entries, claims, Admitting)
    requires Key(call.identity) !in entries && |entries| < call.c.maxEntries
    ensures BuiltAt(call, n + 5, entries, claims, b)
  {
    assert Smooth(call, n + 1);
    b := Build(call.identity, call.env(n + 1).report, Parse(call.c, call.env(n + 1).report).value);
    var built := entries[Key(b.identity) := Stage(b)];
    AdmitAlone(call, n, entries, claims);
    WriteAlone(call, n + 1, entries, claims, b);
    PublishAlone(call, n + 2, entries, claims, b);
    SettleAlone(call, n + 3, built, claims, b);
    ReturnAlone(call, n + 4, built, claims, Cold(b.index));
  }

  /** The build of the report that the caller's own URG run wrote in its `k`-th move. */
  predicate OwnBuild(call: Call, k: nat, b: Build) {
    b.identity == call.identity && b.report == call.env(k).report && Complete(b.report) && Parse(call.c, b.report) == Some(b.index)
  }

  lemma InspectPcNext(c: Config, entries: map<Key, Entry>, claims: map<Key, nat>, id: Identity, o: Choice)
    ensures NextPc(c, entries, claims, Proc(id, Inspecting), o) == if Key(id) in entries then Quarantining else Admitting
    ensures !o.fails && Key(id) in entries ==> NextPc(c, entries, claims, Proc(id, Quarantining), o) == Admitting
  {
  }

  lemma QuarantineAlone(call: Call, n: nat, entries: map<Key, Entry>, claims: map<Key, nat>)
    requires Fair(call) && At(call, n, entries, claims, Quarantining) && Key(call.identity) in entries
    ensures At(call, n + 1, entries - {Key(call.identity)}, claims, Admitting)
  {
    assert Smooth(call, n);
    InspectPcNext(call.c, entries, claims, call.identity, call.env(n));
    OneMove(call, n, entries, claims, Quarantining);
  }

  lemma InspectMove(call: Call, n: nat, entries: map<Key, Entry>, claims: map<Key, nat>)
    requires Goes(call) && At(call, n, entries, claims, Inspecting)
    ensures At(call, n + 1, entries, claims, if Key(call.identity) in entries then Quarantining else Admitting)
  {
    InspectPcNext(call.c, entries, claims, call.identity, call.env(n));
    QuietMove(call, n, entries, claims, Inspecting, if Key(call.identity) in entries then Quarantining else Admitting);
  }

  lemma PutOver(entries: map<Key, Entry>, key: Key, e: Entry)
    ensures (entries - {key})[key := e] == entries[key := e]
    ensures key !in entries ==> entries - {key} == entries
  {
  }

  /** The build published in place of whatever stood there, and returned. */
  ghost predicate BuiltAt(call: Call, m: nat, entries: map<Key, Entry>, claims: map<Key, nat>, b: Build) {
    m > 3 && OwnBuild(call, m - 4, b)
    && At(call, m, entries[Key(call.identity) := Stage(b)], claims - {Key(call.identity)}, Done(Cold(b.index)))
  }

  lemma BuiltOver(call: Call, m: nat, entries: map<Key, Entry>, claims: map<Key, nat>, b: Build)
    requires BuiltAt(call, m, entries - {Key(call.identity)}, claims, b)
    ensures BuiltAt(call, m, entries, claims, b)
  {
    PutOver(entries, Key(call.identity), Stage(b));
  }

  /** Under the claim, with nothing valid found: whatever stands there is quarantined first. */
  lemma InspectAlone(call: Call, n: nat, entries: map<Key, Entry>, claims: map<Key, nat>) returns (m: nat, b: Build)
    requires Fair(call) && At(call, n, entries, claims, Inspecting) && |entries - {Key(call.identity)}| < call.c.maxEntries
    ensures n < m <= n + 7 && BuiltAt(call, m, entries, claims, b)
  {
    InspectMove(call, n, entries, claims);
    if Key(call.identity) in entries {
      QuarantineAlone(call, n + 1, entries, claims);
      b := BuildAlone(call, n + 2, entries - {Key(call.identity)}, claims);
      m := n + 7;
      BuiltOver(call, m, entries, claims, b);
    } else {
      PutOver(entries, Key(call.identity), Entry(None, None, map[]));
      b := BuildAlone(call, n + 1, entries, claims);
      m := n + 6;
    }
  }

  /** A built report in place of what stood under the key, and its index returned. */
  ghost predicate EndsCold(call: Call, n: nat, k: nat, b: Build) {
    k < n && OwnBuild(call, k, b) && At(call, n, call.Start().entries[Key(b.identity) := Stage(b)], call.Start().claims, Done(Cold(b.index)))
  }

  /** How a call ends after `n` moves: a valid entry is a hit, otherwise what it built itself is published and returned. */
  ghost predicate Ends(call: Call, n: nat) {
    var found := Lookup(call.c, call.Start().entries, call.identity);
    if found.Some? then At(call, n, call.Start().entries, call.Start().claims, Done(Hit(found.value)))
    else exists k, b :: EndsCold(call, n, k, b)
  }

  /** The key is unclaimed, and there is a valid entry or room for one. */
  predicate Open(call: Call) {
    && Key(call.identity) !in call.Start().claims
    && (Lookup(call.c, call.Start().entries, call.identity).Some? || |call.Start().entries - {Key(call.identity)}| < call.c.maxEntries)
  }

  lemma HoldAlone(call: Call, n: nat, entries: map<Key, Entry>, claims: map<Key, nat>)
    requires Fair(call) && At(call, n, entries, claims, Claiming) && Key(call.identity) !in claims
    ensures At(call, n + 2, entries, claims[Key(call.identity) := call.p], Rechecking)
  {
    assert Smooth(call, n + 1);
    OneMove(call, n, entries, claims, Claiming);
    QuietMove(call, n + 1, entries, claims[Key(call.identity) := call.p], Claimed, Rechecking);
  }

  lemma ClaimAlone(call: Call, n: nat) returns (m: nat)
    requires Fair(call) && Open(call) && At(call, n, call.Start().entries, call.Start().claims, Claiming)
    ensures n < m <= n + 20 && Ends(call, m)
  {
    var held := call.Start().claims[Key(call.identity) := call.p];
    HoldAlone(call, n, call.Start().entries, call.Start().claims);
    m := LookAlone(call, n + 2, call.Start().entries, held, false);
    if Lookup(call.c, call.Start().entries, call.identity).Some? {
      HitAlone(call, m);
      m := m + 1;
    } else {
      m := ColdAlone(call, m);
    }
  }

  lemma Released(claims: map<Key, nat>, key: Key, p: nat)
    requires key !in claims
    ensures claims[key := p] - {key} == claims
  {
  }

  lemma HitAlone(call: Call, n: nat)
    requires Goes(call) && Open(call) && Lookup(call.c, call.Start().entries, call.identity).Some?
    requires At(call, n, call.Start().entries, call.Start().claims[Key(call.identity) := call.p],
                Returning(Hit(Lookup(call.c, call.Start().entries, call.identity).value)))
    ensures Ends(call, n + 1)
  {
    Released(call.Start().claims, Key(call.identity), call.p);
    ReturnAlone(call, n, call.Start().entries, call.Start().claims[Key(call.identity) := call.p],
                Hit(Lookup(call.c, call.Start().entries, call.identity).value));
  }

  lemma ColdAlone(call: Call, n: nat) returns (m: nat)
    requires Fair(call) && Open(call) && Lookup(call.c, call.Start().entries, call.identity).None?
    requires At(call, n, call.Start().entries, call.Start().claims[Key(call.identity) := call.p], Inspecting)
    ensures n < m <= n + 7 && Ends(call, m)
  {
    Released(call.Start().claims, Key(call.identity), call.p);
    var b: Build;
    m, b := InspectAlone(call, n, call.Start().entries, call.Start().claims[Key(call.identity) := call.p]);
    assert EndsCold(call, m, m - 4, b);
  }

  lemma RestartAlone(call: Call)
    requires Goes(call) && Open(call) && (call.Start().procs[call.p].pc.Waiting? || call.Start().procs[call.p].pc.Seizing?)
    ensures At(call, 1, call.Start().entries, call.Start().claims, Probing)
  {
    assert call.Start().claims - {Key(call.identity)} == call.Start().claims;
    BeginAlone(call);
    OneMove(call, 0, call.Start().entries, call.Start().claims, call.Start().procs[call.p].pc);
  }

  lemma BeginAlone(call: Call)
    requires Goes(call)
    ensures At(call, 0, call.Start().entries, call.Start().claims, call.Start().procs[call.p].pc)
  {
    assert call.Start().procs[call.p := Proc(call.identity, call.Start().procs[call.p].pc)] == call.Start().procs;
  }

  lemma ProbeAlone(call: Call, n: nat) returns (m: nat)
    requires Fair(call) && Open(call) && At(call, n, call.Start().entries, call.Start().claims, Probing)
    ensures m <= n + 31 && Ends(call, m)
  {
    m := LookAlone(call, n, call.Start().entries, call.Start().claims, true);
    if Lookup(call.c, call.Start().entries, call.identity).None? { m := ClaimAlone(call, m); }
  }

  /**
   From any state in which the key is unclaimed, a caller that is not yet in the critical section and
   moves alone, without failures, returns: a valid entry is a hit, and otherwise, with room, what it
   built itself is published and returned.  Claims, other entries and other callers are as they were.
   */
  lemma CallAloneReturns(call: Call) returns (n: nat)
    requires Fair(call) && Open(call)
    requires var pc := call.Start().procs[call.p].pc; pc.Probing? || pc.Waiting? || pc.Seizing? || pc.Claiming?
    ensures n <= 32 && Ends(call, n)
  {
    var pc := call.Start().procs[call.p].pc;
    BeginAlone(call);
    if pc.Claiming? {
      n := ClaimAlone(call, 0);
    } else if pc.Probing? {
      n := ProbeAlone(call, 0);
    } else {
      RestartAlone(call);
      n := ProbeAlone(call, 1);
    }
  }

  ghost function After(c: Config, s: State, p: nat, env: nat -> Choice, n: nat): State {
    if n == 0 then s else Apply(c, After(c, s, p, env, n - 1), Move(p, env(n - 1)))
  }

  /** From every state and for every environment there is such a call. */
  lemma CallExists(c: Config, s: State, p: nat, env: nat -> Choice) returns (call: Call)
    requires p in s.procs
    ensures Goes(call) && call.Start() == s && call.c == c && call.p == p && call.env == env
  {
    var run := (n: nat) => After(c, s, p, env, n);
    call := Call(c, p, s.procs[p].identity, env, run);
    forall n: nat ensures Steps(call, n) { assert run(n + 1) == Apply(c, run(n), Move(p, env(n))); }
  }
}
