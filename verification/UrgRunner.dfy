/**
 The identity protocol of one LSF submission: threads draining the client's output race with the
 main thread, which may time out or be interrupted and then kills the job it believes it submitted.
 */
module UrgRunner {
  import opened Wrappers

  /** A line of output; only a job line names a job. */
  datatype Line = JobLine(id: string) | StartLine | WaitLine | BlankLine | OtherLine

  /** A drain thread; from `Guarded` to `Leaving` it holds the lock. */
  datatype Drain =
    | Reading
    | Wanting(id: string)
    | Guarded(id: string)
    | Naming(id: string)
    | Flagging
    | Signalling
    | Leaving
    | Ended

  datatype Target = JobId(id: string) | JobName
  datatype Kind = IdKind | NameKind
  datatype Cleanup = Cleanup(target: Target, kind: Kind)

  /** The main thread; in `Clearing` and `Unlocking` it holds the lock. */
  datatype Main =
    | Watching
    | Locking
    | Clearing
    | Unlocking
    | Testing
    | Selecting(known: bool)
    | Classifying(target: Target)
    | Killing(cleanup: Cleanup)
    | Logging(cleanup: Cleanup)
    | Recording(cleanup: Cleanup)
    | Joining
    | Returned
    | Raised

  /** A copy of the shared dictionary, as logged or returned. */
  datatype Report = Report(jobId: Option<string>, submitted: bool, cleanup: Option<Cleanup>)

  datatype Holder = HeldByMain | HeldByDrain(i: nat)

  /** `kills`, `reports` and `announced` are the history of commands, copies and job lines. */
  datatype State = State(
    lock: Option<Holder>,
    accepting: bool,
    jobId: Option<string>,
    submitted: bool,
    jobEvent: bool,
    startedEvent: bool,
    drains: seq<Drain>,
    main: Main,
    handling: bool,
    recorded: Option<Cleanup>,
    kills: seq<Target>,
    reports: seq<Report>,
    announced: set<string>)

  /** `Expire` is a deadline passing while watched, `Interrupt` an exception raised in the main thread. */
  datatype Step = DrainStep(i: nat, line: Option<Line>) | MainStep(expires: bool) | Interrupt

  function Initial(threads: nat): State {
    State(None, true, None, false, false, false, seq(threads, i => Reading), Watching, false, None, [], [], {})
  }

  predicate InSection(d: Drain) {
    d.Guarded? || d.Naming? || d.Flagging? || d.Signalling? || d.Leaving?
  }

  predicate HoldsLock(m: Main) {
    m.Clearing? || m.Unlocking?
  }

  /** Inside `_cleanup_lsf`, or about to store what it returned. */
  predicate InCleanup(m: Main) {
    m.Testing? || m.Selecting? || m.Classifying? || m.Killing? || m.Logging? || m.Recording?
  }

  /**
   The thread function `drain`: one line is read, a job line is recorded under the lock if identities
   are still accepted; a thread waiting for the lock stays where it is.
   */
  function DrainPc(d: Drain, line: Option<Line>, lock: Option<Holder>, accepting: bool): Drain {
    match d
    case Reading => if line.None? then Ended else if line.value.JobLine? then Wanting(line.value.id) else Reading
    case Wanting(id) => if lock.None? then Guarded(id) else d
    case Guarded(id) => if accepting then Naming(id) else Leaving
    case Naming(_) => Flagging
    case Flagging => Signalling
    case Signalling => Leaving
    case Leaving => Reading
    case Ended => Ended
  }

  function DrainLock(d: Drain, i: nat, lock: Option<Holder>): Option<Holder> {
    if d.Wanting? && lock.None? then Some(HeldByDrain(i)) else if d.Leaving? then None else lock
  }

  function DrainId(d: Drain, jobId: Option<string>): Option<string> {
    if d.Naming? then Some(d.id) else jobId
  }

  function DrainStarted(d: Drain, line: Option<Line>, jobEvent: bool): bool {
    d.Reading? && line.Some? && (line.value.StartLine? || (line.value.OtherLine? && jobEvent))
  }

  function DrainNext(s: State, i: nat, line: Option<Line>): State
    requires i < |s.drains|
  {
    var d := s.drains[i];
    s.(drains := s.drains[i := DrainPc(d, line, s.lock, s.accepting)],
       lock := DrainLock(d, i, s.lock),
       jobId := DrainId(d, s.jobId),
       submitted := s.submitted || d.Flagging?,
       jobEvent := s.jobEvent || d.Signalling?,
       startedEvent := s.startedEvent || DrainStarted(d, line, s.jobEvent),
       announced := s.announced + if d.Reading? && line.Some? && line.value.JobLine? then {line.value.id} else {})
  }

  /** `_run_lsf` once the threads run, `_cleanup_lsf` (from `Testing` on) and `_result` (`Joining`). */
  function MainPc(m: Main, expires: bool, lock: Option<Holder>, jobId: Option<string>, handling: bool): Main {
    match m
    case Watching => if expires then Locking else Joining
    case Locking => if lock.None? then Clearing else Locking
    case Clearing => Unlocking
    case Unlocking => Testing
    case Testing => Selecting(jobId.Some?)
    case Selecting(known) => Classifying(if !known then JobName else if jobId.Some? then JobId(jobId.value) else JobId("None"))
    case Classifying(target) => Killing(Cleanup(target, if jobId.Some? then IdKind else NameKind))
    case Killing(cleanup) => Logging(cleanup)
    case Logging(cleanup) => Recording(cleanup)
    case Recording(_) => if handling then Raised else Joining
    case Joining => Returned
    case Returned => Returned
    case Raised => Raised
  }

  function MainLock(m: Main, lock: Option<Holder>): Option<Holder> {
    if m.Locking? && lock.None? then Some(HeldByMain) else if m.Unlocking? then None else lock
  }

  function MainReports(m: Main, report: Report, recorded: Option<Cleanup>): seq<Report> {
    if m.Logging? then [report.(cleanup := Some(m.cleanup))]
    else if m.Joining? then [report.(cleanup := recorded)]
    else []
  }

  function MainNext(s: State, expires: bool): State {
    var m := s.main;
    s.(main := MainPc(m, expires, s.lock, s.jobId, s.handling),
       lock := MainLock(m, s.lock),
       accepting := s.accepting && !m.Clearing?,
       recorded := if m.Recording? then Some(m.cleanup) else s.recorded,
       kills := if m.Killing? then s.kills + [m.cleanup.target] else s.kills,
       reports := s.reports + MainReports(m, Report(s.jobId, s.submitted, None), s.recorded))
  }

  /** An exception releases a held lock and enters the handler, or leaves it for good. */
  function InterruptNext(s: State): State {
    if s.main.Returned? || s.main.Raised? then s
    else s.(lock := if HoldsLock(s.main) then None else s.lock, main := if s.handling then Raised else Locking, handling := true)
  }

  function Apply(s: State, step: Step): State {
    match step
    case DrainStep(i, line) => if i < |s.drains| then DrainNext(s, i, line) else s
    case MainStep(expires) => MainNext(s, expires)
    case Interrupt => InterruptNext(s)
  }

  function Run(s: State, steps: seq<Step>): State
    decreases |steps|
  {
    if steps == [] then s else Apply(Run(s, steps[..|steps| - 1]), steps[|steps| - 1])
  }

  // ---------- what every step keeps ----------

  /** The lock is held by whoever is in a critical section, so by one thread at most. */
  predicate DrainsLocked(lock: Option<Holder>, drains: seq<Drain>) {
    && (forall i :: 0 <= i < |drains| ==> (InSection(drains[i]) <==> lock == Some(HeldByDrain(i))))
    && (lock.Some? && lock.value.HeldByDrain? ==> lock.value.i < |drains|)
  }

  predicate MainLocked(lock: Option<Holder>, main: Main) {
    HoldsLock(main) <==> lock == Some(HeldByMain)
  }

  predicate Between(drains: seq<Drain>) {
    exists i :: 0 <= i < |drains| && drains[i].Flagging?
  }

  /** The identity is written whole except while a thread is between its two writes. */
  predicate IdentityWhole(jobId: Option<string>, submitted: bool, drains: seq<Drain>) {
    (submitted ==> jobId.Some?) && (Between(drains) ==> jobId.Some?) && (jobId.Some? && !submitted ==> Between(drains))
  }

  predicate Accepted(d: Drain) {
    d.Naming? || d.Flagging? || d.Signalling?
  }

  /** Nobody is past the acceptance test once acceptance is cleared. */
  predicate NoneAccepted(accepting: bool, drains: seq<Drain>) {
    !accepting ==> forall i :: 0 <= i < |drains| ==> !Accepted(drains[i])
  }

  /** The target a job identity calls for. */
  function TargetOf(jobId: Option<string>): Target {
    match jobId
    case Some(id) => JobId(id)
    case None => JobName
  }

  function CleanupOf(jobId: Option<string>): Cleanup {
    Cleanup(TargetOf(jobId), if jobId.Some? then IdKind else NameKind)
  }

  /** What the main thread holds of the identity is what the identity calls for. */
  predicate MainAgrees(main: Main, jobId: Option<string>) {
    match main
    case Selecting(known) => known == jobId.Some?
    case Classifying(target) => target == TargetOf(jobId)
    case Killing(cleanup) => cleanup == CleanupOf(jobId)
    case Logging(cleanup) => cleanup == CleanupOf(jobId)
    case Recording(cleanup) => cleanup == CleanupOf(jobId)
    case _ => true
  }

  predicate KillsAgree(kills: seq<Target>, jobId: Option<string>) {
    forall k :: 0 <= k < |kills| ==> kills[k] == TargetOf(jobId)
  }

  predicate ReportsAgree(reports: seq<Report>, jobId: Option<string>) {
    forall k :: 0 <= k < |reports| && reports[k].cleanup.Some? ==>
      reports[k] == Report(jobId, jobId.Some?, Some(CleanupOf(jobId)))
  }

  predicate NoCleanupReported(reports: seq<Report>) {
    forall k :: 0 <= k < |reports| ==> reports[k].cleanup.None?
  }

  /** While identities are accepted no cleanup has begun; afterwards all of it agrees. */
  predicate CleanupAgrees(accepting: bool, main: Main, recorded: Option<Cleanup>, kills: seq<Target>, reports: seq<Report>, jobId: Option<string>) {
    if accepting then !main.Unlocking? && !InCleanup(main) && recorded.None? && kills == [] && NoCleanupReported(reports)
    else
      && MainAgrees(main, jobId)
      && (recorded.Some? ==> recorded.value == CleanupOf(jobId))
      && KillsAgree(kills, jobId)
      && ReportsAgree(reports, jobId)
  }

  predicate DrainAnnounced(d: Drain, announced: set<string>) {
    d.Wanting? || d.Guarded? || d.Naming? ==> d.id in announced
  }

  predicate IdsAnnounced(jobId: Option<string>, drains: seq<Drain>, announced: set<string>) {
    && (jobId.Some? ==> jobId.value in announced)
    && (forall i :: 0 <= i < |drains| ==> DrainAnnounced(drains[i], announced))
  }

  predicate Inv(s: State) {
    && DrainsLocked(s.lock, s.drains)
    && MainLocked(s.lock, s.main)
    && IdentityWhole(s.jobId, s.submitted, s.drains)
    && NoneAccepted(s.accepting, s.drains)
    && CleanupAgrees(s.accepting, s.main, s.recorded, s.kills, s.reports, s.jobId)
    && IdsAnnounced(s.jobId, s.drains, s.announced)
  }

  /** A drain thread's step seen from the locks: it takes, holds, or releases for itself only. */
  lemma DrainsStayLocked(lock: Option<Holder>, drains: seq<Drain>, i: nat, lock': Option<Holder>, d: Drain)
    requires DrainsLocked(lock, drains) && i < |drains|
    requires (lock' == lock && InSection(d) == InSection(drains[i]))
             || (lock.None? && lock' == Some(HeldByDrain(i)) && InSection(d))
             || (InSection(drains[i]) && lock'.None? && !InSection(d))
    ensures DrainsLocked(lock', drains[i := d])
  {
  }

  lemma IdentityStaysWhole(jobId: Option<string>, submitted: bool, drains: seq<Drain>, i: nat, d: Drain)
    requires IdentityWhole(jobId, submitted, drains) && i < |drains|
    ensures d.Flagging? ==> forall id :: IdentityWhole(Some(id), submitted, drains[i := d])
    ensures drains[i].Flagging? && !d.Flagging? ==> IdentityWhole(jobId, true, drains[i := d])
    ensures !drains[i].Flagging? && !d.Flagging? ==> IdentityWhole(jobId, submitted, drains[i := d])
  {
    var after := drains[i := d];
    assert forall j :: 0 <= j < |drains| && j != i ==> after[j] == drains[j];
    if d.Flagging? { assert after[i].Flagging?; }
    if Between(drains) && !drains[i].Flagging? && !d.Flagging? {
      var j :| 0 <= j < |drains| && drains[j].Flagging?;
      assert after[j].Flagging?;
    }
  }

  lemma DrainKeepsIdentity(drains: seq<Drain>, i: nat, line: Option<Line>, lock: Option<Holder>, accepting: bool, jobId: Option<string>, submitted: bool)
    requires IdentityWhole(jobId, submitted, drains) && i < |drains|
    ensures IdentityWhole(DrainId(drains[i], jobId), submitted || drains[i].Flagging?, drains[i := DrainPc(drains[i], line, lock, accepting)])
  {
    IdentityStaysWhole(jobId, submitted, drains, i, DrainPc(drains[i], line, lock, accepting));
  }

  lemma DrainKeepsLock(drains: seq<Drain>, i: nat, line: Option<Line>, lock: Option<Holder>, accepting: bool, main: Main)
    requires DrainsLocked(lock, drains) && MainLocked(lock, main) && NoneAccepted(accepting, drains) && i < |drains|
    ensures var d := DrainPc(drains[i], line, lock, accepting);
            var lock' := DrainLock(drains[i], i, lock);
            DrainsLocked(lock', drains[i := d]) && MainLocked(lock', main) && NoneAccepted(accepting, drains[i := d])
  {
    var d := DrainPc(drains[i], line, lock, accepting);
    DrainsStayLocked(lock, drains, i, DrainLock(drains[i], i, lock), d);
    assert !accepting ==> !Accepted(drains[i]) && !Accepted(d);
  }

  lemma DrainKeepsAnnounced(drains: seq<Drain>, i: nat, jobId: Option<string>, announced: set<string>, d: Drain, announced': set<string>)
    requires IdsAnnounced(jobId, drains, announced) && i < |drains|
    requires announced <= announced' && DrainAnnounced(d, announced')
    ensures IdsAnnounced(DrainId(drains[i], jobId), drains[i := d], announced')
  {
    assert DrainAnnounced(drains[i], announced);
    assert forall j :: 0 <= j < |drains| && DrainAnnounced(drains[j], announced) ==> DrainAnnounced(drains[j], announced');
  }

  lemma DrainKeeps(s: State, i: nat, line: Option<Line>)
    requires Inv(s) && i < |s.drains|
    ensures Inv(DrainNext(s, i, line))
    ensures !s.accepting ==> DrainNext(s, i, line).jobId == s.jobId
  {
    var t := DrainNext(s, i, line);
    DrainKeepsIdentity(s.drains, i, line, s.lock, s.accepting, s.jobId, s.submitted);
    DrainKeepsLock(s.drains, i, line, s.lock, s.accepting, s.main);
    assert DrainAnnounced(s.drains[i], s.announced);
    DrainKeepsAnnounced(s.drains, i, s.jobId, s.announced, t.drains[i], t.announced);
    assert !s.accepting ==> !Accepted(s.drains[i]);
  }

  lemma ClearingMeansIdle(lock: Option<Holder>, drains: seq<Drain>, main: Main)
    requires DrainsLocked(lock, drains) && MainLocked(lock, main) && main.Clearing?
    ensures NoneAccepted(false, drains)
  {
    forall i | 0 <= i < |drains| ensures !Accepted(drains[i]) { assert !InSection(drains[i]); }
  }

  lemma ClearedIdentityIsWhole(drains: seq<Drain>, jobId: Option<string>, submitted: bool)
    requires IdentityWhole(jobId, submitted, drains) && NoneAccepted(false, drains)
    ensures submitted == jobId.Some?
  {
    assert forall i :: 0 <= i < |drains| ==> (drains[i].Flagging? ==> Accepted(drains[i]));
  }

  lemma MainStaysLocked(lock: Option<Holder>, drains: seq<Drain>, main: Main, expires: bool, jobId: Option<string>, handling: bool)
    requires DrainsLocked(lock, drains) && MainLocked(lock, main)
    ensures DrainsLocked(MainLock(main, lock), drains) && MainLocked(MainLock(main, lock), MainPc(main, expires, lock, jobId, handling))
  {
  }

  lemma ReportsStayAgreed(reports: seq<Report>, more: seq<Report>, jobId: Option<string>)
    requires ReportsAgree(reports, jobId) && ReportsAgree(more, jobId)
    ensures ReportsAgree(reports + more, jobId)
  {
  }

  lemma MainKeepsCleanup(s: State, expires: bool)
    requires CleanupAgrees(s.accepting, s.main, s.recorded, s.kills, s.reports, s.jobId)
    requires !s.accepting ==> s.submitted == s.jobId.Some?
    ensures var t := MainNext(s, expires); CleanupAgrees(t.accepting, t.main, t.recorded, t.kills, t.reports, t.jobId)
  {
    if !s.accepting {
      ReportsStayAgreed(s.reports, MainReports(s.main, Report(s.jobId, s.submitted, None), s.recorded), s.jobId);
    }
  }

  lemma MainKeeps(s: State, expires: bool)
    requires Inv(s)
    ensures Inv(MainNext(s, expires))
  {
    if !s.accepting { ClearedIdentityIsWhole(s.drains, s.jobId, s.submitted); }
    if s.main.Clearing? { ClearingMeansIdle(s.lock, s.drains, s.main); }
    MainStaysLocked(s.lock, s.drains, s.main, expires, s.jobId, s.handling);
    MainKeepsCleanup(s, expires);
  }

  lemma InterruptKeeps(s: State)
    requires Inv(s)
    ensures Inv(InterruptNext(s))
  {
  }

  lemma {:induction false} RunKeeps(s: State, steps: seq<Step>)
    requires Inv(s)
    ensures Inv(Run(s, steps))
    ensures !s.accepting ==> Run(s, steps).jobId == s.jobId && !Run(s, steps).accepting
  {
    if steps != [] {
      RunKeeps(s, steps[..|steps| - 1]);
      var before := Run(s, steps[..|steps| - 1]);
      match steps[|steps| - 1]
      case DrainStep(i, line) => 
        if i < |before.drains| {
          DrainKeeps(before, i, line);
        }
      case MainStep(expires) => MainKeeps(before, expires);
      case Interrupt => InterruptKeeps(before);
    }
  }

  // ---------- the theorems ----------

  /** In every interleaving, at most one thread is in a critical section. */
  lemma SectionsExclude(threads: nat, steps: seq<Step>, i: nat, j: nat)
    requires i < j < |Run(Initial(threads), steps).drains|
    ensures var s := Run(Initial(threads), steps);
            && !(InSection(s.drains[i]) && InSection(s.drains[j]))
            && !(InSection(s.drains[i]) && HoldsLock(s.main))
  {
    RunKeeps(Initial(threads), steps);
  }

  /** From the moment acceptance is cleared, no later step of any thread changes the job id. */
  lemma IdentityIsFrozen(threads: nat, steps: seq<Step>, more: seq<Step>)
    requires var m := Run(Initial(threads), steps).main; m.Unlocking? || InCleanup(m)
    ensures Run(Run(Initial(threads), steps), more).jobId == Run(Initial(threads), steps).jobId
  {
    RunKeeps(Initial(threads), steps);
    RunKeeps(Run(Initial(threads), steps), more);
  }

  /**
   Every kill command of a run, even a second one after an interrupted cleanup, and every copy of the
   dictionary that carries a cleanup name the same job; it is one that some thread read.
   */
  lemma KillsAndReportsAgree(threads: nat, steps: seq<Step>, k: nat, r: nat)
    requires var s := Run(Initial(threads), steps); k < |s.kills| && r < |s.reports| && s.reports[r].cleanup.Some?
    ensures var s := Run(Initial(threads), steps);
            var report := s.reports[r];
            var cleanup := report.cleanup.value;
            && s.kills[k] == cleanup.target
            && (cleanup.kind == IdKind <==> report.jobId.Some?)
            && (report.jobId.Some? ==> s.kills[k] == JobId(report.jobId.value) && report.jobId.value in s.announced)
            && (report.jobId.None? ==> s.kills[k] == JobName)
            && (report.submitted <==> report.jobId.Some?)
  {
    RunKeeps(Initial(threads), steps);
  }

  /** A job id not marked submitted, or the other way round. */
  predicate Torn(jobId: Option<string>, submitted: bool) {
    submitted != jobId.Some?
  }

  /** A thread is between its two writes, and no thread has finished them before. */
  predicate HalfDone(submitted: bool, drains: seq<Drain>) {
    !submitted && Between(drains)
  }

  /** The dictionary is torn exactly while the first thread to name a job is between its writes. */
  lemma TornIffWriting(threads: nat, steps: seq<Step>)
    ensures var s := Run(Initial(threads), steps);
            && (Torn(s.jobId, s.submitted) <==> HalfDone(s.submitted, s.drains))
            && (Torn(s.jobId, s.submitted) ==> s.accepting && s.jobId.Some?)
  {
    RunKeeps(Initial(threads), steps);
    var s := Run(Initial(threads), steps);
    if !s.accepting { ClearedIdentityIsWhole(s.drains, s.jobId, s.submitted); }
  }

  /** What one step copies. */
  function Copied(s: State, step: Step): seq<Report> {
    if step.MainStep? then MainReports(s.main, Report(s.jobId, s.submitted, None), s.recorded) else []
  }

  lemma ReportsGrow(s: State, step: Step)
    ensures Apply(s, step).reports == s.reports + Copied(s, step)
  {
  }

  /** The `k`-th report of a run is what its step `i` copied. */
  predicate CopiedAt(threads: nat, steps: seq<Step>, i: nat, report: Report, k: nat)
    requires i < |steps|
  {
    var s := Run(Initial(threads), steps[..i]);
    |s.reports| == k && Copied(s, steps[i]) == [report]
  }

  /** Every report of a run was copied by one of its steps. */
  lemma {:induction false} EveryReportIsCopied(threads: nat, steps: seq<Step>, k: nat) returns (i: nat)
    requires k < |Run(Initial(threads), steps).reports|
    ensures i < |steps| && CopiedAt(threads, steps, i, Run(Initial(threads), steps).reports[k], k)
    decreases |steps|
  {
    var before, last := steps[..|steps| - 1], steps[|steps| - 1];
    var s := Run(Initial(threads), before);
    ReportsGrow(s, last);
    if k < |s.reports| {
      i := EveryReportIsCopied(threads, before, k);
      assert before[..i] == steps[..i] && before[i] == steps[i];
    } else {
      i := |steps| - 1;
    }
  }

  /**
   Every report of every run: it is torn if and only if it was copied for a result, without the lock,
   while the first thread to name a job was between its writes.  A torn report carries no cleanup.
   */
  lemma ReportIsTornIffCopiedWhileWriting(threads: nat, steps: seq<Step>, k: nat) returns (i: nat)
    requires k < |Run(Initial(threads), steps).reports|
    ensures i < |steps| && CopiedAt(threads, steps, i, Run(Initial(threads), steps).reports[k], k)
    ensures var report := Run(Initial(threads), steps).reports[k];
            var s := Run(Initial(threads), steps[..i]);
            && (Torn(report.jobId, report.submitted) <==> s.main.Joining? && HalfDone(s.submitted, s.drains))
            && (Torn(report.jobId, report.submitted) ==> report.cleanup.None?)
  {
    i := EveryReportIsCopied(threads, steps, k);
    TornIffWriting(threads, steps[..i]);
    RunKeeps(Initial(threads), steps[..i]);
  }

  lemma RunMore(s: State, steps: seq<Step>, step: Step)
    ensures Run(s, steps + [step]) == Apply(Run(s, steps), step)
  {
    assert (steps + [step])[..|steps|] == steps;
  }

  /** A thread that reads a job line and gets as far as writing the id, but not the mark. */
  lemma HalfWritten(id: string) returns (steps: seq<Step>)
    ensures var s := Run(Initial(1), steps); s.jobId == Some(id) && !s.submitted && s.main.Watching? && s.reports == []
  {
    var d := DrainStep(0, Some(JobLine(id)));
    steps := [];
    RunMore(Initial(1), steps, d);
    steps := steps + [d];
    assert Run(Initial(1), steps).drains[0] == Wanting(id);
    RunMore(Initial(1), steps, d);
    steps := steps + [d];
    assert Run(Initial(1), steps).drains[0] == Guarded(id);
    RunMore(Initial(1), steps, d);
    steps := steps + [d];
    assert Run(Initial(1), steps).drains[0] == Naming(id);
    RunMore(Initial(1), steps, d);
    steps := steps + [d];
  }

  /** Paths without cleanup copy the dictionary without the lock, so they can report a torn identity. */
  lemma CompletionCanReportTornIdentity() returns (steps: seq<Step>)
    ensures var s := Run(Initial(1), steps);
            s.main.Returned? && |s.reports| == 1 && s.reports[0].jobId.Some? && !s.reports[0].submitted
  {
    steps := HalfWritten("7");
    RunMore(Initial(1), steps, MainStep(false));
    RunMore(Initial(1), steps + [MainStep(false)], MainStep(false));
    steps := steps + [MainStep(false)] + [MainStep(false)];
  }

  // ---------- what one thread achieves alone ----------

  /** The state after `n` of the same steps. */
  function Times(s: State, step: Step, n: nat): State
    decreases n
  {
    if n == 0 then s else Times(Apply(s, step), step, n - 1)
  }

  lemma OneMore(s: State, step: Step, n: nat, t: State)
    requires n > 0 && Apply(s, step) == t
    ensures Times(s, step, n) == Times(t, step, n - 1)
  {
  }

  /** The states a drain thread goes through from the lock on. */
  lemma DrainSteps(s: State, i: nat, id: string, d: Drain)
    requires i < |s.drains| && s.drains[i] == d && (d.Wanting? ==> s.lock.None? && d.id == id) && (d.Guarded? || d.Naming? ==> d.id == id)
    ensures var t := Apply(s, DrainStep(i, Some(JobLine(id))));
            match d
            case Reading => t == s.(drains := s.drains[i := Wanting(id)], announced := s.announced + {id})
            case Wanting(_) => t == s.(drains := s.drains[i := Guarded(id)], lock := Some(HeldByDrain(i)))
            case Guarded(_) => t == s.(drains := s.drains[i := if s.accepting then Naming(id) else Leaving])
            case Naming(_) => t == s.(drains := s.drains[i := Flagging], jobId := Some(id))
            case Flagging => t == s.(drains := s.drains[i := Signalling], submitted := true)
            case Signalling => t == s.(drains := s.drains[i := Leaving], jobEvent := true)
            case Leaving => t == s.(drains := s.drains[i := Reading], lock := None)
            case Ended => t == s
  {
  }

  lemma SameDrains(drains: seq<Drain>, i: nat, d: Drain)
    requires i < |drains|
    ensures drains[i := d][i := drains[i]] == drains
  {
  }

  /** From the lock on, with identities accepted: the job is recorded whole and the lock released. */
  lemma AcceptedIsRecorded(s: State, i: nat, id: string)
    requires i < |s.drains| && s.drains[i] == Guarded(id) && s.accepting && s.lock == Some(HeldByDrain(i))
    ensures Times(s, DrainStep(i, Some(JobLine(id))), 5)
            == s.(drains := s.drains[i := Reading], lock := None, jobId := Some(id), submitted := true, jobEvent := true)
  {
    var step := DrainStep(i, Some(JobLine(id)));
    var s1 := s.(drains := s.drains[i := Naming(id)]);
    var s2 := s1.(drains := s.drains[i := Flagging], jobId := Some(id));
    var s3 := s2.(drains := s.drains[i := Signalling], submitted := true);
    var s4 := s3.(drains := s.drains[i := Leaving], jobEvent := true);
    var s5 := s4.(drains := s.drains[i := Reading], lock := None);
    DrainSteps(s, i, id, Guarded(id));
    DrainSteps(s1, i, id, Naming(id));
    DrainSteps(s2, i, id, Flagging);
    DrainSteps(s3, i, id, Signalling);
    DrainSteps(s4, i, id, Leaving);
    OneMore(s, step, 5, s1);
    OneMore(s1, step, 4, s2);
    OneMore(s2, step, 3, s3);
    OneMore(s3, step, 2, s4);
    OneMore(s4, step, 1, s5);
  }

  lemma RefusedIsDropped(s: State, i: nat, id: string)
    requires i < |s.drains| && s.drains[i] == Guarded(id) && !s.accepting && s.lock == Some(HeldByDrain(i))
    ensures Times(s, DrainStep(i, Some(JobLine(id))), 2) == s.(drains := s.drains[i := Reading], lock := None)
  {
    var step := DrainStep(i, Some(JobLine(id)));
    var s1 := s.(drains := s.drains[i := Leaving]);
    var s2 := s1.(drains := s.drains[i := Reading], lock := None);
    DrainSteps(s, i, id, Guarded(id));
    DrainSteps(s1, i, id, Leaving);
    OneMore(s, step, 2, s1);
    OneMore(s1, step, 1, s2);
  }

  /**
   A drain thread that reads a job line, with the lock free: while identities are accepted that job
   becomes the submitted one and is signalled; once they are not, nothing but the line itself remains.
   */
  lemma JobLineIsRecorded(s: State, i: nat, id: string)
    requires i < |s.drains| && s.drains[i].Reading? && s.lock.None?
    ensures var step := DrainStep(i, Some(JobLine(id))); var read := s.(announced := s.announced + {id});
            if s.accepting then Times(s, step, 7) == read.(jobId := Some(id), submitted := true, jobEvent := true)
            else Times(s, step, 4) == read
  {
    var step := DrainStep(i, Some(JobLine(id)));
    var read := s.(announced := s.announced + {id});
    var s1 := read.(drains := s.drains[i := Wanting(id)]);
    var s2 := s1.(drains := s.drains[i := Guarded(id)], lock := Some(HeldByDrain(i)));
    var n := if s.accepting then 7 else 4;
    DrainSteps(s, i, id, Reading);
    DrainSteps(s1, i, id, Wanting(id));
    OneMore(s, step, n, s1);
    OneMore(s1, step, n - 1, s2);
    SameDrains(s.drains, i, Guarded(id));
    if s.accepting { AcceptedIsRecorded(s2, i, id); } else { RefusedIsDropped(s2, i, id); }
  }

  // ---------- a cleanup is carried out ----------

  /** The main thread from the lock to the kill, nobody else moving. */
  lemma CleanupSteps(s: State, e: bool)
    ensures var t := Apply(s, MainStep(e));
            match s.main
            case Watching => t == s.(main := if e then Locking else Joining)
            case Locking => s.lock.None? ==> t == s.(main := Clearing, lock := Some(HeldByMain))
            case Clearing => t == s.(main := Unlocking, accepting := false)
            case Unlocking => t == s.(main := Testing, lock := None)
            case Testing => t == s.(main := Selecting(s.jobId.Some?))
            case Selecting(known) => known == s.jobId.Some? ==> t == s.(main := Classifying(TargetOf(s.jobId)))
            case _ => true
  {
  }

  /** And from there to the result. */
  lemma ResultSteps(s: State, e: bool)
    ensures var t := Apply(s, MainStep(e));
            match s.main
            case Classifying(target) => t == s.(main := Killing(Cleanup(target, if s.jobId.Some? then IdKind else NameKind)))
            case Killing(c) => t == s.(main := Logging(c), kills := s.kills + [c.target])
            case Logging(c) => t == s.(main := Recording(c), reports := s.reports + [Report(s.jobId, s.submitted, Some(c))])
            case Recording(c) => t == s.(main := if s.handling then Raised else Joining, recorded := Some(c))
            case Joining => t == s.(main := Returned, reports := s.reports + [Report(s.jobId, s.submitted, s.recorded)])
            case Returned => t == s
            case Raised => t == s
            case _ => true
  {
  }

  /** After the deadline or in a handler, with the lock free: acceptance ends and the job known then is killed. */
  lemma CleanupKills(s: State, e: bool)
    requires s.main.Locking? && s.lock.None?
    ensures var c := CleanupOf(s.jobId);
            Times(s, MainStep(e), 8)
            == s.(main := Recording(c), accepting := false, kills := s.kills + [TargetOf(s.jobId)],
                  reports := s.reports + [Report(s.jobId, s.submitted, Some(c))])
  {
    var step := MainStep(e);
    var c := CleanupOf(s.jobId);
    var s1 := s.(main := Clearing, lock := Some(HeldByMain));
    var s2 := s1.(main := Unlocking, accepting := false);
    var s3 := s2.(main := Testing, lock := None);
    var s4 := s3.(main := Selecting(s.jobId.Some?));
    var s5 := s4.(main := Classifying(TargetOf(s.jobId)));
    CleanupSteps(s, e);
    CleanupSteps(s1, e);
    CleanupSteps(s2, e);
    CleanupSteps(s3, e);
    CleanupSteps(s4, e);
    OneMore(s, step, 8, s1);
    OneMore(s1, step, 7, s2);
    OneMore(s2, step, 6, s3);
    OneMore(s3, step, 5, s4);
    OneMore(s4, step, 4, s5);
    KillSteps(s5, e, c);
  }

  lemma KillSteps(s: State, e: bool, c: Cleanup)
    requires s.main == Classifying(TargetOf(s.jobId)) && c == CleanupOf(s.jobId)
    ensures Times(s, MainStep(e), 3)
            == s.(main := Recording(c), kills := s.kills + [c.target], reports := s.reports + [Report(s.jobId, s.submitted, Some(c))])
  {
    var step := MainStep(e);
    var s1 := s.(main := Killing(c));
    var s2 := s1.(main := Logging(c), kills := s.kills + [c.target]);
    var s3 := s2.(main := Recording(c), reports := s.reports + [Report(s.jobId, s.submitted, Some(c))]);
    ResultSteps(s, e);
    ResultSteps(s1, e);
    ResultSteps(s2, e);
    OneMore(s, step, 3, s1);
    OneMore(s1, step, 2, s2);
    OneMore(s2, step, 1, s3);
  }

  /** An exception releases a lock held and leads to the cleanup, or out of the handler. */
  lemma InterruptLeadsToCleanup(s: State)
    requires !s.main.Returned? && !s.main.Raised?
    ensures var t := Apply(s, Interrupt);
            t == s.(main := if s.handling then Raised else Locking, handling := true,
                    lock := if s.main.Clearing? || s.main.Unlocking? then None else s.lock)
  {
  }
}
