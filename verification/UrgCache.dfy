/**
 The claim-and-publish protocol of the URG summary cache: any number of processes, each running
 `load_cached_urg_summary`, over one shared cache directory.

 A run is a sequence of steps in any order, with crashes, external damage to entries, takeover of
 stale claims and sweeping of old staging directories among them.  Every file of an entry is read in a
 step of its own: the manifest, the marker, each artifact for its digest after a step that looks for
 them all, then `tests.txt` and `session.xml` again to be parsed.  SHA-256 is symbolic (a constructor),
 which is how collision freedom enters the model.
 */
module UrgCache {
  import opened Wrappers

  const CACHE_SCHEMA_VERSION := "xcov.urg-summary-cache.v1"

  /** The required artifacts, in the order in which their digests are taken. */
  const ARTIFACTS: seq<string> :=
    ["asserts.txt", "dashboard.txt", "groups.txt", "modlist.txt", "session.xml", "tests.txt"]

  type Bytes = seq<bv8>
  type Report = map<string, Bytes>

  datatype Digest = Sha256(content: Bytes)
  datatype Identity = Identity(vdb: Digest, urg: string, runManifest: Option<string>, exclusion: Option<Digest>)
  datatype Key = Key(identity: Identity)

  datatype ArtifactInfo = ArtifactInfo(size: nat, sha256: Digest)

  /** Size and digest of each artifact, in that order. */
  type Artifacts = seq<ArtifactInfo>

  datatype Counts = Counts(metrics: nat, tests: nat, scopes: nat, functionalRows: nat, assertionRows: nat)
  datatype Index = Index(metrics: seq<string>, tests: seq<string>, scopes: seq<string>,
                         functionalRows: seq<string>, assertionRows: seq<string>)

  datatype Manifest = Manifest(schema: string, key: Key, identity: Identity,
                               artifacts: Artifacts, counts: Counts, complete: bool)

  /** One directory `entries/<key>`. */
  datatype Entry = Entry(manifest: Option<Manifest>, marker: Option<Key>, report: Report)

  /** What one cold URG run produced and parsed. */
  datatype Build = Build(identity: Identity, report: Report, index: Index)

  /** `parse` is `parse_urg_summary` past artifact validation; it reads `tests.txt` and `session.xml`. */
  datatype Config = Config(parse: (Bytes, Bytes) -> Option<Index>, maxEntries: nat)

  datatype Outcome = Hit(index: Index) | Cold(index: Index) | Failed

  /** What `_read_valid_entry` has read so far, and what it reads next: the marker, which artifacts are there, and so on. */
  datatype Read =
    | Marking(manifest: Manifest)
    | Listing(manifest: Manifest)
    | Hashing(manifest: Manifest, hashed: Artifacts)
    | Parsing(manifest: Manifest, hashed: Artifacts, tests: Bytes)

  datatype Progress = More(read: Read) | Valid(index: Index) | Invalid

  /** Program counter of one call of `load_cached_urg_summary`. */
  datatype Pc =
    | Probing
    | ProbingEntry(read: Read)
    | Claiming
    | Waiting
    | Seizing
    | Claimed
    | Rechecking
    | RecheckingEntry(read: Read)
    | Inspecting
    | Quarantining
    | Admitting
    | Building
    | Publishing(build: Build, stage: Entry)
    | Settling(build: Build)
    | Returning(outcome: Outcome)
    | Done(outcome: Outcome)
    | Crashed

  datatype Proc = Proc(identity: Identity, pc: Pc)

  /**
   `built`, `published`, `seized`, `damaged`, `torn` and `forged` only record history; no step reads
   them.  A process is in `torn` if the entry changed after it had taken the first digest and before it
   had parsed; a key is in `forged` if damage wrote a manifest of it that no build had written.
   */
  datatype State = State(
    entries: map<Key, Entry>,
    claims: map<Key, nat>,
    procs: map<nat, Proc>,
    built: set<Build>,
    published: multiset<Key>,
    seized: set<Key>,
    damaged: set<Key>,
    torn: set<nat>,
    forged: set<Key>)

  /** What the environment decides during one step. */
  datatype Choice = Choice(stale: bool, expired: bool, fails: bool, report: Report)

  datatype Step =
    | Spawn(p: nat, identity: Identity)
    | Move(p: nat, choice: Choice)
    | Crash(p: nat)
    | Damage(key: Key, entry: Option<Entry>)
    | Sweep(p: nat, left: Entry)

  // ---------- reading and writing one entry ----------

  predicate Complete(report: Report): (complete: bool)
    ensures complete ==> "session.xml" in report && "tests.txt" in report
  {
    assert ARTIFACTS[4] == "session.xml" && ARTIFACTS[5] == "tests.txt";
    forall i :: 0 <= i < |ARTIFACTS| ==> ARTIFACTS[i] in report && report[ARTIFACTS[i]] != []
  }

  function Info(content: Bytes): ArtifactInfo {
    ArtifactInfo(|content|, Sha256(content))
  }

  /** The digests of all artifacts. */
  function Metadata(report: Report): Artifacts
    requires Complete(report)
  {
    seq(|ARTIFACTS|, i requires 0 <= i < |ARTIFACTS| => Info(report[ARTIFACTS[i]]))
  }

  function Parse(c: Config, report: Report): Option<Index> {
    if Complete(report) then c.parse(report["tests.txt"], report["session.xml"]) else None
  }

  function SemanticCounts(index: Index): Counts {
    Counts(|index.metrics|, |index.tests|, |index.scopes|, |index.functionalRows|, |index.assertionRows|)
  }

  function ManifestOf(b: Build): Manifest
    requires Complete(b.report)
  {
    Manifest(CACHE_SCHEMA_VERSION, Key(b.identity), b.identity, Metadata(b.report),
             SemanticCounts(b.index), true)
  }

  function Stage(b: Build): Entry
    requires Complete(b.report)
  {
    Entry(Some(ManifestOf(b)), Some(Key(b.identity)), b.report)
  }

  /** `_read_valid_entry` begins with the manifest. */
  function ReadManifest(entries: map<Key, Entry>, key: Key): Option<Manifest> {
    if key in entries then entries[key].manifest else None
  }

  /** The header tests, once the marker is read. */
  predicate GoodHeader(m: Manifest, identity: Identity, marker: Option<Key>) {
    && m.schema == CACHE_SCHEMA_VERSION && m.key == Key(identity) && m.identity == identity && m.complete
    && marker == Some(Key(identity))
  }

  /** One file of the entry more. */
  function NextRead(c: Config, entries: map<Key, Entry>, identity: Identity, read: Read): Progress {
    if Key(identity) !in entries then Invalid
    else
      var e := entries[Key(identity)];
      match read
      case Marking(m) => if GoodHeader(m, identity, e.marker) then More(Listing(m)) else Invalid
      case Listing(m) => if Complete(e.report) then More(Hashing(m, [])) else Invalid
      case Hashing(m, hashed) =>
        if |hashed| < |ARTIFACTS| then
          var name := ARTIFACTS[|hashed|];
          if name in e.report then More(Hashing(m, hashed + [Info(e.report[name])])) else Invalid
        else if Complete(e.report) then More(Parsing(m, hashed, e.report["tests.txt"])) else Invalid
      case Parsing(m, hashed, tests) =>
        if "session.xml" in e.report then Parsed(m, hashed, c.parse(tests, e.report["session.xml"])) else Invalid
  }

  /** The comparisons with the manifest that end a read. */
  function Parsed(m: Manifest, hashed: Artifacts, index: Option<Index>): Progress {
    if index.Some? && hashed == m.artifacts && SemanticCounts(index.value) == m.counts then Valid(index.value) else Invalid
  }

  predicate EmptyDirectory(e: Entry) {
    e == Entry(None, None, map[])
  }

  // ---------- the step function ----------

  /** With a parsed report the manifest and the marker are written, and the stage is ready. */
  function Publish(b: Build): Pc {
    if Complete(b.report) then Publishing(b, Stage(b)) else Returning(Failed)
  }

  /** Where the next file-system call takes process `p`. */
  function NextPc(c: Config, entries: map<Key, Entry>, claims: map<Key, nat>, proc: Proc, o: Choice): Pc {
    var key := Key(proc.identity);
    match proc.pc
    case Probing =>
      var m := ReadManifest(entries, key);
      if m.Some? then ProbingEntry(Marking(m.value)) else Claiming
    case ProbingEntry(read) =>
      var next := NextRead(c, entries, proc.identity, read);
      if next.More? then ProbingEntry(next.read) else if next.Valid? then Done(Hit(next.index)) else Claiming
    case Claiming => if key in claims then Waiting else Claimed
    case Waiting =>
      if key !in claims then Probing else if o.stale then Seizing
      else if o.expired then Done(Failed) else Probing
    case Seizing => Probing
    case Claimed => if o.fails then Returning(Failed) else Rechecking
    case Rechecking =>
      var m := ReadManifest(entries, key);
      if m.Some? then RecheckingEntry(Marking(m.value)) else Inspecting
    case RecheckingEntry(read) =>
      var next := NextRead(c, entries, proc.identity, read);
      if next.More? then RecheckingEntry(next.read) else if next.Valid? then Returning(Hit(next.index)) else Inspecting
    case Inspecting => if key in entries then Quarantining else Admitting
    case Quarantining => if o.fails || key !in entries then Returning(Failed) else Admitting
    case Admitting => if o.fails || |entries| >= c.maxEntries then Returning(Failed) else Building
    case Building =>
      var index := Parse(c, o.report);
      if o.fails || index.None? then Returning(Failed) else Publish(Build(proc.identity, o.report, index.value))
    case Publishing(b, _) =>
      if o.fails || (key in entries && !EmptyDirectory(entries[key]))
      then Returning(Failed) else Settling(b)
    case Settling(b) => Returning(if o.fails then Failed else Cold(b.index))
    case Returning(r) => Done(r)
    case Done(_) => proc.pc
    case Crashed => Crashed
  }

  /** Quarantine renames the entry away; publication renames the stage into place. */
  function NextEntries(entries: map<Key, Entry>, proc: Proc, pc': Pc): map<Key, Entry> {
    if proc.pc.Quarantining? && pc'.Admitting? then entries - {Key(proc.identity)}
    else if proc.pc.Publishing? && pc'.Settling? then entries[Key(proc.identity) := proc.pc.stage]
    else entries
  }

  /** `mkdir` makes the claim; takeover and the `finally` block both remove it, whoever made it. */
  function NextClaims(claims: map<Key, nat>, p: nat, proc: Proc, pc': Pc): map<Key, nat> {
    if proc.pc.Claiming? && pc'.Claimed? then claims[Key(proc.identity) := p]
    else if proc.pc.Seizing? || proc.pc.Returning? then claims - {Key(proc.identity)}
    else claims
  }

  /** A key counts as seized once a claim is taken over whose owner had not crashed. */
  function NextSeized(s: State, proc: Proc): set<Key> {
    var key := Key(proc.identity);
    if proc.pc.Seizing? && key in s.claims && !(s.claims[key] in s.procs && s.procs[s.claims[key]].pc.Crashed?)
    then s.seized + {key} else s.seized
  }

  /** Between the first digest and having parsed. */
  predicate Open(read: Read) {
    (read.Hashing? && read.hashed != []) || read.Parsing?
  }

  predicate Reading(pc: Pc) {
    (pc.ProbingEntry? || pc.RecheckingEntry?) && Open(pc.read)
  }

  /** The processes that are reading the report of a key. */
  function Readers(procs: map<nat, Proc>, key: Key): set<nat> {
    set q | q in procs && Reading(procs[q].pc) && Key(procs[q].identity) == key
  }

  /** A change of an entry tears the reads of its readers; the first digest starts a new read. */
  function NextTorn(s: State, p: nat, proc: Proc, pc': Pc): set<nat> {
    var before := if Reading(pc') && !Reading(proc.pc) then s.torn - {p} else s.torn;
    if NextEntries(s.entries, proc, pc') == s.entries then before else before + Readers(s.procs, Key(proc.identity))
  }

  function MoveProc(c: Config, s: State, p: nat, o: Choice): State
    requires p in s.procs
  {
    var proc := s.procs[p];
    var pc' := NextPc(c, s.entries, s.claims, proc, o);
    State(NextEntries(s.entries, proc, pc'),
          NextClaims(s.claims, p, proc, pc'),
          s.procs[p := proc.(pc := pc')],
          if proc.pc.Building? && pc'.Publishing? then s.built + {pc'.build} else s.built,
          if proc.pc.Publishing? && pc'.Settling? then s.published + multiset{Key(proc.identity)} else s.published,
          NextSeized(s, proc),
          s.damaged,
          NextTorn(s, p, proc, pc'),
          s.forged)
  }

  ghost predicate WrittenManifest(s: State, m: Manifest) {
    exists b :: b in s.built && Complete(b.report) && m == ManifestOf(b)
  }

  /** The key whose manifest damage forges, if it does. */
  ghost function Forged(s: State, e: Option<Entry>): set<Key> {
    if e.Some? && e.value.manifest.Some? && !WrittenManifest(s, e.value.manifest.value)
    then {Key(e.value.manifest.value.identity)} else {}
  }

  /** What removing files leaves of a stage. */
  predicate Gutted(stage: Entry, left: Entry) {
    && (left.manifest == None || left.manifest == stage.manifest)
    && (left.marker == None || left.marker == stage.marker)
    && (forall name :: name in left.report ==> name in stage.report && left.report[name] == stage.report[name])
  }

  ghost function DamageEntry(s: State, key: Key, e: Option<Entry>): State {
    if key in s.entries then
      s.(entries := if e.Some? then s.entries[key := e.value] else s.entries - {key},
         damaged := s.damaged + {key},
         torn := s.torn + Readers(s.procs, key),
         forged := s.forged + Forged(s, e))
    else s
  }

  /** Another process removes files from a stage that it takes for abandoned. */
  function SweepStage(s: State, p: nat, left: Entry): State {
    if p in s.procs && s.procs[p].pc.Publishing? && Gutted(s.procs[p].pc.stage, left) then
      s.(procs := s.procs[p := s.procs[p].(pc := s.procs[p].pc.(stage := left))],
         damaged := s.damaged + {Key(s.procs[p].identity)})
    else s
  }

  ghost function Apply(c: Config, s: State, step: Step): State {
    match step
    case Spawn(p, id) => if p in s.procs then s else s.(procs := s.procs[p := Proc(id, Probing)])
    case Move(p, o) => if p in s.procs then MoveProc(c, s, p, o) else s
    case Crash(p) => if p in s.procs && !s.procs[p].pc.Done? then s.(procs := s.procs[p := s.procs[p].(pc := Crashed)]) else s
    case Damage(key, e) => DamageEntry(s, key, e)
    case Sweep(p, left) => SweepStage(s, p, left)
  }

  ghost function Run(c: Config, steps: seq<Step>): State {
    if steps == [] then State(map[], map[], map[], {}, multiset{}, {}, {}, {}, {})
    else Apply(c, Run(c, steps[..|steps| - 1]), steps[|steps| - 1])
  }

  // ---------- every returned index belongs to the caller's identity ----------

  ghost predicate Built(s: State, identity: Identity, index: Index) {
    exists b :: b in s.built && b.identity == identity && b.index == index
  }

  ghost predicate BuiltManifest(s: State, m: Manifest) {
    WrittenManifest(s, m) || Key(m.identity) in s.forged
  }

  /** The digests taken are those of the report. */
  predicate Digested(report: Report, hashed: Artifacts) {
    |hashed| <= |ARTIFACTS| && forall i :: 0 <= i < |hashed| ==> ARTIFACTS[i] in report && hashed[i] == Info(report[ARTIFACTS[i]])
  }

  /** What has been read of a report is what is in place. */
  predicate Current(entries: map<Key, Entry>, key: Key, read: Read) {
    Open(read) ==>
      && key in entries && Digested(entries[key].report, read.hashed)
      && (read.Parsing? ==> |read.hashed| == |ARTIFACTS| && "tests.txt" in entries[key].report && read.tests == entries[key].report["tests.txt"])
  }

  /** What is known of a read until it is torn. */
  ghost predicate ReadContent(s: State, p: nat, identity: Identity, read: Read) {
    && BuiltManifest(s, read.manifest)
    && (!read.Marking? ==> read.manifest.identity == identity)
    && (p in s.torn || Current(s.entries, Key(identity), read))
  }

  ghost predicate OutcomeBuilt(s: State, p: nat, identity: Identity, r: Outcome) {
    match r
    case Hit(index) => p in s.torn || Key(identity) in s.forged || Built(s, identity, index)
    case Cold(index) => Built(s, identity, index)
    case Failed => true
  }

  /** The stage of a build, or what sweeping left of it. */
  ghost predicate StageOf(b: Build, stage: Entry) {
    Complete(b.report) && (stage.manifest.None? || stage.manifest == Some(ManifestOf(b)))
  }

  ghost predicate ProcContent(s: State, p: nat, proc: Proc) {
    match proc.pc
    case ProbingEntry(read) => ReadContent(s, p, proc.identity, read)
    case RecheckingEntry(read) => ReadContent(s, p, proc.identity, read)
    case Publishing(b, stage) => b in s.built && b.identity == proc.identity && StageOf(b, stage)
    case Settling(b) => b in s.built && b.identity == proc.identity
    case Returning(r) => OutcomeBuilt(s, p, proc.identity, r)
    case Done(r) => OutcomeBuilt(s, p, proc.identity, r)
    case _ => true
  }

  ghost predicate ContentInv(c: Config, s: State) {
    && (forall b :: b in s.built ==> Parse(c, b.report) == Some(b.index))
    && (forall k :: k in s.entries && s.entries[k].manifest.Some? ==> BuiltManifest(s, s.entries[k].manifest.value))
    && (forall p :: p in s.procs ==> ProcContent(s, p, s.procs[p]))
  }

  /** The digests in a manifest that a build wrote pin down what the parser reads. */
  lemma DigestsPinReport(c: Config, s: State, report: Report, m: Manifest)
    requires ContentInv(c, s) && WrittenManifest(s, m) && Digested(report, m.artifacts)
    ensures "tests.txt" in report && "session.xml" in report
    ensures var index := c.parse(report["tests.txt"], report["session.xml"]); index.Some? && Built(s, m.identity, index.value)
  {
    var b :| b in s.built && Complete(b.report) && m == ManifestOf(b);
    SameInfo(report, b.report, 4);
    SameInfo(report, b.report, 5);
    assert Parse(c, b.report) == Some(b.index);
  }

  lemma SameInfo(report: Report, other: Report, i: nat)
    requires i < |ARTIFACTS| && Complete(other) && Digested(report, Metadata(other))
    ensures ARTIFACTS[i] in report && report[ARTIFACTS[i]] == other[ARTIFACTS[i]]
  {
    assert Metadata(other)[i] == Info(other[ARTIFACTS[i]]);
  }

  /** A read that was not torn, of a manifest not forged, gives what a build of the identity gave. */
  lemma WholeReadIsBuilt(c: Config, s: State, identity: Identity, read: Read)
    requires ContentInv(c, s) && WrittenManifest(s, read.manifest) && Current(s.entries, Key(identity), read) && read.Parsing?
    ensures var next := NextRead(c, s.entries, identity, read); next.Valid? ==> Built(s, read.manifest.identity, next.index)
  {
    if NextRead(c, s.entries, identity, read).Valid? {
      DigestsPinReport(c, s, s.entries[Key(identity)].report, read.manifest);
    }
  }

  lemma DigestOneMore(report: Report, hashed: Artifacts)
    requires Digested(report, hashed) && |hashed| < |ARTIFACTS| && ARTIFACTS[|hashed|] in report
    ensures Digested(report, hashed + [Info(report[ARTIFACTS[|hashed|]])])
  {
  }

  /** What is read next fits what was read before, from the first digest on. */
  lemma ReadStaysCurrent(c: Config, entries: map<Key, Entry>, identity: Identity, read: Read)
    requires Current(entries, Key(identity), read)
    ensures var next := NextRead(c, entries, identity, read); next.More? ==> Current(entries, Key(identity), next.read)
  {
    if Key(identity) in entries && read.Hashing? && |read.hashed| < |ARTIFACTS| && ARTIFACTS[|read.hashed|] in entries[Key(identity)].report {
      DigestOneMore(entries[Key(identity)].report, read.hashed);
    }
  }

  /** More builds and more torn reads keep what is known of a process whose entry is as it was. */
  lemma ContentGrows(s: State, s': State, p: nat, proc: Proc)
    requires s.built <= s'.built && s.forged <= s'.forged && ProcContent(s, p, proc) && (p in s.torn ==> p in s'.torn)
    requires Reading(proc.pc) ==>
               var key := Key(proc.identity);
               p in s'.torn || (key in s.entries ==> key in s'.entries && s'.entries[key] == s.entries[key])
    ensures ProcContent(s', p, proc)
  {
  }

  /** A read goes on, ends in a hit, or finds no entry. */
  lemma ReadMoves(c: Config, s: State, p: nat, read: Read, s': State)
    requires ContentInv(c, s) && p in s.procs && ReadContent(s, p, s.procs[p].identity, read)
    requires s'.built == s.built && s'.entries == s.entries && s'.forged == s.forged
    ensures var identity := s.procs[p].identity; var next := NextRead(c, s.entries, identity, read);
            && (next.More? && (p in s'.torn <==> p in s.torn && (Open(read) || !Open(next.read)))
                ==> ReadContent(s', p, identity, next.read))
            && (next.Valid? && (p in s'.torn <==> p in s.torn) ==> OutcomeBuilt(s', p, identity, Hit(next.index)))
  {
    var identity := s.procs[p].identity;
    if Current(s.entries, Key(identity), read) {
      ReadStaysCurrent(c, s.entries, identity, read);
      if WrittenManifest(s, read.manifest) && read.Parsing? { WholeReadIsBuilt(c, s, identity, read); }
    }
  }

  lemma MovedReader(c: Config, s: State, p: nat, o: Choice, s': State)
    requires ContentInv(c, s) && p in s.procs && s' == MoveProc(c, s, p, o)
    requires var pc := s.procs[p].pc; pc.Probing? || pc.Rechecking? || pc.ProbingEntry? || pc.RecheckingEntry?
    ensures ProcContent(s', p, s'.procs[p])
  {
    var proc := s.procs[p];
    assert ProcContent(s, p, proc);
    if proc.pc.ProbingEntry? || proc.pc.RecheckingEntry? { ReadMoves(c, s, p, proc.pc.read, s'); }
  }

  lemma MovedBuilder(c: Config, s: State, p: nat, o: Choice, s': State)
    requires ContentInv(c, s) && p in s.procs && s' == MoveProc(c, s, p, o)
    requires var pc := s.procs[p].pc; pc.Building? || pc.Publishing? || pc.Settling?
    ensures ProcContent(s', p, s'.procs[p])
  {
    var proc := s.procs[p];
    assert ProcContent(s, p, proc);
    if proc.pc.Settling? { assert Built(s', proc.identity, proc.pc.build.index); }
  }

  lemma MovedReturning(c: Config, s: State, p: nat, o: Choice, s': State)
    requires ContentInv(c, s) && p in s.procs && s' == MoveProc(c, s, p, o)
    requires var pc := s.procs[p].pc; pc.Returning? || pc.Done?
    ensures ProcContent(s', p, s'.procs[p])
  {
    assert ProcContent(s, p, s.procs[p]);
  }

  lemma MovedProcContent(c: Config, s: State, p: nat, o: Choice, s': State)
    requires ContentInv(c, s) && p in s.procs && s' == MoveProc(c, s, p, o)
    ensures ProcContent(s', p, s'.procs[p])
  {
    var pc := s.procs[p].pc;
    if pc.Probing? || pc.Rechecking? || pc.ProbingEntry? || pc.RecheckingEntry? { MovedReader(c, s, p, o, s'); }
    else if pc.Building? || pc.Publishing? || pc.Settling? { MovedBuilder(c, s, p, o, s'); }
    else if pc.Returning? || pc.Done? { MovedReturning(c, s, p, o, s'); }
  }

  lemma EntriesAfterMove(c: Config, s: State, p: nat, o: Choice, s': State)
    requires ContentInv(c, s) && p in s.procs && s' == MoveProc(c, s, p, o)
    ensures forall k :: k in s'.entries && s'.entries[k].manifest.Some? ==> BuiltManifest(s', s'.entries[k].manifest.value)
    ensures forall k :: k in s.entries && k != Key(s.procs[p].identity) ==> k in s'.entries && s'.entries[k] == s.entries[k]
  {
    assert ProcContent(s, p, s.procs[p]);
    forall k | k in s'.entries && s'.entries[k].manifest.Some? ensures BuiltManifest(s', s'.entries[k].manifest.value) {
      if k in s.entries && s'.entries[k] == s.entries[k] { assert BuiltManifest(s, s.entries[k].manifest.value); }
    }
  }

  lemma OthersAfterMove(c: Config, s: State, p: nat, o: Choice, s': State, q: nat)
    requires ContentInv(c, s) && p in s.procs && s' == MoveProc(c, s, p, o) && q in s.procs && q != p
    ensures ProcContent(s', q, s.procs[q])
  {
    EntriesAfterMove(c, s, p, o, s');
    assert ProcContent(s, q, s.procs[q]);
    ContentGrows(s, s', q, s.procs[q]);
  }

  lemma ContentMove(c: Config, s: State, p: nat, o: Choice, s': State)
    requires ContentInv(c, s) && p in s.procs && s' == MoveProc(c, s, p, o)
    ensures ContentInv(c, s')
  {
    MovedProcContent(c, s, p, o, s');
    EntriesAfterMove(c, s, p, o, s');
    forall q | q in s'.procs ensures ProcContent(s', q, s'.procs[q]) {
      if q != p { OthersAfterMove(c, s, p, o, s', q); }
    }
  }

  lemma ContentDamage(c: Config, s: State, key: Key, e: Option<Entry>)
    requires ContentInv(c, s)
    ensures ContentInv(c, DamageEntry(s, key, e))
  {
    var s' := DamageEntry(s, key, e);
    forall q | q in s'.procs ensures ProcContent(s', q, s'.procs[q]) {
      assert ProcContent(s, q, s.procs[q]);
      ContentGrows(s, s', q, s.procs[q]);
    }
    forall k | k in s'.entries && s'.entries[k].manifest.Some? ensures BuiltManifest(s', s'.entries[k].manifest.value) {
      if k in s.entries && s'.entries[k] == s.entries[k] { assert BuiltManifest(s, s.entries[k].manifest.value); }
    }
  }

  lemma ContentOther(c: Config, s: State, step: Step)
    requires ContentInv(c, s) && (step.Spawn? || step.Crash? || step.Sweep?)
    ensures ContentInv(c, Apply(c, s, step))
  {
    var s' := Apply(c, s, step);
    assert s'.entries == s.entries && s'.built == s.built && s'.torn == s.torn && s'.forged == s.forged;
    forall q | q in s'.procs ensures ProcContent(s', q, s'.procs[q]) { OtherProc(c, s, step, q); }
    forall k | k in s'.entries && s'.entries[k].manifest.Some? ensures BuiltManifest(s', s'.entries[k].manifest.value) {
      assert BuiltManifest(s, s.entries[k].manifest.value);
    }
  }

  lemma OtherProc(c: Config, s: State, step: Step, q: nat)
    requires ContentInv(c, s) && (step.Spawn? || step.Crash? || step.Sweep?) && q in Apply(c, s, step).procs
    ensures ProcContent(Apply(c, s, step), q, Apply(c, s, step).procs[q])
  {
    var s' := Apply(c, s, step);
    if q in s.procs {
      assert ProcContent(s, q, s.procs[q]);
      if s'.procs[q] == s.procs[q] { ContentGrows(s, s', q, s.procs[q]); }
    }
  }

  lemma ContentStep(c: Config, s: State, step: Step)
    requires ContentInv(c, s)
    ensures ContentInv(c, Apply(c, s, step))
  {
    match step
    case Move(p, o) => if p in s.procs { ContentMove(c, s, p, o, MoveProc(c, s, p, o)); }
    case Damage(key, e) => ContentDamage(c, s, key, e);
    case _ => ContentOther(c, s, step);
  }

  /**
   Whatever the interleaving, crashes, takeovers, sweeping and damage: an index returned to a caller
   was parsed by a cold build run for that caller's identity, unless it is a hit whose entry changed
   between the first digest and parsing, or for which a manifest was forged.
   */
  lemma {:induction false} ReturnedIndexWasBuilt(c: Config, steps: seq<Step>)
    ensures ContentInv(c, Run(c, steps))
    ensures var s := Run(c, steps);
            forall p :: p in s.procs && s.procs[p].pc.Done? && !s.procs[p].pc.outcome.Failed? ==>
              || Built(s, s.procs[p].identity, s.procs[p].pc.outcome.index)
              || (s.procs[p].pc.outcome.Hit? && (p in s.torn || Key(s.procs[p].identity) in s.forged))
  {
    if steps != [] {
      ReturnedIndexWasBuilt(c, steps[..|steps| - 1]);
      ContentStep(c, Run(c, steps[..|steps| - 1]), steps[|steps| - 1]);
    }
    var s := Run(c, steps);
    forall p | p in s.procs && s.procs[p].pc.Done? && !s.procs[p].pc.outcome.Failed?
      ensures || Built(s, s.procs[p].identity, s.procs[p].pc.outcome.index)
              || (s.procs[p].pc.outcome.Hit? && (p in s.torn || Key(s.procs[p].identity) in s.forged))
    {
      assert ProcContent(s, p, s.procs[p]);
    }
  }

  // ---------- one process per key between claim and release ----------

  predicate Critical(pc: Pc) {
    pc.Claimed? || pc.Rechecking? || pc.RecheckingEntry? || pc.Inspecting? || pc.Quarantining? || pc.Admitting?
    || pc.Building? || pc.Publishing? || pc.Settling? || pc.Returning?
  }

  ghost predicate ClaimInv(s: State) {
    forall p :: p in s.procs ==> ClaimHeld(s, p)
  }

  ghost predicate ClaimHeld(s: State, p: nat) {
    p in s.procs && Critical(s.procs[p].pc) ==>
      var key := Key(s.procs[p].identity);
      key in s.seized || (key in s.claims && s.claims[key] == p)
  }

  lemma OwnClaimMoved(c: Config, s: State, p: nat, o: Choice)
    requires p in s.procs && ClaimHeld(s, p)
    ensures ClaimHeld(MoveProc(c, s, p, o), p)
  {
  }

  lemma OtherClaimMoved(c: Config, s: State, p: nat, o: Choice, q: nat)
    requires p in s.procs && ClaimHeld(s, p) && ClaimHeld(s, q) && q != p
    ensures ClaimHeld(MoveProc(c, s, p, o), q)
  {
    if q in s.procs && Critical(s.procs[q].pc) && Key(s.procs[q].identity) == Key(s.procs[p].identity) {
      SameKeyMoved(s, p, q, NextPc(c, s.entries, s.claims, s.procs[p], o));
    }
  }

  /** A holder's claim stays, or the key counts as seized. */
  lemma SameKeyMoved(s: State, p: nat, q: nat, pc': Pc)
    requires p in s.procs && q in s.procs && q != p && ClaimHeld(s, p) && ClaimHeld(s, q) && Critical(s.procs[q].pc)
    requires Key(s.procs[q].identity) == Key(s.procs[p].identity)
    requires s.procs[p].pc.Claiming? && pc'.Claimed? ==> Key(s.procs[p].identity) !in s.claims
    ensures var key := Key(s.procs[q].identity);
            key in NextSeized(s, s.procs[p]) || (key in NextClaims(s.claims, p, s.procs[p], pc') && NextClaims(s.claims, p, s.procs[p], pc')[key] == q)
  {
  }

  lemma ClaimMoved(c: Config, s: State, p: nat, o: Choice, q: nat)
    requires ClaimInv(s) && p in s.procs && ClaimHeld(s, q)
    ensures ClaimHeld(MoveProc(c, s, p, o), q)
  {
    assert ClaimHeld(s, p);
    if q == p { OwnClaimMoved(c, s, p, o); } else { OtherClaimMoved(c, s, p, o, q); }
  }

  lemma ClaimStep(c: Config, s: State, step: Step)
    requires ClaimInv(s)
    ensures ClaimInv(Apply(c, s, step))
  {
    var s' := Apply(c, s, step);
    forall q | q in s'.procs ensures ClaimHeld(s', q) {
      if q in s.procs { assert ClaimHeld(s, q); }
      if step.Move? && step.p in s.procs { ClaimMoved(c, s, step.p, step.choice, q); }
    }
  }

  /**
   At most one process per key is between claim and release, in every run, as long as no claim of
   that key was taken over while its owner was still alive.
   */
  lemma {:induction false} ClaimExcludes(c: Config, steps: seq<Step>, p: nat, q: nat)
    ensures ClaimInv(Run(c, steps))
    ensures var s := Run(c, steps);
            && p != q && p in s.procs && q in s.procs
            && Critical(s.procs[p].pc) && Critical(s.procs[q].pc)
            && s.procs[p].identity == s.procs[q].identity
            ==> Key(s.procs[p].identity) in s.seized
  {
    if steps != [] {
      ClaimExcludes(c, steps[..|steps| - 1], p, q);
      ClaimStep(c, Run(c, steps[..|steps| - 1]), steps[|steps| - 1]);
    }
    assert p in Run(c, steps).procs ==> ClaimHeld(Run(c, steps), p);
    assert q in Run(c, steps).procs ==> ClaimHeld(Run(c, steps), q);
  }

  lemma SeizingMoves(c: Config, s: State, q: nat, o: Choice)
    requires q in s.procs && s.procs[q].pc.Seizing?
    ensures var t := Apply(c, s, Move(q, o));
            t.procs == s.procs[q := s.procs[q].(pc := Probing)] && t.entries == s.entries && Key(s.procs[q].identity) !in t.claims
  {
  }

  lemma ProbingMoves(c: Config, s: State, q: nat, o: Choice)
    requires q in s.procs && s.procs[q].pc.Probing?
    ensures var t := Apply(c, s, Move(q, o)); var m := ReadManifest(s.entries, Key(s.procs[q].identity));
            t.procs == s.procs[q := s.procs[q].(pc := if m.Some? then ProbingEntry(Marking(m.value)) else Claiming)]
            && t.claims == s.claims && t.entries == s.entries
  {
  }

  lemma MarkingMoves(c: Config, s: State, q: nat, o: Choice)
    requires q in s.procs && s.procs[q].pc.ProbingEntry? && s.procs[q].pc.read.Marking?
    requires NextRead(c, s.entries, s.procs[q].identity, s.procs[q].pc.read).Invalid?
    ensures var t := Apply(c, s, Move(q, o)); t.procs == s.procs[q := s.procs[q].(pc := Claiming)] && t.claims == s.claims
  {
  }

  lemma ClaimingMoves(c: Config, s: State, q: nat, o: Choice)
    requires q in s.procs && s.procs[q].pc.Claiming? && Key(s.procs[q].identity) !in s.claims
    ensures Apply(c, s, Move(q, o)).procs == s.procs[q := s.procs[q].(pc := Claimed)]
  {
  }

  /** The entry has no manifest with a good header and marker. */
  predicate Headless(entries: map<Key, Entry>, identity: Identity) {
    Key(identity) in entries && entries[Key(identity)].manifest.Some? ==>
      !GoodHeader(entries[Key(identity)].manifest.value, identity, entries[Key(identity)].marker)
  }

  ghost function Moves(c: Config, s: State, q: nat, o: Choice, n: nat): State {
    if n == 0 then s else Apply(c, Moves(c, s, q, o, n - 1), Move(q, o))
  }

  lemma MovesUnfold(c: Config, s: State, q: nat, o: Choice)
    ensures var s3 := Apply(c, Apply(c, Apply(c, s, Move(q, o)), Move(q, o)), Move(q, o));
            Moves(c, s, q, o, 3) == s3 && Moves(c, s, q, o, 4) == Apply(c, s3, Move(q, o))
  {
    assert Moves(c, s, q, o, 1) == Apply(c, s, Move(q, o));
    assert Moves(c, s, q, o, 2) == Apply(c, Moves(c, s, q, o, 1), Move(q, o));
  }

  /**
   The other half: from any state in which a process is about to take over the claim of another one
   that is between claim and release, and the entry has no good header, both can get there.
   */
  lemma TakeoverAdmitsBoth(c: Config, s: State, p: nat, q: nat, o: Choice)
    requires p in s.procs && q in s.procs && p != q && s.procs[p].identity == s.procs[q].identity
    requires Critical(s.procs[p].pc) && s.procs[q].pc.Seizing? && Headless(s.entries, s.procs[q].identity)
    ensures var t := Moves(c, s, q, o, if ReadManifest(s.entries, Key(s.procs[q].identity)).Some? then 4 else 3);
            p in t.procs && q in t.procs && Critical(t.procs[p].pc) && t.procs[q].pc.Claimed? && t.procs[p] == s.procs[p]
  {
    var s1 := Apply(c, s, Move(q, o));
    var s2 := Apply(c, s1, Move(q, o));
    var s3 := Apply(c, s2, Move(q, o));
    MovesUnfold(c, s, q, o);
    SeizingMoves(c, s, q, o);
    ProbingMoves(c, s1, q, o);
    if ReadManifest(s.entries, Key(s.procs[q].identity)).Some? {
      MarkingMoves(c, s2, q, o);
      ClaimingMoves(c, s3, q, o);
    } else {
      ClaimingMoves(c, s2, q, o);
    }
  }

  // ---------- one successful build per key ----------

  predicate Clean(s: State, k: Key) {
    k !in s.seized && k !in s.damaged
  }

  ghost predicate Intact(c: Config, k: Key, e: Entry) {
    exists b: Build :: Parse(c, b.report) == Some(b.index) && k == Key(b.identity) && e == Stage(b)
  }

  /** What a claim holder knows about its entry. */
  predicate Holds(s: State, proc: Proc) {
    var key := Key(proc.identity);
    match proc.pc
    case RecheckingEntry(read) => key in s.entries && s.entries[key].manifest == Some(read.manifest) && Current(s.entries, key, read)
    case Publishing(b, stage) => key !in s.entries && Complete(b.report) && stage == Stage(b)
    case Inspecting => key !in s.entries
    case Quarantining => key !in s.entries
    case Admitting => key !in s.entries
    case Building => key !in s.entries
    case _ => true
  }

  ghost predicate SingleInv(c: Config, s: State) {
    && (forall k :: Clean(s, k) ==> s.published[k] == if k in s.entries then 1 else 0)
    && (forall k :: Clean(s, k) && k in s.entries ==> Intact(c, k, s.entries[k]))
    && (forall p :: p in s.procs && Clean(s, Key(s.procs[p].identity)) ==> Holds(s, s.procs[p]))
  }

  lemma AllDigests(report: Report, hashed: Artifacts)
    requires Complete(report) && Digested(report, hashed) && |hashed| == |ARTIFACTS|
    ensures hashed == Metadata(report)
  {
  }

  /** An intact entry is found, and every step of reading it goes on or is a hit. */
  lemma IntactEntryIsRead(c: Config, entries: map<Key, Entry>, identity: Identity, read: Read)
    requires Key(identity) in entries && Intact(c, Key(identity), entries[Key(identity)])
    requires entries[Key(identity)].manifest == Some(read.manifest) && Current(entries, Key(identity), read)
    ensures var next := NextRead(c, entries, identity, read);
            !next.Invalid? && (next.More? ==> next.read.manifest == read.manifest && Current(entries, Key(identity), next.read))
  {
    var b: Build :| Parse(c, b.report) == Some(b.index) && Key(identity) == Key(b.identity) && entries[Key(identity)] == Stage(b);
    ReadStaysCurrent(c, entries, identity, read);
    if read.Parsing? { AllDigests(b.report, read.hashed); }
  }

  /** A clean entry survives every step, and only the claim holder can make one. */
  lemma CleanEntrySurvives(c: Config, s: State, step: Step, k: Key)
    requires SingleInv(c, s) && Clean(Apply(c, s, step), k)
    ensures Clean(s, k)
    ensures k in s.entries ==> k in Apply(c, s, step).entries && Apply(c, s, step).entries[k] == s.entries[k]
    ensures k !in s.entries && k in Apply(c, s, step).entries ==>
              step.Move? && step.p in s.procs && s.procs[step.p].pc.Publishing? && Key(s.procs[step.p].identity) == k
  {
    if step.Move? && step.p in s.procs && Key(s.procs[step.p].identity) == k {
      assert Holds(s, s.procs[step.p]);
    }
  }

  lemma HolderKnows(c: Config, s: State, p: nat, o: Choice, s': State)
    requires SingleInv(c, s) && p in s.procs && Clean(s, Key(s.procs[p].identity)) && s' == MoveProc(c, s, p, o)
    ensures Holds(s', s'.procs[p])
  {
    var proc := s.procs[p];
    var key := Key(proc.identity);
    assert Holds(s, proc);
    if proc.pc.RecheckingEntry? { IntactEntryIsRead(c, s.entries, proc.identity, proc.pc.read); }
  }

  lemma PublishedIsIntact(c: Config, s: State, p: nat, o: Choice, s': State)
    requires ContentInv(c, s) && p in s.procs && s' == MoveProc(c, s, p, o) && Holds(s, s.procs[p])
    requires s.procs[p].pc.Publishing? && s'.procs[p].pc.Settling?
    ensures var k := Key(s.procs[p].identity); k in s'.entries && Intact(c, k, s'.entries[k])
  {
    assert ProcContent(s, p, s.procs[p]);
  }

  /** A clean key has as many publications as entries, and its entry is intact. */
  lemma CleanKeyStep(c: Config, s: State, step: Step, k: Key)
    requires ContentInv(c, s) && SingleInv(c, s) && Clean(Apply(c, s, step), k)
    ensures var s' := Apply(c, s, step);
            s'.published[k] == (if k in s'.entries then 1 else 0) && (k in s'.entries ==> Intact(c, k, s'.entries[k]))
  {
    CleanEntrySurvives(c, s, step, k);
    if step.Move? && step.p in s.procs && Key(s.procs[step.p].identity) == k {
      var p, s' := step.p, MoveProc(c, s, step.p, step.choice);
      assert Holds(s, s.procs[p]);
      if s.procs[p].pc.Publishing? && s'.procs[p].pc.Settling? { PublishedIsIntact(c, s, p, step.choice, s'); }
    }
  }

  lemma CleanHolderStep(c: Config, s: State, step: Step, q: nat)
    requires SingleInv(c, s) && q in Apply(c, s, step).procs && Clean(Apply(c, s, step), Key(Apply(c, s, step).procs[q].identity))
    requires ClaimInv(s)
    ensures Holds(Apply(c, s, step), Apply(c, s, step).procs[q])
  {
    if q in s.procs {
      CleanEntrySurvives(c, s, step, Key(s.procs[q].identity));
      assert Holds(s, s.procs[q]);
      if step.Move? && step.p == q { HolderKnows(c, s, q, step.choice, MoveProc(c, s, q, step.choice)); }
    }
  }

  lemma SingleStep(c: Config, s: State, step: Step)
    requires ContentInv(c, s) && ClaimInv(s) && SingleInv(c, s)
    ensures SingleInv(c, Apply(c, s, step))
  {
    var s' := Apply(c, s, step);
    forall k | Clean(s', k)
      ensures s'.published[k] == if k in s'.entries then 1 else 0
      ensures k in s'.entries ==> Intact(c, k, s'.entries[k])
    {
      CleanKeyStep(c, s, step, k);
    }
    forall q | q in s'.procs && Clean(s', Key(s'.procs[q].identity)) ensures Holds(s', s'.procs[q]) {
      CleanHolderStep(c, s, step, q);
    }
  }

  /**
   For a key whose entry and stages nobody damaged and whose live claim nobody took over, at most one build is
   ever published, and what is in place is exactly that build.
   */
  lemma {:induction false} AtMostOneBuild(c: Config, steps: seq<Step>, k: Key)
    ensures SingleInv(c, Run(c, steps))
    ensures var s := Run(c, steps);
            Clean(s, k) ==> s.published[k] <= 1 && (k in s.entries <==> s.published[k] == 1)
  {
    if steps != [] {
      var before := steps[..|steps| - 1];
      AtMostOneBuild(c, before, k);
      ReturnedIndexWasBuilt(c, before);
      ClaimExcludes(c, before, 0, 0);
      SingleStep(c, Run(c, before), steps[|steps| - 1]);
    }
  }

  /** A published entry is never replaced or quarantined while its key stays clean. */
  lemma {:induction false} PublishedEntryIsPermanent(c: Config, steps: seq<Step>, n: nat, k: Key)
    requires n <= |steps| && Clean(Run(c, steps), k) && k in Run(c, steps[..n]).entries
    ensures k in Run(c, steps).entries && Run(c, steps).entries[k] == Run(c, steps[..n]).entries[k]
    decreases |steps|
  {
    if n == |steps| {
      assert steps[..n] == steps;
    } else {
      var before := steps[..|steps| - 1];
      assert before[..n] == steps[..n];
      AtMostOneBuild(c, before, k);
      CleanEntrySurvives(c, Run(c, before), steps[|steps| - 1], k);
      PublishedEntryIsPermanent(c, before, n, k);
    }
  }

  // ---------- soft capacity ----------

  ghost function InFlight(s: State): set<nat> {
    set p | p in s.procs && Flying(s.procs[p].pc)
  }

  lemma InFlightMove(c: Config, s: State, p: nat, o: Choice)
    requires p in s.procs
    ensures var s' := MoveProc(c, s, p, o);
            InFlight(s') == if Flying(s'.procs[p].pc) then InFlight(s) + {p} else InFlight(s) - {p}
  {
  }

  lemma EntriesMove(s: State, proc: Proc, pc': Pc)
    ensures |NextEntries(s.entries, proc, pc')| <= |s.entries| + if proc.pc.Publishing? && pc'.Settling? then 1 else 0
  {
    var keys := NextEntries(s.entries, proc, pc').Keys;
    SubsetSize(keys, if proc.pc.Publishing? && pc'.Settling? then s.entries.Keys + {Key(proc.identity)} else s.entries.Keys);
  }

  predicate Flying(pc: Pc) {
    pc.Building? || pc.Publishing?
  }

  lemma FlightPath(c: Config, s: State, proc: Proc, o: Choice, pc': Pc)
    requires pc' == NextPc(c, s.entries, s.claims, proc, o)
    ensures Flying(pc') && !Flying(proc.pc) ==> proc.pc.Admitting? && |s.entries| < c.maxEntries
  {
  }

  lemma LoadMove(c: Config, s: State, p: nat, o: Choice, s': State)
    requires p in s.procs && s' == MoveProc(c, s, p, o)
    ensures || |s'.entries| + |InFlight(s')| <= |s.entries| + |InFlight(s)|
            || (|s'.entries| == |s.entries| < c.maxEntries)
  {
    var pc, pc' := s.procs[p].pc, s'.procs[p].pc;
    EntriesMove(s, s.procs[p], pc');
    FlightPath(c, s, s.procs[p], o, pc');
    InFlightMove(c, s, p, o);
    LoadCount(InFlight(s), InFlight(s'), p, Flying(pc), Flying(pc'));
  }

  lemma LoadCount(f: set<nat>, f': set<nat>, p: nat, was: bool, now: bool)
    requires was <==> p in f
    requires f' == if now then f + {p} else f - {p}
    ensures |f'| == |f| + (if now then 1 else 0) - (if was then 1 else 0)
  {
  }

  lemma LoadOther(c: Config, s: State, step: Step)
    requires !step.Move?
    ensures InFlight(Apply(c, s, step)) <= InFlight(s) && Apply(c, s, step).entries.Keys <= s.entries.Keys
  {
  }

  /** Only an admission, which saw fewer than `maxEntries` entries, adds to published plus in-flight. */
  lemma LoadStep(c: Config, s: State, step: Step)
    ensures var s' := Apply(c, s, step);
            || |s'.entries| + |InFlight(s')| <= |s.entries| + |InFlight(s)|
            || (|s'.entries| == |s.entries| < c.maxEntries)
  {
    var s' := Apply(c, s, step);
    if step.Move? {
      if step.p in s.procs { LoadMove(c, s, step.p, step.choice, s'); }
    } else {
      LoadOther(c, s, step);
      SubsetSize(InFlight(s'), InFlight(s));
      SubsetSize(s'.entries.Keys, s.entries.Keys);
    }
  }

  /** With at most `builders` processes in flight at any time, overshoot is at most `builders - 1`. */
  lemma {:induction false} CapacityOvershootIsBounded(c: Config, steps: seq<Step>, builders: nat)
    requires c.maxEntries > 0 && builders > 0
    requires forall n :: 0 <= n <= |steps| ==> |InFlight(Run(c, steps[..n]))| <= builders
    ensures |Run(c, steps).entries| <= c.maxEntries + builders - 1
    ensures |Run(c, steps).entries| + |InFlight(Run(c, steps))| <= c.maxEntries + builders - 1
  {
    assert steps[..|steps|] == steps;
    if steps != [] {
      var before := steps[..|steps| - 1];
      forall n | 0 <= n <= |before| ensures |InFlight(Run(c, before[..n]))| <= builders {
        assert before[..n] == steps[..n];
      }
      CapacityOvershootIsBounded(c, before, builders);
      LoadStep(c, Run(c, before), steps[|steps| - 1]);
    }
  }

  // ---------- what a takeover of a live claim breaks ----------

  ghost predicate Reachable(c: Config, s: State) {
    exists steps :: Run(c, steps) == s
  }

  lemma Then(c: Config, s: State, step: Step) returns (s': State)
    requires Reachable(c, s)
    ensures s' == Apply(c, s, step) && Reachable(c, s')
  {
    var steps :| Run(c, steps) == s;
    s' := Apply(c, s, step);
    assert (steps + [step])[..|steps|] == steps;
    assert Run(c, steps + [step]) == s';
  }

  /** Two callers for one identity over an otherwise empty, undamaged cache. */
  datatype Scene = Scene(pc0: Pc, pc1: Pc, claim: Option<nat>, entry: Option<Entry>, published: nat, seized: bool, built: set<Build>)

  function Single<V>(id: Identity, v: Option<V>): map<Key, V> {
    if v.Some? then map[Key(id) := v.value] else map[]
  }

  ghost predicate Shows(s: State, id: Identity, v: Scene) {
    && s.procs == map[0 := Proc(id, v.pc0), 1 := Proc(id, v.pc1)]
    && s.claims == Single(id, v.claim) && s.entries == Single(id, v.entry) && s.damaged == {} && s.forged == {}
    && s.published[Key(id)] == v.published && (v.seized <==> Key(id) in s.seized) && s.built == v.built
  }

  ghost predicate CanShow(c: Config, id: Identity, v: Scene) {
    exists s :: Reachable(c, s) && Shows(s, id, v)
  }

  function Mover(id: Identity, v: Scene, p: nat): Proc {
    Proc(id, if p == 0 then v.pc0 else v.pc1)
  }

  function ClaimAfter(claim: Option<nat>, p: nat, pc: Pc, pc': Pc): Option<nat> {
    if pc.Claiming? && pc'.Claimed? then Some(p) else if pc.Seizing? || pc.Returning? then None else claim
  }

  function EntryAfter(entry: Option<Entry>, pc: Pc, pc': Pc): Option<Entry> {
    if pc.Quarantining? && pc'.Admitting? then None
    else if pc.Publishing? && pc'.Settling? then Some(pc.stage)
    else entry
  }

  /** Process `p` moves, with everything the environment may grant it. */
  function Turn(c: Config, id: Identity, v: Scene, p: nat, report: Report): Scene
    requires p < 2
  {
    var proc := Mover(id, v, p);
    var pc' := NextPc(c, Single(id, v.entry), Single(id, v.claim), proc, Choice(true, false, false, report));
    Scene(if p == 0 then pc' else v.pc0, if p == 1 then pc' else v.pc1,
          ClaimAfter(v.claim, p, proc.pc, pc'), EntryAfter(v.entry, proc.pc, pc'),
          v.published + (if proc.pc.Publishing? && pc'.Settling? then 1 else 0),
          v.seized || (proc.pc.Seizing? && v.claim.Some? && v.claim.value < 2
                       && !Mover(id, v, v.claim.value).pc.Crashed?),
          v.built + if proc.pc.Building? && pc'.Publishing? then {pc'.build} else {})
  }

  lemma SharedTurn(id: Identity, v: Scene, p: nat, proc: Proc, pc': Pc)
    requires proc.identity == id
    ensures NextClaims(Single(id, v.claim), p, proc, pc') == Single(id, ClaimAfter(v.claim, p, proc.pc, pc'))
    ensures NextEntries(Single(id, v.entry), proc, pc') == Single(id, EntryAfter(v.entry, proc.pc, pc'))
  {
  }

  lemma MoveIs(c: Config, s: State, p: nat, o: Choice, s': State)
    requires p in s.procs && s' == Apply(c, s, Move(p, o))
    ensures var proc := s.procs[p];
            var pc' := NextPc(c, s.entries, s.claims, proc, o);
            && s'.procs == s.procs[p := proc.(pc := pc')]
            && s'.entries == NextEntries(s.entries, proc, pc') && s'.claims == NextClaims(s.claims, p, proc, pc')
            && s'.seized == NextSeized(s, proc) && s'.damaged == s.damaged && s'.forged == s.forged
            && s'.built == (if proc.pc.Building? && pc'.Publishing? then s.built + {pc'.build} else s.built)
            && s'.published == if proc.pc.Publishing? && pc'.Settling? then s.published + multiset{Key(proc.identity)} else s.published
  {
  }

  lemma TurnIsReal(c: Config, id: Identity, v: Scene, p: nat, report: Report)
    requires p < 2 && CanShow(c, id, v) && (v.claim.Some? ==> v.claim.value < 2)
    ensures CanShow(c, id, Turn(c, id, v, p, report))
  {
    var s :| Reachable(c, s) && Shows(s, id, v);
    var o := Choice(true, false, false, report);
    var s' := Then(c, s, Move(p, o));
    var proc := Mover(id, v, p);
    assert s.procs[p] == proc;
    var pc' := NextPc(c, s.entries, s.claims, proc, o);
    MoveIs(c, s, p, o, s');
    SharedTurn(id, v, p, proc, pc');
    ShowsMove(s, s', id, v, p, proc, pc', Turn(c, id, v, p, report));
  }

  lemma ShowsMove(s: State, s': State, id: Identity, v: Scene, p: nat, proc: Proc, pc': Pc, v': Scene)
    requires p < 2 && Shows(s, id, v) && proc == Mover(id, v, p) && (v.claim.Some? ==> v.claim.value < 2)
    requires s'.procs == s.procs[p := proc.(pc := pc')] && s'.damaged == s.damaged && s'.forged == s.forged && s'.seized == NextSeized(s, proc)
    requires s'.claims == Single(id, v'.claim) && s'.entries == Single(id, v'.entry)
    requires s'.published[Key(id)] == v'.published && s'.built == v'.built
    requires v'.pc0 == (if p == 0 then pc' else v.pc0) && v'.pc1 == (if p == 1 then pc' else v.pc1)
    requires v'.seized <==> v.seized || (proc.pc.Seizing? && v.claim.Some? && !Mover(id, v, v.claim.value).pc.Crashed?)
    ensures Shows(s', id, v')
  {
  }

  lemma Curtain(c: Config, id: Identity)
    ensures CanShow(c, id, Scene(Probing, Probing, None, None, 0, false, {}))
  {
    var s := Run(c, []);
    s := Then(c, s, Spawn(0, id));
    s := Then(c, s, Spawn(1, id));
    assert Shows(s, id, Scene(Probing, Probing, None, None, 0, false, {}));
  }

  /** A script for two callers: the second takes over the first one's claim while the first is alive. */
  function Script(b: Build, i: nat): Scene
    requires Complete(b.report)
  {
    match i
    case 0 => Scene(Probing, Probing, None, None, 0, false, {})
    case 1 => Scene(Claiming, Probing, None, None, 0, false, {})
    case 2 => Scene(Claimed, Probing, Some(0), None, 0, false, {})
    case 3 => Scene(Claimed, Claiming, Some(0), None, 0, false, {})
    case 4 => Scene(Claimed, Waiting, Some(0), None, 0, false, {})
    case 5 => Scene(Claimed, Seizing, Some(0), None, 0, false, {})
    case 6 => Scene(Claimed, Probing, None, None, 0, true, {})
    case 7 => Scene(Claimed, Claiming, None, None, 0, true, {})
    case 8 => Scene(Claimed, Claimed, Some(1), None, 0, true, {})
    case 9 => Scene(Claimed, Rechecking, Some(1), None, 0, true, {})
    case 10 => Scene(Claimed, Inspecting, Some(1), None, 0, true, {})
    case 11 => Scene(Rechecking, Inspecting, Some(1), None, 0, true, {})
    case 12 => Scene(Inspecting, Inspecting, Some(1), None, 0, true, {})
    case 13 => Scene(Admitting, Inspecting, Some(1), None, 0, true, {})
    case 14 => Scene(Building, Inspecting, Some(1), None, 0, true, {})
    case 15 => Scene(Publishing(b, Stage(b)), Inspecting, Some(1), None, 0, true, {b})
    case 16 => Scene(Settling(b), Inspecting, Some(1), Some(Stage(b)), 1, true, {b})
    case 17 => Scene(Settling(b), Quarantining, Some(1), Some(Stage(b)), 1, true, {b})
    case 18 => Scene(Settling(b), Admitting, Some(1), None, 1, true, {b})
    case 19 => Scene(Settling(b), Building, Some(1), None, 1, true, {b})
    case 20 => Scene(Settling(b), Publishing(b, Stage(b)), Some(1), None, 1, true, {b})
    case _ => Scene(Settling(b), Settling(b), Some(1), Some(Stage(b)), 2, true, {b})
  }

  function Who(i: nat): nat {
    if i < 2 || 10 <= i < 16 then 0 else 1
  }

  lemma ScriptOpens(c: Config, b: Build, i: nat)
    requires i < 9 && c.maxEntries > 0 && Parse(c, b.report) == Some(b.index)
    ensures Script(b, i + 1) == Turn(c, b.identity, Script(b, i), Who(i), b.report)
  {
  }

  lemma ScriptRechecks(c: Config, b: Build, i: nat)
    requires 9 <= i < 12 && c.maxEntries > 0 && Parse(c, b.report) == Some(b.index)
    ensures Script(b, i + 1) == Turn(c, b.identity, Script(b, i), Who(i), b.report)
  {
  }

  lemma ScriptBuilds(c: Config, b: Build, i: nat)
    requires 12 <= i < 16 && c.maxEntries > 0 && Parse(c, b.report) == Some(b.index)
    ensures Script(b, i + 1) == Turn(c, b.identity, Script(b, i), Who(i), b.report)
  {
  }

  lemma ScriptEnds(c: Config, b: Build, i: nat)
    requires 16 <= i < 21 && c.maxEntries > 0 && Parse(c, b.report) == Some(b.index)
    ensures Script(b, i + 1) == Turn(c, b.identity, Script(b, i), Who(i), b.report)
  {
  }

  lemma ScriptTurn(c: Config, b: Build, i: nat)
    requires i < 21 && c.maxEntries > 0 && Parse(c, b.report) == Some(b.index)
    ensures Script(b, i + 1) == Turn(c, b.identity, Script(b, i), Who(i), b.report)
  {
    if i < 9 { ScriptOpens(c, b, i); }
    else if i < 12 { ScriptRechecks(c, b, i); }
    else if i < 16 { ScriptBuilds(c, b, i); }
    else { ScriptEnds(c, b, i); }
  }

  lemma {:induction false} ScriptIsReal(c: Config, b: Build, i: nat)
    requires i <= 21 && c.maxEntries > 0 && Parse(c, b.report) == Some(b.index)
    ensures CanShow(c, b.identity, Script(b, i))
  {
    if i == 0 {
      Curtain(c, b.identity);
    } else {
      ScriptIsReal(c, b, i - 1);
      ScriptTurn(c, b, i - 1);
      TurnIsReal(c, b.identity, Script(b, i - 1), Who(i - 1), b.report);
    }
  }

  /**
   The age test precedes the rename and the release is unconditional, so a slow live owner can lose
   its claim: for every identity some undamaged run has two processes between claim and release.
   */
  lemma TakeoverOfLiveClaimAdmitsTwo(c: Config, b: Build)
    requires c.maxEntries > 0 && Parse(c, b.report) == Some(b.index)
    ensures CanShow(c, b.identity, Scene(Claimed, Claimed, Some(1), None, 0, true, {}))
  {
    ScriptIsReal(c, b, 8);
  }

  /** From there the first one's good entry can be quarantined and its key published a second time. */
  lemma TakeoverOfLiveClaimBuildsTwice(c: Config, b: Build)
    requires c.maxEntries > 0 && Parse(c, b.report) == Some(b.index)
    ensures CanShow(c, b.identity, Scene(Settling(b), Settling(b), Some(1), Some(Stage(b)), 2, true, {b}))
  {
    ScriptIsReal(c, b, 21);
  }

  // ---------- what a torn read breaks ----------

  /** The digests of the first `n` artifacts. */
  function FirstDigests(report: Report, n: nat): Artifacts
    requires Complete(report) && n <= |ARTIFACTS|
  {
    Metadata(report)[..n]
  }

  /** Reading an intact stage, move by move. */
  function ReadingPc(b: Build, i: nat): Pc
    requires Complete(b.report)
  {
    var m := ManifestOf(b);
    if i == 0 then Probing
    else if i == 1 then ProbingEntry(Marking(m))
    else if i == 2 then ProbingEntry(Listing(m))
    else if i <= 9 then ProbingEntry(Hashing(m, FirstDigests(b.report, i - 3)))
    else if i == 10 then ProbingEntry(Parsing(m, Metadata(b.report), b.report["tests.txt"]))
    else Done(Hit(b.index))
  }

  lemma HashIsNext(report: Report, n: nat)
    requires Complete(report) && n < |ARTIFACTS|
    ensures FirstDigests(report, n + 1) == FirstDigests(report, n) + [Info(report[ARTIFACTS[n]])]
    ensures |FirstDigests(report, n)| == n
  {
  }

  lemma NextHash(c: Config, entries: map<Key, Entry>, b: Build, m: Manifest, n: nat)
    requires Complete(b.report) && Key(b.identity) in entries && entries[Key(b.identity)].report == b.report && n < |ARTIFACTS|
    ensures NextRead(c, entries, b.identity, Hashing(m, FirstDigests(b.report, n))) == More(Hashing(m, FirstDigests(b.report, n + 1)))
  {
    HashIsNext(b.report, n);
  }

  lemma StageIsRead(c: Config, entries: map<Key, Entry>, claims: map<Key, nat>, b: Build, i: nat, o: Choice)
    requires i < 11 && Parse(c, b.report) == Some(b.index)
    requires Key(b.identity) in entries && entries[Key(b.identity)] == Stage(b)
    ensures NextPc(c, entries, claims, Proc(b.identity, ReadingPc(b, i)), o) == ReadingPc(b, i + 1)
  {
    var m := ManifestOf(b);
    assert FirstDigests(b.report, 0) == [] && FirstDigests(b.report, |ARTIFACTS|) == Metadata(b.report);
    if 3 <= i < 9 { NextHash(c, entries, b, m, i - 3); }
  }

  /** The second process is at `pc`, over the entry `e`, its read untorn; only `b` was built. */
  ghost predicate ReaderAt(s: State, b: Build, e: Entry, pc: Pc, forged: set<Key>) {
    && 1 in s.procs && s.procs[1] == Proc(b.identity, pc) && s.built == {b} && s.forged == forged
    && (1 in s.torn ==> !Reading(pc) && !pc.Done?)
    && Key(b.identity) in s.entries && s.entries[Key(b.identity)] == e
  }

  lemma ReaderMoves(c: Config, s: State, b: Build, e: Entry, pc: Pc, pc': Pc, forged: set<Key>, o: Choice)
    requires ReaderAt(s, b, e, pc, forged) && (pc.Probing? || pc.ProbingEntry?)
    requires NextPc(c, s.entries, s.claims, s.procs[1], o) == pc' && (pc'.Done? ==> Reading(pc))
    ensures ReaderAt(Apply(c, s, Move(1, o)), b, e, pc', forged)
  {
  }

  /** A reader of the stage of `f` that is in place gets as far as `i` moves take it. */
  lemma {:induction false} ReaderGetsTo(c: Config, b: Build, f: Build, start: State, forged: set<Key>, i: nat) returns (s: State)
    requires i <= 11 && Parse(c, f.report) == Some(f.index) && f.identity == b.identity
    requires Reachable(c, start) && ReaderAt(start, b, Stage(f), Probing, forged)
    ensures Reachable(c, s) && ReaderAt(s, b, Stage(f), ReadingPc(f, i), forged)
  {
    if i == 0 {
      s := start;
    } else {
      var before := ReaderGetsTo(c, b, f, start, forged, i - 1);
      var o := Choice(false, false, false, map[]);
      StageIsRead(c, before.entries, before.claims, f, i - 1, o);
      ReaderMoves(c, before, b, Stage(f), ReadingPc(f, i - 1), ReadingPc(f, i), forged, o);
      s := Then(c, before, Move(1, o));
    }
  }

  /** A script for two callers: the first publishes before the second reads anything. */
  function Opening(b: Build, i: nat): Scene
    requires Complete(b.report)
  {
    match i
    case 0 => Scene(Probing, Probing, None, None, 0, false, {})
    case 1 => Scene(Claiming, Probing, None, None, 0, false, {})
    case 2 => Scene(Claimed, Probing, Some(0), None, 0, false, {})
    case 3 => Scene(Rechecking, Probing, Some(0), None, 0, false, {})
    case 4 => Scene(Inspecting, Probing, Some(0), None, 0, false, {})
    case 5 => Scene(Admitting, Probing, Some(0), None, 0, false, {})
    case 6 => Scene(Building, Probing, Some(0), None, 0, false, {})
    case 7 => Scene(Publishing(b, Stage(b)), Probing, Some(0), None, 0, false, {b})
    case _ => Scene(Settling(b), Probing, Some(0), Some(Stage(b)), 1, false, {b})
  }

  lemma BuilderTurn(c: Config, b: Build, i: nat)
    requires i < 8 && c.maxEntries > 0 && Parse(c, b.report) == Some(b.index)
    ensures Opening(b, i + 1) == Turn(c, b.identity, Opening(b, i), 0, b.report)
  {
  }

  lemma {:induction false} OpeningIsReal(c: Config, b: Build, i: nat)
    requires i <= 8 && c.maxEntries > 0 && Parse(c, b.report) == Some(b.index)
    ensures CanShow(c, b.identity, Opening(b, i))
  {
    if i == 0 {
      Curtain(c, b.identity);
    } else {
      OpeningIsReal(c, b, i - 1);
      BuilderTurn(c, b, i - 1);
      TurnIsReal(c, b.identity, Opening(b, i - 1), 0, b.report);
    }
  }

  lemma PublishedStage(c: Config, b: Build) returns (s: State)
    requires c.maxEntries > 0 && Parse(c, b.report) == Some(b.index)
    ensures Reachable(c, s) && Shows(s, b.identity, Opening(b, 8))
  {
    OpeningIsReal(c, b, 8);
    s :| Reachable(c, s) && Shows(s, b.identity, Opening(b, 8));
  }

  /** The second process is about to read. */
  lemma ReaderIsReady(s: State, b: Build)
    requires Complete(b.report) && Shows(s, b.identity, Opening(b, 8))
    ensures ReaderAt(s, b, Stage(b), Probing, {})
  {
    assert s.procs[1] == Proc(b.identity, Probing);
  }

  lemma LastReadStep(c: Config, s: State, b: Build, other: Bytes, index: Index, o: Choice)
    requires AboutToParse(s, b, other)
    requires c.parse(b.report["tests.txt"], other) == Some(index) && SemanticCounts(index) == SemanticCounts(b.index)
    ensures var t := Apply(c, s, Move(1, o));
            t.procs == s.procs[1 := Proc(b.identity, Done(Hit(index)))] && t.built == s.built && t.torn == s.torn && t.forged == s.forged
  {
  }

  /** A reader about to parse `session.xml`, with the entry changed under it. */
  ghost predicate AboutToParse(s: State, b: Build, other: Bytes) {
    && Complete(b.report) && s.built == {b} && 1 in s.torn && s.forged == {} && 1 in s.procs
    && s.procs[1] == Proc(b.identity, ReadingPc(b, 10))
    && Key(b.identity) in s.entries && "session.xml" in s.entries[Key(b.identity)].report
    && s.entries[Key(b.identity)].report["session.xml"] == other
  }

  lemma WrittenIsNotForged(s: State, b: Build, e: Entry)
    requires b in s.built && Complete(b.report) && e.manifest == Some(ManifestOf(b))
    ensures Forged(s, Some(e)) == {}
  {
  }

  lemma ReadIsTorn(s: State, b: Build, other: Bytes)
    requires Complete(b.report) && ReaderAt(s, b, Stage(b), ReadingPc(b, 10), {})
    ensures AboutToParse(DamageEntry(s, Key(b.identity), Some(Stage(b).(report := b.report["session.xml" := other]))), b, other)
  {
    var damaged := Stage(b).(report := b.report["session.xml" := other]);
    assert Reading(s.procs[1].pc);
    WrittenIsNotForged(s, b, damaged);
  }

  /**
   The digests are taken before the report is read again to be parsed.  A change of `session.xml` in
   between that keeps the row counts is returned as a hit, although no build ever gave that index.
   */
  lemma TornReadIsReturned(c: Config, b: Build, other: Bytes, index: Index) returns (s: State)
    requires c.maxEntries > 0 && Parse(c, b.report) == Some(b.index)
    requires c.parse(b.report["tests.txt"], other) == Some(index)
    requires SemanticCounts(index) == SemanticCounts(b.index) && index != b.index
    ensures Reachable(c, s) && 1 in s.procs && s.procs[1] == Proc(b.identity, Done(Hit(index)))
    ensures !Built(s, b.identity, index) && 1 in s.torn && s.forged == {}
  {
    var start := PublishedStage(c, b);
    ReaderIsReady(start, b);
    var before := ReaderGetsTo(c, b, b, start, {}, 10);
    ReadIsTorn(before, b, other);
    var between := Then(c, before, Damage(Key(b.identity), Some(Stage(b).(report := b.report["session.xml" := other]))));
    var o := Choice(false, false, false, map[]);
    LastReadStep(c, between, b, other, index, o);
    s := Then(c, between, Move(1, o));
  }

  // ---------- what a forged manifest breaks ----------

  lemma StageIsForged(s: State, b: Build, fake: Build)
    requires Complete(b.report) && Complete(fake.report) && fake.identity == b.identity
    requires ReaderAt(s, b, Stage(b), Probing, {}) && ManifestOf(fake) != ManifestOf(b)
    ensures ReaderAt(DamageEntry(s, Key(b.identity), Some(Stage(fake))), b, Stage(fake), Probing, {Key(b.identity)})
  {
    assert !WrittenManifest(s, ManifestOf(fake));
  }

  /** Different indexes are parsed from different reports, so their manifests differ. */
  lemma ManifestsDiffer(c: Config, b: Build, fake: Build)
    requires Parse(c, b.report) == Some(b.index) && Parse(c, fake.report) == Some(fake.index) && fake.index != b.index
    ensures ManifestOf(fake) != ManifestOf(b)
  {
    if Metadata(fake.report) == Metadata(b.report) {
      SameInfo(fake.report, b.report, 4);
      SameInfo(fake.report, b.report, 5);
    }
  }

  lemma ForgedStart(c: Config, b: Build, fake: Build) returns (s: State)
    requires c.maxEntries > 0 && Parse(c, b.report) == Some(b.index) && Complete(fake.report)
    requires fake.identity == b.identity && ManifestOf(fake) != ManifestOf(b)
    ensures Reachable(c, s) && ReaderAt(s, b, Stage(fake), Probing, {Key(b.identity)})
  {
    var before := PublishedStage(c, b);
    ReaderIsReady(before, b);
    StageIsForged(before, b, fake);
    s := Then(c, before, Damage(Key(b.identity), Some(Stage(fake))));
  }

  /** A report put in place with a manifest that fits it is returned as a hit, although no build gave it. */
  lemma ForgedReportIsReturned(c: Config, b: Build, fake: Build) returns (s: State)
    requires c.maxEntries > 0 && Parse(c, b.report) == Some(b.index)
    requires Parse(c, fake.report) == Some(fake.index) && fake.identity == b.identity && fake.index != b.index
    ensures Reachable(c, s) && 1 in s.procs && s.procs[1] == Proc(b.identity, Done(Hit(fake.index)))
    ensures !Built(s, b.identity, fake.index) && 1 !in s.torn && Key(b.identity) in s.forged
  {
    ManifestsDiffer(c, b, fake);
    var start := ForgedStart(c, b, fake);
    s := ReaderGetsTo(c, b, fake, start, {Key(b.identity)}, 11);
  }
}
