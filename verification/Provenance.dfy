/**
 Resource identities: a directory tree is hashed as a stream of length-prefixed entries, sorted by
 relative path.  The stream determines the tree as far as digests do, and does not depend on the order
 of the scan.  `sha` stands for SHA-256 and is any function.
 */
module Provenance {
  import opened Wrappers
  import opened KeySort

  type Byte = b: int | 0 <= b < 256
  type Bytes = seq<Byte>

  const SLASH: Byte := 47
  const HASH_DOMAIN: Bytes := [120, 99, 111, 118, 46, 114, 101, 115, 111, 117, 114, 99, 101, 46, 118, 50, 0]

  type Hash = Bytes -> Bytes

  // ---------- the encoding of one entry ----------

  datatype Tag = FileTag | DirTag | LinkTag

  datatype Entry = Entry(tag: Tag, relative: Bytes, size: nat, digest: Bytes)

  function Power(k: nat): nat {
    if k == 0 then 1 else 256 * Power(k - 1)
  }

  /** The `k` low bytes of `n`, most significant first. */
  function BigEndian(n: nat, k: nat): (s: Bytes)
    ensures |s| == k
  {
    if k == 0 then [] else BigEndian(n / 256, k - 1) + [n % 256]
  }

  function TagByte(t: Tag): Byte {
    match t case FileTag => 70 case DirTag => 68 case LinkTag => 76
  }

  predicate Fits(e: Entry) {
    |e.relative| < Power(8) && e.size < Power(8) && |e.digest| < Power(8)
  }

  /** A length-prefixed byte string. */
  function Field(s: Bytes): Bytes {
    BigEndian(|s|, 8) + s
  }

  function EncodeEntry(e: Entry): Bytes {
    [TagByte(e.tag)] + (Field(e.relative) + (BigEndian(e.size, 8) + Field(e.digest)))
  }

  function Encode(es: seq<Entry>): Bytes {
    if es == [] then [] else EncodeEntry(es[0]) + Encode(es[1..])
  }

  lemma {:induction false} BigEndianInjective(n: nat, m: nat, k: nat)
    requires n < Power(k) && m < Power(k) && BigEndian(n, k) == BigEndian(m, k)
    ensures n == m
  {
    if k > 0 {
      var a, b := BigEndian(n, k), BigEndian(m, k);
      assert a[..k - 1] == BigEndian(n / 256, k - 1) && b[..k - 1] == BigEndian(m / 256, k - 1);
      assert a[k - 1] == n % 256 && b[k - 1] == m % 256;
      BigEndianInjective(n / 256, m / 256, k - 1);
    }
  }

  /** Two streams that agree agree on every slice. */
  lemma Parts(a: Bytes, b: Bytes, c: Bytes, d: Bytes)
    requires a + b == c + d && |a| == |c|
    ensures a == c && b == d
  {
    assert a == (a + b)[..|a|] && b == (a + b)[|a|..];
    assert c == (c + d)[..|c|] && d == (c + d)[|c|..];
  }

  lemma FieldIsPrefixFree(s: Bytes, r: Bytes, t: Bytes, u: Bytes)
    requires Field(s) + r == Field(t) + u && |s| < Power(8) && |t| < Power(8)
    ensures s == t && r == u
  {
    assert Field(s) + r == BigEndian(|s|, 8) + (s + r);
    assert Field(t) + u == BigEndian(|t|, 8) + (t + u);
    Parts(BigEndian(|s|, 8), s + r, BigEndian(|t|, 8), t + u);
    BigEndianInjective(|s|, |t|, 8);
    Parts(s, r, t, u);
  }

  /** No entry's encoding runs into the next one's: the fields can be read back from the front. */
  lemma EntryIsPrefixFree(e: Entry, r: Bytes, f: Entry, u: Bytes)
    requires Fits(e) && Fits(f) && EncodeEntry(e) + r == EncodeEntry(f) + u
    ensures e == f && r == u
  {
    var eTail, fTail := BigEndian(e.size, 8) + Field(e.digest), BigEndian(f.size, 8) + Field(f.digest);
    Associate([TagByte(e.tag)], Field(e.relative) + eTail, r);
    Associate([TagByte(f.tag)], Field(f.relative) + fTail, u);
    Parts([TagByte(e.tag)], (Field(e.relative) + eTail) + r, [TagByte(f.tag)], (Field(f.relative) + fTail) + u);
    Associate(Field(e.relative), eTail, r);
    Associate(Field(f.relative), fTail, u);
    FieldIsPrefixFree(e.relative, eTail + r, f.relative, fTail + u);
    Associate(BigEndian(e.size, 8), Field(e.digest), r);
    Associate(BigEndian(f.size, 8), Field(f.digest), u);
    Parts(BigEndian(e.size, 8), Field(e.digest) + r, BigEndian(f.size, 8), Field(f.digest) + u);
    BigEndianInjective(e.size, f.size, 8);
    FieldIsPrefixFree(e.digest, r, f.digest, u);
  }

  lemma Associate(a: Bytes, b: Bytes, c: Bytes)
    ensures (a + b) + c == a + (b + c)
  {
  }

  /** Equal byte streams come from equal entry sequences. */
  lemma {:induction false} EncodeIsInjective(es: seq<Entry>, fs: seq<Entry>)
    requires (forall e :: e in es ==> Fits(e)) && (forall f :: f in fs ==> Fits(f))
    requires Encode(es) == Encode(fs)
    ensures es == fs
  {
    if es == [] || fs == [] {
      assert es != [] ==> Encode(es) != [];
      assert fs != [] ==> Encode(fs) != [];
    } else {
      EntryIsPrefixFree(es[0], Encode(es[1..]), fs[0], Encode(fs[1..]));
      EncodeIsInjective(es[1..], fs[1..]);
    }
  }

  // ---------- trees, paths and what a scan finds ----------

  type Path = seq<Bytes>

  datatype Node = File(content: Bytes) | Link(target: Bytes) | Dir(children: map<Bytes, Node>) | Special

  predicate ValidName(name: Bytes) {
    name != [] && SLASH !in name
  }

  /** Names as a file system has them, everywhere below. */
  ghost predicate ValidTree(t: Node) {
    t.Dir? ==> forall n :: n in t.children ==> ValidName(n) && ValidTree(t.children[n])
  }

  function Join(path: Path): Bytes {
    if path == [] then [] else if |path| == 1 then path[0] else path[0] + [SLASH] + Join(path[1..])
  }

  function EntryOf(sha: Hash, path: Path, t: Node): Entry
    requires !t.Special?
  {
    match t
    case File(c) => Entry(FileTag, Join(path), |c|, sha(c))
    case Link(c) => Entry(LinkTag, Join(path), |c|, sha(c))
    case Dir(_) => Entry(DirTag, Join(path), 0, [])
  }

  /** What a scan reports: the entries in any order, the counters, and whether it met a special file. */
  datatype Scan = Scan(entries: multiset<Entry>, files: nat, dirs: nat, links: nat, bytes: nat, special: bool)

  const NOTHING: Scan := Scan(multiset{}, 0, 0, 0, 0, false)

  function Plus(a: Scan, b: Scan): Scan {
    Scan(a.entries + b.entries, a.files + b.files, a.dirs + b.dirs, a.links + b.links, a.bytes + b.bytes,
         a.special || b.special)
  }

  function Single(sha: Hash, path: Path, t: Node): Scan {
    match t
    case Special => NOTHING.(special := true)
    case File(c) => Scan(multiset{EntryOf(sha, path, t)}, 1, 0, 0, |c|, false)
    case Link(_) => Scan(multiset{EntryOf(sha, path, t)}, 0, 0, 1, 0, false)
    case Dir(_) => Scan(multiset{EntryOf(sha, path, t)}, 0, 1, 0, 0, false)
  }

  /** The scan of the given children of the directory at `path`, by recursion over the tree. */
  ghost function Below(sha: Hash, path: Path, d: Node, names: set<Bytes>): Scan
    requires d.Dir? && names <= d.children.Keys
    decreases d, names
  {
    if names == {} then NOTHING
    else
      var n :| n in names;
      Plus(Whole(sha, path + [n], d.children[n]), Below(sha, path, d, names - {n}))
  }

  /** One node with everything below it. */
  ghost function Whole(sha: Hash, path: Path, t: Node): Scan
    decreases t
  {
    if t.Dir? then Plus(Single(sha, path, t), Below(sha, path, t, t.children.Keys)) else Single(sha, path, t)
  }

  /** The result does not depend on which child comes first. */
  lemma {:induction false} AnyChildFirst(sha: Hash, path: Path, d: Node, names: set<Bytes>, n: Bytes)
    requires d.Dir? && names <= d.children.Keys && n in names
    ensures Below(sha, path, d, names) == Plus(Whole(sha, path + [n], d.children[n]), Below(sha, path, d, names - {n}))
    decreases names
  {
    var m :| m in names
      && Below(sha, path, d, names) == Plus(Whole(sha, path + [m], d.children[m]), Below(sha, path, d, names - {m}));
    if m != n {
      AnyChildFirst(sha, path, d, names - {m}, n);
      AnyChildFirst(sha, path, d, names - {n}, m);
      assert names - {m} - {n} == names - {n} - {m};
      PlusSwaps(Whole(sha, path + [m], d.children[m]), Whole(sha, path + [n], d.children[n]),
                Below(sha, path, d, names - {m} - {n}));
    }
  }

  lemma PlusSwaps(a: Scan, b: Scan, c: Scan)
    ensures Plus(a, Plus(b, c)) == Plus(b, Plus(a, c))
  {
  }

  // ---------- what the counters count ----------

  /** The sum of a weight over entries. */
  ghost function Tally(entries: multiset<Entry>, weight: Entry -> nat): nat
    decreases |entries|
  {
    if entries == multiset{} then 0
    else
      var e :| e in entries;
      weight(e) + Tally(entries - multiset{e}, weight)
  }

  lemma {:induction false} TallyAny(entries: multiset<Entry>, weight: Entry -> nat, e: Entry)
    requires e in entries
    ensures Tally(entries, weight) == weight(e) + Tally(entries - multiset{e}, weight)
    decreases |entries|
  {
    var f :| f in entries && Tally(entries, weight) == weight(f) + Tally(entries - multiset{f}, weight);
    if f != e {
      TallyAny(entries - multiset{f}, weight, e);
      TallyAny(entries - multiset{e}, weight, f);
      assert entries - multiset{f} - multiset{e} == entries - multiset{e} - multiset{f};
    }
  }

  lemma {:induction false} TallyUnion(a: multiset<Entry>, b: multiset<Entry>, weight: Entry -> nat)
    ensures Tally(a + b, weight) == Tally(a, weight) + Tally(b, weight)
    decreases |a|
  {
    if a == multiset{} {
      assert a + b == b;
    } else {
      var e :| e in a;
      TallyAny(a, weight, e);
      TallyAny(a + b, weight, e);
      assert a + b - multiset{e} == (a - multiset{e}) + b;
      TallyUnion(a - multiset{e}, b, weight);
    }
  }

  lemma TallyOne(e: Entry, weight: Entry -> nat)
    ensures Tally(multiset{e}, weight) == weight(e)
  {
    TallyAny(multiset{e}, weight, e);
    assert multiset{e} - multiset{e} == multiset{};
  }

  function Marked(tag: Tag): Entry -> nat {
    (e: Entry) => if e.tag == tag then 1 else 0
  }

  function FileSize(): Entry -> nat {
    (e: Entry) => if e.tag == FileTag then e.size else 0
  }

  /** The counters count the entries of each kind, and the bytes are those of the files. */
  ghost predicate Counted(s: Scan) {
    && s.files == Tally(s.entries, Marked(FileTag)) && s.dirs == Tally(s.entries, Marked(DirTag))
    && s.links == Tally(s.entries, Marked(LinkTag)) && s.bytes == Tally(s.entries, FileSize())
  }

  lemma CountedPlus(a: Scan, b: Scan)
    requires Counted(a) && Counted(b)
    ensures Counted(Plus(a, b))
  {
    TallyUnion(a.entries, b.entries, Marked(FileTag));
    TallyUnion(a.entries, b.entries, Marked(DirTag));
    TallyUnion(a.entries, b.entries, Marked(LinkTag));
    TallyUnion(a.entries, b.entries, FileSize());
  }

  lemma CountedSingle(sha: Hash, path: Path, t: Node)
    ensures Counted(Single(sha, path, t))
  {
    if !t.Special? {
      var e := EntryOf(sha, path, t);
      TallyOne(e, Marked(FileTag));
      TallyOne(e, Marked(DirTag));
      TallyOne(e, Marked(LinkTag));
      TallyOne(e, FileSize());
    }
  }

  lemma {:induction false} BelowIsCounted(sha: Hash, path: Path, d: Node, names: set<Bytes>)
    requires d.Dir? && names <= d.children.Keys
    ensures Counted(Below(sha, path, d, names))
    decreases d, 1, names
  {
    if names != {} {
      var n :| n in names;
      AnyChildFirst(sha, path, d, names, n);
      WholeIsCounted(sha, path + [n], d.children[n]);
      BelowIsCounted(sha, path, d, names - {n});
      CountedPlus(Whole(sha, path + [n], d.children[n]), Below(sha, path, d, names - {n}));
    }
  }

  /** So it is for a whole resource, whose entries are its nodes. */
  lemma {:induction false} WholeIsCounted(sha: Hash, path: Path, t: Node)
    ensures Counted(Whole(sha, path, t))
    decreases t, 2
  {
    CountedSingle(sha, path, t);
    if t.Dir? {
      BelowIsCounted(sha, path, t, t.children.Keys);
      CountedPlus(Single(sha, path, t), Below(sha, path, t, t.children.Keys));
    }
  }

  // ---------- which entries a scan holds ----------

  ghost function At(t: Node, q: Path): Option<Node>
    decreases |q|
  {
    if q == [] then Some(t)
    else if t.Dir? && q[0] in t.children then At(t.children[q[0]], q[1..])
    else None
  }

  /** A child's scan is part of its directory's. */
  lemma ChildIsBelow(sha: Hash, path: Path, d: Node, names: set<Bytes>, n: Bytes)
    requires d.Dir? && names <= d.children.Keys && n in names
    ensures Whole(sha, path + [n], d.children[n]).entries <= Below(sha, path, d, names).entries
    ensures Whole(sha, path + [n], d.children[n]).special ==> Below(sha, path, d, names).special
  {
    AnyChildFirst(sha, path, d, names, n);
  }

  /** A directory's scan consists of its children's. */
  lemma {:induction false} BelowIsFromAChild(sha: Hash, path: Path, d: Node, names: set<Bytes>, e: Entry) returns (n: Bytes)
    requires d.Dir? && names <= d.children.Keys && e in Below(sha, path, d, names).entries
    ensures n in names && e in Whole(sha, path + [n], d.children[n]).entries
    decreases names
  {
    n :| n in names;
    AnyChildFirst(sha, path, d, names, n);
    if e !in Whole(sha, path + [n], d.children[n]).entries {
      n := BelowIsFromAChild(sha, path, d, names - {n}, e);
    }
  }

  /** Every node is reported, under its path. */
  lemma {:induction false} NodeIsFound(sha: Hash, path: Path, t: Node, q: Path)
    requires At(t, q).Some?
    ensures At(t, q).value.Special? ==> Whole(sha, path, t).special
    ensures !At(t, q).value.Special? ==> EntryOf(sha, path + q, At(t, q).value) in Whole(sha, path, t).entries
    decreases |q|
  {
    if q == [] {
      assert path + q == path;
    } else {
      NodeIsFound(sha, path + [q[0]], t.children[q[0]], q[1..]);
      assert path + q == path + [q[0]] + q[1..];
      ChildIsBelow(sha, path, t, t.children.Keys, q[0]);
    }
  }

  /** Every entry reported belongs to a node. */
  lemma {:induction false} EntryHasNode(sha: Hash, path: Path, t: Node, e: Entry) returns (q: Path)
    requires e in Whole(sha, path, t).entries
    ensures At(t, q).Some? && !At(t, q).value.Special?
    ensures e == EntryOf(sha, path + q, At(t, q).value)
    decreases t
  {
    if e in Single(sha, path, t).entries {
      q := [];
      assert path + q == path;
    } else {
      var n := BelowIsFromAChild(sha, path, t, t.children.Keys, e);
      var rest := EntryHasNode(sha, path + [n], t.children[n], e);
      q := [n] + rest;
      Descend(path, t, n, rest);
    }
  }

  lemma Descend(path: Path, t: Node, n: Bytes, rest: Path)
    requires t.Dir? && n in t.children
    ensures At(t, [n] + rest) == At(t.children[n], rest)
    ensures path + ([n] + rest) == path + [n] + rest
  {
    assert ([n] + rest)[1..] == rest;
  }

  ghost predicate ValidPath(p: Path) {
    forall i :: 0 <= i < |p| ==> ValidName(p[i])
  }

  lemma {:induction false} NodePathIsValid(t: Node, q: Path)
    requires ValidTree(t) && At(t, q).Some?
    ensures ValidPath(q)
    decreases |q|
  {
    if q != [] {
      NodePathIsValid(t.children[q[0]], q[1..]);
      assert q == [q[0]] + q[1..];
    }
  }

  /** The bytes before the first slash. */
  function Head(s: Bytes): Bytes {
    if s == [] || s[0] == SLASH then [] else [s[0]] + Head(s[1..])
  }

  lemma {:induction false} HeadStopsAtSlash(n: Bytes, r: Bytes)
    requires SLASH !in n && (r == [] || r[0] == SLASH)
    ensures Head(n + r) == n
  {
    if n == [] {
      assert n + r == r;
    } else {
      assert (n + r)[1..] == n[1..] + r;
      HeadStopsAtSlash(n[1..], r);
    }
  }

  lemma JoinHead(p: Path)
    requires p != [] && ValidPath(p)
    ensures Join(p) != [] && Head(Join(p)) == p[0]
    ensures |p| == 1 ==> Join(p) == p[0]
    ensures |p| > 1 ==> |Join(p)| > |p[0]| && Join(p)[|p[0]| + 1..] == Join(p[1..])
  {
    assert ValidName(p[0]);
    if |p| == 1 {
      assert p[0] + [] == p[0];
      HeadStopsAtSlash(p[0], []);
    } else {
      var r := [SLASH] + Join(p[1..]);
      assert Join(p) == p[0] + r;
      HeadStopsAtSlash(p[0], r);
    }
  }

  /** Joining valid names with slashes loses nothing. */
  lemma {:induction false} JoinIsInjective(p: Path, q: Path)
    requires ValidPath(p) && ValidPath(q) && Join(p) == Join(q)
    ensures p == q
  {
    if p != [] { JoinHead(p); }
    if q != [] { JoinHead(q); }
    if p != [] && q != [] {
      if |p| > 1 && |q| > 1 {
        JoinIsInjective(p[1..], q[1..]);
        assert p == [p[0]] + p[1..] && q == [q[0]] + q[1..];
      } else {
        assert p[..1] == [p[0]] && q[..1] == [q[0]];
      }
    }
  }

  // ---------- equal entries, equal trees ----------

  /** The same kind of node with the same data, children aside. */
  predicate Alike(t: Node, u: Node) {
    match t
    case File(c) => u == t
    case Link(c) => u == t
    case Dir(_) => u.Dir?
    case Special => u.Special?
  }

  /** As far as an entry shows: the same kind, size and digest. */
  predicate Indistinct(sha: Hash, t: Node, u: Node) {
    match t
    case File(c) => u.File? && |c| == |u.content| && sha(c) == sha(u.content)
    case Link(c) => u.Link? && |c| == |u.target| && sha(c) == sha(u.target)
    case Dir(_) => u.Dir?
    case Special => u.Special?
  }

  ghost predicate AlikeAt(t: Node, u: Node, q: Path) {
    match (At(t, q), At(u, q))
    case (Some(x), Some(y)) => Alike(x, y)
    case (None, None) => true
    case _ => false
  }

  ghost predicate IndistinctAt(sha: Hash, t: Node, u: Node, q: Path) {
    match (At(t, q), At(u, q))
    case (Some(x), Some(y)) => Indistinct(sha, x, y)
    case (None, None) => true
    case _ => false
  }

  /** The same paths, and at each path the same kind, size and digest. */
  ghost predicate SameShown(sha: Hash, t: Node, u: Node) {
    forall q :: IndistinctAt(sha, t, u, q)
  }

  /** At no path do the two hold different data of one kind and size with one digest. */
  ghost predicate NoCollision(sha: Hash, t: Node, u: Node) {
    forall q :: At(t, q).Some? && At(u, q).Some? && Indistinct(sha, At(t, q).value, At(u, q).value) ==>
      Alike(At(t, q).value, At(u, q).value)
  }

  /** Valid names throughout and no special file. */
  ghost predicate Regular(sha: Hash, t: Node) {
    ValidTree(t) && !Whole(sha, [], t).special
  }

  lemma SameEntriesAlike(sha: Hash, t: Node, u: Node, q: Path)
    requires Regular(sha, t) && Regular(sha, u)
    requires Whole(sha, [], t).entries == Whole(sha, [], u).entries
    requires At(t, q).Some?
    ensures At(u, q).Some? && Indistinct(sha, At(t, q).value, At(u, q).value)
  {
    NodeIsFound(sha, [], t, q);
    var e := EntryOf(sha, [] + q, At(t, q).value);
    var p := EntryHasNode(sha, [], u, e);
    NodePathIsValid(t, q);
    NodePathIsValid(u, p);
    assert [] + q == q && [] + p == p;
    JoinIsInjective(p, q);
  }

  lemma {:induction false} AlikeEverywhere(t: Node, u: Node)
    requires forall q :: AlikeAt(t, u, q)
    ensures t == u
    decreases t
  {
    assert AlikeAt(t, u, []);
    if t.Dir? {
      forall n: Bytes ensures n in t.children <==> n in u.children {
        assert AlikeAt(t, u, [n]);
        assert n in t.children ==> At(t, [n]) == At(t.children[n], [n][1..]);
        assert n in u.children ==> At(u, [n]) == At(u.children[n], [n][1..]);
      }
      forall n | n in t.children ensures t.children[n] == u.children[n] {
        forall q ensures AlikeAt(t.children[n], u.children[n], q) {
          assert AlikeAt(t, u, [n] + q) && ([n] + q)[1..] == q;
        }
        AlikeEverywhere(t.children[n], u.children[n]);
      }
      assert t.children == u.children;
    }
  }

  /** Without a collision, trees that show the same are the same. */
  lemma SameShownIsSame(sha: Hash, t: Node, u: Node)
    requires NoCollision(sha, t, u)
    ensures SameShown(sha, t, u) <==> t == u
  {
    if SameShown(sha, t, u) {
      forall q ensures AlikeAt(t, u, q) { assert IndistinctAt(sha, t, u, q); }
      AlikeEverywhere(t, u);
    }
    if t == u {
      forall q ensures IndistinctAt(sha, t, u, q) { }
    }
  }

  lemma EntryIsShown(sha: Hash, t: Node, u: Node, e: Entry)
    requires SameShown(sha, t, u) && e in Whole(sha, [], t).entries
    ensures e in Whole(sha, [], u).entries
  {
    var q := EntryHasNode(sha, [], t, e);
    assert IndistinctAt(sha, t, u, q);
    NodeIsFound(sha, [], u, q);
  }

  lemma IndistinctBothWays(sha: Hash, t: Node, u: Node)
    requires SameShown(sha, t, u)
    ensures SameShown(sha, u, t)
  {
    forall q ensures IndistinctAt(sha, u, t, q) { assert IndistinctAt(sha, t, u, q); }
  }

  // ---------- every path is reported once ----------

  /** No relative path is reported twice, not even by two different entries. */
  ghost predicate Once(entries: multiset<Entry>) {
    && (forall e :: e in entries ==> entries[e] == 1)
    && (forall e, f :: e in entries && f in entries && e.relative == f.relative ==> e == f)
  }

  ghost predicate Apart(a: multiset<Entry>, b: multiset<Entry>) {
    forall e, f :: e in a && f in b ==> e.relative != f.relative
  }

  lemma OnceUnion(a: multiset<Entry>, b: multiset<Entry>)
    requires Once(a) && Once(b) && Apart(a, b)
    ensures Once(a + b)
  {
    forall e | e in a + b ensures (a + b)[e] == 1 {
      assert e in a ==> e !in b;
    }
  }

  /** Entries under one path never share a relative path with entries under a path that branches off. */
  lemma BranchesAreApart(sha: Hash, path: Path, d: Node, n: Bytes, names: set<Bytes>)
    requires d.Dir? && names <= d.children.Keys && n in d.children && n !in names && ValidTree(d) && ValidPath(path)
    ensures Apart(Whole(sha, path + [n], d.children[n]).entries, Below(sha, path, d, names).entries)
  {
    forall e, f | e in Whole(sha, path + [n], d.children[n]).entries && f in Below(sha, path, d, names).entries
      ensures e.relative != f.relative
    {
      var m := BelowIsFromAChild(sha, path, d, names, f);
      SiblingsAreApart(sha, path, d, n, m, e, f);
    }
  }

  lemma PathsBranch(path: Path, n: Bytes, p: Path, m: Bytes, q: Path)
    requires n != m
    ensures path + [n] + p != path + [m] + q
  {
    assert (path + [n] + p)[|path|] == n && (path + [m] + q)[|path|] == m;
  }

  lemma SiblingsAreApart(sha: Hash, path: Path, d: Node, n: Bytes, m: Bytes, e: Entry, f: Entry)
    requires d.Dir? && n in d.children && m in d.children && n != m && ValidTree(d) && ValidPath(path)
    requires e in Whole(sha, path + [n], d.children[n]).entries && f in Whole(sha, path + [m], d.children[m]).entries
    ensures e.relative != f.relative
  {
    var p := EntryHasNode(sha, path + [n], d.children[n], e);
    var q := EntryHasNode(sha, path + [m], d.children[m], f);
    NodePathIsValid(d.children[n], p);
    NodePathIsValid(d.children[m], q);
    PathsBranch(path, n, p, m, q);
    if e.relative == f.relative { JoinIsInjective(path + [n] + p, path + [m] + q); }
  }

  /** No entry below a directory has the directory's own path. */
  lemma NoneBelowIsOwn(sha: Hash, path: Path, d: Node, f: Entry)
    requires d.Dir? && f in Below(sha, path, d, d.children.Keys).entries && ValidTree(d) && ValidPath(path)
    ensures f.relative != Join(path)
  {
    var n := BelowIsFromAChild(sha, path, d, d.children.Keys, f);
    var q := EntryHasNode(sha, path + [n], d.children[n], f);
    NodePathIsValid(d.children[n], q);
    if f.relative == Join(path) { JoinIsInjective(path, path + [n] + q); }
  }

  lemma {:induction false} BelowReportsOnce(sha: Hash, path: Path, d: Node, names: set<Bytes>)
    requires d.Dir? && names <= d.children.Keys && ValidTree(d) && ValidPath(path)
    ensures Once(Below(sha, path, d, names).entries)
    decreases d, 1, names
  {
    if names != {} {
      var n :| n in names;
      AnyChildFirst(sha, path, d, names, n);
      WholeReportsOnce(sha, path + [n], d.children[n]);
      BelowReportsOnce(sha, path, d, names - {n});
      BranchesAreApart(sha, path, d, n, names - {n});
      OnceUnion(Whole(sha, path + [n], d.children[n]).entries, Below(sha, path, d, names - {n}).entries);
    }
  }

  lemma {:induction false} WholeReportsOnce(sha: Hash, path: Path, t: Node)
    requires ValidTree(t) && ValidPath(path)
    ensures Once(Whole(sha, path, t).entries)
    decreases t, 2
  {
    if t.Dir? {
      BelowReportsOnce(sha, path, t, t.children.Keys);
      var own, below := Single(sha, path, t).entries, Below(sha, path, t, t.children.Keys).entries;
      forall f | f in below ensures f.relative != Join(path) { NoneBelowIsOwn(sha, path, t, f); }
      OnceUnion(own, below);
    }
  }

  /** The entries are the same exactly when the trees show the same. */
  lemma SameEntriesIffShown(sha: Hash, t: Node, u: Node)
    requires Regular(sha, t) && Regular(sha, u)
    ensures Whole(sha, [], t).entries == Whole(sha, [], u).entries <==> SameShown(sha, t, u)
  {
    if Whole(sha, [], t).entries == Whole(sha, [], u).entries {
      forall q ensures IndistinctAt(sha, t, u, q) {
        if At(t, q).Some? { SameEntriesAlike(sha, t, u, q); }
        if At(u, q).Some? { SameEntriesAlike(sha, u, t, q); }
      }
    }
    if SameShown(sha, t, u) {
      WholeReportsOnce(sha, [], t);
      WholeReportsOnce(sha, [], u);
      IndistinctBothWays(sha, t, u);
      var es, fs := Whole(sha, [], t).entries, Whole(sha, [], u).entries;
      forall e: Entry ensures es[e] == fs[e] {
        if e in es { EntryIsShown(sha, t, u, e); }
        if e in fs { EntryIsShown(sha, u, t, e); }
      }
      assert es == fs;
    }
  }

  // ---------- the canonical order ----------

  /** Order of byte strings. */
  predicate Less(a: Bytes, b: Bytes) {
    LexLess<int>(a, b, IntCode())
  }

  /** The sort key of the scan: relative path, then entry type. */
  function ByPath(): Entry -> Key {
    (e: Entry) => [Codes(e.relative), Number(TagByte(e.tag))]
  }

  /** Strictly increasing relative paths. */
  predicate Increasing(s: seq<Entry>) {
    forall i, j :: 0 <= i < j < |s| ==> Less(s[i].relative, s[j].relative)
  }

  function SortEntries(es: seq<Entry>): seq<Entry> {
    Sort(es, ByPath())
  }

  lemma CountedTwice(s: seq<Entry>, i: nat, j: nat)
    requires i < j < |s| && s[i] == s[j]
    ensures multiset(s)[s[i]] >= 2
  {
    assert s == s[..j] + [s[j]] + s[j + 1..];
    assert s[..j][i] == s[i];
  }

  lemma OnceMeansApart(s: seq<Entry>, i: nat, j: nat)
    requires Once(multiset(s)) && i < j < |s|
    ensures s[i].relative != s[j].relative
  {
    assert s[i] in multiset(s) && s[j] in multiset(s);
    if s[i].relative == s[j].relative { CountedTwice(s, i, j); }
  }

  lemma KeyMeansLess(a: Bytes, m: int, b: Bytes, n: int)
    requires KeyLe([Codes(a), Number(m)], [Codes(b), Number(n)]) && a != b
    ensures Less(a, b)
  {
    var k, l := [Codes(a), Number(m)], [Codes(b), Number(n)];
    assert k[0] == Codes(a) && l[0] == Codes(b);
    assert PartLess(Codes(a), Codes(b));
  }

  lemma OrderedIncreases(s: seq<Entry>)
    requires Ordered(s, ByPath()) && Once(multiset(s))
    ensures Increasing(s)
  {
    forall i, j | 0 <= i < j < |s| ensures Less(s[i].relative, s[j].relative) {
      OnceMeansApart(s, i, j);
      assert KeyLe(ByPath()(s[i]), ByPath()(s[j]));
      KeyMeansLess(s[i].relative, TagByte(s[i].tag), s[j].relative, TagByte(s[j].tag));
    }
  }

  lemma SortIncreases(es: seq<Entry>)
    requires Once(multiset(es))
    ensures multiset(SortEntries(es)) == multiset(es) && Increasing(SortEntries(es))
  {
    SortOrders(es, ByPath());
    OrderedIncreases(Sort(es, ByPath()));
  }

  lemma FirstIsLeast(s: seq<Entry>, e: Entry)
    requires Increasing(s) && e in multiset(s)
    ensures s != [] && (s[0] == e || Less(s[0].relative, e.relative))
  {
    var i :| 0 <= i < |s| && s[i] == e;
  }

  lemma TailContent(s: seq<Entry>)
    requires s != []
    ensures multiset(s[1..]) == multiset(s) - multiset{s[0]}
  {
    assert s == [s[0]] + s[1..];
  }

  /** One content, one order. */
  lemma {:induction false} OrderIsCanonical(s: seq<Entry>, r: seq<Entry>)
    requires Increasing(s) && Increasing(r) && multiset(s) == multiset(r)
    ensures s == r
  {
    assert |multiset(s)| == |s| && |multiset(r)| == |r|;
    if s != [] {
      FirstIsLeast(r, s[0]);
      FirstIsLeast(s, r[0]);
      LexOrder<int>(s[0].relative, r[0].relative, IntCode());
      assert s == [s[0]] + s[1..] && r == [r[0]] + r[1..];
      TailContent(s);
      TailContent(r);
      OrderIsCanonical(s[1..], r[1..]);
    }
  }

  // ---------- the identity of a resource ----------

  datatype Error = NotAResource | SpecialFile | Unencodable

  datatype Report = Report(isDirectory: bool, bytes: nat, files: nat, dirs: nat, links: nat, stream: Bytes)

  /** The stream of a set of entries: they are sorted and all have an encoding. */
  ghost predicate IsStreamOf(entries: multiset<Entry>, stream: Bytes) {
    exists es ::
      && Increasing(es) && multiset(es) == entries
      && (forall e :: e in es ==> Fits(e)) && stream == HASH_DOMAIN + Encode(es)
  }

  /** What the running digest is fed for a resource, whatever the scan order. */
  ghost predicate IsStream(sha: Hash, t: Node, stream: Bytes) {
    match t
    case File(c) =>
      var e := Entry(FileTag, [], |c|, sha(c));
      Fits(e) && stream == HASH_DOMAIN + Encode([e])
    case Dir(children) =>
      IsStreamOf(Below(sha, [], t, children.Keys).entries, stream)
    case _ => false
  }

  /** The entries behind a stream; a file has one, with an empty path. */
  lemma StreamEntries(sha: Hash, t: Node, stream: Bytes) returns (es: seq<Entry>)
    requires IsStream(sha, t, stream)
    ensures stream == HASH_DOMAIN + Encode(es) && (forall e :: e in es ==> Fits(e))
    ensures t.File? ==> es == [Entry(FileTag, [], |t.content|, sha(t.content))]
    ensures t.Dir? ==> Increasing(es) && multiset(es) == Below(sha, [], t, t.children.Keys).entries
    ensures t.File? || t.Dir?
  {
    if t.File? {
      es := [Entry(FileTag, [], |t.content|, sha(t.content))];
    } else {
      es :| Increasing(es) && multiset(es) == Below(sha, [], t, t.children.Keys).entries
            && (forall e :: e in es ==> Fits(e)) && stream == HASH_DOMAIN + Encode(es);
    }
  }

  lemma SameStreamSameEntries(a: Bytes, b: Bytes, es: seq<Entry>, fs: seq<Entry>)
    requires a == HASH_DOMAIN + Encode(es) && b == HASH_DOMAIN + Encode(fs)
    requires forall e :: e in es ==> Fits(e)
    requires forall e :: e in fs ==> Fits(e)
    ensures a == b <==> es == fs
  {
    if a == b {
      Parts(HASH_DOMAIN, Encode(es), HASH_DOMAIN, Encode(fs));
      EncodeIsInjective(es, fs);
    }
  }

  /** Only the top-level file has an empty relative path. */
  lemma NoEmptyPath(sha: Hash, u: Node, e: Entry)
    requires u.Dir? && ValidTree(u) && e in Below(sha, [], u, u.children.Keys).entries
    ensures e.relative != []
  {
    var n := BelowIsFromAChild(sha, [], u, u.children.Keys, e);
    var q := EntryHasNode(sha, [] + [n], u.children[n], e);
    NodePathIsValid(u.children[n], q);
    JoinHead([] + [n] + q);
  }

  /** A file never looks like a directory, whatever the hash. */
  lemma FileIsNoDirectory(sha: Hash, t: Node, u: Node, a: Bytes, b: Bytes)
    requires ValidTree(t) && ValidTree(u) && IsStream(sha, t, a) && IsStream(sha, u, b)
    ensures a == b ==> (t.File? <==> u.File?)
  {
    var es := StreamEntries(sha, t, a);
    var fs := StreamEntries(sha, u, b);
    SameStreamSameEntries(a, b, es, fs);
    if a == b && t.File? && u.Dir? {
      assert es[0] in multiset(fs);
      NoEmptyPath(sha, u, es[0]);
    }
    if a == b && u.File? && t.Dir? {
      assert fs[0] in multiset(es);
      NoEmptyPath(sha, t, fs[0]);
    }
  }

  lemma FilesShown(sha: Hash, t: Node, u: Node)
    requires t.File? && u.File?
    ensures SameShown(sha, t, u) <==> Indistinct(sha, t, u)
  {
    if Indistinct(sha, t, u) {
      forall q ensures IndistinctAt(sha, t, u, q) { }
    }
    if SameShown(sha, t, u) { assert IndistinctAt(sha, t, u, []); }
  }

  lemma KindIsShown(sha: Hash, t: Node, u: Node)
    requires SameShown(sha, t, u)
    ensures t.File? <==> u.File?
  {
    assert IndistinctAt(sha, t, u, []);
  }

  lemma WholeIsRootAndBelow(sha: Hash, t: Node, u: Node)
    requires t.Dir? && u.Dir?
    ensures Whole(sha, [], t).entries == Whole(sha, [], u).entries
            <==> Below(sha, [], t, t.children.Keys).entries == Below(sha, [], u, u.children.Keys).entries
  {
    var root, x, y := Single(sha, [], t).entries, Below(sha, [], t, t.children.Keys).entries, Below(sha, [], u, u.children.Keys).entries;
    assert Single(sha, [], u).entries == root;
    if root + x == root + y {
      assert x == (root + x) - root && y == (root + y) - root;
    }
  }

  lemma DirectoryShown(sha: Hash, t: Node, u: Node, es: seq<Entry>, fs: seq<Entry>)
    requires t.Dir? && u.Dir? && Regular(sha, t) && Regular(sha, u)
    requires Increasing(es) && multiset(es) == Below(sha, [], t, t.children.Keys).entries
    requires Increasing(fs) && multiset(fs) == Below(sha, [], u, u.children.Keys).entries
    ensures es == fs <==> SameShown(sha, t, u)
  {
    SameEntriesIffShown(sha, t, u);
    WholeIsRootAndBelow(sha, t, u);
    if multiset(es) == multiset(fs) { OrderIsCanonical(es, fs); }
  }

  /**
   Two regular resources have the same digest stream exactly when they have the same paths and at each
   path the same kind, size and digest; nothing is assumed of the hash.
   */
  lemma StreamShowsResource(sha: Hash, t: Node, u: Node, a: Bytes, b: Bytes)
    requires Regular(sha, t) && Regular(sha, u) && IsStream(sha, t, a) && IsStream(sha, u, b)
    ensures a == b <==> SameShown(sha, t, u)
  {
    var es := StreamEntries(sha, t, a);
    var fs := StreamEntries(sha, u, b);
    SameStreamSameEntries(a, b, es, fs);
    FileIsNoDirectory(sha, t, u, a, b);
    if SameShown(sha, t, u) { KindIsShown(sha, t, u); }
    if t.File? && u.File? {
      FilesShown(sha, t, u);
      assert es == fs <==> es[0] == fs[0];
    } else if t.Dir? && u.Dir? {
      DirectoryShown(sha, t, u, es, fs);
    }
  }

  /**
   Where the hash has no collision between the two, at any one path, equal streams mean the same tree:
   the stream is unambiguous and scan order does not show.
   */
  lemma StreamIdentifiesResource(sha: Hash, t: Node, u: Node, a: Bytes, b: Bytes)
    requires Regular(sha, t) && Regular(sha, u) && NoCollision(sha, t, u)
    requires IsStream(sha, t, a) && IsStream(sha, u, b)
    ensures a == b <==> t == u
  {
    StreamShowsResource(sha, t, u, a, b);
    SameShownIsSame(sha, t, u);
  }

  // ---------- the scan itself ----------

  type Directory = t: Node | t.Dir? witness Dir(map[])

  datatype Pending = Pending(path: Path, dir: Directory)

  ghost function PendingScan(sha: Hash, pending: seq<Pending>): Scan
  {
    if pending == [] then NOTHING
    else
      var p := pending[|pending| - 1];
      Plus(PendingScan(sha, pending[..|pending| - 1]), Below(sha, p.path, p.dir, p.dir.children.Keys))
  }

  lemma PushPending(sha: Hash, pending: seq<Pending>, p: Pending)
    ensures PendingScan(sha, pending + [p]) == Plus(PendingScan(sha, pending), Below(sha, p.path, p.dir, p.dir.children.Keys))
  {
    assert (pending + [p])[..|pending|] == pending;
  }

  /** The running totals of the scan. */
  datatype Progress = Progress(entries: seq<Entry>, files: nat, dirs: nat, links: nat, bytes: nat)

  ghost function Collected(p: Progress): Scan {
    Scan(multiset(p.entries), p.files, p.dirs, p.links, p.bytes, false)
  }

  /** One child noted: its entry appended, its counters bumped. */
  function Note(sha: Hash, p: Progress, path: Path, child: Node): Progress
    requires !child.Special?
  {
    var entries := p.entries + [EntryOf(sha, path, child)];
    match child
    case Link(_) => p.(entries := entries, links := p.links + 1)
    case File(c) => p.(entries := entries, files := p.files + 1, bytes := p.bytes + |c|)
    case Dir(_) => p.(entries := entries, dirs := p.dirs + 1)
  }

  lemma NoteCollects(sha: Hash, p: Progress, path: Path, child: Node)
    requires !child.Special?
    ensures Collected(Note(sha, p, path, child)) == Plus(Collected(p), Single(sha, path, child))
  {
  }

  lemma Regroup(collected: Scan, pending: Scan, own: Scan, below: Scan, rest: Scan)
    ensures Plus(Plus(collected, pending), Plus(Plus(own, below), rest))
         == Plus(Plus(Plus(collected, own), Plus(pending, below)), rest)
    ensures Plus(Plus(collected, pending), Plus(own, rest)) == Plus(Plus(Plus(collected, own), pending), rest)
  {
  }

  /** What is collected plus what the worklist still owes. */
  ghost function Sum(sha: Hash, p: Progress, pending: seq<Pending>): Scan {
    Plus(Collected(p), PendingScan(sha, pending))
  }

  ghost function Load(sha: Hash, pending: seq<Pending>): nat
  {
    PendingScan(sha, pending).dirs + |pending|
  }

  function Push(pending: seq<Pending>, path: Path, child: Node): seq<Pending> {
    if child.Dir? then pending + [Pending(path, child)] else pending
  }

  /**
   With `names` of the current directory still to scan: collected, pending and these make up `goal`,
   and their directories are `load` in number.
   */
  ghost predicate Conserved(sha: Hash, current: Pending, p: Progress, pending: seq<Pending>, names: set<Bytes>, goal: Scan, load: nat) {
    && names <= current.dir.children.Keys
    && Plus(Sum(sha, p, pending), Below(sha, current.path, current.dir, names)) == goal
    && Load(sha, pending) + Below(sha, current.path, current.dir, names).dirs == load
  }

  lemma NoteChild(sha: Hash, current: Pending, p: Progress, pending: seq<Pending>, names: set<Bytes>, n: Bytes, goal: Scan, load: nat)
    requires n in names && Conserved(sha, current, p, pending, names, goal, load)
    ensures var path, child := current.path + [n], current.dir.children[n];
            if child.Special? then goal.special
            else Conserved(sha, current, Note(sha, p, path, child), Push(pending, path, child), names - {n}, goal, load)
  {
    var path, child := current.path + [n], current.dir.children[n];
    var rest := Below(sha, current.path, current.dir, names - {n});
    AnyChildFirst(sha, current.path, current.dir, names, n);
    if child.Special? { return; }
    NoteCollects(sha, p, path, child);
    if child.Dir? {
      PushPending(sha, pending, Pending(path, child));
      Regroup(Collected(p), PendingScan(sha, pending), Single(sha, path, child),
              Below(sha, path, child, child.children.Keys), rest);
    } else {
      Regroup(Collected(p), PendingScan(sha, pending), Single(sha, path, child), NOTHING, rest);
    }
  }

  lemma NothingLeft(sha: Hash, current: Pending, p: Progress, pending: seq<Pending>, goal: Scan, load: nat)
    requires Conserved(sha, current, p, pending, {}, goal, load)
    ensures Sum(sha, p, pending) == goal && Load(sha, pending) == load
  {
  }

  lemma PlusLaws(a: Scan, b: Scan, c: Scan)
    ensures Plus(Plus(a, b), c) == Plus(a, Plus(b, c))
    ensures Plus(NOTHING, a) == a && Plus(a, NOTHING) == a
  {
  }

  lemma PopPending(sha: Hash, p: Progress, pending: seq<Pending>)
    requires pending != []
    ensures var current, others := pending[|pending| - 1], pending[..|pending| - 1];
            Conserved(sha, current, p, others, current.dir.children.Keys, Sum(sha, p, pending), Load(sha, pending) - 1)
  {
    var current, others := pending[|pending| - 1], pending[..|pending| - 1];
    PlusLaws(Collected(p), PendingScan(sha, others), Below(sha, current.path, current.dir, current.dir.children.Keys));
  }

  /** One directory: every child noted, every subdirectory put on the worklist. */
  method ScanChildren(sha: Hash, current: Pending, progress: Progress, pending: seq<Pending>, ghost goal: Scan, ghost load: nat)
    returns (ok: bool, progress': Progress, pending': seq<Pending>)
    requires Conserved(sha, current, progress, pending, current.dir.children.Keys, goal, load)
    ensures !ok ==> goal.special
    ensures ok ==> Sum(sha, progress', pending') == goal && Load(sha, pending') == load
  {
    progress', pending' := progress, pending;
    var names := current.dir.children.Keys;
    while names != {}
      invariant Conserved(sha, current, progress', pending', names, goal, load)
      decreases names
    {
      var name :| name in names;
      var path, child := current.path + [name], current.dir.children[name];
      NoteChild(sha, current, progress', pending', names, name, goal, load);
      if child.Special? { return false, progress', pending'; }
      progress', pending' := Note(sha, progress', path, child), Push(pending', path, child);
      names := names - {name};
    }
    NothingLeft(sha, current, progress', pending', goal, load);
    ok := true;
  }

  lemma StartTree(sha: Hash, t: Directory)
    ensures Sum(sha, Progress([], 0, 1, 0, 0), [Pending([], t)])
         == Plus(NOTHING.(dirs := 1), Below(sha, [], t, t.children.Keys))
  {
    PushPending(sha, [], Pending([], t));
    assert [] + [Pending([], t)] == [Pending([], t)];
    PlusLaws(Below(sha, [], t, t.children.Keys), NOTHING, NOTHING);
    assert Collected(Progress([], 0, 1, 0, 0)) == NOTHING.(dirs := 1);
  }

  /** The worklist loop over a directory tree. */
  method ScanTree(sha: Hash, t: Directory) returns (r: Option<Progress>)
    ensures r.None? ==> Whole(sha, [], t).special
    ensures r.Some? ==> Collected(r.value) == Plus(NOTHING.(dirs := 1), Below(sha, [], t, t.children.Keys))
  {
    var progress := Progress([], 0, 1, 0, 0);
    var pending := [Pending([], t)];
    ghost var total := Sum(sha, progress, pending);
    StartTree(sha, t);
    while pending != []
      invariant Sum(sha, progress, pending) == total
      decreases Load(sha, pending)
    {
      var current := pending[|pending| - 1];
      var others := pending[..|pending| - 1];
      PopPending(sha, progress, pending);
      var ok, progress', pending' := ScanChildren(sha, current, progress, others, total, Load(sha, pending) - 1);
      if !ok { return None; }
      progress, pending := progress', pending';
    }
    PlusLaws(Collected(progress), NOTHING, NOTHING);
    r := Some(progress);
  }

  lemma SortedIsStream(entries: seq<Entry>)
    requires Once(multiset(entries))
    ensures var es := SortEntries(entries);
            && (forall e :: e in es ==> e in multiset(entries))
            && ((forall e :: e in es ==> Fits(e)) ==> IsStreamOf(multiset(entries), HASH_DOMAIN + Encode(es)))
  {
    SortIncreases(entries);
    assert forall e :: e in SortEntries(entries) ==> e in multiset(SortEntries(entries));
  }

  lemma BelowIsShown(sha: Hash, t: Directory, es: seq<Entry>, stream: Bytes)
    requires forall e :: e in es ==> e in Below(sha, [], t, t.children.Keys).entries
    ensures forall e :: e in es ==> e in Whole(sha, [], t).entries
    ensures IsStreamOf(Below(sha, [], t, t.children.Keys).entries, stream) ==> IsStream(sha, t, stream)
  {
  }

  /** A directory's sorted entries are its stream, and one that does not fit is an entry of the tree. */
  lemma ScanIsReported(sha: Hash, t: Directory, entries: seq<Entry>)
    requires ValidTree(t) && multiset(entries) == Below(sha, [], t, t.children.Keys).entries
    ensures forall e :: e in SortEntries(entries) ==> e in Whole(sha, [], t).entries
    ensures (forall e :: e in SortEntries(entries) ==> Fits(e)) ==>
              IsStream(sha, t, HASH_DOMAIN + Encode(SortEntries(entries)))
  {
    BelowReportsOnce(sha, [], t, t.children.Keys);
    SortedIsStream(entries);
    BelowIsShown(sha, t, SortEntries(entries), HASH_DOMAIN + Encode(SortEntries(entries)));
  }

  /**
   Hashes a resource: worklist over directories, children in whatever order the directory gives them,
   entries sorted before they are fed to the digest.
   */
  method ResourceIdentity(sha: Hash, t: Node) returns (r: Result<Report, Error>)
    requires ValidTree(t)
    ensures r.Ok? ==> !Whole(sha, [], t).special && IsStream(sha, t, r.value.stream)
    ensures r.Ok? ==>
              var whole := Whole(sha, [], t);
              r.value == Report(t.Dir?, whole.bytes, whole.files, whole.dirs, whole.links, r.value.stream)
    ensures r.Err? ==> match r.error
                       case NotAResource => t.Link? || t.Special?
                       case SpecialFile => t.Dir? && Whole(sha, [], t).special
                       case Unencodable => exists e :: e in Whole(sha, [], t).entries && !Fits(e)
  {
    if t.File? {
      var e := Entry(FileTag, [], |t.content|, sha(t.content));
      if !Fits(e) {
        assert e in Whole(sha, [], t).entries;
        return Err(Unencodable);
      }
      return Ok(Report(false, |t.content|, 1, 0, 0, HASH_DOMAIN + Encode([e])));
    }
    if !t.Dir? { return Err(NotAResource); }
    var scan := ScanTree(sha, t);
    if scan.None? { return Err(SpecialFile); }
    var p := scan.value;
    ScanIsReported(sha, t, p.entries);
    var sorted := SortEntries(p.entries);
    if exists e :: e in sorted && !Fits(e) {
      return Err(Unencodable);
    }
    r := Ok(Report(true, p.bytes, p.files, p.dirs, p.links, HASH_DOMAIN + Encode(sorted)));
  }
}
