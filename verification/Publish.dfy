/**
 Publication of several exclusion files at once: stage, back up, swap in, and undo everything when
 any write, rename or directory sync fails.
 */
module Publish {
  import opened Wrappers

  datatype Document = Document(path: string, text: string, changed: bool)

  predicate DistinctPaths(docs: seq<Document>) {
    forall i, j :: 0 <= i < j < |docs| ==> docs[i].path != docs[j].path
  }

  /** Paths of the first `n` documents that are to be published. */
  function Paths(docs: seq<Document>, n: nat): set<string>
    requires n <= |docs|
  {
    set i | 0 <= i < n && docs[i].changed :: docs[i].path
  }

  /** Exactly the changed ones of the first `n` documents are staged, each under its own path. */
  predicate Holds(staged: map<string, string>, docs: seq<Document>, n: nat)
    requires n <= |docs|
  {
    && (forall i :: 0 <= i < n && docs[i].changed ==> docs[i].path in staged && staged[docs[i].path] == docs[i].text)
    && (forall i :: 0 <= i < |docs| && docs[i].path in staged ==> i < n && docs[i].changed)
  }

  /** The directory after publishing the first `n` documents. */
  function Published(files: map<string, string>, docs: seq<Document>, n: nat): map<string, string>
    requires n <= |docs|
  {
    if n == 0 then files
    else
      var before := Published(files, docs, n - 1);
      if docs[n - 1].changed then before[docs[n - 1].path := docs[n - 1].text] else before
  }

  /** Publishing touches the published paths only, and each holds its own text. */
  lemma {:induction false} PublishedAt(files: map<string, string>, docs: seq<Document>, n: nat, p: string)
    requires n <= |docs| && DistinctPaths(docs)
    ensures p !in Paths(docs, n) ==> (p in Published(files, docs, n) <==> p in files)
                                     && (p in files ==> Published(files, docs, n)[p] == files[p])
    ensures forall i :: 0 <= i < n && docs[i].changed && docs[i].path == p ==>
              p in Published(files, docs, n) && Published(files, docs, n)[p] == docs[i].text
  {
    if n > 0 {
      PublishedAt(files, docs, n - 1, p);
      assert Paths(docs, n) == Paths(docs, n - 1) + if docs[n - 1].changed then {docs[n - 1].path} else {};
    }
  }

  lemma OthersAsBefore(files: map<string, string>, docs: seq<Document>, n: nat)
    requires n <= |docs| && DistinctPaths(docs)
    ensures SameOutside(files, Published(files, docs, n), Paths(docs, n))
  {
    forall p | p !in Paths(docs, n)
      ensures (p in Published(files, docs, n) <==> p in files) && (p in files ==> Published(files, docs, n)[p] == files[p])
    {
      PublishedAt(files, docs, n, p);
    }
  }

  class Directory {
    var files: map<string, string>

    /** One fallible operation; `calls` numbers them and `faults` says which raise. */
    method Attempt(calls: nat, faults: set<nat>) returns (ok: bool, calls': nat)
      ensures ok <==> calls !in faults
      ensures calls' == calls + 1
    {
      ok, calls' := calls !in faults, calls + 1;
    }

    /** Writing and syncing every changed text to the staging area; destinations are not touched. */
    method StageAll(docs: seq<Document>, faults: set<nat>) returns (ok: bool, staged: map<string, string>, calls: nat)
      requires DistinctPaths(docs)
      ensures !ok ==> faults != {}
      ensures ok ==> Holds(staged, docs, |docs|)
    {
      calls, staged := 0, map[];
      var i := 0;
      while i < |docs|
        invariant i <= |docs|
        invariant Holds(staged, docs, i)
      {
        if docs[i].changed {
          var written, synced: bool;
          written, calls := Attempt(calls, faults);
          if !written { return false, staged, calls; }
          synced, calls := Attempt(calls, faults);
          if !synced { return false, staged, calls; }
          staged := staged[docs[i].path := docs[i].text];
        }
        i := i + 1;
      }
      ok := true;
    }

    /** One document of the swap loop: old content to the backup, staged text into place. */
    method SwapOne(path: string, text: string, backups0: map<string, string>, faults: set<nat>, calls0: nat)
      returns (ok: bool, backups: map<string, string>, calls: nat)
      modifies this
      ensures !ok ==> faults != {}
      ensures ok ==> files == old(files)[path := text]
      ensures ok ==> backups == if path in old(files) then backups0[path := old(files)[path]] else backups0
      ensures !ok ==> (files == old(files) && backups == backups0)
                      || (path in old(files) && files == old(files) - {path} && backups == backups0[path := old(files)[path]])
    {
      backups, calls := backups0, calls0;
      if path in files {
        ok, calls := Attempt(calls, faults);
        if !ok { return; }
        backups := backups[path := files[path]];
        files := files - {path};
      }
      ok, calls := Attempt(calls, faults);
      if !ok { return; }
      files := files[path := text];
    }

    /** The swap loop. */
    method SwapAll(docs: seq<Document>, staged: map<string, string>, faults: set<nat>, calls0: nat)
      returns (ok: bool, replaced: set<string>, backups: map<string, string>, calls: nat)
      requires DistinctPaths(docs) && Holds(staged, docs, |docs|)
      modifies this
      ensures !ok ==> faults != {}
      ensures ok ==> files == Published(old(files), docs, |docs|)
      ensures replaced <= Paths(docs, |docs|) && backups.Keys <= Paths(docs, |docs|)
      ensures Undoable(old(files), files, replaced, backups)
    {
      ghost var start := files;
      calls := calls0;
      replaced, backups := {}, map[];
      var i := 0;
      while i < |docs|
        invariant i <= |docs|
        invariant files == Published(start, docs, i)
        invariant replaced == Paths(docs, i)
        invariant BackedUp(start, replaced, backups)
      {
        PathsGrow(docs, i);
        ghost var now := files;
        OthersAsBefore(start, docs, i);
        if docs[i].path in staged {
          var path := docs[i].path;
          NotYetPublished(docs, i);
          ghost var saved := backups;
          ok, backups, calls := SwapOne(path, staged[path], backups, faults, calls);
          if !ok {
            UndoableMidway(start, now, replaced, saved, path);
            return;
          }
          BackupGrows(start, now, replaced, saved, path);
          replaced := replaced + {path};
        }
        i := i + 1;
      }
      OthersAsBefore(start, docs, i);
      AllUndoable(start, files, replaced, backups);
      ok := true;
    }

    /** One document of the undo loop. */
    method UndoOne(path: string, replaced: set<string>, backups: map<string, string>)
      modifies this
      ensures files == StepBack(old(files), replaced, backups, path)
    {
      if path in replaced && path in files { files := files - {path}; }
      if path in backups { files := files[path := backups[path]]; }
    }

    /** The `except` block: in reverse order, remove what was swapped in and put backups back. */
    method Undo(docs: seq<Document>, replaced: set<string>, backups: map<string, string>)
      modifies this
      ensures files == Undone(old(files), docs, 0, replaced, backups)
    {
      var i := |docs|;
      while i > 0
        invariant 0 <= i <= |docs|
        invariant files == Undone(old(files), docs, i, replaced, backups)
      {
        i := i - 1;
        UndoOne(docs[i].path, replaced, backups);
      }
    }

    /** All-or-nothing: on success every document is in place, on any failure nothing has changed. */
    method PublishAll(docs: seq<Document>, faults: set<nat>) returns (ok: bool)
      requires DistinctPaths(docs)
      modifies this
      ensures ok ==> files == Published(old(files), docs, |docs|)
      ensures !ok ==> files == old(files)
      ensures faults == {} ==> ok
    {
      var complete, staged, calls := StageAll(docs, faults);
      if !complete { return false; }
      var swapped, replaced, backups, calls' := SwapAll(docs, staged, faults, calls);
      if swapped {
        var synced, _ := Attempt(calls', faults);
        if synced { return true; }
      }
      UndoRestores(old(files), files, docs, replaced, backups);
      Undo(docs, replaced, backups);
      ok := false;
    }
  }

  /** One path after undoing: its backup, or else its content unless it was swapped in. */
  function PathUndone(now: Option<string>, p: string, replaced: set<string>, backups: map<string, string>): Option<string> {
    if p in backups then Some(backups[p]) else if p in replaced then None else now
  }

  function Get(files: map<string, string>, p: string): Option<string> {
    if p in files then Some(files[p]) else None
  }

  lemma SameFiles(a: map<string, string>, b: map<string, string>)
    requires forall p :: Get(a, p) == Get(b, p)
    ensures a == b
  {
    forall p ensures (p in a <==> p in b) && (p in a ==> a[p] == b[p]) { assert Get(a, p) == Get(b, p); }
  }

  /** One turn of the undo loop. */
  function StepBack(files: map<string, string>, replaced: set<string>, backups: map<string, string>, path: string): map<string, string> {
    var removed := if path in replaced && path in files then files - {path} else files;
    if path in backups then removed[path := backups[path]] else removed
  }

  lemma StepBackAt(files: map<string, string>, replaced: set<string>, backups: map<string, string>, path: string, p: string)
    ensures Get(StepBack(files, replaced, backups, path), p) == if p == path then PathUndone(Get(files, p), p, replaced, backups) else Get(files, p)
  {
  }

  /** Undoing the documents from `i` on, the last one first. */
  function Undone(files: map<string, string>, docs: seq<Document>, i: nat, replaced: set<string>, backups: map<string, string>): map<string, string>
    requires i <= |docs|
    decreases |docs| - i
  {
    if i == |docs| then files
    else StepBack(Undone(files, docs, i + 1, replaced, backups), replaced, backups, docs[i].path)
  }

  lemma {:induction false} UndoneAt(files: map<string, string>, docs: seq<Document>, i: nat, replaced: set<string>, backups: map<string, string>, p: string)
    requires i <= |docs|
    ensures Get(Undone(files, docs, i, replaced, backups), p)
            == if exists j :: i <= j < |docs| && docs[j].path == p then PathUndone(Get(files, p), p, replaced, backups) else Get(files, p)
    decreases |docs| - i
  {
    if i < |docs| {
      UndoneAt(files, docs, i + 1, replaced, backups, p);
      StepBackAt(Undone(files, docs, i + 1, replaced, backups), replaced, backups, docs[i].path, p);
    }
  }

  /** Everything that differs from the original is swapped in or backed up, and backups are faithful. */
  predicate Undoable(original: map<string, string>, files: map<string, string>, replaced: set<string>, backups: map<string, string>) {
    && (forall p :: p in backups ==> p in original && backups[p] == original[p])
    && (forall p :: p in original && p !in backups ==> p !in replaced && p in files && files[p] == original[p])
    && (forall p :: p in files && p !in original ==> p in replaced)
  }

  /** Backups hold exactly the original content of what was swapped in. */
  predicate BackedUp(original: map<string, string>, replaced: set<string>, backups: map<string, string>) {
    backups.Keys == replaced * original.Keys && forall p :: p in backups ==> backups[p] == original[p]
  }

  /** Outside the swapped paths a directory is as it was. */
  ghost predicate SameOutside(original: map<string, string>, files: map<string, string>, replaced: set<string>) {
    && (forall p :: p !in replaced ==> (p in files <==> p in original))
    && (forall p :: p !in replaced && p in original ==> files[p] == original[p])
  }

  lemma AllUndoable(original: map<string, string>, files: map<string, string>, replaced: set<string>, backups: map<string, string>)
    requires BackedUp(original, replaced, backups) && SameOutside(original, files, replaced)
    ensures Undoable(original, files, replaced, backups)
  {
  }

  lemma UndoableMidway(original: map<string, string>, files: map<string, string>, replaced: set<string>, backups: map<string, string>, path: string)
    requires BackedUp(original, replaced, backups) && SameOutside(original, files, replaced) && path !in replaced
    ensures Undoable(original, files, replaced, backups)
    ensures path in files ==> Undoable(original, files - {path}, replaced, backups[path := files[path]])
  {
  }

  lemma BackupGrows(original: map<string, string>, files: map<string, string>, replaced: set<string>, backups: map<string, string>, path: string)
    requires BackedUp(original, replaced, backups) && SameOutside(original, files, replaced) && path !in replaced
    ensures BackedUp(original, replaced + {path}, if path in files then backups[path := files[path]] else backups)
  {
  }

  /** Whatever the swap loop had done, undoing it gives the original directory. */
  lemma UndoRestores(original: map<string, string>, files: map<string, string>, docs: seq<Document>, replaced: set<string>, backups: map<string, string>)
    requires Undoable(original, files, replaced, backups)
    requires replaced <= Paths(docs, |docs|) && backups.Keys <= Paths(docs, |docs|)
    ensures Undone(files, docs, 0, replaced, backups) == original
  {
    forall p ensures Get(Undone(files, docs, 0, replaced, backups), p) == Get(original, p) {
      UndoneAt(files, docs, 0, replaced, backups, p);
      assert p in Paths(docs, |docs|) ==> exists j :: 0 <= j < |docs| && docs[j].path == p;
    }
    SameFiles(Undone(files, docs, 0, replaced, backups), original);
  }

  lemma PathsGrow(docs: seq<Document>, i: nat)
    requires i < |docs|
    ensures Paths(docs, i + 1) == Paths(docs, i) + if docs[i].changed then {docs[i].path} else {}
    ensures Paths(docs, i + 1) <= Paths(docs, |docs|)
  {
  }

  lemma NotYetPublished(docs: seq<Document>, i: nat)
    requires i < |docs| && DistinctPaths(docs)
    ensures docs[i].path !in Paths(docs, i)
  {
  }
}
