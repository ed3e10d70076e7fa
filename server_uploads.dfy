/** Removal of the local copies of an upload (backend/src/utils/cleanupServerUploads.js):
    every stored path, field by field, is unlinked in turn, and one
    enclosing try ends the whole walk at the first failed unlink. */
module ServerUploads {
  import opened Wrappers
  import opened UploadMiddleware

  /** Every stored path of an upload: field by field, and in list order
      within a field. */
  function AllPaths(files: Files): seq<string>
    decreases |files|
  {
    if files == [] then [] else FilePaths(files[0].files) + AllPaths(files[1..])
  }

  lemma {:induction false} AllPathsConcat(a: Files, b: Files)
    ensures AllPaths(a + b) == AllPaths(a) + AllPaths(b)
    decreases |a|
  {
    if a == [] {
      assert a + b == b;
    } else {
      assert (a + b)[1..] == a[1..] + b;
      AllPathsConcat(a[1..], b);
    }
  }

  /** The walk visits fields in order: a field's paths come after those of
      every earlier field and before those of every later one. */
  lemma AllPathsFieldByField(before: Files, field: FieldFiles, after: Files)
    ensures AllPaths(before + [field] + after) == AllPaths(before) + FilePaths(field.files) + AllPaths(after)
  {
    AllPathsConcat(before + [field], after);
    AllPathsConcat(before, [field]);
    assert [field][1..] == [];
  }

  /** `fs.unlink` succeeds on a path that exists and may be removed. */
  predicate Unlinkable(present: set<string>, denied: set<string>, path: string) {
    path in present && path !in denied
  }

  /** The outcome of the walk: what is left, the paths unlinked in order,
      and whether it reached the end (the success log) or stopped. */
  datatype Run = Run(remaining: set<string>, unlinked: seq<string>, completed: bool)

  /** The walk over `paths`: each path unlinked in turn, stopping at the first
      failure. */
  function CleanupRun(present: set<string>, denied: set<string>, paths: seq<string>): Run
    decreases |paths|
  {
    if paths == [] then Run(present, [], true)
    else if Unlinkable(present, denied, paths[0]) then
      var rest := CleanupRun(present - {paths[0]}, denied, paths[1..]);
      Run(rest.remaining, [paths[0]] + rest.unlinked, rest.completed)
    else Run(present, [], false)
  }

  /** Putting one unlinked path in front of the rest of the walk's. */
  lemma ConsUnlinked(p: string, paths: seq<string>, rest: seq<string>)
    requires paths != [] && paths[0] == p
    requires |rest| <= |paths| - 1 && rest == paths[1..][..|rest|]
    ensures [p] + rest == paths[..1 + |rest|]
    ensures (set q | q in [p] + rest) == {p} + set q | q in rest
  {
    assert (set q | q in [p] + rest) == {p} + set q | q in rest;
  }

  /** The walk unlinks a prefix of the paths, each of which existed; the
      files removed are exactly those; it completes iff it unlinked every
      path, and otherwise the next path could not be unlinked. */
  lemma {:induction false} CleanupRunShape(present: set<string>, denied: set<string>, paths: seq<string>)
    ensures var r := CleanupRun(present, denied, paths);
      && |r.unlinked| <= |paths|
      && r.unlinked == paths[..|r.unlinked|]
      && (forall p :: p in r.unlinked ==> p in present && p !in denied)
      && r.remaining == present - (set p | p in r.unlinked)
      && (r.completed <==> |r.unlinked| == |paths|)
      && (!r.completed ==> !Unlinkable(r.remaining, denied, paths[|r.unlinked|]))
    decreases |paths|
  {
    if paths != [] && Unlinkable(present, denied, paths[0]) {
      var p := paths[0];
      CleanupRunShape(present - {p}, denied, paths[1..]);
      var rest := CleanupRun(present - {p}, denied, paths[1..]);
      ConsUnlinked(p, paths, rest.unlinked);
    }
  }

  /** Only listed paths are removed: nothing outside `paths` changes. */
  lemma OnlyListedRemoved(present: set<string>, denied: set<string>, paths: seq<string>)
    ensures var r := CleanupRun(present, denied, paths);
      r.remaining <= present && forall p :: p in present && p !in r.remaining ==> p in paths
  {
    CleanupRunShape(present, denied, paths);
    var r := CleanupRun(present, denied, paths);
    forall p | p in present && p !in r.remaining
      ensures p in paths
    {
      var k :| 0 <= k < |r.unlinked| && r.unlinked[k] == p;
      assert paths[k] == p;
    }
  }

  /** A walk that completes leaves none of the listed paths behind. */
  lemma CompletedRemovesAll(present: set<string>, denied: set<string>, paths: seq<string>)
    requires CleanupRun(present, denied, paths).completed
    ensures forall i :: 0 <= i < |paths| ==> paths[i] !in CleanupRun(present, denied, paths).remaining
  {
    CleanupRunShape(present, denied, paths);
    var r := CleanupRun(present, denied, paths);
    assert paths[..|paths|] == paths;
    forall i | 0 <= i < |paths|
      ensures paths[i] !in r.remaining
    {
      assert r.unlinked[i] == paths[i];
    }
  }

  /** With every path present, distinct and removable, the walk completes. */
  lemma {:induction false} CleanWalkCompletes(present: set<string>, denied: set<string>, paths: seq<string>)
    requires forall i :: 0 <= i < |paths| ==> Unlinkable(present, denied, paths[i])
    requires forall i, j :: 0 <= i < j < |paths| ==> paths[i] != paths[j]
    ensures CleanupRun(present, denied, paths).completed
    decreases |paths|
  {
    if paths != [] {
      var p := paths[0];
      forall i | 0 <= i < |paths[1..]|
        ensures Unlinkable(present - {p}, denied, paths[1..][i])
      {
        assert paths[1..][i] == paths[i + 1];
      }
      CleanWalkCompletes(present - {p}, denied, paths[1..]);
    }
  }

  /** The first failure stops the walk: every path after it stays in place. */
  lemma AbortLeavesLaterFiles(present: set<string>, denied: set<string>, paths: seq<string>, k: nat)
    requires k < |paths|
    requires !Unlinkable(present, denied, paths[k])
    requires forall i :: 0 <= i < k ==> paths[i] != paths[k]
    ensures var r := CleanupRun(present, denied, paths);
      forall j :: k <= j < |paths| && paths[j] in present && paths[j] !in paths[..k] ==> paths[j] in r.remaining
  {
    CleanupRunShape(present, denied, paths);
    var r := CleanupRun(present, denied, paths);
    var n := |r.unlinked|;
    assert paths[k] !in r.unlinked;
    assert forall i :: 0 <= i < n ==> r.unlinked[i] == paths[i];
    assert n <= k;
    assert r.unlinked == paths[..k][..n];
    assert forall q :: q in r.unlinked ==> q in paths[..k];
  }

  /** The local file system: the stored paths, and those whose unlink fails
      for a reason other than absence (permissions, a busy file). */
  class FileSystem {
    var files: set<string>
    const denied: set<string>

    constructor (files: set<string>, denied: set<string>)
      ensures this.files == files && this.denied == denied
    {
      this.files := files;
      this.denied := denied;
    }

    /** `fs.unlink`: removes an existing path; fails otherwise. */
    method Unlink(path: string) returns (ok: bool)
      modifies this
      ensures ok == Unlinkable(old(files), denied, path)
      ensures files == if ok then old(files) - {path} else old(files)
    {
      ok := path in files && path !in denied;
      if ok {
        files := files - {path};
      }
    }
  }

  /** Two walks end in the same state. */
  predicate Reaches(r: Run, goal: Run) {
    r.remaining == goal.remaining && r.completed == goal.completed
  }

  /** The paths still to walk, one field's file at a time. */
  lemma PathsStep(list: seq<UploadedFile>, m: nat, tail: seq<string>)
    requires m < |list|
    ensures var rest := FilePaths(list[m..]) + tail;
      rest != [] && rest[0] == list[m].path && rest[1..] == FilePaths(list[m + 1..]) + tail
  {
    var rest := FilePaths(list[m..]) + tail;
    assert rest[1..] == FilePaths(list[m + 1..]) + tail;
  }

  /** The paths still to walk, one field at a time. */
  lemma FieldsStep(fields: Files, k: nat)
    requires k < |fields|
    ensures AllPaths(fields[k..]) == FilePaths(fields[k].files) + AllPaths(fields[k + 1..])
    ensures FilePaths(fields[k].files[|fields[k].files|..]) + AllPaths(fields[k + 1..]) == AllPaths(fields[k + 1..])
  {
    assert fields[k..][1..] == fields[k + 1..];
    assert fields[k].files[|fields[k].files|..] == [];
  }

  /** `cleanupServerUploads`: unlinks every stored path field by field; the
      first failure is caught outside both loops, so it ends the walk.
      `cleaned` is whether the success message was logged; no error escapes. */
  method CleanupServerUploads(fs: FileSystem, files: Option<Files>) returns (cleaned: bool)
    modifies fs
    ensures var r := CleanupRun(old(fs.files), fs.denied, if files.Some? then AllPaths(files.value) else []);
      fs.files == r.remaining && cleaned == r.completed
  {
    if files.None? {
      return true;
    }
    var fields := files.value;
    ghost var goal := CleanupRun(fs.files, fs.denied, AllPaths(fields));
    var k := 0;
    while k < |fields|
      invariant 0 <= k <= |fields|
      invariant Reaches(CleanupRun(fs.files, fs.denied, AllPaths(fields[k..])), goal)
    {
      var list := fields[k].files;
      FieldsStep(fields, k);
      assert list[0..] == list;
      var m := 0;
      while m < |list|
        invariant 0 <= m <= |list|
        invariant Reaches(CleanupRun(fs.files, fs.denied, FilePaths(list[m..]) + AllPaths(fields[k + 1..])), goal)
      {
        PathsStep(list, m, AllPaths(fields[k + 1..]));
        var ok := fs.Unlink(list[m].path);
        if !ok {
          return false;
        }
        m := m + 1;
      }
      k := k + 1;
    }
    return true;
  }
}
