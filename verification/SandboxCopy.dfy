/** Making the sandbox copy, and the run-time difference that a provider run reports
    (`copy_dir_recursive`, `snapshot_files` and `summarize_diff` in `crates/ao2-adapters/src/lib.rs`). */
module SandboxCopy {
  import opened Wrappers
  import opened Hashing
  import opened Lexicographic
  import opened Paths
  import opened FileTree
  import opened SandboxPreview
  import opened SandboxApply
  import opened SandboxGuarantees

  /** Everything but ignored paths and special files. */
  function CopyOf(t: Tree): Tree {
    map p | p in t && !Ignored(p) && !t[p].Special? :: t[p]
  }

  ghost predicate PartOfCopy(t: Tree, done: set<Path>, r: Tree) {
    && (forall p :: p in r ==> p in CopyOf(t) && r[p] == t[p] && (p in done || r[p].Dir?))
    && (forall p :: p in done && p in CopyOf(t) ==> p in r)
  }

  /** Creating a directory that the source has, or the parent of an entry it has, keeps the copy a part. */
  lemma DirsOfCopy(t: Tree, done: set<Path>, r: Tree, p: Path, dir: Path)
    requires WellFormed(t) && PartOfCopy(t, done, r) && p in t && !Ignored(p)
    requires (dir == p && t[p].Dir?) || (dir == p[..|p| - 1])
    ensures var (u, error) := MakeDirs(r, dir, 1);
            && error == None && PartOfCopy(t, done, u)
            && (forall j :: 0 < j <= |dir| ==> IsDir(u, dir[..j]))
            && (dir == p ==> PartOfCopy(t, done + {p}, u))
  {
    hide IgnoredName, Ignored, MakeDirs;
    forall j | 0 < j <= |dir|
      ensures dir[..j] in t && t[dir[..j]].Dir? && !Ignored(dir[..j]) && dir[..j] == p[..j]
    {
      assert dir[..j] == p[..j];
      PrefixNotIgnored(p, j);
      if j < |p| { assert IsDir(t, p[..j]); } else { assert p[..j] == p; }
    }
    MakeDirsAdds(r, dir, 1);
    assert dir[..|dir|] == dir;
  }

  /** The walk, in any order, into an empty directory. */
  method CopyDirRecursive(src: RepoTree, dst: RepoTree) returns (r: Result<(), ApplyError>)
    requires src != dst && WellFormed(src.nodes) && dst.nodes == map[]
    modifies dst
    ensures r.Ok? && dst.nodes == CopyOf(src.nodes)
  {
    assert forall p :: p in src.nodes ==> p != [];
    assert PartOfCopy(src.nodes, {}, map[]);
    hide Ignored, MakeDirs, Stat, WellFormed, LinkedLike, CopiedFile, PartOfCopy;
    var t := src.nodes;
    var todo := t.Keys;
    assert t.Keys - todo == {};
    while todo != {}
      invariant todo <= t.Keys && src.nodes == t
      invariant PartOfCopy(t, t.Keys - todo, dst.nodes)
      decreases |todo|
    {
      var p :| p in todo;
      ghost var done := t.Keys - todo;
      todo := todo - {p};
      assert t.Keys - todo == done + {p};
      if Ignored(p) || t[p].Special? {
        SkippedOfCopy(t, done, dst.nodes, p);
      } else {
        var dir := if t[p].Dir? then p else p[..|p| - 1];
        DirsOfCopy(t, done, dst.nodes, p, dir);
        var made := dst.CreateDirAll(dir);
        if !t[p].Dir? {
          EntryOfCopy(t, done, dst.nodes, p, dir);
          var copied := if t[p].Link? then LinkedLike(dst.nodes, t, p) else CopiedFile(dst.nodes, t, p);
          dst.nodes := copied.tree;
        }
      }
    }
    assert t.Keys - todo == t.Keys;
    CompleteCopy(t, dst.nodes);
    return Ok(());
  }

  lemma SkippedOfCopy(t: Tree, done: set<Path>, r: Tree, p: Path)
    requires PartOfCopy(t, done, r) && p in t && (Ignored(p) || t[p].Special?)
    ensures PartOfCopy(t, done + {p}, r)
  {
    hide Ignored;
  }

  lemma CompleteCopy(t: Tree, r: Tree)
    requires PartOfCopy(t, t.Keys, r)
    ensures r == CopyOf(t)
  {
    hide Ignored;
    assert r.Keys == CopyOf(t).Keys;
  }

  lemma EntryOfCopy(t: Tree, done: set<Path>, r: Tree, p: Path, dir: Path)
    requires WellFormed(t) && PartOfCopy(t, done, r) && p in t && !Ignored(p) && p !in done
    requires t[p].Link? || t[p].File?
    requires dir == p[..|p| - 1] && forall j :: 0 < j <= |dir| ==> IsDir(r, dir[..j])
    ensures (if t[p].Link? then LinkedLike(r, t, p) else CopiedFile(r, t, p)) == Done(r[p := t[p]])
    ensures PartOfCopy(t, done + {p}, r[p := t[p]])
  {
    hide Ignored, Blocked;
    forall j | 0 < j < |p| ensures IsDir(r, p[..j]) {
      assert dir[..j] == p[..j];
    }
    NotBlocked(r, p, 1);
    NotBlocked(t, p, 1);
  }

  /** A fresh copy that nothing changed previews to no operation at all. */
  lemma UnchangedCopyPreviewsEmpty(t: Tree)
    requires WellFormed(t) && Supported(t)
    ensures WellFormed(CopyOf(t)) && Supported(CopyOf(t))
    ensures PatchOperations(t, CopyOf(t)) == []
  {
    hide IgnoredName, StateOf, Join, Split;
    var s := CopyOf(t);
    forall p, i | p in s && 0 < i < |p| ensures IsDir(s, p[..i]) {
      assert IsDir(t, p[..i]);
      PrefixNotIgnored(p, i);
    }
    assert WellFormed(s) by { assert forall p :: p in s ==> p in t; }
    assert forall p :: StateAt(t, p) == StateAt(s, p);
    OperationsMeaning(t, s);
    var ops := PatchOperations(t, s);
    assert ops != [] ==> Reports(ops[0], t, s);
  }

  /** The digest the run-time snapshot takes of a path: regular files only, no mode, no link. */
  function FileDigestAt(t: Tree, p: Path): Option<Digest<seq<byte>>> {
    if p in t && !Ignored(p) && t[p].File? then Some(Sha256(t[p].content)) else None
  }

  function SlashKey(p: Path): string {
    Slashed(Join(p))
  }

  type FileDigests = map<string, Digest<seq<byte>>>

  /** Each key belongs to a file; where two file names fall together, either digest may be kept. */
  ghost predicate IsFileSnapshot(t: Tree, files: FileDigests) {
    && (forall p :: p in t && FileDigestAt(t, p).Some? ==> SlashKey(p) in files)
    && (forall k :: k in files ==>
          exists p :: p in t && FileDigestAt(t, p) == Some(files[k]) && SlashKey(p) == k)
  }

  method SnapshotFiles(root: RepoTree) returns (files: FileDigests)
    requires WellFormed(root.nodes)
    ensures IsFileSnapshot(root.nodes, files)
  {
    hide Ignored, Join, Slashed;
    var t := root.nodes;
    files := map[];
    var todo := t.Keys;
    while todo != {}
      invariant todo <= t.Keys
      invariant forall p :: p in t.Keys - todo && FileDigestAt(t, p).Some? ==> SlashKey(p) in files
      invariant forall k :: k in files ==>
                              exists p :: p in t && FileDigestAt(t, p) == Some(files[k]) && SlashKey(p) == k
      decreases |todo|
    {
      var p :| p in todo;
      todo := todo - {p};
      if t[p].File? && !Ignored(p) {
        var before := files;
        files := files[SlashKey(p) := Sha256(t[p].content)];
        forall k | k in files
          ensures exists q :: q in t && FileDigestAt(t, q) == Some(files[k]) && SlashKey(q) == k
        {
          if k == SlashKey(p) {
            assert FileDigestAt(t, p) == Some(files[k]);
          } else {
            assert k in before;
          }
        }
      }
    }
  }

  ghost function ChangedFiles(before: FileDigests, after: FileDigests): set<string> {
    set k | k in before.Keys + after.Keys && Lookup(before, k) != Lookup(after, k)
  }

  function Summary(before: FileDigests, after: FileDigests, path: string): string {
    match (Lookup(before, path), Lookup(after, path))
    case (None, _) => "added: " + path
    case (Some(_), None) => "deleted: " + path
    case (Some(_), Some(_)) => "modified: " + path
  }

  /** The changed ones of a list of paths, in order. */
  function ChangedAmong(before: FileDigests, after: FileDigests, paths: seq<string>): seq<string> {
    if paths == [] then []
    else
      var last := paths[|paths| - 1];
      ChangedAmong(before, after, paths[..|paths| - 1]) +
        if Lookup(before, last) != Lookup(after, last) then [last] else []
  }

  lemma {:induction false} ChangedAscend(before: FileDigests, after: FileDigests, paths: seq<string>)
    requires Ascending(paths)
    ensures Ascending(ChangedAmong(before, after, paths))
    ensures forall k :: k in ChangedAmong(before, after, paths) <==>
                          k in paths && Lookup(before, k) != Lookup(after, k)
  {
    if paths != [] {
      var init, last := paths[..|paths| - 1], paths[|paths| - 1];
      assert paths == init + [last];
      ChangedAscend(before, after, init);
      var r := ChangedAmong(before, after, init);
      forall j | 0 <= j < |r| ensures Less(r[j], last) {
        assert r[j] in r && r[j] in init;
      }
    }
  }

  lemma ChangedNext(before: FileDigests, after: FileDigests, paths: seq<string>, i: nat)
    requires i < |paths|
    ensures ChangedAmong(before, after, paths[..i + 1]) == ChangedAmong(before, after, paths[..i]) +
              if Lookup(before, paths[i]) != Lookup(after, paths[i]) then [paths[i]] else []
  {
    assert paths[..i + 1][..i] == paths[..i] && paths[..i + 1][i] == paths[i];
  }

  function Summaries(before: FileDigests, after: FileDigests, changed: seq<string>): (r: seq<string>)
    ensures |r| == |changed|
    ensures forall i :: 0 <= i < |r| ==> r[i] == Summary(before, after, changed[i])
  {
    seq(|changed|, i requires 0 <= i < |changed| => Summary(before, after, changed[i]))
  }

  lemma ChangedIsSorted(before: FileDigests, after: FileDigests, paths: seq<string>)
    requires paths == Sorted(before.Keys + after.Keys)
    ensures ChangedAmong(before, after, paths[..0]) == []
    ensures ChangedAmong(before, after, paths[..|paths|]) == Sorted(ChangedFiles(before, after))
  {
    assert paths[..0] == [] && paths[..|paths|] == paths;
    hide Less, ChangedAmong;
    ChangedAscend(before, after, paths);
    AscendingUnique(ChangedAmong(before, after, paths), Sorted(ChangedFiles(before, after)));
  }

  lemma SummariesNext(before: FileDigests, after: FileDigests, changed: seq<string>, path: string)
    ensures Summaries(before, after, changed + [path]) ==
            Summaries(before, after, changed) + [Summary(before, after, path)]
  {
    hide Summary;
  }

  method SummarizeDiff(before: FileDigests, after: FileDigests) returns (changed: seq<string>, summary: seq<string>)
    ensures changed == Sorted(ChangedFiles(before, after))
    ensures summary == Summaries(before, after, changed)
  {
    hide *;
    var paths := SortKeys(before.Keys + after.Keys);
    ChangedIsSorted(before, after, paths);
    changed, summary := [], [];
    for i := 0 to |paths|
      invariant changed == ChangedAmong(before, after, paths[..i])
      invariant summary == Summaries(before, after, changed)
    {
      var path := paths[i];
      ChangedNext(before, after, paths, i);
      SummariesNext(before, after, changed, path);
      if Lookup(before, path) != Lookup(after, path) {
        changed := changed + [path];
        summary := summary + [Summary(before, after, path)];
      }
    }
  }

  ghost predicate NoBackslash(t: Tree) {
    forall p :: p in t ==> '\\' !in Join(p)
  }

  lemma FileLookup(t: Tree, files: FileDigests, p: Path)
    requires WellFormed(t) && NoBackslash(t) && IsFileSnapshot(t, files) && ValidPath(p)
    ensures Lookup(files, Join(p)) == FileDigestAt(t, p)
  {
    hide Ignored;
    if p in t {
      assert SlashKey(p) == Join(p);
    }
    if Join(p) in files {
      var q :| q in t && FileDigestAt(t, q) == Some(files[Join(p)]) && SlashKey(q) == Join(p);
      assert SlashKey(q) == Join(q);
      JoinInjective(p, q);
    }
  }

  /** The run-time difference never names a path that the preview does not list, and the preview lists more
      exactly for a change of permission bits alone or of a link where neither side has a file. */
  lemma RunDiffWithinPreview(t: Tree, s: Tree, before: FileDigests, after: FileDigests, p: Path)
    requires WellFormed(t) && WellFormed(s) && NoBackslash(t) && NoBackslash(s)
    requires IsFileSnapshot(t, before) && IsFileSnapshot(s, after) && ValidPath(p)
    ensures var ops := PatchOperations(t, s);
            && (Join(p) in ChangedFiles(before, after) ==> Lists(ops, p))
            && (Lists(ops, p) && Join(p) !in ChangedFiles(before, after) <==>
                || (&& FileDigestAt(t, p).Some? && FileDigestAt(t, p) == FileDigestAt(s, p)
                    && t[p].mode % 512 != s[p].mode % 512)
                || (&& FileDigestAt(t, p) == FileDigestAt(s, p) == None
                    && StateAt(t, p) != StateAt(s, p)))
  {
    hide Ignored, Join, Split;
    FileLookup(t, before, p);
    FileLookup(s, after, p);
    OperationsMeaning(t, s);
    var ops := PatchOperations(t, s);
    if i :| 0 <= i < |ops| && ops[i].path == Join(p) {
      assert Reports(ops[i], t, s);
      JoinInjective(p, Split(ops[i].path));
    }
  }

  /** Every run-time changed path is one of the preview's changed files. */
  lemma RunDiffSubset(t: Tree, s: Tree, before: FileDigests, after: FileDigests, repo: RepositoryState)
    requires WellFormed(t) && WellFormed(s) && NoBackslash(t) && NoBackslash(s)
    requires IsFileSnapshot(t, before) && IsFileSnapshot(s, after)
    ensures forall k :: k in ChangedFiles(before, after) ==> k in PreviewOf(t, s, repo).changedFiles
  {
    hide Ignored, Join, Split, Slashed;
    forall k | k in ChangedFiles(before, after) ensures k in PreviewOf(t, s, repo).changedFiles {
      var tree, files := if k in before then t else s, if k in before then before else after;
      var p :| p in tree && FileDigestAt(tree, p) == Some(files[k]) && SlashKey(p) == k;
      assert SlashKey(p) == Join(p);
      RunDiffWithinPreview(t, s, before, after, p);
      var ops := PatchOperations(t, s);
      var i :| 0 <= i < |ops| && ops[i].path == Join(p);
      assert PathsOf(ops)[i] == k;
    }
  }
}
