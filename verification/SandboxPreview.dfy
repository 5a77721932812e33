/** Snapshots of two trees, their ordered difference, and the approval subject that binds it
    (`crates/ao2-adapters/src/sandbox_patch.rs`). */
module SandboxPreview {
  import opened Wrappers
  import opened Hashing
  import opened Lexicographic
  import opened Paths
  import opened FileTree

  /** `is_ignored_repo_component`. */
  predicate IgnoredName(name: string) {
    name in {
      ".ao2", ".git", ".hg", ".svn", "target", "node_modules", ".venv", "venv", "__pycache__", ".pytest_cache",
      ".mypy_cache", ".ruff_cache", ".next", ".expo", "dist", "build", "coverage"
    }
  }

  predicate Ignored(p: Path) {
    exists i :: 0 <= i < |p| && IgnoredName(p[i])
  }

  datatype FileKind = RegularFile | Symlink

  datatype FileState = FileState(
    kind: FileKind,
    contentSha256: Option<Digest<seq<byte>>>,
    symlinkTargetSha256: Option<Digest<seq<byte>>>,
    unixMode: Option<nat>)

  /** Only the low nine permission bits are recorded. */
  function StateOf(node: Node): Option<FileState> {
    match node
    case File(content, mode) => Some(FileState(RegularFile, Some(Sha256(content)), None, Some(mode % 512)))
    case Link(target) => Some(FileState(Symlink, None, Some(Sha256(target)), None))
    case _ => None
  }

  /** What a snapshot records about `p`: directories and ignored paths leave no trace. */
  function StateAt(t: Tree, p: Path): Option<FileState> {
    if p in t && !Ignored(p) then StateOf(t[p]) else None
  }

  /** A snapshot fails on any entry outside the ignored directories that is neither file, link nor directory. */
  ghost predicate Supported(t: Tree) {
    forall p :: p in t && !Ignored(p) ==> !t[p].Special?
  }

  type Snapshot = map<string, FileState>

  /** The snapshot holds exactly the recorded states, keyed by joined path. */
  ghost predicate IsSnapshot(t: Tree, snapshot: Snapshot) {
    && (forall p :: p in t && StateAt(t, p).Some? ==>
          Join(p) in snapshot && snapshot[Join(p)] == StateAt(t, p).value)
    && (forall k :: k in snapshot ==> Split(k) in t && StateAt(t, Split(k)).Some? && Join(Split(k)) == k)
  }

  ghost function SnapshotOf(t: Tree): (r: Snapshot)
    requires WellFormed(t)
    ensures IsSnapshot(t, r)
  {
    assert forall p :: p in t ==> Split(Join(p)) == p by {
      forall p | p in t { SplitJoin(p); }
    }
    map k | k in (set p | p in t :: Join(p)) && StateAt(t, Split(k)).Some? :: StateAt(t, Split(k)).value
  }

  lemma SnapshotUnique(t: Tree, a: Snapshot, b: Snapshot)
    requires IsSnapshot(t, a) && IsSnapshot(t, b)
    ensures a == b
  {
    forall k ensures k in a <==> k in b {
      if k in a || k in b {
        assert Split(k) in t && StateAt(t, Split(k)).Some? && Join(Split(k)) == k;
      }
    }
    assert a.Keys == b.Keys;
    forall k | k in a ensures a[k] == b[k] {
      assert Split(k) in t && StateAt(t, Split(k)).Some? && Join(Split(k)) == k;
    }
  }

  /** A lookup in the snapshot is a look at the tree. */
  lemma SnapshotLookup(t: Tree, p: Path)
    requires WellFormed(t) && ValidPath(p)
    ensures Lookup(SnapshotOf(t), Join(p)) == StateAt(t, p)
  {
    SplitJoin(p);
  }

  datatype SnapshotError = UnsupportedEntry(path: Path)

  /** The directory walk, in any order. */
  method SnapshotTree(root: RepoTree) returns (r: Result<Snapshot, SnapshotError>)
    requires WellFormed(root.nodes)
    ensures r.Ok? <==> Supported(root.nodes)
    ensures r.Ok? ==> r.value == SnapshotOf(root.nodes)
  {
    hide Ignored;
    var t := root.nodes;
    var files: Snapshot := map[];
    var todo := t.Keys;
    while todo != {}
      invariant todo <= t.Keys
      invariant forall p :: p in t.Keys - todo && StateAt(t, p).Some? ==>
                              Join(p) in files && files[Join(p)] == StateAt(t, p).value
      invariant forall k :: k in files ==> Split(k) in t && StateAt(t, Split(k)).Some? && Join(Split(k)) == k
      invariant forall p :: p in t.Keys - todo && !Ignored(p) ==> !t[p].Special?
      decreases |todo|
    {
      var p :| p in todo;
      todo := todo - {p};
      if Ignored(p) || t[p].Dir? {
        continue;
      }
      var state := StateOf(t[p]);
      if state == None {
        return Err(UnsupportedEntry(p));
      }
      SplitJoin(p);
      forall q | q in t && Join(q) == Join(p) ensures q == p {
        JoinInjective(q, p);
      }
      files := files[Join(p) := state.value];
    }
    SnapshotUnique(t, files, SnapshotOf(t));
    return Ok(files);
  }

  datatype OperationKind = Added | Modified | Deleted

  datatype Operation = Operation(
    order: nat, path: string, kind: OperationKind, before: Option<FileState>, after: Option<FileState>)

  datatype ApprovalSubject = ApprovalSubject(
    schemaVersion: string, repositoryIdentity: string, baseCommit: string, operationType: string,
    operations: seq<Operation>)

  const APPROVAL_SUBJECT_SCHEMA := "ao2.sandbox-patch-approval-subject.v1"

  /** What Git reports about the target; it lives under `.git`, an ignored component. */
  datatype RepositoryState = RepositoryState(identity: string, baseCommit: string)

  ghost function ChangedKeys(before: Snapshot, after: Snapshot): set<string> {
    set k | k in before.Keys + after.Keys && Lookup(before, k) != Lookup(after, k)
  }

  function KindOf(before: Option<FileState>, after: Option<FileState>): OperationKind {
    match (before, after)
    case (None, _) => Added
    case (Some(_), None) => Deleted
    case (Some(_), Some(_)) => Modified
  }

  function OperationFor(before: Snapshot, after: Snapshot, order: nat, key: string): Operation {
    var b, a := Lookup(before, key), Lookup(after, key);
    Operation(order % 0x1_0000_0000, key, KindOf(b, a), b, a)
  }

  function OperationsFor(before: Snapshot, after: Snapshot, keys: seq<string>): (r: seq<Operation>)
    ensures |r| == |keys|
    ensures forall i :: 0 <= i < |r| ==> r[i] == OperationFor(before, after, i, keys[i])
  {
    seq(|keys|, i requires 0 <= i < |keys| => OperationFor(before, after, i, keys[i]))
  }

  ghost function PatchOperations(target: Tree, sandbox: Tree): seq<Operation>
    requires WellFormed(target) && WellFormed(sandbox)
  {
    var before, after := SnapshotOf(target), SnapshotOf(sandbox);
    OperationsFor(before, after, Sorted(ChangedKeys(before, after)))
  }

  ghost function SubjectOf(target: Tree, sandbox: Tree, repo: RepositoryState): ApprovalSubject
    requires WellFormed(target) && WellFormed(sandbox)
  {
    ApprovalSubject(APPROVAL_SUBJECT_SCHEMA, repo.identity, repo.baseCommit, "sandbox_patch_apply",
                    PatchOperations(target, sandbox))
  }

  function PathsOf(operations: seq<Operation>): (r: seq<string>)
    ensures |r| == |operations|
    ensures forall i :: 0 <= i < |r| ==> r[i] == operations[i].path
  {
    seq(|operations|, i requires 0 <= i < |operations| => operations[i].path)
  }

  function ActionDigest(subject: ApprovalSubject): Digest<ApprovalSubject> {
    Sha256(subject)
  }

  datatype Preview = Preview(
    changedFiles: seq<string>, approvalSubject: ApprovalSubject, actionDigest: Digest<ApprovalSubject>)

  ghost function PreviewOf(target: Tree, sandbox: Tree, repo: RepositoryState): Preview
    requires WellFormed(target) && WellFormed(sandbox)
  {
    var subject := SubjectOf(target, sandbox, repo);
    Preview(PathsOf(subject.operations), subject, ActionDigest(subject))
  }

  datatype PreviewError = NoRepository | Unsupported(error: SnapshotError)

  method PreviewSandboxPatch(target: RepoTree, sandbox: RepoTree, git: Option<RepositoryState>)
    returns (r: Result<Preview, PreviewError>)
    requires WellFormed(target.nodes) && WellFormed(sandbox.nodes)
    ensures r.Ok? <==> git.Some? && Supported(target.nodes) && Supported(sandbox.nodes)
    ensures r.Ok? ==> r.value == PreviewOf(target.nodes, sandbox.nodes, git.value)
  {
    hide Ignored, StateOf, IsSnapshot, OperationFor;
    if git == None {
      return Err(NoRepository);
    }
    var snapshot := SnapshotTree(target);
    if snapshot.Err? {
      return Err(Unsupported(snapshot.error));
    }
    var before := snapshot.value;
    snapshot := SnapshotTree(sandbox);
    if snapshot.Err? {
      return Err(Unsupported(snapshot.error));
    }
    var after := snapshot.value;
    var changed := set k | k in before.Keys + after.Keys && Lookup(before, k) != Lookup(after, k);
    var keys := SortKeys(changed);
    var operations := OperationsFor(before, after, keys);
    var subject := ApprovalSubject(APPROVAL_SUBJECT_SCHEMA, git.value.identity, git.value.baseCommit,
                                   "sandbox_patch_apply", operations);
    return Ok(Preview(PathsOf(operations), subject, ActionDigest(subject)));
  }

  /** `op` reports the difference between the two trees at the entry it names. */
  ghost predicate Reports(op: Operation, target: Tree, sandbox: Tree) {
    var p := Split(op.path);
    && ValidPath(p) && Join(p) == op.path
    && op.before == StateAt(target, p) && op.after == StateAt(sandbox, p)
    && op.before != op.after && op.kind == KindOf(op.before, op.after)
  }

  ghost predicate PathsAscend(ops: seq<Operation>) {
    forall i, j :: 0 <= i < j < |ops| ==> Less(ops[i].path, ops[j].path)
  }

  ghost predicate Lists(ops: seq<Operation>, p: Path) {
    exists i :: 0 <= i < |ops| && ops[i].path == Join(p)
  }

  lemma ChangedKeyMeaning(target: Tree, sandbox: Tree, p: Path)
    requires WellFormed(target) && WellFormed(sandbox) && ValidPath(p)
    ensures Join(p) in ChangedKeys(SnapshotOf(target), SnapshotOf(sandbox)) <==>
            StateAt(target, p) != StateAt(sandbox, p)
  {
    hide Ignored, StateOf, IsSnapshot, StateAt;
    SnapshotLookup(target, p);
    SnapshotLookup(sandbox, p);
  }

  lemma SnapshotKeyIsPath(t: Tree, k: string)
    requires WellFormed(t) && k in SnapshotOf(t)
    ensures ValidPath(Split(k)) && Join(Split(k)) == k
  {
    hide Ignored, StateOf, StateAt;
    assert Split(k) in t;
  }

  /** `ops` is the ordered difference of two trees: ascending paths, each operation reports its entry, and
      every entry whose recorded states differ is listed. */
  ghost predicate IsDifference(ops: seq<Operation>, target: Tree, sandbox: Tree) {
    && PathsAscend(ops)
    && (forall i :: 0 <= i < |ops| ==> Reports(ops[i], target, sandbox) && ops[i].order == i % 0x1_0000_0000)
    && (forall p :: ValidPath(p) && StateAt(target, p) != StateAt(sandbox, p) ==> Lists(ops, p))
  }

  lemma OperationsMeaning(target: Tree, sandbox: Tree)
    requires WellFormed(target) && WellFormed(sandbox)
    ensures IsDifference(PatchOperations(target, sandbox), target, sandbox)
  {
    hide Ignored, StateOf, IsSnapshot, StateAt, Join, Split, Reports, SnapshotOf;
    var ops := PatchOperations(target, sandbox);
    forall i | 0 <= i < |ops| ensures Reports(ops[i], target, sandbox) {
      OperationReports(target, sandbox, i);
    }
    forall p | ValidPath(p) && StateAt(target, p) != StateAt(sandbox, p) ensures Lists(ops, p) {
      ChangedIsListed(target, sandbox, p);
    }
  }

  lemma OperationReports(target: Tree, sandbox: Tree, i: nat)
    requires WellFormed(target) && WellFormed(sandbox) && i < |PatchOperations(target, sandbox)|
    ensures Reports(PatchOperations(target, sandbox)[i], target, sandbox)
  {
    hide Ignored, StateOf, IsSnapshot, StateAt, Join, Split;
    var before, after := SnapshotOf(target), SnapshotOf(sandbox);
    var k := Sorted(ChangedKeys(before, after))[i];
    assert k in ChangedKeys(before, after);
    SnapshotKeyIsPath(if k in before then target else sandbox, k);
    SnapshotLookup(target, Split(k));
    SnapshotLookup(sandbox, Split(k));
  }

  lemma ChangedIsListed(target: Tree, sandbox: Tree, p: Path)
    requires WellFormed(target) && WellFormed(sandbox)
    requires ValidPath(p) && StateAt(target, p) != StateAt(sandbox, p)
    ensures Lists(PatchOperations(target, sandbox), p)
  {
    hide Ignored, StateOf, IsSnapshot, StateAt, Join, Split, SnapshotOf;
    ChangedKeyMeaning(target, sandbox, p);
    var keys := Sorted(ChangedKeys(SnapshotOf(target), SnapshotOf(sandbox)));
    assert Join(p) in keys;
    var i :| 0 <= i < |keys| && keys[i] == Join(p);
    assert PatchOperations(target, sandbox)[i].path == Join(p);
  }

  /** The ordered difference is unique. */
  lemma DifferenceUnique(a: seq<Operation>, b: seq<Operation>, target: Tree, sandbox: Tree)
    requires IsDifference(a, target, sandbox) && IsDifference(b, target, sandbox)
    ensures a == b
  {
    hide Ignored, StateOf, StateAt, Join, Split;
    var pa, pb := PathsOf(a), PathsOf(b);
    PathsAmong(a, b, target, sandbox);
    PathsAmong(b, a, target, sandbox);
    AscendingUnique(pa, pb);
    forall i | 0 <= i < |a| ensures a[i] == b[i] {
      assert a[i].path == pa[i] == pb[i] == b[i].path;
      assert Reports(a[i], target, sandbox) && Reports(b[i], target, sandbox);
    }
  }

  lemma PathsAmong(a: seq<Operation>, b: seq<Operation>, target: Tree, sandbox: Tree)
    requires IsDifference(a, target, sandbox) && IsDifference(b, target, sandbox)
    ensures forall k :: k in PathsOf(a) ==> k in PathsOf(b)
  {
    hide Ignored, StateOf, StateAt, Join, Split;
    forall k | k in PathsOf(a) ensures k in PathsOf(b) {
      var i :| 0 <= i < |a| && a[i].path == k;
      assert Reports(a[i], target, sandbox);
      assert Lists(b, Split(k));
      var j :| 0 <= j < |b| && b[j].path == k;
      assert PathsOf(b)[j] == k;
    }
  }
}
