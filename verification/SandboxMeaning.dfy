/** What a snapshot records, a copy skips, an apply leaves and an approval binds, said on component names, file
    contents and commits alone. */
module SandboxMeaning {
  import opened Wrappers
  import opened Hashing
  import opened Lexicographic
  import opened Paths
  import opened FileTree
  import opened SandboxPreview
  import opened SandboxApply
  import opened SandboxGuarantees
  import opened SandboxCopy

  const VERSION_CONTROL := {".git", ".hg", ".svn"}
  const BUILD_OUTPUT := {"target", "node_modules", "dist", "build", "coverage", ".next", ".expo"}
  const PYTHON_STATE := {".venv", "venv", "__pycache__", ".pytest_cache", ".mypy_cache", ".ruff_cache"}

  /** Ignored is version control, build output, Python's state, and AO2's own. */
  lemma IgnoredNames(name: string)
    ensures IgnoredName(name) <==>
            name in VERSION_CONTROL || name in BUILD_OUTPUT || name in PYTHON_STATE || name == ".ao2"
  {}

  /** A component with an ignored name at any depth hides a path from snapshot, preview, run-time snapshot and
      copy. */
  lemma HiddenAtAnyDepth(t: Tree, p: Path, i: nat)
    requires i < |p| && IgnoredName(p[i])
    ensures StateAt(t, p) == None && FileDigestAt(t, p) == None && p !in CopyOf(t)
    ensures WellFormed(t) && ValidPath(p) ==> Join(p) !in SnapshotOf(t)
  {
    assert Ignored(p);
    hide IgnoredName, Ignored, StateOf;
    if WellFormed(t) && ValidPath(p) { SnapshotLookup(t, p); }
  }

  /** Without such a component, an entry is recorded and copied as what it is. */
  lemma RecordedOtherwise(t: Tree, p: Path)
    requires p in t && forall i :: 0 <= i < |p| ==> !IgnoredName(p[i])
    ensures StateAt(t, p) == StateOf(t[p])
    ensures FileDigestAt(t, p) == match t[p] case File(content, _) => Some(Sha256(content)) case _ => None
    ensures !t[p].Special? ==> p in CopyOf(t) && CopyOf(t)[p] == t[p]
    ensures WellFormed(t) ==> Lookup(SnapshotOf(t), Join(p)) == StateOf(t[p])
  {
    assert !Ignored(p);
    hide IgnoredName, Ignored, StateOf;
    if WellFormed(t) { SnapshotLookup(t, p); }
  }

  /** What the recorded state of an entry tells: content and low nine bits of a file, the target of a link, and
      nothing of anything else. */
  lemma StateTells(a: Node, b: Node)
    ensures StateOf(a) == StateOf(b) <==>
            || (a.File? && b.File? && a.content == b.content && a.mode % 512 == b.mode % 512)
            || (a.Link? && b.Link? && a.target == b.target)
            || (!a.File? && !a.Link? && !b.File? && !b.Link?)
  {}

  /** Two entries with the same bytes and bits, or none of them. */
  predicate SameEntry(t: Tree, s: Tree, p: Path) {
    if p in s && (s[p].File? || s[p].Link?) then
      p in t && match s[p]
        case File(content, mode) => t[p].File? && t[p].content == content && t[p].mode % 512 == mode % 512
        case other => t[p] == other
    else p !in t || t[p].Dir? || t[p].Special?
  }

  lemma SameStateSameEntry(t: Tree, s: Tree, p: Path)
    requires forall i :: 0 <= i < |p| ==> !IgnoredName(p[i])
    ensures StateAt(t, p) == StateAt(s, p) <==> SameEntry(t, s, p)
  {
    assert !Ignored(p);
    hide IgnoredName, Ignored;
  }

  /** After an apply that went through, every entry outside ignored components is the sandbox's, in content, bits
      and link target; whatever became of it, entries below an ignored component are the target's, at any depth. */
  lemma AppliedTree(t: Tree, s: Tree, p: Path)
    requires Acceptable(t, s) && ValidPath(p)
    ensures var u := ApplyOperations(t, s, PatchOperations(t, s));
            && (u.Done? && (forall i :: 0 <= i < |p| ==> !IgnoredName(p[i])) ==> SameEntry(u.tree, s, p))
            && ((exists i :: 0 <= i < |p| && IgnoredName(p[i])) ==> Lookup(u.tree, p) == Lookup(t, p))
  {
    hide IgnoredName, StateOf, StateAt, SnapshotOf, ApplyOperations, PatchOperations, SameEntry, Join, Split;
    ApplySucceedsExactly(t, s);
    var u := ApplyOperations(t, s, PatchOperations(t, s));
    if u.Done? && (forall i :: 0 <= i < |p| ==> !IgnoredName(p[i])) {
      SnapshotLookup(u.tree, p);
      SnapshotLookup(s, p);
      SameStateSameEntry(u.tree, s, p);
    }
  }

  /** The entries that differ here and there are the same ones, with the same states on both sides. */
  ghost predicate SameDifferences(t: Tree, s: Tree, t2: Tree, s2: Tree) {
    forall p :: ValidPath(p) && (StateAt(t, p) != StateAt(s, p) || StateAt(t2, p) != StateAt(s2, p)) ==>
                  StateAt(t, p) == StateAt(t2, p) && StateAt(s, p) == StateAt(s2, p)
  }

  lemma SameDifferencesSameList(t: Tree, s: Tree, t2: Tree, s2: Tree)
    requires Acceptable(t, s) && Acceptable(t2, s2) && SameDifferences(t, s, t2, s2)
    ensures PatchOperations(t, s) == PatchOperations(t2, s2)
  {
    assert WellFormed(t) && WellFormed(s) && WellFormed(t2) && WellFormed(s2);
    OperationsMeaning(t, s);
    OperationsMeaning(t2, s2);
    hide *;
    var ops := PatchOperations(t, s);
    DifferenceMoves(t, s, t2, s2, ops);
    DifferenceUnique(ops, PatchOperations(t2, s2), t2, s2);
  }

  lemma DifferenceMoves(t: Tree, s: Tree, t2: Tree, s2: Tree, ops: seq<Operation>)
    requires IsDifference(ops, t, s) && SameDifferences(t, s, t2, s2)
    ensures IsDifference(ops, t2, s2)
  {
    hide Ignored, StateOf, StateAt, Join, Split, Lists, PathsAscend;
    forall i | 0 <= i < |ops| ensures Reports(ops[i], t2, s2) {
      assert Reports(ops[i], t, s);
    }
  }

  lemma SameListSameDifferences(t: Tree, s: Tree, t2: Tree, s2: Tree)
    requires Acceptable(t, s) && Acceptable(t2, s2) && PatchOperations(t, s) == PatchOperations(t2, s2)
    ensures SameDifferences(t, s, t2, s2)
  {
    assert WellFormed(t) && WellFormed(s) && WellFormed(t2) && WellFormed(s2);
    OperationsMeaning(t, s);
    OperationsMeaning(t2, s2);
    var ops := PatchOperations(t, s);
    hide PatchOperations, IsDifference, Acceptable, WellFormed, StateAt, ValidPath;
    forall p | ValidPath(p) && (StateAt(t, p) != StateAt(s, p) || StateAt(t2, p) != StateAt(s2, p))
      ensures StateAt(t, p) == StateAt(t2, p) && StateAt(s, p) == StateAt(s2, p)
    {
      ListedStates(ops, t, s, t2, s2, p);
    }
  }

  lemma ListedStates(ops: seq<Operation>, t: Tree, s: Tree, t2: Tree, s2: Tree, p: Path)
    requires IsDifference(ops, t, s) && IsDifference(ops, t2, s2) && ValidPath(p)
    requires StateAt(t, p) != StateAt(s, p) || StateAt(t2, p) != StateAt(s2, p)
    ensures StateAt(t, p) == StateAt(t2, p) && StateAt(s, p) == StateAt(s2, p)
  {
    hide Ignored, StateOf, StateAt, Join, Split, Reports, PathsAscend;
    assert Lists(ops, p);
    var i :| 0 <= i < |ops| && ops[i].path == Join(p);
    assert Reports(ops[i], t, s) && Reports(ops[i], t2, s2);
    ReportedStates(ops[i], t, s, p);
    ReportedStates(ops[i], t2, s2, p);
  }

  lemma ReportedStates(op: Operation, t: Tree, s: Tree, p: Path)
    requires Reports(op, t, s) && ValidPath(p) && op.path == Join(p)
    ensures op.before == StateAt(t, p) && op.after == StateAt(s, p)
  {
    hide Ignored, StateOf, StateAt, Join, Split;
    JoinInjective(p, Split(op.path));
  }

  /** An approval given for one target, sandbox, repository and commit, used later: it is let through exactly if
      repository and commit are the same and so are all differing entries with both their states; otherwise it is
      refused before any write. */
  lemma ApprovalBinds(t: Tree, s: Tree, repo: RepositoryState, t2: Tree, s2: Tree, now: RepositoryState)
    requires Acceptable(t, s) && Acceptable(t2, s2)
    ensures var u := ApplyPatch(t2, s2, Some(now), Approval(t, s, repo));
            if repo.identity == now.identity && repo.baseCommit == now.baseCommit && SameDifferences(t, s, t2, s2)
            then u == ApplyOperations(t2, s2, PatchOperations(t2, s2))
            else u == Failed(t2, SubjectMismatch)
  {
    if SameDifferences(t, s, t2, s2) { SameDifferencesSameList(t, s, t2, s2); }
    if PatchOperations(t, s) == PatchOperations(t2, s2) { SameListSameDifferences(t, s, t2, s2); }
    assert WellFormed(t) && WellFormed(s) && WellFormed(t2) && WellFormed(s2) && Supported(t2) && Supported(s2);
    hide PatchOperations, ApplyOperations, Acceptable, WellFormed, Supported, SameDifferences;
    var approved, present := SubjectOf(t, s, repo), SubjectOf(t2, s2, now);
    assert approved.repositoryIdentity == repo.identity && present.repositoryIdentity == now.identity;
    assert approved.baseCommit == repo.baseCommit && present.baseCommit == now.baseCommit;
  }

  /** An approval from before the repository moved on is refused, though both trees are as they were. */
  lemma StaleCommitRefused(t: Tree, s: Tree, repo: RepositoryState, now: RepositoryState)
    requires Acceptable(t, s) && repo != now
    ensures ApplyPatch(t, s, Some(now), Approval(t, s, repo)) == Failed(t, SubjectMismatch)
  {
    hide SameDifferences, Acceptable, ApplyPatch, Approval;
    ApprovalBinds(t, s, repo, t, s, now);
  }

  /** Which of the checks refuses a request: a wrong subject first; with the right subject a wrong digest always
      shows against the subject itself, so that the last check never fails. */
  lemma RefusalReasons(t: Tree, s: Tree, repo: RepositoryState, request: ApplyRequest)
    requires Acceptable(t, s)
    ensures var u, approval := ApplyPatch(t, s, Some(repo), request), Approval(t, s, repo);
            && (request.expectedSubject != approval.expectedSubject ==> u == Failed(t, SubjectMismatch))
            && (request.expectedSubject == approval.expectedSubject && request != approval ==>
                  u == Failed(t, SubjectDigestMismatch))
  {
    hide PatchOperations, ApplyOperations, Acceptable;
  }

  /** The subject names its schema and its operation. */
  lemma SubjectNames(t: Tree, s: Tree, repo: RepositoryState)
    requires WellFormed(t) && WellFormed(s)
    ensures var subject := SubjectOf(t, s, repo);
            && subject.schemaVersion == "ao2.sandbox-patch-approval-subject.v1"
            && subject.operationType == "sandbox_patch_apply"
    ensures PreviewOf(t, s, repo).approvalSubject == SubjectOf(t, s, repo)
    ensures forall k :: k in PreviewOf(t, s, repo).changedFiles <==>
                          exists i :: 0 <= i < |PatchOperations(t, s)| && PatchOperations(t, s)[i].path == k
  {
    hide PatchOperations, WellFormed;
  }

  /** The error of the operation that hits a directory tells what was to be written. */
  lemma DirectoryErrorTells(t: Tree, s: Tree, p: Path, state: FileState)
    requires p in s && StateOf(s[p]) == Some(state) && IsDir(t, p)
    requires forall j :: 0 < j < |p| ==> IsDir(t, p[..j])
    ensures WrittenEntry(t, s, p, state) ==
            Failed(t, if s[p].File? then UnexpectedDirectory else RefusesDirectory)
  {
    NotBlocked(t, p, 1);
    hide Blocked;
  }

  /** The line of a changed path names its kind of change. */
  lemma SummaryTells(before: FileDigests, after: FileDigests, path: string)
    requires Lookup(before, path) != Lookup(after, path)
    ensures var line := Summary(before, after, path);
            && (line == "added: " + path <==> path !in before && path in after)
            && (line == "deleted: " + path <==> path in before && path !in after)
            && (line == "modified: " + path <==> path in before && path in after)
  {
    FirstLetters(path);
  }

  lemma FirstLetters(path: string)
    ensures ("added: " + path)[0] == 'a' && ("deleted: " + path)[0] == 'd' && ("modified: " + path)[0] == 'm'
  {}

  /** The kind of an operation is what happens to its entry. */
  lemma KindTells(op: Operation, t: Tree, s: Tree)
    requires Reports(op, t, s)
    ensures var p := Split(op.path);
            && (op.kind.Added? <==> StateAt(t, p) == None) && (op.kind.Deleted? <==> StateAt(s, p) == None)
            && (op.kind.Modified? <==> StateAt(t, p).Some? && StateAt(s, p).Some?)
  {
    hide StateAt, Join, Split;
  }
}
