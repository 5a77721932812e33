/** A stop inside one operation of an apply: parents half made, a link removed, a file half copied. */
module SandboxInterruption {
  import opened Wrappers
  import opened Paths
  import opened FileTree
  import opened SandboxPreview
  import opened SandboxApply
  import opened SandboxGuarantees

  /** Where a stop may fall while an entry is written: after the first `j` ancestors, after the removal of what was
      there, or in or after the copy, which may have left any content and any mode behind. */
  datatype Stop = InParents(j: nat) | Removed | Copying(content: seq<byte>, mode: nat)

  /** The tree at such a stop of an operation on `p`. */
  function StoppedAt(r: Tree, p: Path, stop: Stop): Tree
    requires p != []
  {
    var made := MakeDirs(r, p[..|p| - 1], 1).0;
    match stop
    case InParents(j) => if j < |p| then MakeDirs(r, p[..j], 1).0 else made
    case Removed => made - {p}
    case Copying(content, mode) => made[p := File(content, mode)]
  }

  /** `x` is `r` but for directories above `p` and for a file, a link or nothing at `p` itself. */
  ghost predicate Inside(r: Tree, p: Path, x: Tree) {
    && WellFormed(x)
    && (forall q :: q in r && q != p ==> q in x && x[q] == r[q])
    && (forall q :: q in x && q !in r && q != p ==> x[q].Dir? && exists j :: 0 < j < |p| && q == p[..j])
    && (p in x ==> x[p].File? || x[p].Link?)
  }

  /** The directories of a shorter path above `p`. */
  lemma ParentsPartlyMade(t: Tree, s: Tree, ops: seq<Operation>, k: nat, r: Tree, p: Path, j: nat)
    requires Next(t, s, ops, k, r, p) && ops[k].after.Some? && j < |p|
    ensures var r1 := MakeDirs(r, p[..j], 1).0;
            && WellFormed(r1)
            && (forall q :: q in r ==> q in r1 && r1[q] == r[q])
            && (forall q :: q in r1 && q !in r ==> r1[q].Dir? && exists i :: 0 < i < |p| && q == p[..i])
  {
    hide IgnoredName, MakeDirs, StateOf, Join, Split, Ignored, StateAt, IsDifference;
    NextMeaning(t, s, ops, k, r, p);
    var parent := p[..j];
    forall i | 0 < i <= j
      ensures IsDir(s, p[..i]) && (p[..i] !in r || IsDir(r, p[..i])) && parent[..i] == p[..i]
    {
      AncestorsClear(t, s, ops, k, r, p, i);
      assert parent[..i] == p[..i];
    }
    MakeDirsAdds(r, parent, 1);
    var r1 := MakeDirs(r, parent, 1).0;
    forall q | q in r1 && q !in r ensures r1[q].Dir? && exists i :: 0 < i < |p| && q == p[..i] {
      var i :| 0 < i <= |parent| && q == parent[..i];
      assert q == p[..i];
    }
    PartlyWellFormed(r, r1, p, j);
  }

  lemma PartlyWellFormed(r: Tree, r1: Tree, p: Path, j: nat)
    requires WellFormed(r) && j < |p| && ValidPath(p)
    requires forall q :: q in r ==> q in r1 && r1[q] == r[q]
    requires forall q :: q in r1 && q !in r ==> exists i :: 0 < i <= j && q == p[..j][..i]
    requires forall i :: 0 < i <= j ==> IsDir(r1, p[..j][..i])
    ensures WellFormed(r1)
  {
    forall q | q in r1 ensures ValidPath(q) && forall i :: 0 < i < |q| ==> IsDir(r1, q[..i]) {
      if q in r {
        assert forall i :: 0 < i < |q| ==> IsDir(r, q[..i]);
      } else {
        var n :| 0 < n <= j && q == p[..j][..n];
        forall i | 0 < i < |q| ensures IsDir(r1, q[..i]) {
          assert q[..i] == p[..j][..i];
        }
      }
    }
  }

  /** Every stop of an operation that can succeed is inside it. */
  lemma StopIsInside(t: Tree, s: Tree, ops: seq<Operation>, k: nat, r: Tree, p: Path, stop: Stop)
    requires Next(t, s, ops, k, r, p) && ops[k].after.Some? && !HitsDirectory(t, ops[k])
    ensures p != [] && Inside(r, p, StoppedAt(r, p, stop))
  {
    hide IgnoredName, Ignored, MakeDirs, StateOf, Join, Split, StateAt, IsDifference;
    NextMeaning(t, s, ops, k, r, p);
    DirectoryAtNext(t, s, ops, k, r, p);
    ParentsMade(t, s, ops, k, r, p);
    ParentsPartlyMade(t, s, ops, k, r, p, |p| - 1);
    var made := MakeDirs(r, p[..|p| - 1], 1).0;
    hide HitsDirectory, Next;
    match stop
    case InParents(j) =>
      if j < |p| {
        ParentsPartlyMade(t, s, ops, k, r, p, j);
        PrefixDiffers(p);
      }
    case Removed => LeafRemoved(r, made, p);
    case Copying(content, mode) => LeafWritten(r, made, p, File(content, mode));
  }

  lemma PrefixDiffers(p: Path)
    ensures forall i :: 0 < i < |p| ==> p[..i] != p
  {}

  lemma LeafRemoved(r: Tree, made: Tree, p: Path)
    requires WellFormed(made) && !IsDir(made, p)
    requires forall q :: q in r ==> q in made && made[q] == r[q]
    requires forall q :: q in made && q !in r ==> made[q].Dir? && exists j :: 0 < j < |p| && q == p[..j]
    ensures Inside(r, p, made - {p})
  {
    forall q, i | q in made - {p} && 0 < i < |q| ensures IsDir(made - {p}, q[..i]) {
      assert IsDir(made, q[..i]);
    }
  }

  lemma LeafWritten(r: Tree, made: Tree, p: Path, node: Node)
    requires WellFormed(made) && !IsDir(made, p) && ValidPath(p) && (node.File? || node.Link?)
    requires forall q :: q in r ==> q in made && made[q] == r[q]
    requires forall q :: q in made && q !in r ==> made[q].Dir? && exists j :: 0 < j < |p| && q == p[..j]
    requires forall j :: 0 < j < |p| ==> IsDir(made, p[..j])
    ensures Inside(r, p, made[p := node])
  {
    forall q, i | q in made[p := node] && 0 < i < |q| ensures IsDir(made[p := node], q[..i]) {
      assert IsDir(made, q[..i]);
    }
  }

  /** Inside an operation the frame still holds, and every other entry is as it was. */
  lemma InsideKeeps(t: Tree, s: Tree, ops: seq<Operation>, k: nat, r: Tree, p: Path, x: Tree)
    requires Next(t, s, ops, k, r, p) && !HitsDirectory(t, ops[k]) && Inside(r, p, x)
    ensures Framed(t, s, x)
    ensures forall q :: ValidPath(q) && q != p ==> StateAt(x, q) == StateAt(r, q)
  {
    NextMeaning(t, s, ops, k, r, p);
    InsideDirs(t, s, ops, k, r, p, x);
    assert Framed(t, s, r);
    hide *;
    InsideFramed(t, s, r, p, x);
    forall q | ValidPath(q) && q != p ensures StateAt(x, q) == StateAt(r, q) {
      InsideState(r, p, x, q);
    }
  }

  lemma InsideState(r: Tree, p: Path, x: Tree, q: Path)
    requires Inside(r, p, x) && q != p
    ensures StateAt(x, q) == StateAt(r, q)
  {
    hide Ignored, WellFormed;
    LeafState(Dir);
  }

  /** New directories are the sandbox's, and the entry itself is no directory of the target. */
  lemma InsideDirs(t: Tree, s: Tree, ops: seq<Operation>, k: nat, r: Tree, p: Path, x: Tree)
    requires Next(t, s, ops, k, r, p) && !HitsDirectory(t, ops[k]) && Inside(r, p, x)
    ensures forall q :: q in x && q !in r && q != p ==> x[q].Dir? && !Ignored(q) && IsDir(s, q)
    ensures !IsDir(r, p)
  {
    hide IgnoredName, Ignored, StateOf, Join, Split, StateAt, IsDifference, HitsDirectory;
    NextMeaning(t, s, ops, k, r, p);
    if ops[k].after.Some? {
      DirectoryAtNext(t, s, ops, k, r, p);
      forall q | q in x && q !in r && q != p ensures !Ignored(q) && IsDir(s, q) {
        var j :| 0 < j < |p| && q == p[..j];
        AncestorsClear(t, s, ops, k, r, p, j);
      }
    } else {
      DeleteProgress(t, s, ops, k, r, p);
      assert forall j :: 0 < j < |p| ==> IsDir(r, p[..j]);
    }
  }

  lemma InsideFramed(t: Tree, s: Tree, r: Tree, p: Path, x: Tree)
    requires Framed(t, s, r) && Inside(r, p, x) && !Ignored(p) && !IsDir(r, p)
    requires forall q :: q in x && q !in r && q != p ==> x[q].Dir? && !Ignored(q) && IsDir(s, q)
    ensures Framed(t, s, x)
  {
    hide Ignored, WellFormed;
    forall q | Ignored(q) ensures Lookup(x, q) == Lookup(t, q) {
      assert Lookup(r, q) == Lookup(t, q);
    }
    forall q | q in x && !Ignored(q) ensures !x[q].Special? {
      assert q in r && q != p ==> x[q] == r[q];
    }
  }

  lemma SameAsTarget(t: Tree, s: Tree, ops: seq<Operation>, x: Tree)
    requires IsDifference(ops, t, s) && forall q :: ValidPath(q) ==> StateAt(x, q) == StateAt(t, q)
    ensures IsDifference(ops, x, s)
  {
    hide Ignored, StateOf, Join, Split, StateAt, Lists;
    forall i | 0 <= i < |ops| ensures Reports(ops[i], x, s) {
      assert Reports(ops[i], t, s);
    }
  }

  /** After the first operation its entry has no difference left, so that the old list is wrong. */
  lemma FirstIsDone(t: Tree, s: Tree, ops: seq<Operation>, k: nat, r: Tree, p: Path, x: Tree)
    requires Next(t, s, ops, k, r, p) && k > 0
    requires forall q :: ValidPath(q) && q != p ==> StateAt(x, q) == StateAt(r, q)
    ensures !IsDifference(ops, x, s)
  {
    hide IgnoredName, Ignored, StateOf, Join, Split, StateAt, Framed;
    assert Reports(ops[0], t, s);
    var first := Split(ops[0].path);
    assert ops[..k][0].path == Join(first);
    assert Lists(ops[..k], first);
    StillToDo(t, s, ops, k, k);
    assert first != p;
    assert StateAt(x, first) == StateAt(s, first);
  }

  /** `x` is a stop inside operation number `k`, one that can succeed. */
  ghost predicate StopsInside(t: Tree, s: Tree, k: nat, x: Tree)
    requires Acceptable(t, s)
  {
    var ops := PatchOperations(t, s);
    && k < |ops| && ApplyOperations(t, s, ops[..k]).Done? && !HitsDirectory(t, ops[k])
    && Inside(ApplyOperations(t, s, ops[..k]).tree, Split(ops[k].path), x)
  }

  /** A fresh approval for `x` succeeds exactly if the patch for `t` could, and then leaves the sandbox's snapshot. */
  ghost predicate FreshFinishes(t: Tree, s: Tree, x: Tree, repo: RepositoryState)
    requires Acceptable(x, s)
  {
    var u := ApplyPatch(x, s, Some(repo), Approval(x, s, repo));
    && (u.Done? <==> !exists q :: StateAt(s, q).Some? && IsDir(t, q))
    && (u.Done? ==> WellFormed(u.tree) && SnapshotOf(u.tree) == SnapshotOf(s))
  }

  ghost predicate OldRefused(t: Tree, s: Tree, x: Tree, repo: RepositoryState)
    requires Acceptable(t, s) && Acceptable(x, s)
  {
    ApplyPatch(x, s, Some(repo), Approval(t, s, repo)) == Failed(x, SubjectMismatch)
  }

  ghost predicate OldStands(t: Tree, s: Tree, x: Tree, repo: RepositoryState)
    requires Acceptable(t, s) && Acceptable(x, s)
  {
    Approval(t, s, repo) == Approval(x, s, repo)
  }

  /** Stopped inside an operation, at any such point: a fresh approval of what is then left succeeds exactly if the
      whole patch could, and ends at the sandbox's snapshot. The old approval stands exactly if no operation had
      been done and the entry still shows its old state; otherwise it is refused before any write. */
  lemma StoppedInside(t: Tree, s: Tree, repo: RepositoryState, k: nat, x: Tree)
    requires Acceptable(t, s) && StopsInside(t, s, k, x)
    ensures Acceptable(x, s) && FreshFinishes(t, s, x, repo)
    ensures var p := Split(PatchOperations(t, s)[k].path);
            if k == 0 && StateAt(x, p) == StateAt(t, p) then OldStands(t, s, x, repo) else OldRefused(t, s, x, repo)
  {
    var ops := PatchOperations(t, s);
    var r, p := ApplyOperations(t, s, ops[..k]).tree, Split(ops[k].path);
    assert Inside(r, p, x) && !HitsDirectory(t, ops[k]);
    hide *;
    OperationsMeaning(t, s);
    ProgressAt(t, s, k);
    InsideFresh(t, s, ops, k, r, p, x, repo);
    InsideOld(t, s, ops, k, r, p, x, repo);
  }

  lemma ProgressAt(t: Tree, s: Tree, k: nat)
    requires Acceptable(t, s) && k < |PatchOperations(t, s)|
    requires ApplyOperations(t, s, PatchOperations(t, s)[..k]).Done?
    ensures var ops, r := PatchOperations(t, s), ApplyOperations(t, s, PatchOperations(t, s)[..k]).tree;
            Next(t, s, ops, k, r, Split(ops[k].path))
  {
    hide IgnoredName, Ignored, IsDifference, StateOf, Join, Split, ApplyOperations, PatchOperations, Progress;
    var ops := PatchOperations(t, s);
    OperationsMeaning(t, s);
    NoProgressYet(t, s, ops);
    RunProgress(t, s, ops, 0, k, t);
    assert ops[0..k] == ops[..k];
  }

  lemma InsideFresh(t: Tree, s: Tree, ops: seq<Operation>, k: nat, r: Tree, p: Path, x: Tree, repo: RepositoryState)
    requires Next(t, s, ops, k, r, p) && !HitsDirectory(t, ops[k]) && Inside(r, p, x)
    ensures Acceptable(x, s) && FreshFinishes(t, s, x, repo)
  {
    InsideKeeps(t, s, ops, k, r, p, x);
    FramedMeaning(t, s, x);
    assert Acceptable(t, s);
    hide *;
    SameHits(t, s, x);
    FreshSucceeds(t, s, x, repo);
  }

  lemma FreshSucceeds(t: Tree, s: Tree, x: Tree, repo: RepositoryState)
    requires Acceptable(x, s)
    requires (exists q :: StateAt(s, q).Some? && IsDir(x, q)) <==> (exists q :: StateAt(s, q).Some? && IsDir(t, q))
    ensures FreshFinishes(t, s, x, repo)
  {
    hide StateAt, IsDir, ApplyOperations, PatchOperations, SnapshotOf, Framed, WellFormed, Supported;
    ApplySucceedsExactly(x, s);
    OnlyApprovedRuns(x, s, repo, Approval(x, s, repo));
  }

  lemma FramedMeaning(t: Tree, s: Tree, x: Tree)
    requires Framed(t, s, x) && Acceptable(t, s)
    ensures Acceptable(x, s)
    ensures forall q :: IsDir(t, q) ==> IsDir(x, q)
    ensures forall q :: IsDir(x, q) && !Ignored(q) ==> IsDir(t, q) || IsDir(s, q)
  {
    hide Ignored, WellFormed, Supported;
  }

  lemma InsideOld(t: Tree, s: Tree, ops: seq<Operation>, k: nat, r: Tree, p: Path, x: Tree, repo: RepositoryState)
    requires Next(t, s, ops, k, r, p) && !HitsDirectory(t, ops[k]) && Inside(r, p, x)
    requires ops == PatchOperations(t, s) && Acceptable(x, s)
    ensures if k == 0 && StateAt(x, p) == StateAt(t, p) then OldStands(t, s, x, repo) else OldRefused(t, s, x, repo)
  {
    assert Acceptable(t, s) && IsDifference(ops, t, s);
    OldListStands(t, s, ops, k, r, p, x);
    SameListSameApproval(t, s, x, repo);
  }

  lemma SameListSameApproval(t: Tree, s: Tree, x: Tree, repo: RepositoryState)
    requires Acceptable(t, s) && Acceptable(x, s)
    ensures if PatchOperations(x, s) == PatchOperations(t, s) then OldStands(t, s, x, repo)
            else OldRefused(t, s, x, repo)
  {
    assert WellFormed(t) && WellFormed(s) && WellFormed(x) && Supported(x) && Supported(s);
    hide PatchOperations, ApplyOperations, Acceptable, WellFormed, Supported;
    var before, after := SubjectOf(t, s, repo), SubjectOf(x, s, repo);
    assert before.operations == PatchOperations(t, s) && after.operations == PatchOperations(x, s);
  }

  lemma OldListStands(t: Tree, s: Tree, ops: seq<Operation>, k: nat, r: Tree, p: Path, x: Tree)
    requires Next(t, s, ops, k, r, p) && !HitsDirectory(t, ops[k]) && Inside(r, p, x)
    requires ops == PatchOperations(t, s) && Acceptable(x, s)
    ensures PatchOperations(x, s) == ops <==> k == 0 && StateAt(x, p) == StateAt(t, p)
  {
    hide PatchOperations, HitsDirectory;
    NextMeaning(t, s, ops, k, r, p);
    InsideKeeps(t, s, ops, k, r, p, x);
    OperationsMeaning(x, s);
    hide Inside, Acceptable;
    if k > 0 {
      FirstIsDone(t, s, ops, k, r, p, x);
    } else {
      UntouchedElsewhere(t, s, ops, r);
      if StateAt(x, p) == StateAt(t, p) {
        hide StateAt, IsDifference;
        SameAsTarget(t, s, ops, x);
        DifferenceUnique(PatchOperations(x, s), ops, x, s);
      } else {
        NotReported(t, s, ops, x);
      }
    }
  }

  lemma UntouchedElsewhere(t: Tree, s: Tree, ops: seq<Operation>, r: Tree)
    requires Tracks(t, s, ops, 0, r)
    ensures forall q :: ValidPath(q) ==> StateAt(r, q) == StateAt(t, q)
  {
    hide StateAt, Join, ValidPath;
    assert ops[..0] == [];
  }

  lemma NotReported(t: Tree, s: Tree, ops: seq<Operation>, x: Tree)
    requires IsDifference(ops, t, s) && |ops| > 0 && StateAt(x, Split(ops[0].path)) != StateAt(t, Split(ops[0].path))
    ensures !IsDifference(ops, x, s)
  {
    hide StateAt, Join, Split, Lists;
    assert Reports(ops[0], t, s);
  }
}
