/** What previewing and applying a sandbox patch guarantees, for every pair of trees. */
module SandboxGuarantees {
  import opened Wrappers
  import opened Lexicographic
  import opened Paths
  import opened FileTree
  import opened SandboxPreview
  import opened SandboxApply

  /** A pair of trees that a preview accepts. */
  ghost predicate Acceptable(t: Tree, s: Tree) {
    WellFormed(t) && WellFormed(s) && Supported(t) && Supported(s)
  }

  /** The operation that cannot succeed: an addition where the target has a directory, even an empty one. */
  ghost predicate HitsDirectory(t: Tree, op: Operation) {
    op.kind.Added? && IsDir(t, Split(op.path))
  }

  /** What no operation touches: ignored paths, and directories; new directories are the sandbox's. */
  ghost predicate Framed(t: Tree, s: Tree, r: Tree) {
    && WellFormed(r) && Supported(r)
    && (forall p :: Ignored(p) ==> Lookup(r, p) == Lookup(t, p))
    && (forall p :: IsDir(t, p) ==> IsDir(r, p))
    && (forall p :: IsDir(r, p) && !Ignored(p) ==> IsDir(t, p) || IsDir(s, p))
  }

  /** Files and links are the sandbox's where an operation has run, and the target's elsewhere. */
  ghost predicate Tracks(t: Tree, s: Tree, ops: seq<Operation>, k: nat, r: Tree)
    requires k <= |ops|
  {
    forall p :: ValidPath(p) ==> StateAt(r, p) == if Lists(ops[..k], p) then StateAt(s, p) else StateAt(t, p)
  }

  /** `r` is what the target `t` looks like after the first `k` operations towards the sandbox `s`. */
  ghost predicate Progress(t: Tree, s: Tree, ops: seq<Operation>, k: nat, r: Tree)
    requires k <= |ops|
  {
    Framed(t, s, r) && Tracks(t, s, ops, k, r)
  }

  lemma ListsNext(ops: seq<Operation>, k: nat, p: Path)
    requires k < |ops|
    ensures Lists(ops[..k + 1], p) <==> Lists(ops[..k], p) || ops[k].path == Join(p)
  {
    if Lists(ops[..k + 1], p) {
      var i :| 0 <= i < k + 1 && ops[..k + 1][i].path == Join(p);
      assert i < k ==> ops[..k][i].path == Join(p);
    }
    if Lists(ops[..k], p) {
      var i :| 0 <= i < k && ops[..k][i].path == Join(p);
      assert ops[..k + 1][i].path == Join(p);
    }
    if ops[k].path == Join(p) {
      assert ops[..k + 1][k].path == Join(p);
    }
  }

  /** Everything smaller than the next operation's path that differs has been dealt with already. */
  lemma SmallerIsDone(t: Tree, s: Tree, ops: seq<Operation>, k: nat, q: Path)
    requires IsDifference(ops, t, s) && k < |ops|
    requires ValidPath(q) && StateAt(t, q) != StateAt(s, q) && Less(Join(q), ops[k].path)
    ensures Lists(ops[..k], q)
  {
    hide Ignored, StateOf, StateAt, Join, Split;
    assert Lists(ops, q);
    var i :| 0 <= i < |ops| && ops[i].path == Join(q);
    LessTrichotomy(ops[i].path, ops[k].path);
    assert ops[..k][i].path == Join(q);
  }

  lemma NotYetDone(t: Tree, s: Tree, ops: seq<Operation>, k: nat)
    requires IsDifference(ops, t, s) && k < |ops|
    ensures !Lists(ops[..k], Split(ops[k].path))
  {
    hide Ignored, StateOf, StateAt, Join, Split;
    assert Reports(ops[k], t, s);
    forall i | 0 <= i < k ensures ops[..k][i].path != ops[k].path {
      LessTrichotomy(ops[i].path, ops[k].path);
    }
  }

  lemma PrefixNotIgnored(p: Path, j: nat)
    requires j <= |p| && !Ignored(p)
    ensures !Ignored(p[..j])
  {
    hide IgnoredName;
    assert forall i :: 0 <= i < j ==> p[..j][i] == p[i];
  }

  /** The next operation, its two recorded states, and what the tree shows at its path before it runs. */
  ghost predicate Next(t: Tree, s: Tree, ops: seq<Operation>, k: nat, r: Tree, p: Path) {
    && Acceptable(t, s) && IsDifference(ops, t, s) && k < |ops| && Progress(t, s, ops, k, r)
    && p == Split(ops[k].path)
  }

  lemma NextMeaning(t: Tree, s: Tree, ops: seq<Operation>, k: nat, r: Tree, p: Path)
    requires Next(t, s, ops, k, r, p)
    ensures ValidPath(p) && Join(p) == ops[k].path
    ensures ops[k].before == StateAt(t, p) == StateAt(r, p) && ops[k].after == StateAt(s, p)
    ensures ops[k].before != ops[k].after && ops[k].kind == KindOf(ops[k].before, ops[k].after)
    ensures !Ignored(p)
  {
    hide IgnoredName, StateOf, Join, Split;
    assert Reports(ops[k], t, s);
    NotYetDone(t, s, ops, k);
  }

  /** When an entry is about to be written, each of its ancestors is absent or a directory: a file or link
      that stood in the way had a smaller path and is deleted by now. */
  lemma AncestorsClear(t: Tree, s: Tree, ops: seq<Operation>, k: nat, r: Tree, p: Path, j: nat)
    requires Next(t, s, ops, k, r, p) && ops[k].after.Some? && 0 < j < |p|
    ensures !Ignored(p[..j]) && IsDir(s, p[..j]) && (p[..j] !in r || IsDir(r, p[..j]))
  {
    hide IgnoredName, StateOf, Join, Split;
    NextMeaning(t, s, ops, k, r, p);
    var a := p[..j];
    PrefixNotIgnored(p, j);
    assert p in s;
    assert IsDir(s, a) && ValidPath(a);
    if a in r && !IsDir(r, a) {
      LeafState(r[a]);
      LeafState(s[a]);
      assert StateAt(r, a).Some? && StateAt(s, a) == None;
      AncestorSortsFirst(p, j);
      assert StateAt(t, a) != StateAt(s, a);
      SmallerIsDone(t, s, ops, k, a);
      assert false;
    }
  }

  /** A snapshot records files and links and nothing else. */
  lemma LeafState(node: Node)
    ensures StateOf(node).Some? <==> node.File? || node.Link?
  {}

  /** Creating the missing parents of the next entry only adds directories that the sandbox has too. */
  lemma ParentsMade(t: Tree, s: Tree, ops: seq<Operation>, k: nat, r: Tree, p: Path)
    requires Next(t, s, ops, k, r, p) && ops[k].after.Some?
    ensures |p| > 0
    ensures var (r1, error) := MakeDirs(r, p[..|p| - 1], 1);
            && error == None
            && (forall q :: q in r ==> q in r1 && r1[q] == r[q])
            && (forall q :: q in r1 && q !in r ==> r1[q].Dir? && !Ignored(q) && IsDir(s, q) && q != p)
            && (forall j :: 0 < j < |p| ==> IsDir(r1, p[..j]))
            && WellFormed(r1)
            && (p in r ==> r1 == r)
  {
    hide IgnoredName, MakeDirs, StateOf, Join, Split, Ignored, StateAt, IsDifference;
    NextMeaning(t, s, ops, k, r, p);
    var parent := p[..|p| - 1];
    forall j | 0 < j < |p|
      ensures !Ignored(p[..j]) && IsDir(s, p[..j]) && (p[..j] !in r || IsDir(r, p[..j])) && parent[..j] == p[..j]
    {
      AncestorsClear(t, s, ops, k, r, p, j);
      assert parent[..j] == p[..j];
    }
    MakeDirsAdds(r, parent, 1);
    var r1 := MakeDirs(r, parent, 1).0;
    forall q | q in r1 && q !in r ensures r1[q].Dir? && exists j :: 0 < j < |p| && q == p[..j] {
      var j :| 0 < j <= |parent| && q == parent[..j];
      assert q == p[..j];
    }
    assert forall j :: 0 < j < |p| ==> IsDir(r1, p[..j]) by {
      forall j | 0 < j < |p| ensures IsDir(r1, p[..j]) {
        assert IsDir(r1, parent[..j]);
      }
    }
    MadeWellFormed(r, r1, s, p);
    if p in r {
      assert forall j :: 0 < j < |p| ==> IsDir(r, p[..j]);
      assert r1.Keys == r.Keys;
    }
  }

  lemma MadeWellFormed(r: Tree, r1: Tree, s: Tree, p: Path)
    requires WellFormed(r) && WellFormed(s)
    requires forall q :: q in r ==> q in r1 && r1[q] == r[q]
    requires forall q :: q in r1 && q !in r ==> exists j :: 0 < j < |p| && q == p[..j]
    requires forall j :: 0 < j < |p| ==> IsDir(r1, p[..j]) && IsDir(s, p[..j])
    ensures WellFormed(r1)
  {
    forall q | q in r1 ensures ValidPath(q) && forall i :: 0 < i < |q| ==> IsDir(r1, q[..i]) {
      if q in r {
        assert forall i :: 0 < i < |q| ==> IsDir(r, q[..i]);
      } else {
        var j :| 0 < j < |p| && q == p[..j];
        assert q in s;
        forall i | 0 < i < |q| ensures IsDir(r1, q[..i]) {
          assert q[..i] == p[..i];
        }
      }
    }
  }

  /** Putting what the sandbox records at the operation's path makes one step of progress. */
  lemma WriteProgress(t: Tree, s: Tree, ops: seq<Operation>, k: nat, r: Tree, r1: Tree, p: Path, node: Node)
    requires Next(t, s, ops, k, r, p) && ops[k].after.Some? && StateOf(node) == ops[k].after
    requires r1 == MakeDirs(r, p[..|p| - 1], 1).0 && !IsDir(r, p)
    ensures Progress(t, s, ops, k + 1, r1[p := node])
  {
    hide IgnoredName, Ignored, MakeDirs, StateOf, Join, Split, IsDifference, WellFormed, Lists, Framed,
         StateAt, ValidPath;
    NextMeaning(t, s, ops, k, r, p);
    ParentsMade(t, s, ops, k, r, p);
    LeafState(node);
    WriteFrame(t, s, r, r1, p, node);
    WriteRecords(t, s, ops, k, r, r1, p, node);
  }

  lemma WriteFrame(t: Tree, s: Tree, r: Tree, r1: Tree, p: Path, node: Node)
    requires Framed(t, s, r) && WellFormed(r1) && ValidPath(p) && !Ignored(p) && !IsDir(r, p)
    requires forall q :: q in r ==> q in r1 && r1[q] == r[q]
    requires forall q :: q in r1 && q !in r ==> r1[q].Dir? && !Ignored(q) && IsDir(s, q) && q != p
    requires forall j :: 0 < j < |p| ==> IsDir(r1, p[..j])
    requires node.File? || node.Link?
    ensures Framed(t, s, r1[p := node])
  {
    hide Ignored;
    var r2 := r1[p := node];
    assert WellFormed(r2) by {
      forall q, i | q in r2 && 0 < i < |q| ensures IsDir(r2, q[..i]) {
        assert IsDir(r1, q[..i]);
      }
    }
    hide WellFormed, ValidPath;
  }

  lemma WriteRecords(t: Tree, s: Tree, ops: seq<Operation>, k: nat, r: Tree, r1: Tree, p: Path, node: Node)
    requires Next(t, s, ops, k, r, p) && StateOf(node) == StateAt(s, p) && !Ignored(p)
    requires forall q :: q in r ==> q in r1 && r1[q] == r[q]
    requires forall q :: q in r1 && q !in r ==> r1[q].Dir?
    ensures Tracks(t, s, ops, k + 1, r1[p := node])
  {
    hide IgnoredName, Ignored, StateOf, Join, Split, IsDifference, WellFormed, Framed, Acceptable, Lists;
    NextMeaning(t, s, ops, k, r, p);
    LeafState(Dir);
    var r2 := r1[p := node];
    forall q | ValidPath(q)
      ensures StateAt(r2, q) == if Lists(ops[..k + 1], q) then StateAt(s, q) else StateAt(t, q)
    {
      ListsNext(ops, k, q);
      if q != p {
        if Join(q) == Join(p) { JoinInjective(q, p); }
        assert StateAt(r2, q) == StateAt(r, q);
      }
    }
  }

  lemma DeleteProgress(t: Tree, s: Tree, ops: seq<Operation>, k: nat, r: Tree, p: Path)
    requires Next(t, s, ops, k, r, p) && ops[k].after.None?
    ensures p in r && (r[p].File? || r[p].Link?) && (forall j :: 0 < j < |p| ==> IsDir(r, p[..j]))
    ensures Progress(t, s, ops, k + 1, r - {p})
  {
    hide IgnoredName, Ignored, StateOf, Join, Split, IsDifference, Lists, Acceptable;
    NextMeaning(t, s, ops, k, r, p);
    assert p in r;
    LeafState(r[p]);
    DeleteFrame(t, s, r, p);
    DeleteRecords(t, s, ops, k, r, p);
  }

  lemma DeleteFrame(t: Tree, s: Tree, r: Tree, p: Path)
    requires Framed(t, s, r) && p in r && (r[p].File? || r[p].Link?) && !Ignored(p)
    ensures Framed(t, s, r - {p})
  {
    hide Ignored;
    var r2 := r - {p};
    forall q, i | q in r2 && 0 < i < |q| ensures IsDir(r2, q[..i]) {
      assert IsDir(r, q[..i]);
    }
  }

  lemma DeleteRecords(t: Tree, s: Tree, ops: seq<Operation>, k: nat, r: Tree, p: Path)
    requires Next(t, s, ops, k, r, p) && StateAt(s, p) == None
    ensures Tracks(t, s, ops, k + 1, r - {p})
  {
    hide IgnoredName, Ignored, StateOf, Join, Split, IsDifference, WellFormed, Framed, Acceptable, Lists;
    NextMeaning(t, s, ops, k, r, p);
    forall q | ValidPath(q)
      ensures StateAt(r - {p}, q) == if Lists(ops[..k + 1], q) then StateAt(s, q) else StateAt(t, q)
    {
      ListsNext(ops, k, q);
      if q != p && Join(q) == Join(p) { JoinInjective(q, p); }
    }
  }

  /** One operation, completely: it succeeds and makes progress, unless it adds where the target has a
      directory; then it stops with the directory error and the tree is as it was. */
  lemma StepProgress(t: Tree, s: Tree, ops: seq<Operation>, k: nat, r: Tree)
    requires Acceptable(t, s) && IsDifference(ops, t, s) && k < |ops| && Progress(t, s, ops, k, r)
    ensures var u := ApplyOperation(r, s, ops[k]);
            if HitsDirectory(t, ops[k])
            then u.Failed? && u.tree == r && (u.error == UnexpectedDirectory || u.error == RefusesDirectory)
            else u.Done? && Progress(t, s, ops, k + 1, u.tree)
  {
    hide IgnoredName, Ignored, StateOf, Join, Split, IsDifference, MakeDirs, Progress;
    var p := Split(ops[k].path);
    NextMeaning(t, s, ops, k, r, p);
    if ops[k].after.None? {
      DeleteProgress(t, s, ops, k, r, p);
      NotBlocked(r, p, 1);
    } else {
      WriteStep(t, s, ops, k, r, p);
    }
  }

  /** A directory is at the next path exactly when the operation is an addition over a target directory. */
  lemma DirectoryAtNext(t: Tree, s: Tree, ops: seq<Operation>, k: nat, r: Tree, p: Path)
    requires Next(t, s, ops, k, r, p) && ops[k].after.Some?
    ensures IsDir(r, p) <==> HitsDirectory(t, ops[k])
    ensures p in r && !IsDir(r, p) ==> r[p].File? || r[p].Link?
    ensures p in s && (forall j :: 0 < j < |p| ==> IsDir(s, p[..j])) && StateOf(s[p]) == ops[k].after
  {
    hide IgnoredName, Ignored, StateOf, Join, Split, IsDifference;
    NextMeaning(t, s, ops, k, r, p);
    LeafState(s[p]);
    if p in r { LeafState(r[p]); }
    if p in t { LeafState(t[p]); }
  }

  lemma WriteStep(t: Tree, s: Tree, ops: seq<Operation>, k: nat, r: Tree, p: Path)
    requires Next(t, s, ops, k, r, p) && ops[k].after.Some?
    ensures var u := ApplyOperation(r, s, ops[k]);
            if HitsDirectory(t, ops[k])
            then u.Failed? && u.tree == r && (u.error == UnexpectedDirectory || u.error == RefusesDirectory)
            else u.Done? && Progress(t, s, ops, k + 1, u.tree)
  {
    hide IgnoredName, Ignored, Join, Split, IsDifference, MakeDirs, Progress, WrittenEntry, StateOf;
    NextMeaning(t, s, ops, k, r, p);
    ParentsMade(t, s, ops, k, r, p);
    DirectoryAtNext(t, s, ops, k, r, p);
    var r1 := MakeDirs(r, p[..|p| - 1], 1).0;
    WriteEntryOutcome(r1, s, p, ops[k].after.value);
    if !HitsDirectory(t, ops[k]) {
      WriteProgress(t, s, ops, k, r, r1, p, Recorded(s[p]));
    }
  }

  /** What arrives in the target: the node with only its recorded permission bits. */
  function Recorded(node: Node): Node {
    match node
    case File(content, mode) => File(content, mode % 512)
    case other => other
  }

  lemma WriteEntryOutcome(r: Tree, s: Tree, p: Path, state: FileState)
    requires p in s && StateOf(s[p]) == Some(state)
    requires forall j :: 0 < j < |p| ==> IsDir(r, p[..j]) && IsDir(s, p[..j])
    requires p in r ==> !r[p].Special?
    ensures StateOf(Recorded(s[p])) == Some(state)
    ensures var u := WrittenEntry(r, s, p, state);
            if IsDir(r, p)
            then u.Failed? && u.tree == r && (u.error == UnexpectedDirectory || u.error == RefusesDirectory)
            else u == Done(r[p := Recorded(s[p])])
  {
    hide Blocked;
    NotBlocked(s, p, 1);
    NotBlocked(r, p, 1);
    var r1 := r - {p};
    assert forall j :: 0 < j < |p| ==> IsDir(r1, p[..j]);
    NotBlocked(r1, p, 1);
    var r2 := r[p := s[p]];
    assert r1[p := s[p]] == r2;
    assert forall j :: 0 < j < |p| ==> IsDir(r2, p[..j]);
    NotBlocked(r2, p, 1);
    assert r2[p := Recorded(s[p])] == r[p := Recorded(s[p])];
  }

  ghost predicate DirectoryError(error: ApplyError) {
    error == UnexpectedDirectory || error == RefusesDirectory
  }

  /** `i` is the first of the operations `k..m` that hits a directory. */
  ghost predicate FirstHit(t: Tree, ops: seq<Operation>, k: nat, m: nat, i: nat) {
    && k <= i < m <= |ops| && HitsDirectory(t, ops[i])
    && forall j :: k <= j < i ==> !HitsDirectory(t, ops[j])
  }

  /** Any stretch of the operations, from any point of progress. */
  lemma {:induction false} RunProgress(t: Tree, s: Tree, ops: seq<Operation>, k: nat, m: nat, r: Tree)
    requires Acceptable(t, s) && IsDifference(ops, t, s) && k <= m <= |ops| && Progress(t, s, ops, k, r)
    ensures var u := ApplyOperations(r, s, ops[k..m]);
            && (u.Done? <==> forall i :: k <= i < m ==> !HitsDirectory(t, ops[i]))
            && (u.Done? ==> Progress(t, s, ops, m, u.tree))
            && (u.Failed? ==> DirectoryError(u.error) &&
                              exists i :: FirstHit(t, ops, k, m, i) && Progress(t, s, ops, i, u.tree))
    decreases m - k
  {
    hide IgnoredName, Ignored, IsDifference, Progress, Acceptable, HitsDirectory, ApplyOperation;
    if k < m {
      StepProgress(t, s, ops, k, r);
      assert ops[k..m][0] == ops[k] && ops[k..m][1..] == ops[k + 1..m];
      var u := ApplyOperation(r, s, ops[k]);
      if HitsDirectory(t, ops[k]) {
        assert FirstHit(t, ops, k, m, k);
      } else {
        RunProgress(t, s, ops, k + 1, m, u.tree);
        var v := ApplyOperations(u.tree, s, ops[k + 1..m]);
        if v.Failed? {
          var i :| FirstHit(t, ops, k + 1, m, i) && Progress(t, s, ops, i, v.tree);
          assert FirstHit(t, ops, k, m, i);
        }
      }
    }
  }

  lemma NoProgressYet(t: Tree, s: Tree, ops: seq<Operation>)
    requires Acceptable(t, s)
    ensures Progress(t, s, ops, 0, t)
  {}

  /** The patch goes through exactly when the sandbox has no file or link where the target has a directory.
      Then the target records what the sandbox records; otherwise the only error is the refused directory,
      and in both cases no operation went on through a symbolic link (that would be another error). */
  lemma ApplySucceedsExactly(t: Tree, s: Tree)
    requires Acceptable(t, s)
    ensures var u := ApplyOperations(t, s, PatchOperations(t, s));
            && (u.Done? <==> !exists p :: StateAt(s, p).Some? && IsDir(t, p))
            && WellFormed(u.tree)
            && (u.Done? ==> SnapshotOf(u.tree) == SnapshotOf(s))
            && (u.Failed? ==> DirectoryError(u.error))
            && Framed(t, s, u.tree)
            && (forall p :: ValidPath(p) ==> StateAt(u.tree, p) in {StateAt(t, p), StateAt(s, p)})
  {
    hide IgnoredName, Ignored, IsDifference, StateOf, Join, Split, ApplyOperations, SnapshotOf;
    var ops := PatchOperations(t, s);
    OperationsMeaning(t, s);
    NoProgressYet(t, s, ops);
    RunProgress(t, s, ops, 0, |ops|, t);
    assert ops[0..|ops|] == ops;
    SomeHit(t, s, ops);
    var u := ApplyOperations(t, s, ops);
    if u.Done? {
      assert ops[..|ops|] == ops;
      SameStates(t, s, ops, u.tree);
    }
  }

  lemma SomeHit(t: Tree, s: Tree, ops: seq<Operation>)
    requires Acceptable(t, s) && IsDifference(ops, t, s)
    ensures (exists i :: 0 <= i < |ops| && HitsDirectory(t, ops[i])) <==> exists p :: StateAt(s, p).Some? && IsDir(t, p)
  {
    hide IgnoredName, Ignored, Join, Split, StateOf;
    if i :| 0 <= i < |ops| && HitsDirectory(t, ops[i]) {
      assert Reports(ops[i], t, s);
      assert StateAt(s, Split(ops[i].path)).Some?;
    }
    if p :| StateAt(s, p).Some? && IsDir(t, p) {
      LeafState(t[p]);
      assert ValidPath(p) && StateAt(t, p) == None;
      assert Lists(ops, p);
      var i :| 0 <= i < |ops| && ops[i].path == Join(p);
      assert Reports(ops[i], t, s);
      JoinInjective(p, Split(ops[i].path));
      assert HitsDirectory(t, ops[i]);
    }
  }

  lemma SameStates(t: Tree, s: Tree, ops: seq<Operation>, r: Tree)
    requires Acceptable(t, s) && IsDifference(ops, t, s) && Progress(t, s, ops, |ops|, r)
    ensures SnapshotOf(r) == SnapshotOf(s)
  {
    assert WellFormed(r) && WellFormed(s) && ops[..|ops|] == ops;
    hide IgnoredName, Ignored, Join, Split, StateOf, WellFormed, StateAt, Reports, Framed, SnapshotOf;
    forall p | ValidPath(p) ensures StateAt(r, p) == StateAt(s, p) {}
    SameStatesSameSnapshot(r, s);
  }

  lemma SameStatesSameSnapshot(r: Tree, s: Tree)
    requires WellFormed(r) && WellFormed(s) && forall p :: ValidPath(p) ==> StateAt(r, p) == StateAt(s, p)
    ensures SnapshotOf(r) == SnapshotOf(s)
  {
    hide IgnoredName, Ignored, Join, Split, StateOf, StateAt, SnapshotOf, IsSnapshot, WellFormed;
    var a, b := SnapshotOf(r), SnapshotOf(s);
    forall k ensures Lookup(a, k) == Lookup(b, k) {
      if k in a {
        KeyLookup(r, s, k);
      } else if k in b {
        KeyLookup(s, r, k);
      }
    }
    assert forall k :: k in a <==> Lookup(a, k).Some?;
    assert forall k :: k in b <==> Lookup(b, k).Some?;
    assert a.Keys == b.Keys;
    assert forall k :: k in a ==> Lookup(a, k) == Lookup(b, k);
  }

  lemma KeyLookup(t: Tree, s: Tree, k: string)
    requires WellFormed(t) && WellFormed(s) && k in SnapshotOf(t)
    requires forall p :: ValidPath(p) ==> StateAt(t, p) == StateAt(s, p)
    ensures Lookup(SnapshotOf(t), k) == Lookup(SnapshotOf(s), k)
  {
    SnapshotKeyIsPath(t, k);
    hide IgnoredName, Ignored, Join, Split, StateOf, StateAt, SnapshotOf, IsSnapshot, WellFormed, ValidPath;
    SnapshotLookup(t, Split(k));
    SnapshotLookup(s, Split(k));
  }

  /** The same operations, counted from 0 again. */
  function Renumbered(ops: seq<Operation>): (r: seq<Operation>)
    ensures |r| == |ops| && forall i :: 0 <= i < |r| ==> r[i] == ops[i].(order := i % 0x1_0000_0000)
  {
    seq(|ops|, i requires 0 <= i < |ops| => ops[i].(order := i % 0x1_0000_0000))
  }

  /** After `k` operations a fresh preview lists exactly the remaining ones, renumbered. */
  lemma RemainingDifference(t: Tree, s: Tree, ops: seq<Operation>, k: nat, r: Tree)
    requires Acceptable(t, s) && IsDifference(ops, t, s) && k <= |ops| && Progress(t, s, ops, k, r)
    ensures PatchOperations(r, s) == Renumbered(ops[k..])
  {
    assert WellFormed(r);
    RemainingIsDifference(t, s, ops, k, r);
    OperationsMeaning(r, s);
    hide *;
    DifferenceUnique(PatchOperations(r, s), Renumbered(ops[k..]), r, s);
  }

  lemma RemainingIsDifference(t: Tree, s: Tree, ops: seq<Operation>, k: nat, r: Tree)
    requires IsDifference(ops, t, s) && k <= |ops| && Tracks(t, s, ops, k, r)
    ensures IsDifference(Renumbered(ops[k..]), r, s)
  {
    hide Ignored, Join, Split, StateOf, Tracks, StateAt, Reports, Lists, Less;
    var rest := Renumbered(ops[k..]);
    forall i | 0 <= i < |rest| ensures Reports(rest[i], r, s) {
      RemainingReports(t, s, ops, k, r, k + i);
    }
    forall p | ValidPath(p) && StateAt(r, p) != StateAt(s, p) ensures Lists(rest, p) {
      RemainingListed(t, s, ops, k, r, p);
    }
    assert PathsAscend(rest);
  }

  lemma RemainingReports(t: Tree, s: Tree, ops: seq<Operation>, k: nat, r: Tree, i: nat)
    requires IsDifference(ops, t, s) && k <= i < |ops| && Tracks(t, s, ops, k, r)
    ensures Reports(Renumbered(ops[k..])[i - k], r, s)
  {
    hide Ignored, Join, Split, StateOf, StateAt, Lists;
    assert Renumbered(ops[k..])[i - k].path == ops[i].path;
    assert Reports(ops[i], t, s);
    StillToDo(t, s, ops, k, i);
  }

  lemma RemainingListed(t: Tree, s: Tree, ops: seq<Operation>, k: nat, r: Tree, p: Path)
    requires IsDifference(ops, t, s) && k <= |ops| && Tracks(t, s, ops, k, r)
    requires ValidPath(p) && StateAt(r, p) != StateAt(s, p)
    ensures Lists(Renumbered(ops[k..]), p)
  {
    hide Ignored, Join, Split, StateOf, StateAt, Reports;
    assert !Lists(ops[..k], p) && Lists(ops, p);
    var i :| 0 <= i < |ops| && ops[i].path == Join(p);
    assert forall j :: 0 <= j < k ==> ops[..k][j] == ops[j];
    assert Renumbered(ops[k..])[i - k].path == Join(p);
  }

  lemma RenumberedWhole(t: Tree, s: Tree, ops: seq<Operation>)
    requires IsDifference(ops, t, s)
    ensures Renumbered(ops[0..]) == ops
  {
    hide Reports, Lists;
  }

  lemma StillToDo(t: Tree, s: Tree, ops: seq<Operation>, k: nat, i: nat)
    requires IsDifference(ops, t, s) && k <= i < |ops|
    ensures !Lists(ops[..k], Split(ops[i].path))
  {
    hide Ignored, StateOf, StateAt, Join, Split;
    assert Reports(ops[i], t, s);
    forall j | 0 <= j < k ensures ops[..k][j].path != ops[i].path {
      LessTrichotomy(ops[j].path, ops[i].path);
    }
  }

  /** What the approver signs off for this pair of trees. */
  ghost function Approval(t: Tree, s: Tree, repo: RepositoryState): ApplyRequest
    requires WellFormed(t) && WellFormed(s)
  {
    var subject := SubjectOf(t, s, repo);
    ApplyRequest(subject, ActionDigest(subject))
  }

  /** Operations run only under exactly the approval of the present difference and base commit; any other
      request stops before the first write. */
  lemma OnlyApprovedRuns(t: Tree, s: Tree, repo: RepositoryState, request: ApplyRequest)
    requires Acceptable(t, s)
    ensures var u := ApplyPatch(t, s, Some(repo), request);
            if request == Approval(t, s, repo) then u == ApplyOperations(t, s, PatchOperations(t, s))
            else u.tree == t && u.Failed? && u.error in {SubjectMismatch, SubjectDigestMismatch, DigestMismatch}
  {
    hide PatchOperations, ApplyOperations, Acceptable;
  }

  /** Interrupted after `k` operations: the old approval is refused before any write once `k > 0`, and the
      fresh approval finishes the job. With `k` the number of all operations this is "never applied twice". */
  lemma RetryAfterInterruption(t: Tree, s: Tree, repo: RepositoryState, k: nat)
    requires Acceptable(t, s) && k <= |PatchOperations(t, s)|
    requires ApplyOperations(t, s, PatchOperations(t, s)[..k]).Done?
    ensures var r := ApplyOperations(t, s, PatchOperations(t, s)[..k]).tree;
            && Acceptable(r, s)
            && PatchOperations(r, s) == Renumbered(PatchOperations(t, s)[k..])
            && (k > 0 ==> ApplyPatch(r, s, Some(repo), Approval(t, s, repo)) == Failed(r, SubjectMismatch))
            && ((exists p :: StateAt(s, p).Some? && IsDir(r, p)) <==> (exists p :: StateAt(s, p).Some? && IsDir(t, p)))
  {
    hide IgnoredName, Ignored, IsDifference, StateOf, Join, Split, ApplyOperations, SnapshotOf, PatchOperations;
    var ops := PatchOperations(t, s);
    OperationsMeaning(t, s);
    NoProgressYet(t, s, ops);
    RunProgress(t, s, ops, 0, k, t);
    assert ops[0..k] == ops[..k];
    var r := ApplyOperations(t, s, ops[..k]).tree;
    RemainingDifference(t, s, ops, k, r);
    if k > 0 {
      assert |PatchOperations(r, s)| < |ops|;
      assert SubjectOf(r, s, repo).operations != SubjectOf(t, s, repo).operations;
    }
    SameHits(t, s, r);
  }

  lemma SameHits(t: Tree, s: Tree, r: Tree)
    requires Acceptable(t, s)
    requires forall p :: IsDir(t, p) ==> IsDir(r, p)
    requires forall p :: IsDir(r, p) && !Ignored(p) ==> IsDir(t, p) || IsDir(s, p)
    ensures (exists p :: StateAt(s, p).Some? && IsDir(r, p)) <==> (exists p :: StateAt(s, p).Some? && IsDir(t, p))
  {
    hide IgnoredName, Ignored, StateOf;
    forall p | p in s ensures StateAt(s, p).Some? ==> !IsDir(s, p) {
      LeafState(s[p]);
    }
  }

  /** A run that stopped at a directory: with operations done before it, the old approval is refused; stopped
      at the very first operation, the same request fails the same way again. */
  lemma RetryAfterFailure(t: Tree, s: Tree, repo: RepositoryState)
    requires Acceptable(t, s)
    requires ApplyPatch(t, s, Some(repo), Approval(t, s, repo)).Failed?
    ensures var ops, r := PatchOperations(t, s), ApplyPatch(t, s, Some(repo), Approval(t, s, repo)).tree;
            && Acceptable(r, s) && |ops| > 0
            && ApplyPatch(r, s, Some(repo), Approval(t, s, repo)).Failed?
            && ApplyPatch(r, s, Some(repo), Approval(t, s, repo)).tree == r
            && (ApplyPatch(r, s, Some(repo), Approval(t, s, repo)).error == SubjectMismatch <==>
                !HitsDirectory(t, ops[0]))
  {
    hide IgnoredName, Ignored, IsDifference, StateOf, Join, Split, ApplyOperations, SnapshotOf, PatchOperations;
    var ops := PatchOperations(t, s);
    OperationsMeaning(t, s);
    NoProgressYet(t, s, ops);
    RunProgress(t, s, ops, 0, |ops|, t);
    assert ops[0..|ops|] == ops;
    var u := ApplyOperations(t, s, ops);
    assert u == ApplyPatch(t, s, Some(repo), Approval(t, s, repo));
    var r := u.tree;
    var i :| FirstHit(t, ops, 0, |ops|, i) && Progress(t, s, ops, i, r);
    RemainingDifference(t, s, ops, i, r);
    if i > 0 {
      assert |PatchOperations(r, s)| < |ops|;
      assert SubjectOf(r, s, repo).operations != SubjectOf(t, s, repo).operations;
    } else {
      RenumberedWhole(t, s, ops);
      FailsAtFirst(t, s, ops, r);
    }
  }

  lemma FailsAtFirst(t: Tree, s: Tree, ops: seq<Operation>, r: Tree)
    requires Acceptable(t, s) && IsDifference(ops, t, s) && |ops| > 0 && Progress(t, s, ops, 0, r)
    requires HitsDirectory(t, ops[0])
    ensures ApplyOperations(r, s, ops).Failed? && ApplyOperations(r, s, ops).tree == r
    ensures DirectoryError(ApplyOperations(r, s, ops).error)
  {
    hide IgnoredName, Ignored, IsDifference, Progress, Acceptable, HitsDirectory, ApplyOperation;
    StepProgress(t, s, ops, 0, r);
  }
}
