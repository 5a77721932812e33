/** Replaying an approved patch on the target, step by step (`crates/ao2-adapters/src/lib.rs`, Unix side). */
module SandboxApply {
  import opened Wrappers
  import opened Hashing
  import opened Paths
  import opened FileTree
  import opened SandboxPreview

  datatype ApplyError =
    | PreviewFailed(preview: PreviewError)
    | SubjectMismatch
    | SubjectDigestMismatch
    | DigestMismatch
    | UnexpectedDirectory
    | RefusesDirectory
    | InvalidOperation
    | Io(io: IoError)

  /** The tree a sequence of file operations leaves behind, and whether it stopped with an error. */
  datatype Outcome = Done(tree: Tree) | Failed(tree: Tree, error: ApplyError) {
    predicate IsFailure() {
      Failed?
    }

    function PropagateFailure(): Outcome
      requires Failed?
    {
      this
    }

    function Extract(): Tree
      requires Done?
    {
      tree
    }
  }

  function Report(tree: Tree, r: Result<(), ApplyError>): Outcome {
    match r
    case Ok(_) => Done(tree)
    case Err(error) => Failed(tree, error)
  }

  function RemovedSymlink(t: Tree, p: Path): Outcome {
    match Stat(t, p)
    case Ok(Link(_)) => Done(t - {p})
    case Ok(Dir) => Failed(t, UnexpectedDirectory)
    case Ok(_) => Done(t)
    case Err(NotFound) => Done(t)
    case Err(error) => Failed(t, Io(error))
  }

  function RemovedTarget(t: Tree, p: Path): Outcome {
    match Stat(t, p)
    case Ok(Dir) => Failed(t, RefusesDirectory)
    case Ok(_) => Done(t - {p})
    case Err(NotFound) => Done(t)
    case Err(error) => Failed(t, Io(error))
  }

  function CreatedParents(t: Tree, p: Path): Outcome
    requires p != []
  {
    match MakeDirs(t, p[..|p| - 1], 1)
    case (u, None) => Done(u)
    case (u, Some(error)) => Failed(u, Io(error))
  }

  /** `fs::copy`: content and permission bits of the source, written to whatever regular file `p` names. */
  function CopiedFile(t: Tree, s: Tree, p: Path): Outcome {
    match Stat(s, p)
    case Err(error) => Failed(t, Io(error))
    case Ok(Link(_)) => Failed(t, Io(ThroughLink))
    case Ok(File(content, mode)) =>
      (match Stat(t, p)
       case Ok(Dir) => Failed(t, Io(IsADirectory))
       case Ok(Link(_)) => Failed(t, Io(ThroughLink))
       case Ok(Special) => Failed(t, Io(NotRegular))
       case Err(error) => if error.NotFound? && Blocked(t, p, 1).None? then Done(t[p := File(content, mode)])
                          else Failed(t, Io(error))
       case Ok(File(_, _)) => Done(t[p := File(content, mode)]))
    case Ok(_) => Failed(t, Io(NotRegular))
  }

  function ChangedMode(t: Tree, p: Path, mode: Option<nat>): Outcome {
    if mode.None? then Done(t)
    else match Stat(t, p)
      case Ok(File(content, _)) => Done(t[p := File(content, mode.value)])
      case Ok(_) => Failed(t, Io(NotRegular))
      case Err(error) => Failed(t, Io(error))
  }

  function LinkedLike(t: Tree, s: Tree, p: Path): Outcome {
    match Stat(s, p)
    case Ok(Link(link)) =>
      (match Stat(t, p)
       case Ok(_) => Failed(t, Io(AlreadyExists))
       case Err(error) => if error.NotFound? && Blocked(t, p, 1).None? then Done(t[p := Link(link)])
                          else Failed(t, Io(error)))
    case Ok(_) => Failed(t, Io(NotRegular))
    case Err(error) => Failed(t, Io(error))
  }

  /** Writing one file or link whose parents have been created. */
  function WrittenEntry(t: Tree, s: Tree, p: Path, state: FileState): Outcome {
    if state.kind.RegularFile? then
      var t1 :- RemovedSymlink(t, p);
      var t2 :- CopiedFile(t1, s, p);
      ChangedMode(t2, p, state.unixMode)
    else
      var t1 :- RemovedTarget(t, p);
      LinkedLike(t1, s, p)
  }

  /** One iteration of the apply loop. */
  function ApplyOperation(t: Tree, s: Tree, op: Operation): Outcome {
    var p := Split(op.path);
    match (op.kind, op.after)
    case (Deleted, None) => RemovedTarget(t, p)
    case (Deleted, Some(_)) => Failed(t, InvalidOperation)
    case (_, None) => Failed(t, InvalidOperation)
    case (_, Some(state)) =>
      var t1 :- CreatedParents(t, p);
      WrittenEntry(t1, s, p, state)
  }

  function ApplyOperations(t: Tree, s: Tree, ops: seq<Operation>): Outcome
    decreases |ops|
  {
    if ops == [] then Done(t)
    else
      var u :- ApplyOperation(t, s, ops[0]);
      ApplyOperations(u, s, ops[1..])
  }

  datatype ApplyRequest = ApplyRequest(expectedSubject: ApprovalSubject, expectedDigest: Digest<ApprovalSubject>)

  ghost function ApplyPatch(t: Tree, s: Tree, git: Option<RepositoryState>, request: ApplyRequest): Outcome
    requires WellFormed(t) && WellFormed(s)
    requires git.Some? && Supported(t) && Supported(s)
  {
    var subject := SubjectOf(t, s, git.value);
    if subject != request.expectedSubject then Failed(t, SubjectMismatch)
    else if ActionDigest(request.expectedSubject) != request.expectedDigest then Failed(t, SubjectDigestMismatch)
    else if ActionDigest(subject) != request.expectedDigest then Failed(t, DigestMismatch)
    else ApplyOperations(t, s, subject.operations)
  }

  method RemoveTargetSymlink(target: RepoTree, p: Path) returns (r: Result<(), ApplyError>)
    modifies target
    ensures Report(target.nodes, r) == RemovedSymlink(old(target.nodes), p)
  {
    match Stat(target.nodes, p) {
      case Ok(Link(_)) => target.nodes := target.nodes - {p};
      case Ok(Dir) => return Err(UnexpectedDirectory);
      case Ok(_) =>
      case Err(NotFound) =>
      case Err(error) => return Err(Io(error));
    }
    return Ok(());
  }

  method RemovePatchTarget(target: RepoTree, p: Path) returns (r: Result<(), ApplyError>)
    modifies target
    ensures Report(target.nodes, r) == RemovedTarget(old(target.nodes), p)
  {
    match Stat(target.nodes, p) {
      case Ok(Dir) => return Err(RefusesDirectory);
      case Ok(_) => target.nodes := target.nodes - {p};
      case Err(NotFound) =>
      case Err(error) => return Err(Io(error));
    }
    return Ok(());
  }

  method ApplyOne(target: RepoTree, sandbox: RepoTree, op: Operation) returns (r: Result<(), ApplyError>)
    requires target != sandbox
    modifies target
    ensures Report(target.nodes, r) == ApplyOperation(old(target.nodes), sandbox.nodes, op)
  {
    hide Stat, MakeDirs, Split;
    var p := Split(op.path);
    match (op.kind, op.after)
    case (Deleted, None) =>
      r := RemovePatchTarget(target, p);
    case (Deleted, Some(_)) =>
      r := Err(InvalidOperation);
    case (_, None) =>
      r := Err(InvalidOperation);
    case (_, Some(state)) =>
      var made := target.CreateDirAll(p[..|p| - 1]);
      if made.Err? {
        return Err(Io(made.error));
      }
      if state.kind.RegularFile? {
        r := RemoveTargetSymlink(target, p);
        if r.Err? {
          return;
        }
        var copied := CopiedFile(target.nodes, sandbox.nodes, p);
        target.nodes := copied.tree;
        if copied.Failed? {
          return Err(copied.error);
        }
        var changed := ChangedMode(target.nodes, p, state.unixMode);
        target.nodes := changed.tree;
        r := if changed.Failed? then Err(changed.error) else Ok(());
      } else {
        r := RemovePatchTarget(target, p);
        if r.Err? {
          return;
        }
        var linked := LinkedLike(target.nodes, sandbox.nodes, p);
        target.nodes := linked.tree;
        r := if linked.Failed? then Err(linked.error) else Ok(());
      }
  }

  /** The whole call: a fresh preview, three identity checks before any write, then the operations in order. */
  method ApplySandboxPatch(target: RepoTree, sandbox: RepoTree, git: Option<RepositoryState>, request: ApplyRequest)
    returns (r: Result<(), ApplyError>)
    requires target != sandbox
    requires WellFormed(target.nodes) && WellFormed(sandbox.nodes)
    modifies target
    ensures git.None? || !Supported(old(target.nodes)) || !Supported(sandbox.nodes) ==>
              r.Err? && r.error.PreviewFailed? && target.nodes == old(target.nodes)
    ensures git.Some? && Supported(old(target.nodes)) && Supported(sandbox.nodes) ==>
              Report(target.nodes, r) == ApplyPatch(old(target.nodes), sandbox.nodes, git, request)
  {
    hide ApplyOperation, StateOf, Ignored, OperationFor, IsSnapshot;
    var previewed := PreviewSandboxPatch(target, sandbox, git);
    if previewed.Err? {
      return Err(PreviewFailed(previewed.error));
    }
    var subject := previewed.value.approvalSubject;
    if subject != request.expectedSubject {
      return Err(SubjectMismatch);
    }
    if ActionDigest(request.expectedSubject) != request.expectedDigest {
      return Err(SubjectDigestMismatch);
    }
    if previewed.value.actionDigest != request.expectedDigest {
      return Err(DigestMismatch);
    }
    var ops := subject.operations;
    for i := 0 to |ops|
      invariant ApplyOperations(target.nodes, sandbox.nodes, ops[i..])
             == ApplyOperations(old(target.nodes), sandbox.nodes, ops)
    {
      var rest := ops[i..];
      assert rest[0] == ops[i] && rest[1..] == ops[i + 1..];
      r := ApplyOne(target, sandbox, ops[i]);
      if r.Err? {
        return;
      }
    }
    return Ok(());
  }
}
