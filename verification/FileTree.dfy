/** A directory tree as the operating system keeps it: every entry's ancestors are directories. Paths are
    relative to the root of one tree; symbolic links are entries that no model operation follows. */
module FileTree {
  import opened Wrappers
  import opened Paths

  newtype byte = b: int | 0 <= b < 256

  /** `mode` holds all permission bits; `Special` is a FIFO, socket or device. */
  datatype Node = File(content: seq<byte>, mode: nat) | Link(target: seq<byte>) | Dir | Special

  type Tree = map<Path, Node>

  ghost predicate WellFormed(t: Tree) {
    forall p :: p in t ==> ValidPath(p) && forall i :: 0 < i < |p| ==> IsDir(t, p[..i])
  }

  predicate IsDir(t: Tree, p: Path) {
    p in t && t[p].Dir?
  }

  datatype IoError = NotFound | NotADirectory | IsADirectory | AlreadyExists | ThroughLink | NotRegular

  /** Why the parent of `p` cannot be reached, looking at the ancestors of length `i` and more. Going on
      through a symbolic link is reported, never done. */
  function Blocked(t: Tree, p: Path, i: nat): Option<IoError>
    decreases |p| - i
  {
    if i >= |p| then None
    else if p[..i] !in t then Some(NotFound)
    else match t[p[..i]]
      case Dir => Blocked(t, p, i + 1)
      case Link(_) => Some(ThroughLink)
      case _ => Some(NotADirectory)
  }

  /** `fs::symlink_metadata`. */
  function Stat(t: Tree, p: Path): Result<Node, IoError> {
    match Blocked(t, p, 1)
    case Some(error) => Err(error)
    case None => if p in t then Ok(t[p]) else Err(NotFound)
  }

  /** The tree after `fs::create_dir_all(p)` with the ancestors shorter than `i` known to be there, and
      the error if an entry that is no directory is in the way. */
  function MakeDirs(t: Tree, p: Path, i: nat): (Tree, Option<IoError>)
    decreases |p| - i
  {
    if i > |p| then (t, None)
    else if p[..i] !in t then MakeDirs(t[p[..i] := Dir], p, i + 1)
    else match t[p[..i]]
      case Dir => MakeDirs(t, p, i + 1)
      case Link(_) => (t, Some(ThroughLink))
      case _ => (t, Some(NotADirectory))
  }

  /** One tree on disk, changed in place. */
  class RepoTree {
    var nodes: Tree

    constructor (t: Tree)
      ensures nodes == t
    {
      nodes := t;
    }

    /** `fs::create_dir_all`. */
    method CreateDirAll(p: Path) returns (r: Result<(), IoError>)
      modifies this
      ensures nodes == MakeDirs(old(nodes), p, 1).0
      ensures match MakeDirs(old(nodes), p, 1).1 case None => r.Ok? case Some(e) => r == Err(e)
    {
      var i := 1;
      while i <= |p|
        invariant i >= 1
        invariant MakeDirs(nodes, p, i) == MakeDirs(old(nodes), p, 1)
        decreases |p| - i
      {
        if p[..i] !in nodes {
          nodes := nodes[p[..i] := Dir];
        } else {
          match nodes[p[..i]]
          case Dir =>
          case Link(_) => return Err(ThroughLink);
          case _ => return Err(NotADirectory);
        }
        i := i + 1;
      }
      return Ok(());
    }
  }

  lemma {:induction false} NotBlocked(t: Tree, p: Path, i: nat)
    requires 0 < i
    requires forall j :: 0 < j < |p| ==> IsDir(t, p[..j])
    ensures Blocked(t, p, i) == None
    decreases |p| - i
  {
    if i < |p| {
      assert IsDir(t, p[..i]);
      NotBlocked(t, p, i + 1);
    }
  }

  /** Where every prefix is absent or a directory, creating directories succeeds, adds exactly the missing
      prefixes, and changes nothing else. */
  lemma {:induction false} MakeDirsAdds(t: Tree, p: Path, i: nat)
    requires 0 < i
    requires forall j :: 0 < j <= |p| ==> p[..j] !in t || IsDir(t, p[..j])
    requires forall j :: 0 < j < i && j <= |p| ==> IsDir(t, p[..j])
    ensures MakeDirs(t, p, i).1 == None
    ensures var t' := MakeDirs(t, p, i).0;
            && (forall q :: q in t ==> q in t' && t'[q] == t[q])
            && (forall q :: q in t' && q !in t ==> t'[q].Dir? && exists j :: 0 < j <= |p| && q == p[..j])
            && (forall j :: 0 < j <= |p| ==> IsDir(t', p[..j]))
    decreases |p| - i
  {
    if i <= |p| {
      assert p[..i] !in t || IsDir(t, p[..i]);
      var u := if p[..i] in t then t else t[p[..i] := Dir];
      MakeDirsAdds(u, p, i + 1);
    }
  }

  /** Where a prefix is there and no directory, nothing is made, and the error says what is in the way. */
  lemma {:induction false} MakeDirsBlocked(t: Tree, p: Path, i: nat, j: nat)
    requires WellFormed(t) && 0 < i <= j <= |p| && p[..j] in t && !t[p[..j]].Dir?
    ensures MakeDirs(t, p, i) == (t, Some(if t[p[..j]].Link? then ThroughLink else NotADirectory))
    decreases j - i
  {
    if i < j {
      assert p[..j][..i] == p[..i];
      assert IsDir(t, p[..i]);
      MakeDirsBlocked(t, p, i + 1, j);
    }
  }
}
