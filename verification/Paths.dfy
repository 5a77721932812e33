/** Relative paths as component lists, and their `/`-joined text (the keys of a snapshot). */
module Paths {
  import opened Wrappers
  import opened Lexicographic

  type Path = seq<string>

  /** What a `std::path::Component` can be. */
  datatype Component = Normal(name: string) | CurDir | ParentDir | RootDir | Prefix

  predicate ValidName(name: string) {
    name != "" && '/' !in name && name != "." && name != ".."
  }

  ghost predicate ValidPath(p: Path) {
    p != [] && forall i :: 0 <= i < |p| ==> ValidName(p[i])
  }

  /** `parts.join("/")`. */
  function Join(parts: seq<string>): string {
    if parts == [] then ""
    else if |parts| == 1 then parts[0]
    else parts[0] + "/" + Join(parts[1..])
  }

  /** How the operating system reads a relative path text back into components. */
  function Split(text: string): (r: Path)
    ensures r != []
  {
    SplitFrom(text, 0)
  }

  /** Splits `text`, whose first `n` characters are known to be no separator. */
  function SplitFrom(text: string, n: nat): (r: Path)
    requires n <= |text|
    ensures r != []
    decreases |text|, |text| - n
  {
    if n == |text| then [text]
    else if text[n] == '/' then [text[..n]] + SplitFrom(text[n + 1..], 0)
    else SplitFrom(text, n + 1)
  }

  /** `replace('\\', "/")`. */
  function Slashed(text: string): (r: string)
    ensures |r| == |text| && forall i :: 0 <= i < |r| ==> r[i] == if text[i] == '\\' then '/' else text[i]
  {
    seq(|text|, i requires 0 <= i < |text| => if text[i] == '\\' then '/' else text[i])
  }

  lemma {:induction false} SplitAtSeparator(name: string, rest: string, n: nat)
    requires '/' !in name && n <= |name|
    ensures SplitFrom(name, n) == [name]
    ensures SplitFrom(name + "/" + rest, n) == [name] + Split(rest)
    decreases |name| - n
  {
    var text := name + "/" + rest;
    if n < |name| {
      assert text[n] == name[n] && name[n] in name;
      SplitAtSeparator(name, rest, n + 1);
    } else {
      assert text[..n] == name && text[n] == '/' && text[n + 1..] == rest;
    }
  }

  /** Reading back a joined path gives the components, so the snapshot key names the entry it came from. */
  lemma {:induction false} SplitJoin(p: Path)
    requires ValidPath(p)
    ensures Split(Join(p)) == p
  {
    assert ValidName(p[0]);
    if |p| == 1 {
      SplitAtSeparator(p[0], "", 0);
    } else {
      SplitAtSeparator(p[0], Join(p[1..]), 0);
      SplitJoin(p[1..]);
      assert p == [p[0]] + p[1..];
    }
  }

  lemma JoinInjective(p: Path, q: Path)
    requires ValidPath(p) && ValidPath(q) && Join(p) == Join(q)
    ensures p == q
  {
    SplitJoin(p);
    SplitJoin(q);
  }

  lemma {:induction false} JoinPrefix(p: Path, i: nat) returns (suffix: string)
    requires 0 < i < |p|
    ensures suffix != "" && Join(p) == Join(p[..i]) + suffix
  {
    assert p[..i][0] == p[0];
    if i == 1 {
      suffix := "/" + Join(p[1..]);
    } else {
      suffix := JoinPrefix(p[1..], i - 1);
      assert p[..i][1..] == p[1..][..i - 1];
    }
  }

  /** An ancestor's key sorts before the keys of everything beneath it. */
  lemma AncestorSortsFirst(p: Path, i: nat)
    requires 0 < i < |p|
    ensures Less(Join(p[..i]), Join(p))
  {
    var suffix := JoinPrefix(p, i);
    PrefixIsLess(Join(p[..i]), suffix);
  }

  datatype PathError = EmptyComponent | NotCanonical | EmptyPath

  ghost predicate AllNormal(components: seq<Component>) {
    forall i :: 0 <= i < |components| ==> components[i].Normal? && components[i].name != ""
  }

  /** The first component that no relative path may have. */
  ghost predicate FirstBad(components: seq<Component>, i: int) {
    && 0 <= i < |components| && !(components[i].Normal? && components[i].name != "")
    && forall j :: 0 <= j < i ==> components[j].Normal? && components[j].name != ""
  }

  function Normals(p: Path): seq<Component> {
    seq(|p|, i requires 0 <= i < |p| => Normal(p[i]))
  }

  /** Accepts exactly the non-empty lists of normal components, and joins their names: for names without
      a separator the result splits back into the same components. */
  method CanonicalRelativePath(components: seq<Component>) returns (r: Result<string, PathError>)
    ensures r.Ok? <==> components != [] && AllNormal(components)
    ensures r == Err(EmptyPath) <==> components == []
    ensures r == Err(NotCanonical) <==> exists i :: FirstBad(components, i) && !components[i].Normal?
    ensures r == Err(EmptyComponent) <==> exists i :: FirstBad(components, i) && components[i] == Normal("")
    ensures forall p: Path :: r.Ok? && ValidPath(p) && components == Normals(p) ==>
                                r.value == Join(p) && Split(r.value) == p
  {
    var parts: seq<string> := [];
    for i := 0 to |components|
      invariant |parts| == i
      invariant forall j :: 0 <= j < i ==>
        components[j].Normal? && components[j].name != "" && parts[j] == components[j].name
    {
      match components[i]
      case Normal(part) =>
        if part == "" {
          assert FirstBad(components, i);
          return Err(EmptyComponent);
        }
        parts := parts + [part];
      case _ =>
        assert FirstBad(components, i);
        return Err(NotCanonical);
    }
    if parts == [] {
      return Err(EmptyPath);
    }
    forall p: Path | ValidPath(p) && components == Normals(p)
      ensures Join(parts) == Join(p) && Split(Join(parts)) == p
    {
      assert |p| == |components|;
      assert forall i :: 0 <= i < |p| ==> components[i] == Normal(p[i]);
      assert parts == p;
      SplitJoin(p);
    }
    return Ok(Join(parts));
  }
}
