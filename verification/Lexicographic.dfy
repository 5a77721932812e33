/** The order of `BTreeMap<String, _>` and `Vec<String>::sort`: byte order of the UTF-8 text, which is
    code-point order, so it is stated on characters. Ascending key lists are unique for a given key set. */
module Lexicographic {

  predicate Less(a: string, b: string) {
    b != "" && (a == "" || a[0] < b[0] || (a[0] == b[0] && Less(a[1..], b[1..])))
  }

  /** `a` comes before `b`: they agree up to `n`, and there `a` ends or has the smaller character. */
  predicate ComesBefore(a: string, b: string, n: nat) {
    n <= |a| && n < |b| && a[..n] == b[..n] && (n == |a| || a[n] < b[n])
  }

  ghost predicate Precedes(a: string, b: string) {
    exists n: nat :: ComesBefore(a, b, n)
  }

  /** The recursive order is the order of the first difference. */
  lemma {:induction false} LessMeaning(a: string, b: string)
    ensures Less(a, b) <==> Precedes(a, b)
  {
    if a != "" && b != "" && a[0] == b[0] {
      LessMeaning(a[1..], b[1..]);
      forall n: nat ensures ComesBefore(a[1..], b[1..], n) <==> ComesBefore(a, b, n + 1) {
        OneFurther(a, b, n);
      }
      assert !ComesBefore(a, b, 0);
      assert forall n: nat :: ComesBefore(a, b, n) && n > 0 ==> ComesBefore(a[1..], b[1..], n - 1);
    } else {
      forall n: nat ensures ComesBefore(a, b, n) ==> n == 0 {
        NotBehind(a, b, n);
      }
      assert ComesBefore(a, b, 0) <==> Less(a, b);
    }
  }

  lemma NotBehind(a: string, b: string, n: nat)
    requires a == "" || b == "" || a[0] != b[0]
    ensures ComesBefore(a, b, n) ==> n == 0
  {
    assert 0 < n <= |a| && n <= |b| ==> a[..n][0] == a[0] && b[..n][0] == b[0];
  }

  lemma OneFurther(a: string, b: string, n: nat)
    requires a != "" && b != "" && a[0] == b[0]
    ensures ComesBefore(a[1..], b[1..], n) <==> ComesBefore(a, b, n + 1)
  {
    if n < |a| && n < |b| {
      assert a[..n + 1] == [a[0]] + a[1..][..n] && b[..n + 1] == [b[0]] + b[1..][..n];
      if a[..n + 1] == b[..n + 1] { assert a[..n + 1][1..] == b[..n + 1][1..]; }
      assert a[..n + 1][1..] == a[1..][..n] && b[..n + 1][1..] == b[1..][..n];
    }
  }

  lemma {:induction false} LessTransitive(a: string, b: string, c: string)
    requires Less(a, b) && Less(b, c)
    ensures Less(a, c)
  {
    if a != "" && a[0] == b[0] && b[0] == c[0] {
      LessTransitive(a[1..], b[1..], c[1..]);
    }
  }

  lemma {:induction false} LessTrichotomy(a: string, b: string)
    ensures !(Less(a, b) && Less(b, a))
    ensures Less(a, b) || a == b || Less(b, a)
    ensures Less(a, b) ==> a != b
  {
    if a != "" && b != "" && a[0] == b[0] {
      LessTrichotomy(a[1..], b[1..]);
      assert a == [a[0]] + a[1..] && b == [b[0]] + b[1..];
    }
  }

  /** A strict prefix sorts first: a directory's path is smaller than every path below it. */
  lemma {:induction false} PrefixIsLess(a: string, suffix: string)
    requires suffix != ""
    ensures Less(a, a + suffix)
  {
    if a != "" {
      PrefixIsLess(a[1..], suffix);
      assert (a + suffix)[1..] == a[1..] + suffix;
    }
  }

  ghost predicate Ascending(s: seq<string>) {
    forall i, j :: 0 <= i < j < |s| ==> Less(s[i], s[j])
  }

  lemma {:induction false} AscendingUnique(s: seq<string>, t: seq<string>)
    requires Ascending(s) && Ascending(t)
    requires forall k :: k in s <==> k in t
    ensures s == t
  {
    HeadIsMember(s);
    HeadIsMember(t);
    if s != [] && t != [] {
      HeadsAgree(s, t);
      forall k ensures k in s[1..] <==> k in t[1..] {
        TailMembers(s, k);
        TailMembers(t, k);
      }
      AscendingUnique(s[1..], t[1..]);
      assert s == [s[0]] + s[1..] && t == [t[0]] + t[1..];
    }
  }

  lemma HeadIsMember(s: seq<string>)
    ensures s == [] || s[0] in s
  {}

  lemma HeadsAgree(s: seq<string>, t: seq<string>)
    requires Ascending(s) && Ascending(t) && s != [] && t != []
    requires s[0] in t && t[0] in s
    ensures s[0] == t[0]
  {
    LessTrichotomy(s[0], t[0]);
  }

  lemma TailMembers(s: seq<string>, k: string)
    requires Ascending(s) && s != []
    ensures k in s[1..] <==> k in s && k != s[0]
  {
    LessTrichotomy(s[0], s[0]);
    if k in s && k != s[0] {
      var i :| 0 <= i < |s| && s[i] == k;
      assert s[1..][i - 1] == k;
    }
  }

  /** Insertion into an ascending list. */
  function Insert(k: string, s: seq<string>): (r: seq<string>)
    requires Ascending(s) && k !in s
    ensures Ascending(r)
    ensures forall x :: x in r <==> x == k || x in s
    ensures |r| == |s| + 1
  {
    if s == [] then [k]
    else if Less(k, s[0]) then
      assert forall j :: 0 <= j < |s| ==> Less(k, s[j]) by {
        forall j | 0 < j < |s| ensures Less(k, s[j]) {
          LessTransitive(k, s[0], s[j]);
        }
      }
      [k] + s
    else
      var rest := Insert(k, s[1..]);
      assert forall x :: x in rest ==> Less(s[0], x) by {
        LessTrichotomy(k, s[0]);
      }
      assert s == [s[0]] + s[1..];
      [s[0]] + rest
  }

  /** The members of a finite key set in ascending order. */
  ghost function Sorted(keys: set<string>): (r: seq<string>)
    ensures Ascending(r)
    ensures forall k :: k in r <==> k in keys
    ensures |r| == |keys|
  {
    if keys == {} then []
    else
      var k :| k in keys;
      Insert(k, Sorted(keys - {k}))
  }

  lemma AscendingMeaning(s: seq<string>)
    requires Ascending(s)
    ensures forall i, j :: 0 <= i < j < |s| ==> Precedes(s[i], s[j])
  {
    hide Less, Precedes;
    forall i, j | 0 <= i < j < |s| ensures Precedes(s[i], s[j]) {
      LessMeaning(s[i], s[j]);
    }
  }

  /** Sorting the keys of a map, as `keys.sort()` does, in whatever order they were collected. */
  method SortKeys(keys: set<string>) returns (r: seq<string>)
    ensures r == Sorted(keys)
    ensures forall k :: k in r <==> k in keys
    ensures forall i, j :: 0 <= i < j < |r| ==> Precedes(r[i], r[j])
  {
    hide Less, Precedes;
    r := [];
    var todo := keys;
    while todo != {}
      invariant todo <= keys
      invariant Ascending(r)
      invariant forall k :: k in r <==> k in keys && k !in todo
      decreases |todo|
    {
      var k :| k in todo;
      r := Insert(k, r);
      todo := todo - {k};
    }
    AscendingUnique(r, Sorted(keys));
    AscendingMeaning(r);
  }
}
