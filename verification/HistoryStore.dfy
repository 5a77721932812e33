/** The history directory: the index and the entry files, changed by recording and pruning. */
module HistoryStore {
  import opened Wrappers
  import opened Decimals
  import opened HistoryRetention

  /** The part of an entry's file name after the timestamp. */
  function Ending(suffix: nat): string {
    if suffix == 0 then "-health.json" else "-" + Decimal(suffix) + "-health.json"
  }

  function FileName(ms: nat, suffix: nat): string {
    Decimal(ms) + Ending(suffix)
  }

  lemma EndingsDiffer(a: nat, b: nat)
    requires Ending(a) == Ending(b)
    ensures a == b
  {
    hide Decimal;
    DecimalNonEmpty(a);
    DecimalNonEmpty(b);
    if a != 0 && b != 0 {
      assert |Decimal(a)| == |Decimal(b)|;
      assert Ending(a)[1..][..|Decimal(a)|] == Decimal(a) && Ending(b)[1..][..|Decimal(b)|] == Decimal(b);
      DecimalInjective(a, b);
    }
  }

  lemma FileNamesDiffer(ms: nat, a: nat, b: nat)
    requires FileName(ms, a) == FileName(ms, b)
    ensures a == b
  {
    hide Decimal, Ending;
    var n := |Decimal(ms)|;
    assert FileName(ms, a)[n..] == Ending(a) && FileName(ms, b)[n..] == Ending(b);
    EndingsDiffer(a, b);
  }

  /** A name is the stamp, the suffix if there is one, and the fixed ending. */
  lemma FileNameTells(ms: nat, suffix: nat)
    ensures var name, stamp := FileName(ms, suffix), Decimal(ms);
            && stamp <= name
            && name[|stamp|..] == (if suffix == 0 then "-health.json" else "-" + Decimal(suffix) + "-health.json")
  {
    hide Decimal;
  }

  datatype Health = Health(status: string, alertCount: nat)

  /** `index` is the content of the index file, if there is one. */
  datatype Store = Store(files: set<string>, index: Option<seq<Entry>>)

  function EntriesOf(s: Store): seq<Entry> {
    if s.index.Some? then s.index.value else []
  }

  /** Every entry's file exists, and no two entries share one. */
  ghost predicate Consistent(s: Store) {
    var entries := EntriesOf(s);
    && (forall i :: 0 <= i < |entries| ==> entries[i].path in s.files && entries[i].path != "")
    && (forall i, j :: 0 <= i < j < |entries| ==> entries[i].path != entries[j].path)
  }

  /** The first name for this millisecond that is not taken. */
  ghost predicate FreshName(files: set<string>, ms: nat, path: string) {
    exists suffix: nat :: path == FileName(ms, suffix) && path !in files
                          && forall s: nat :: s < suffix ==> FileName(ms, s) in files
  }

  ghost predicate Recorded(before: Store, ms: nat, health: Health, after: Store) {
    exists path :: FreshName(before.files, ms, path)
                   && after.files == before.files + {path}
                   && after.index == Some(EntriesOf(before) + [Entry(ms, path, health.status, health.alertCount)])
  }

  function PathSet(entries: seq<Entry>): set<string> {
    set e | e in entries && e.path != "" :: e.path
  }

  /** The kept entries stay, and exactly the files of the others go. */
  ghost predicate Pruned(before: Store, keep: nat, after: Store) {
    && keep > 0 && before.index.Some? && after.index.Some?
    && Kept(before.index.value, keep, after.index.value)
    && exists removed: seq<Entry> :: multiset(before.index.value) == multiset(after.index.value) + multiset(removed)
                         && after.files == before.files - PathSet(removed)
  }

  class HistoryDirectory {
    var files: set<string>
    var index: Option<seq<Entry>>

    constructor ()
      ensures Shown() == Store({}, None)
    {
      files, index := {}, None;
    }

    ghost function Shown(): Store
      reads this
    {
      Store(files, index)
    }

    /** Counts up until the name is free; the directory is finite, so this ends. */
    method UniqueEntryPath(ms: nat) returns (path: string)
      ensures FreshName(files, ms, path)
    {
      hide FileName;
      var suffix: nat := 0;
      ghost var tried: set<string> := {};
      path := FileName(ms, suffix);
      while path in files
        invariant path == FileName(ms, suffix)
        invariant tried <= files && |tried| == suffix
        invariant forall s: nat :: s < suffix ==> FileName(ms, s) in tried
        invariant forall x :: x in tried ==> exists s: nat :: s < suffix && FileName(ms, s) == x
        decreases |files - tried|
      {
        forall s: nat | s < suffix ensures FileName(ms, s) != path {
          if FileName(ms, s) == path { FileNamesDiffer(ms, s, suffix); }
        }
        assert path !in tried;
        assert files - (tried + {path}) < files - tried by { assert path in files - tried; }
        SmallerSet(files - (tried + {path}), files - tried);
        tried := tried + {path};
        suffix := suffix + 1;
        path := FileName(ms, suffix);
      }
    }

    method Record(ms: nat, health: Health) returns (path: string)
      modifies this
      ensures Recorded(old(Shown()), ms, health, Shown())
      ensures index == Some(EntriesOf(old(Shown())) + [Entry(ms, path, health.status, health.alertCount)])
    {
      var entries := if index.Some? then index.value else [];
      path := UniqueEntryPath(ms);
      files := files + {path};
      index := Some(entries + [Entry(ms, path, health.status, health.alertCount)]);
    }

    method Prune(keep: nat) returns (r: Result<seq<Entry>, string>)
      modifies this
      ensures r.Err? <==> keep == 0 || old(index).None?
      ensures r.Err? ==> unchanged(this)
      ensures r.Ok? ==> Pruned(old(Shown()), keep, Shown())
      ensures r.Ok? ==> files == old(files) - PathSet(r.value)
                        && multiset(old(index).value) == multiset(index.value) + multiset(r.value)
    {
      if keep == 0 {
        return Err("--keep must be greater than 0");
      }
      if index == None {
        return Err("history file is missing");
      }
      var entries := index.value;
      var kept, removed := SplitNewest(entries, keep);
      for i := 0 to |removed|
        invariant files == old(files) - PathSet(removed[..i])
        invariant index == old(index)
      {
        assert removed[..i + 1] == removed[..i] + [removed[i]];
        var path := removed[i].path;
        if path == "" {
          continue;
        }
        if path in files {
          files := files - {path};
        }
      }
      assert removed[..|removed|] == removed;
      index := Some(kept);
      return Ok(removed);
    }
  }

  lemma SmallerSet(a: set<string>, b: set<string>)
    requires a < b
    ensures |a| < |b|
  {
    var x :| x in b && x !in a;
    SubsetCount(a, b - {x});
  }

  // The two sorts of pruning.

  datatype Indexed = Indexed(index: nat, entry: Entry)

  /** By timestamp and position, or by position alone. */
  predicate Before(byTime: bool, a: Indexed, b: Indexed) {
    if byTime && a.entry.generatedAtMs != b.entry.generatedAtMs then a.entry.generatedAtMs < b.entry.generatedAtMs
    else a.index < b.index
  }

  ghost predicate SortedBy(byTime: bool, s: seq<Indexed>) {
    forall i, j :: 0 <= i < j < |s| ==> Before(byTime, s[i], s[j])
  }

  ghost predicate DistinctIndices(s: seq<Indexed>) {
    forall i, j :: 0 <= i < j < |s| ==> s[i].index != s[j].index
  }

  /** Whatever is inserted before the first element is before all. */
  lemma BeforeAll(byTime: bool, x: Indexed, s: seq<Indexed>)
    requires s != [] && SortedBy(byTime, s) && Before(byTime, x, s[0])
    ensures SortedBy(byTime, [x] + s) && multiset([x] + s) == multiset(s) + multiset{x}
  {
    assert forall j :: 0 < j < |s| ==> Before(byTime, s[0], s[j]);
  }

  /** The first element stays first when something later goes into the rest. */
  lemma HeadStays(byTime: bool, x: Indexed, s: seq<Indexed>, rest: seq<Indexed>)
    requires s != [] && SortedBy(byTime, s) && !Before(byTime, x, s[0]) && s[0].index != x.index
    requires SortedBy(byTime, rest) && multiset(rest) == multiset(s[1..]) + multiset{x}
    ensures SortedBy(byTime, [s[0]] + rest) && multiset([s[0]] + rest) == multiset(s) + multiset{x}
  {
    forall k | 0 <= k < |rest| ensures Before(byTime, s[0], rest[k]) {
      assert rest[k] in multiset(rest);
      if rest[k] != x {
        assert rest[k] in s[1..];
        var j :| 0 <= j < |s| - 1 && s[1..][j] == rest[k];
        assert s[j + 1] == rest[k];
      }
    }
    hide Before;
    assert s == [s[0]] + s[1..];
  }

  function InsertBy(byTime: bool, x: Indexed, s: seq<Indexed>): (r: seq<Indexed>)
    requires SortedBy(byTime, s) && forall i :: 0 <= i < |s| ==> s[i].index != x.index
    ensures SortedBy(byTime, r) && multiset(r) == multiset(s) + multiset{x}
  {
    if s == [] then [x]
    else if Before(byTime, x, s[0]) then
      BeforeAll(byTime, x, s);
      [x] + s
    else
      var rest := InsertBy(byTime, x, s[1..]);
      HeadStays(byTime, x, s, rest);
      [s[0]] + rest
  }

  lemma OtherIndices(s: seq<Indexed>, rest: seq<Indexed>)
    requires s != [] && DistinctIndices(s) && multiset(rest) == multiset(s[1..])
    ensures forall i :: 0 <= i < |rest| ==> rest[i].index != s[0].index
  {
    forall i | 0 <= i < |rest| ensures rest[i].index != s[0].index {
      assert rest[i] in multiset(rest);
      assert rest[i] in s[1..];
      var j :| 0 <= j < |s| - 1 && s[1..][j] == rest[i];
      assert s[j + 1] == rest[i];
    }
  }

  /** `sort_by_key`. */
  function SortBy(byTime: bool, s: seq<Indexed>): (r: seq<Indexed>)
    requires DistinctIndices(s)
    ensures SortedBy(byTime, r) && multiset(r) == multiset(s)
  {
    if s == [] then []
    else
      assert s == [s[0]] + s[1..];
      var rest := SortBy(byTime, s[1..]);
      OtherIndices(s, rest);
      InsertBy(byTime, s[0], rest)
  }

  function IndexedEntries(s: seq<Indexed>): (r: seq<Entry>)
    ensures |r| == |s| && forall i :: 0 <= i < |r| ==> r[i] == s[i].entry
  {
    seq(|s|, i requires 0 <= i < |s| => s[i].entry)
  }

  function Indices(s: seq<Indexed>): (r: seq<nat>)
    ensures |r| == |s| && forall i :: 0 <= i < |r| ==> r[i] == s[i].index
  {
    seq(|s|, i requires 0 <= i < |s| => s[i].index)
  }

  function Enumerated(entries: seq<Entry>): (r: seq<Indexed>)
    ensures |r| == |entries| && forall i :: 0 <= i < |r| ==> r[i] == Indexed(i, entries[i])
  {
    seq(|entries|, i requires 0 <= i < |entries| => Indexed(i, entries[i]))
  }

  lemma DropOne(s: seq<Indexed>, j: nat)
    requires j < |s|
    ensures multiset(s[..j] + s[j + 1..]) == multiset(s) - multiset{s[j]}
    ensures multiset(IndexedEntries(s)) == multiset(IndexedEntries(s[..j] + s[j + 1..])) + multiset{s[j].entry}
  {
    var rest := s[..j] + s[j + 1..];
    assert s == s[..j] + [s[j]] + s[j + 1..];
    var entries := IndexedEntries(s);
    assert entries == entries[..j] + [s[j].entry] + entries[j + 1..];
    assert IndexedEntries(rest) == entries[..j] + entries[j + 1..];
  }

  lemma {:induction false} SameEntries(a: seq<Indexed>, b: seq<Indexed>)
    requires multiset(a) == multiset(b)
    ensures multiset(IndexedEntries(a)) == multiset(IndexedEntries(b))
    decreases |a|
  {
    hide IndexedEntries;
    if a == [] {
      assert |b| == |multiset(b)| == 0;
      assert b == [];
    } else {
      assert a[0] in multiset(b);
      var j :| 0 <= j < |b| && b[j] == a[0];
      DropOne(a, 0);
      DropOne(b, j);
      SameEntries(a[..0] + a[1..], b[..j] + b[j + 1..]);
    }
  }

  /** Sort by age, split off all but the `keep` newest, and bring those back into their order. */
  method SplitNewest(entries: seq<Entry>, keep: nat) returns (kept: seq<Entry>, removed: seq<Entry>)
    ensures Kept(entries, keep, kept)
    ensures multiset(entries) == multiset(kept) + multiset(removed)
  {
    var indexed := SortBy(true, Enumerated(entries));
    assert |indexed| == |multiset(indexed)| == |multiset(Enumerated(entries))| == |entries|;
    var removeCount := if |indexed| > keep then |indexed| - keep else 0;
    removed := IndexedEntries(indexed[..removeCount]);
    assert DistinctIndices(indexed[removeCount..]) by { SortedDistinct(entries, indexed); }
    var keptIndexed := SortBy(false, indexed[removeCount..]);
    kept := IndexedEntries(keptIndexed);
    SplitIsNewest(entries, keep, indexed, removeCount, keptIndexed);
    SplitConserves(entries, indexed, removeCount, keptIndexed);
  }

  lemma SortedDistinct(entries: seq<Entry>, indexed: seq<Indexed>)
    requires SortedBy(true, indexed) && multiset(indexed) == multiset(Enumerated(entries))
    ensures forall i :: 0 <= i < |indexed| ==>
              indexed[i].index < |entries| && indexed[i].entry == entries[indexed[i].index]
    ensures DistinctIndices(indexed)
    ensures forall i :: 0 <= i < |entries| ==> Indexed(i, entries[i]) in indexed
  {
    forall i | 0 <= i < |indexed|
      ensures indexed[i].index < |entries| && indexed[i].entry == entries[indexed[i].index]
    {
      assert indexed[i] in multiset(indexed);
      assert indexed[i] in Enumerated(entries);
    }
    forall i | 0 <= i < |entries| ensures Indexed(i, entries[i]) in indexed {
      assert Enumerated(entries)[i] in multiset(Enumerated(entries));
      assert Enumerated(entries)[i] in multiset(indexed);
    }
  }

  lemma SplitIsNewest(entries: seq<Entry>, keep: nat, indexed: seq<Indexed>, cut: nat, keptIndexed: seq<Indexed>)
    requires SortedBy(true, indexed) && multiset(indexed) == multiset(Enumerated(entries))
    requires |indexed| == |entries| && cut == if |indexed| > keep then |indexed| - keep else 0
    requires SortedBy(false, keptIndexed) && multiset(keptIndexed) == multiset(indexed[cut..])
    ensures Kept(entries, keep, IndexedEntries(keptIndexed))
  {
    SortedDistinct(entries, indexed);
    var at := Indices(keptIndexed);
    assert |keptIndexed| == |multiset(keptIndexed)| == |multiset(indexed[cut..])| == |entries| - cut;
    KeptFromTail(indexed, cut, keptIndexed);
    forall i, k | 0 <= i < |entries| && i !in at && 0 <= k < |at| ensures Older(entries, i, at[k]) {
      var a :| 0 <= a < |indexed| && indexed[a] == Indexed(i, entries[i]);
      var m :| cut <= m < |indexed| && indexed[m] == keptIndexed[k];
      if a >= cut {
        IndexListed(keptIndexed, indexed[a]);
      }
      assert Before(true, indexed[a], indexed[m]);
    }
    assert Newest(entries, keep, at);
    assert IndexedEntries(keptIndexed) == Select(entries, at);
  }

  lemma IndexListed(s: seq<Indexed>, x: Indexed)
    requires x in s
    ensures x.index in Indices(s)
  {
    var n :| 0 <= n < |s| && s[n] == x;
    assert Indices(s)[n] == x.index;
  }

  lemma KeptFromTail(indexed: seq<Indexed>, cut: nat, keptIndexed: seq<Indexed>)
    requires cut <= |indexed| && multiset(keptIndexed) == multiset(indexed[cut..])
    ensures forall k :: 0 <= k < |keptIndexed| ==> exists m :: cut <= m < |indexed| && indexed[m] == keptIndexed[k]
    ensures forall a :: cut <= a < |indexed| ==> indexed[a] in keptIndexed
  {
    forall k | 0 <= k < |keptIndexed| ensures exists m :: cut <= m < |indexed| && indexed[m] == keptIndexed[k] {
      assert keptIndexed[k] in multiset(keptIndexed);
      assert keptIndexed[k] in indexed[cut..];
      var m :| 0 <= m < |indexed| - cut && indexed[cut..][m] == keptIndexed[k];
      assert indexed[cut + m] == keptIndexed[k];
    }
    forall a | cut <= a < |indexed| ensures indexed[a] in keptIndexed {
      assert indexed[cut..][a - cut] in multiset(indexed[cut..]);
      assert indexed[a] in multiset(keptIndexed);
    }
  }

  lemma SplitConserves(entries: seq<Entry>, indexed: seq<Indexed>, cut: nat, keptIndexed: seq<Indexed>)
    requires multiset(indexed) == multiset(Enumerated(entries)) && cut <= |indexed|
    requires multiset(keptIndexed) == multiset(indexed[cut..])
    ensures multiset(entries) == multiset(IndexedEntries(keptIndexed)) + multiset(IndexedEntries(indexed[..cut]))
  {
    SameEntries(indexed, Enumerated(entries));
    SameEntries(keptIndexed, indexed[cut..]);
    assert IndexedEntries(Enumerated(entries)) == entries;
    assert IndexedEntries(indexed) == IndexedEntries(indexed[..cut]) + IndexedEntries(indexed[cut..]);
  }

  // Runs.

  datatype Step = DoRecord(ms: nat, health: Health) | DoPrune(keep: nat)

  ghost predicate StepTo(before: Store, step: Step, after: Store) {
    match step
    case DoRecord(ms, health) => Recorded(before, ms, health, after)
    case DoPrune(keep) => Pruned(before, keep, after)
  }

  lemma RecordKeepsConsistent(before: Store, ms: nat, health: Health, after: Store)
    requires Consistent(before) && Recorded(before, ms, health, after)
    ensures Consistent(after)
  {
    hide FileName;
    var path :| FreshName(before.files, ms, path)
                && after.files == before.files + {path}
                && after.index == Some(EntriesOf(before) + [Entry(ms, path, health.status, health.alertCount)]);
    NameNotEmpty(before.files, ms, path);
  }

  lemma NameNotEmpty(files: set<string>, ms: nat, path: string)
    requires FreshName(files, ms, path)
    ensures path != "" && path !in files
  {
    DecimalNonEmpty(ms);
  }

  /** What pruning removes never is a file that a kept entry points to. */
  lemma PruneKeepsConsistent(before: Store, keep: nat, after: Store)
    requires Consistent(before) && Pruned(before, keep, after)
    ensures Consistent(after)
  {
    var entries, kept := before.index.value, after.index.value;
    var at :| Newest(entries, keep, at) && kept == Select(entries, at);
    var removed: seq<Entry> :| multiset(entries) == multiset(kept) + multiset(removed)
                               && after.files == before.files - PathSet(removed);
    assert EntriesOf(before) == entries && EntriesOf(after) == kept;
    forall k | 0 <= k < |kept| ensures kept[k].path in after.files && kept[k].path != "" {
      assert kept[k] == entries[at[k]];
      if kept[k].path in PathSet(removed) {
        var e :| e in removed && e.path == kept[k].path;
        SameFileTwice(entries, kept, removed, k, e);
      }
    }
  }

  lemma SameFileTwice(entries: seq<Entry>, kept: seq<Entry>, removed: seq<Entry>, k: nat, e: Entry)
    requires multiset(entries) == multiset(kept) + multiset(removed)
    requires k < |kept| && e in removed && e.path == kept[k].path
    ensures exists i, j :: 0 <= i < j < |entries| && entries[i].path == entries[j].path
  {
    var x := kept[k];
    assert x in multiset(kept) && e in multiset(removed);
    assert x in multiset(entries) && e in multiset(entries);
    if x == e {
      assert multiset(entries)[x] >= 2;
      TwoPlaces(entries, x);
    } else {
      var i :| 0 <= i < |entries| && entries[i] == x;
      var j :| 0 <= j < |entries| && entries[j] == e;
      var lo, hi := if i < j then i else j, if i < j then j else i;
      assert entries[lo].path == entries[hi].path;
    }
  }

  lemma {:induction false} TwoPlaces(entries: seq<Entry>, x: Entry)
    requires multiset(entries)[x] >= 2
    ensures exists i, j :: 0 <= i < j < |entries| && entries[i].path == entries[j].path
  {
    assert x in entries;
    var i :| 0 <= i < |entries| && entries[i] == x;
    var rest := entries[..i] + entries[i + 1..];
    assert entries == entries[..i] + [x] + entries[i + 1..];
    assert multiset(rest)[x] >= 1;
    assert x in rest;
    var m :| 0 <= m < |rest| && rest[m] == x;
    var j := if m < i then m else m + 1;
    assert entries[j] == x && j != i;
    assert entries[if i < j then i else j].path == entries[if i < j then j else i].path;
  }

  /** Over any sequence of records and prunes from a consistent directory, every entry's file exists and the
      paths are pairwise distinct. */
  lemma {:induction false} RunsStayConsistent(states: seq<Store>, steps: seq<Step>)
    requires |states| == |steps| + 1 && Consistent(states[0])
    requires forall i :: 0 <= i < |steps| ==> StepTo(states[i], steps[i], states[i + 1])
    ensures forall i :: 0 <= i < |states| ==> Consistent(states[i])
  {
    hide Consistent, Recorded, Pruned;
    if steps != [] {
      var n := |steps| - 1;
      RunsStayConsistent(states[..n + 1], steps[..n]);
      assert states[..n + 1][n] == states[n] && StepTo(states[n], steps[n], states[n + 1]);
      match steps[n]
      case DoRecord(ms, health) => RecordKeepsConsistent(states[n], ms, health, states[n + 1]);
      case DoPrune(keep) => PruneKeepsConsistent(states[n], keep, states[n + 1]);
    }
  }

  lemma SamePathSet(a: seq<Entry>, b: seq<Entry>)
    requires multiset(a) == multiset(b)
    ensures PathSet(a) == PathSet(b)
  {
    assert forall e :: e in a <==> e in multiset(a);
    assert forall e :: e in b <==> e in multiset(b);
  }

  /** A prune interrupted between deleting files and writing the index leaves entries without files; running
      it again ends in the same directory as the uninterrupted prune. */
  lemma InterruptedPruneIsRepaired(before: Store, keep: nat, full: Store, interrupted: Store, again: Store)
    requires Pruned(before, keep, full)
    requires interrupted.index == before.index && full.files <= interrupted.files <= before.files
    requires Pruned(interrupted, keep, again)
    ensures again == full
  {
    hide Kept;
    KeptUnique(before.index.value, keep, full.index.value, again.index.value);
    var a: seq<Entry> :| multiset(before.index.value) == multiset(full.index.value) + multiset(a)
                         && full.files == before.files - PathSet(a);
    var b: seq<Entry> :| multiset(before.index.value) == multiset(again.index.value) + multiset(b)
                         && again.files == interrupted.files - PathSet(b);
    assert multiset(a) == multiset(before.index.value) - multiset(full.index.value) == multiset(b);
    SamePathSet(a, b);
  }
}
