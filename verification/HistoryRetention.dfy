/** The control-plane health history: a JSON index and one file for each entry, recorded and pruned
    (`crates/ao2-cli/src/control_plane_ops.rs`; the fleet history has the same shape). */
module HistoryRetention {
  /** Only what retention and the trend read. */
  datatype Entry = Entry(generatedAtMs: nat, path: string, status: string, alertCount: nat)

  // Which entries pruning keeps.

  /** Entry `i` is older than entry `j`: by timestamp, then by position. */
  predicate Older(entries: seq<Entry>, i: nat, j: nat)
    requires i < |entries| && j < |entries|
  {
    || entries[i].generatedAtMs < entries[j].generatedAtMs
    || (entries[i].generatedAtMs == entries[j].generatedAtMs && i < j)
  }

  function Min(a: nat, b: nat): nat {
    if a < b then a else b
  }

  /** `at` lists the positions of the `keep` newest entries in their original order. */
  ghost predicate Newest(entries: seq<Entry>, keep: nat, at: seq<nat>) {
    && |at| == Min(keep, |entries|)
    && (forall k :: 0 <= k < |at| ==> at[k] < |entries|)
    && (forall j, k :: 0 <= j < k < |at| ==> at[j] < at[k])
    && (forall i, k :: 0 <= i < |entries| && i !in at && 0 <= k < |at| ==> Older(entries, i, at[k]))
  }

  function Select(entries: seq<Entry>, at: seq<nat>): (r: seq<Entry>)
    requires forall k :: 0 <= k < |at| ==> at[k] < |entries|
    ensures |r| == |at| && forall k :: 0 <= k < |r| ==> r[k] == entries[at[k]]
  {
    seq(|at|, k requires 0 <= k < |at| => entries[at[k]])
  }

  ghost predicate Kept(entries: seq<Entry>, keep: nat, kept: seq<Entry>) {
    exists at :: Newest(entries, keep, at) && kept == Select(entries, at)
  }

  lemma NewestUnique(entries: seq<Entry>, keep: nat, at: seq<nat>, bt: seq<nat>)
    requires Newest(entries, keep, at) && Newest(entries, keep, bt)
    ensures at == bt
  {
    NewestSubset(entries, keep, at, bt);
    NewestSubset(entries, keep, bt, at);
    AscendingSame(at, bt);
  }

  function Members(at: seq<nat>): set<nat> {
    set x | x in at
  }

  lemma {:induction false} AscendingCount(at: seq<nat>)
    requires forall j, k :: 0 <= j < k < |at| ==> at[j] < at[k]
    ensures |Members(at)| == |at|
  {
    if at != [] {
      var init, last := at[..|at| - 1], at[|at| - 1];
      assert at == init + [last];
      AscendingCount(init);
      assert Members(at) == Members(init) + {last} && last !in Members(init);
    }
  }

  /** Of two ascending lists of one length, each has an element the other lacks or neither has. */
  lemma OtherElement(at: seq<nat>, bt: seq<nat>, x: nat) returns (y: nat)
    requires forall j, k :: 0 <= j < k < |at| ==> at[j] < at[k]
    requires forall j, k :: 0 <= j < k < |bt| ==> bt[j] < bt[k]
    requires |at| == |bt| && x in at && x !in bt
    ensures y in bt && y !in at
  {
    AscendingCount(at);
    AscendingCount(bt);
    if Members(bt) <= Members(at) {
      assert Members(bt) <= Members(at) - {x};
      SubsetCount(Members(bt), Members(at) - {x});
      assert false;
    }
    y :| y in Members(bt) && y !in Members(at);
  }

  lemma OlderThanNewest(entries: seq<Entry>, keep: nat, at: seq<nat>, i: nat, x: nat)
    requires Newest(entries, keep, at) && i < |entries| && i !in at && x in at
    ensures x < |entries| && Older(entries, i, x)
  {
    var k :| 0 <= k < |at| && at[k] == x;
  }

  lemma NewestSubset(entries: seq<Entry>, keep: nat, at: seq<nat>, bt: seq<nat>)
    requires Newest(entries, keep, at) && Newest(entries, keep, bt)
    ensures forall x :: x in at ==> x in bt
  {
    forall x | x in at ensures x in bt {
      if x !in bt {
        var y := OtherElement(at, bt, x);
        OlderThanNewest(entries, keep, at, y, x);
        OlderThanNewest(entries, keep, bt, x, y);
      }
    }
  }

  lemma {:induction false} SubsetCount<T>(a: set<T>, b: set<T>)
    requires a <= b
    ensures |a| <= |b|
  {
    if a != {} {
      var x :| x in a;
      SubsetCount(a - {x}, b - {x});
    }
  }

  lemma {:induction false} AscendingSame(at: seq<nat>, bt: seq<nat>)
    requires forall j, k :: 0 <= j < k < |at| ==> at[j] < at[k]
    requires forall j, k :: 0 <= j < k < |bt| ==> bt[j] < bt[k]
    requires |at| == |bt| && (forall x :: x in at ==> x in bt) && (forall x :: x in bt ==> x in at)
    ensures at == bt
  {
    if at != [] {
      var n := |at| - 1;
      assert at[n] in bt && bt[n] in at;
      assert at[n] == bt[n];
      forall x ensures x in at[..n] <==> x in bt[..n] {
        InitMembers(at, x);
        InitMembers(bt, x);
      }
      AscendingSame(at[..n], bt[..n]);
      assert at == at[..n] + [at[n]] && bt == bt[..n] + [bt[n]];
    }
  }

  lemma InitMembers(at: seq<nat>, x: nat)
    requires at != [] && forall j, k :: 0 <= j < k < |at| ==> at[j] < at[k]
    ensures x in at[..|at| - 1] <==> x in at && x != at[|at| - 1]
  {
    if x in at && x != at[|at| - 1] {
      var i :| 0 <= i < |at| && at[i] == x;
      assert at[..|at| - 1][i] == x;
    }
  }

  /** Pruning decides what is kept. */
  lemma KeptUnique(entries: seq<Entry>, keep: nat, a: seq<Entry>, b: seq<Entry>)
    requires Kept(entries, keep, a) && Kept(entries, keep, b)
    ensures a == b
  {
    var at :| Newest(entries, keep, at) && a == Select(entries, at);
    var bt :| Newest(entries, keep, bt) && b == Select(entries, bt);
    NewestUnique(entries, keep, at, bt);
  }

  lemma InComposed(at: seq<nat>, bt: seq<nat>, ct: seq<nat>, j: nat)
    requires j in bt && |ct| == |bt| && forall k :: 0 <= k < |bt| ==> bt[k] < |at| && ct[k] == at[bt[k]]
    ensures j < |at| && at[j] in ct
  {
    var m :| 0 <= m < |bt| && bt[m] == j;
    assert ct[m] == at[j];
  }

  /** Pruning to one count and then to another is pruning to the smaller one. */
  lemma PruneTwice(entries: seq<Entry>, k1: nat, k2: nat, once: seq<Entry>, twice: seq<Entry>)
    requires Kept(entries, k1, once) && Kept(once, k2, twice)
    ensures Kept(entries, Min(k1, k2), twice)
  {
    var at :| Newest(entries, k1, at) && once == Select(entries, at);
    var bt :| Newest(once, k2, bt) && twice == Select(once, bt);
    var ct := seq(|bt|, k requires 0 <= k < |bt| => at[bt[k]]);
    forall i, k | 0 <= i < |entries| && i !in ct && 0 <= k < |ct| ensures Older(entries, i, ct[k]) {
      if i in at {
        var j :| 0 <= j < |at| && at[j] == i;
        if j in bt { InComposed(at, bt, ct, j); }
        OlderThanNewest(once, k2, bt, j, bt[k]);
      }
    }
    assert Newest(entries, Min(k1, k2), ct);
    assert twice == Select(entries, ct);
  }

  // The trend.

  datatype Label = Empty | InsufficientData | Improving | Worsening | Stable

  /** The trend report without its entry count. */
  datatype Trend = Trend(
    latestStatus: string, latest: nat, previous: nat, delta: int, verdict: Label, latestPath: string)

  function TrendOf(entries: seq<Entry>): Trend {
    if entries == [] then Trend("", 0, 0, 0, Empty, "")
    else
      var last := entries[|entries| - 1];
      if |entries| < 2 then Trend(last.status, last.alertCount, 0, last.alertCount, InsufficientData, last.path)
      else
        var previous := entries[|entries| - 2].alertCount;
        var delta := last.alertCount - previous;
        Trend(last.status, last.alertCount, previous, delta,
              if delta < 0 then Improving else if delta > 0 then Worsening else Stable, last.path)
  }

  ghost predicate Chronological(entries: seq<Entry>) {
    forall i, j :: 0 <= i < j < |entries| ==> entries[i].generatedAtMs <= entries[j].generatedAtMs
  }

  lemma LastIn(bt: seq<nat>, start: nat, i: nat)
    requires start <= i < start + |bt| && forall k :: 0 <= k < |bt| ==> bt[k] == start + k
    ensures i in bt
  {
    assert bt[i - start] == i;
  }

  /** With timestamps in order, the newest entries are the last ones. */
  lemma NewestAreLast(entries: seq<Entry>, keep: nat, at: seq<nat>)
    requires Newest(entries, keep, at) && Chronological(entries)
    ensures forall k :: 0 <= k < |at| ==> at[k] == |entries| - |at| + k
  {
    var n := |entries|;
    var bt: seq<nat> := seq(|at|, k requires 0 <= k < |at| => n - |at| + k);
    forall i, k | 0 <= i < n && i !in bt && 0 <= k < |bt| ensures Older(entries, i, bt[k]) {
      if i >= n - |at| { LastIn(bt, n - |at|, i); }
    }
    NewestUnique(entries, keep, at, bt);
  }

  /** With timestamps in order, pruning leaves the trend alone exactly when it keeps at least two entries or
      there were fewer than two. */
  lemma TrendSurvivesPrune(entries: seq<Entry>, keep: nat, kept: seq<Entry>)
    requires keep > 0 && Kept(entries, keep, kept) && Chronological(entries)
    ensures TrendOf(kept) == TrendOf(entries) <==> keep >= 2 || |entries| < 2
  {
    var at :| Newest(entries, keep, at) && kept == Select(entries, at);
    NewestAreLast(entries, keep, at);
  }

  /** What the trend says, from the last two entries: better is fewer alerts. */
  lemma TrendTells(entries: seq<Entry>)
    ensures var trend, n := TrendOf(entries), |entries|;
            && (trend.verdict == Empty <==> n == 0) && (trend.verdict == InsufficientData <==> n == 1)
            && (n > 0 ==> trend.latest == entries[n - 1].alertCount && trend.latestStatus == entries[n - 1].status
                          && trend.latestPath == entries[n - 1].path && trend.delta == trend.latest - trend.previous)
            && (n == 1 ==> trend.previous == 0)
            && (n >= 2 ==>
                  && trend.previous == entries[n - 2].alertCount
                  && (trend.verdict == Improving <==> entries[n - 1].alertCount < entries[n - 2].alertCount)
                  && (trend.verdict == Worsening <==> entries[n - 1].alertCount > entries[n - 2].alertCount)
                  && (trend.verdict == Stable <==> entries[n - 1].alertCount == entries[n - 2].alertCount))
  {}
}
