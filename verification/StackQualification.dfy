/** The Windows stack qualification loop (`windows_stack_qualification`, the part that runs the profiles).
    Child processes are an oracle that gives each command of each repository its status and duration. */
module StackQualification {
  import opened Wrappers

  const ACCEPTED := "accepted"

  /** `duration` is `None` where the reported value is no number. */
  datatype Child = Child(status: string, duration: Option<real>)

  /** A requested repository: below the factory root or not, checked out or not, and its command profile. */
  datatype Repo = Repo(name: string, inside: bool, checkedOut: bool, profile: seq<string>)

  datatype Row = Row(repo: string, command: string, status: string)

  datatype Outcome = Escape(repo: string) | Finished(accepted: bool, rows: seq<Row>, deadlineExceeded: bool)

  /** What the loops have done so far. */
  datatype Progress = Progress(rows: seq<Row>, elapsed: real, exceeded: bool)

  type Oracle = (nat, nat) -> Child

  function Later(elapsed: real, child: Child, deadline: Option<real>): real {
    match child.duration
    case Some(d) => elapsed + d
    case None => if deadline.Some? then deadline.value else elapsed
  }

  predicate Over(elapsed: real, deadline: Option<real>) {
    deadline.Some? && elapsed > deadline.value
  }

  /** The commands of repository `r` from number `c` on: the loop stops at the first command that crosses the
      deadline or is not accepted. */
  function RunProfile(repo: Repo, r: nat, c: nat, p: Progress, deadline: Option<real>, run: Oracle): Progress
    decreases |repo.profile| - c
  {
    if c >= |repo.profile| then p
    else
      var child := run(r, c);
      var rows := p.rows + [Row(repo.name, repo.profile[c], child.status)];
      var elapsed := Later(p.elapsed, child, deadline);
      if Over(elapsed, deadline) then Progress(rows, elapsed, true)
      else if child.status != ACCEPTED then Progress(rows, elapsed, p.exceeded)
      else RunProfile(repo, r, c + 1, Progress(rows, elapsed, p.exceeded), deadline, run)
  }

  function RunRepo(repo: Repo, physical: bool, r: nat, p: Progress, deadline: Option<real>, run: Oracle): Progress {
    if !repo.checkedOut then p.(rows := p.rows + [Row(repo.name, "repository-present", "failed")])
    else if physical && repo.profile == [] then
      p.(rows := p.rows + [Row(repo.name, "delegated-to-hosted-native-windows", ACCEPTED)])
    else RunProfile(repo, r, 0, p, deadline, run)
  }

  /** Up to repository `n`; `Err` names one outside the factory root, which ends the whole call. */
  function RunRepos(repos: seq<Repo>, physical: bool, n: nat, deadline: Option<real>, run: Oracle)
    : Result<Progress, string>
    requires n <= |repos|
  {
    if n == 0 then Ok(Progress([], 0.0, false))
    else
      var p :- RunRepos(repos, physical, n - 1, deadline, run);
      if p.exceeded then Ok(p)
      else if !repos[n - 1].inside then Err(repos[n - 1].name)
      else Ok(RunRepo(repos[n - 1], physical, n - 1, p, deadline, run))
  }

  predicate AllAccepted(rows: seq<Row>) {
    forall i :: 0 <= i < |rows| ==> rows[i].status == ACCEPTED
  }

  function OutcomeOf(r: Result<Progress, string>): Outcome {
    match r
    case Err(repo) => Escape(repo)
    case Ok(p) => Finished(p.rows != [] && !p.exceeded && AllAccepted(p.rows), p.rows, p.exceeded)
  }

  method Qualify(repos: seq<Repo>, physical: bool, deadline: Option<real>, run: Oracle) returns (outcome: Outcome)
    ensures outcome == OutcomeOf(RunRepos(repos, physical, |repos|, deadline, run))
  {
    hide AllAccepted;
    var results: seq<Row> := [];
    var elapsed := 0.0;
    var deadlineExceeded := false;
    var n := 0;
    while n < |repos| && !deadlineExceeded
      invariant n <= |repos|
      invariant RunRepos(repos, physical, n, deadline, run) == Ok(Progress(results, elapsed, deadlineExceeded))
    {
      var repo := repos[n];
      if !repo.inside {
        StopsThere(repos, physical, n + 1, |repos|, deadline, run);
        return Escape(repo.name);
      }
      if !repo.checkedOut {
        results := results + [Row(repo.name, "repository-present", "failed")];
      } else if physical && repo.profile == [] {
        results := results + [Row(repo.name, "delegated-to-hosted-native-windows", ACCEPTED)];
      } else {
        ghost var start := Progress(results, elapsed, false);
        var c := 0;
        var going := true;
        while c < |repo.profile| && going
          invariant c <= |repo.profile|
          invariant going ==> !deadlineExceeded
          invariant RunProfile(repo, n, 0, start, deadline, run) ==
                    if going then RunProfile(repo, n, c, Progress(results, elapsed, deadlineExceeded), deadline, run)
                    else Progress(results, elapsed, deadlineExceeded)
        {
          var child := run(n, c);
          results := results + [Row(repo.name, repo.profile[c], child.status)];
          elapsed := Later(elapsed, child, deadline);
          if Over(elapsed, deadline) {
            deadlineExceeded := true;
            going := false;
          } else if child.status != ACCEPTED {
            going := false;
          }
          c := c + 1;
        }
      }
      n := n + 1;
    }
    StopsThere(repos, physical, n, |repos|, deadline, run);
    outcome := Finished(results != [] && !deadlineExceeded && AllAccepted(results), results, deadlineExceeded);
  }

  /** After an escape or a crossed deadline no further repository runs. */
  lemma {:induction false} StopsThere(repos: seq<Repo>, physical: bool, n: nat, m: nat,
                                      deadline: Option<real>, run: Oracle)
    requires n <= m <= |repos|
    requires var r := RunRepos(repos, physical, n, deadline, run); r.Err? || r.value.exceeded || n == m
    ensures RunRepos(repos, physical, m, deadline, run) == RunRepos(repos, physical, n, deadline, run)
  {
    if n < m {
      StopsThere(repos, physical, n, m - 1, deadline, run);
    }
  }

  // The verdict, from the request and the oracle alone.

  /** All rows that a repository contributes when nothing stops it. */
  function FullRows(repo: Repo, physical: bool): seq<Row> {
    if physical && repo.profile == [] then [Row(repo.name, "delegated-to-hosted-native-windows", ACCEPTED)]
    else ProfileRows(repo)
  }

  function ProfileRows(repo: Repo): (r: seq<Row>)
    ensures |r| == |repo.profile| && forall c :: 0 <= c < |r| ==> r[c] == Row(repo.name, repo.profile[c], ACCEPTED)
  {
    seq(|repo.profile|, c requires 0 <= c < |repo.profile| => Row(repo.name, repo.profile[c], ACCEPTED))
  }

  function AllRows(repos: seq<Repo>, physical: bool, n: nat): seq<Row>
    requires n <= |repos|
  {
    if n == 0 then [] else AllRows(repos, physical, n - 1) + FullRows(repos[n - 1], physical)
  }

  /** The clock if nothing stopped the run; a duration that is no number uses up the deadline. */
  function Clock(elapsed: real, child: Child, deadline: Option<real>): real {
    match child.duration
    case Some(d) => elapsed + d
    case None => if deadline.Some? && elapsed < deadline.value then deadline.value else elapsed
  }

  function ProfileTime(repo: Repo, r: nat, c: nat, elapsed: real, deadline: Option<real>, run: Oracle): real
    decreases |repo.profile| - c
  {
    if c >= |repo.profile| then elapsed
    else ProfileTime(repo, r, c + 1, Clock(elapsed, run(r, c), deadline), deadline, run)
  }

  /** The commands run; a repository that is not checked out or that is delegated runs none. */
  function TotalTime(repos: seq<Repo>, n: nat, deadline: Option<real>, run: Oracle): real
    requires n <= |repos|
  {
    if n == 0 then 0.0
    else ProfileTime(repos[n - 1], n - 1, 0, TotalTime(repos, n - 1, deadline, run), deadline, run)
  }

  /** The monotonic clock, and a deadline that was checked to be positive. */
  ghost predicate SaneTimes(deadline: Option<real>, run: Oracle) {
    && (deadline.Some? ==> deadline.value > 0.0)
    && forall r: nat, c: nat :: run(r, c).duration.Some? ==> run(r, c).duration.value >= 0.0
  }

  ghost predicate PassesFrom(repo: Repo, r: nat, c: nat, run: Oracle) {
    forall k: nat :: c <= k < |repo.profile| ==> run(r, k).status == ACCEPTED
  }

  lemma {:induction false} TimeGrows(repo: Repo, r: nat, c: nat, elapsed: real, deadline: Option<real>, run: Oracle)
    requires SaneTimes(deadline, run)
    ensures ProfileTime(repo, r, c, elapsed, deadline, run) >= elapsed
    decreases |repo.profile| - c
  {
    if c < |repo.profile| {
      TimeGrows(repo, r, c + 1, Clock(elapsed, run(r, c), deadline), deadline, run);
    }
  }

  /** A profile runs to its end in time, or leaves its mark: a crossed deadline or a row not accepted. */
  lemma {:induction false} ProfileVerdict(repo: Repo, r: nat, c: nat, p: Progress, deadline: Option<real>, run: Oracle)
    requires SaneTimes(deadline, run) && !Over(p.elapsed, deadline) && !p.exceeded && c <= |repo.profile|
    ensures var q := RunProfile(repo, r, c, p, deadline, run);
            var time := ProfileTime(repo, r, c, p.elapsed, deadline, run);
            if PassesFrom(repo, r, c, run) && !Over(time, deadline)
            then q == Progress(p.rows + ProfileRows(repo)[c..], time, false)
            else q.exceeded || !AllAccepted(q.rows)
    decreases |repo.profile| - c
  {
    if c < |repo.profile| {
      var child := run(r, c);
      var row := Row(repo.name, repo.profile[c], child.status);
      var elapsed := Later(p.elapsed, child, deadline);
      assert elapsed == Clock(p.elapsed, child, deadline);
      TimeGrows(repo, r, c + 1, elapsed, deadline, run);
      if Over(elapsed, deadline) {
      } else if child.status != ACCEPTED {
        var rows := p.rows + [row];
        assert rows[|rows| - 1].status != ACCEPTED;
      } else {
        ProfileVerdict(repo, r, c + 1, Progress(p.rows + [row], elapsed, false), deadline, run);
        assert p.rows + ProfileRows(repo)[c..] == (p.rows + [row]) + ProfileRows(repo)[c + 1..] by {
          assert ProfileRows(repo)[c] == row;
        }
      }
    } else {
      assert p.rows + ProfileRows(repo)[c..] == p.rows;
    }
  }

  ghost predicate RepoPasses(repo: Repo, r: nat, run: Oracle) {
    repo.inside && repo.checkedOut && PassesFrom(repo, r, 0, run)
  }

  ghost predicate AllPass(repos: seq<Repo>, n: nat, run: Oracle)
    requires n <= |repos|
  {
    forall i: nat :: i < n ==> RepoPasses(repos[i], i, run)
  }

  lemma RepoVerdict(repo: Repo, physical: bool, r: nat, p: Progress, deadline: Option<real>, run: Oracle)
    requires SaneTimes(deadline, run) && !Over(p.elapsed, deadline) && !p.exceeded
    ensures var q := RunRepo(repo, physical, r, p, deadline, run);
            var time := ProfileTime(repo, r, 0, p.elapsed, deadline, run);
            if repo.checkedOut && PassesFrom(repo, r, 0, run) && !Over(time, deadline)
            then q == Progress(p.rows + FullRows(repo, physical), time, false)
            else q.exceeded || !AllAccepted(q.rows)
  {
    hide ProfileRows;
    if !repo.checkedOut {
      var rows := p.rows + [Row(repo.name, "repository-present", "failed")];
      assert rows[|rows| - 1].status == "failed";
    } else if !(physical && repo.profile == []) {
      ProfileVerdict(repo, r, 0, p, deadline, run);
      assert ProfileRows(repo)[0..] == ProfileRows(repo);
    }
  }

  /** A row that was not accepted stays. */
  lemma {:induction false} RowsGrow(repo: Repo, r: nat, c: nat, p: Progress, deadline: Option<real>, run: Oracle)
    ensures p.rows <= RunProfile(repo, r, c, p, deadline, run).rows
    decreases |repo.profile| - c
  {
    if c < |repo.profile| {
      var child := run(r, c);
      var rows := p.rows + [Row(repo.name, repo.profile[c], child.status)];
      RowsGrow(repo, r, c + 1, Progress(rows, Later(p.elapsed, child, deadline), p.exceeded), deadline, run);
    }
  }

  lemma RepoRowsGrow(repo: Repo, physical: bool, r: nat, p: Progress, deadline: Option<real>, run: Oracle)
    ensures p.rows <= RunRepo(repo, physical, r, p, deadline, run).rows
    ensures !AllAccepted(p.rows) ==> !AllAccepted(RunRepo(repo, physical, r, p, deadline, run).rows)
  {
    RowsGrow(repo, r, 0, p, deadline, run);
  }

  lemma {:induction false} RunVerdict(repos: seq<Repo>, physical: bool, n: nat, deadline: Option<real>, run: Oracle)
    requires SaneTimes(deadline, run) && n <= |repos|
    ensures var result := RunRepos(repos, physical, n, deadline, run);
            var time := TotalTime(repos, n, deadline, run);
            if AllPass(repos, n, run) && !Over(time, deadline)
            then result == Ok(Progress(AllRows(repos, physical, n), time, false))
            else result.Err? || result.value.exceeded || !AllAccepted(result.value.rows)
  {
    hide PassesFrom, AllAccepted, RunRepo, FullRows, ProfileTime;
    if n > 0 {
      RunVerdict(repos, physical, n - 1, deadline, run);
      var before, time := RunRepos(repos, physical, n - 1, deadline, run), TotalTime(repos, n - 1, deadline, run);
      TimeGrows(repos[n - 1], n - 1, 0, time, deadline, run);
      if before.Ok? && !before.value.exceeded {
        RepoRowsGrow(repos[n - 1], physical, n - 1, before.value, deadline, run);
        if AllPass(repos, n - 1, run) && !Over(time, deadline) {
          RepoVerdict(repos[n - 1], physical, n - 1, before.value, deadline, run);
        }
      }
    }
  }

  /** A run is accepted exactly when it has at least one row, every requested repository lies below the
      factory root, is checked out and passes its whole profile, and the total time stays within the
      deadline; its rows are then every profile in order, with a single row for a delegated repository. */
  lemma AcceptedExactly(repos: seq<Repo>, physical: bool, deadline: Option<real>, run: Oracle)
    requires SaneTimes(deadline, run)
    ensures var outcome := OutcomeOf(RunRepos(repos, physical, |repos|, deadline, run));
            && (outcome.Finished? && outcome.accepted <==>
                && AllRows(repos, physical, |repos|) != []
                && AllPass(repos, |repos|, run)
                && (deadline.None? || TotalTime(repos, |repos|, deadline, run) <= deadline.value))
            && (outcome.Finished? && outcome.accepted ==> outcome.rows == AllRows(repos, physical, |repos|))
  {
    RunVerdict(repos, physical, |repos|, deadline, run);
    AllRowsAccepted(repos, physical, |repos|);
    OverTells(TotalTime(repos, |repos|, deadline, run), deadline);
    hide *;
  }

  lemma {:induction false} AllRowsAccepted(repos: seq<Repo>, physical: bool, n: nat)
    requires n <= |repos|
    ensures AllAccepted(AllRows(repos, physical, n))
  {
    if n > 0 {
      AllRowsAccepted(repos, physical, n - 1);
    }
  }

  /** The rows of the commands numbered `c` to `m`, with the statuses they had. */
  function RanRows(repo: Repo, r: nat, c: nat, m: nat, run: Oracle): seq<Row>
    requires c <= m <= |repo.profile|
    decreases m - c
  {
    if c == m then [] else [Row(repo.name, repo.profile[c], run(r, c).status)] + RanRows(repo, r, c + 1, m, run)
  }

  /** What one attempted profile adds: its commands in order up to some number, every one before the last
      accepted; it ends early only at a command that was not accepted or that crossed the deadline. */
  lemma {:induction false} ProfileShape(repo: Repo, r: nat, c: nat, p: Progress, deadline: Option<real>, run: Oracle)
    returns (m: nat)
    requires c <= |repo.profile| && !p.exceeded
    ensures c <= m <= |repo.profile|
    ensures var q := RunProfile(repo, r, c, p, deadline, run);
            && q.rows == p.rows + RanRows(repo, r, c, m, run)
            && (forall k: nat :: c <= k < m - 1 ==> run(r, k).status == ACCEPTED)
            && (q.exceeded <==> m > c && Over(q.elapsed, deadline))
            && (m < |repo.profile| ==> m > c && (q.exceeded || run(r, m - 1).status != ACCEPTED))
    decreases |repo.profile| - c
  {
    m := c;
    if c < |repo.profile| {
      var child := run(r, c);
      var row := Row(repo.name, repo.profile[c], child.status);
      var next := Progress(p.rows + [row], Later(p.elapsed, child, deadline), false);
      m := c + 1;
      assert RanRows(repo, r, c, c + 1, run) == [row];
      if !Over(next.elapsed, deadline) && child.status == ACCEPTED {
        m := ProfileShape(repo, r, c + 1, next, deadline, run);
        assert next.rows + RanRows(repo, r, c + 1, m, run) == p.rows + RanRows(repo, r, c, m, run);
      }
    } else {
      assert p.rows + RanRows(repo, r, c, c, run) == p.rows;
    }
  }

  /** What repository `r` may contribute to the rows, and whether it ended in the command that crossed the
      deadline. A profile that ends early ends at that command or at one that was not accepted. */
  ghost predicate Contributes(repo: Repo, physical: bool, r: nat, rows: seq<Row>, crossed: bool, run: Oracle) {
    if !repo.checkedOut then rows == [Row(repo.name, "repository-present", "failed")] && !crossed
    else if physical && repo.profile == [] then rows == FullRows(repo, physical) && !crossed
    else exists m: nat :: RanPrefix(repo, r, m, rows, crossed, run)
  }

  ghost predicate RanPrefix(repo: Repo, r: nat, m: nat, rows: seq<Row>, crossed: bool, run: Oracle) {
    && m <= |repo.profile| && rows == RanRows(repo, r, 0, m, run)
    && (forall k: nat :: k < m - 1 ==> run(r, k).status == ACCEPTED)
    && (crossed ==> m > 0)
    && (m < |repo.profile| ==> m > 0 && (crossed || run(r, m - 1).status != ACCEPTED))
  }

  function Flatten(parts: seq<seq<Row>>): seq<Row> {
    if parts == [] then [] else Flatten(parts[..|parts| - 1]) + parts[|parts| - 1]
  }

  /** One part for each repository in order, up to the one that crossed the deadline or the last one requested;
      only the last part may have crossed. */
  ghost predicate Shaped(repos: seq<Repo>, physical: bool, n: nat, p: Progress, parts: seq<seq<Row>>, run: Oracle)
    requires n <= |repos|
  {
    && |parts| <= n && p.rows == Flatten(parts)
    && (p.exceeded ==> parts != []) && (!p.exceeded ==> |parts| == n)
    && forall r: nat :: r < |parts| ==>
                          repos[r].inside &&
                          Contributes(repos[r], physical, r, parts[r], p.exceeded && r == |parts| - 1, run)
  }

  lemma RepoContributes(repo: Repo, physical: bool, r: nat, p: Progress, deadline: Option<real>, run: Oracle)
    returns (rows: seq<Row>)
    requires !p.exceeded
    ensures var q := RunRepo(repo, physical, r, p, deadline, run);
            q.rows == p.rows + rows && Contributes(repo, physical, r, rows, q.exceeded, run)
  {
    if !repo.checkedOut {
      rows := [Row(repo.name, "repository-present", "failed")];
    } else if physical && repo.profile == [] {
      rows := FullRows(repo, physical);
    } else {
      var m := ProfileShape(repo, r, 0, p, deadline, run);
      rows := RanRows(repo, r, 0, m, run);
      assert RanPrefix(repo, r, m, rows, RunRepo(repo, physical, r, p, deadline, run).exceeded, run);
    }
  }

  /** The rows of any run that did not escape, failed or not: the parts of the repositories in order, whole profiles
      or beginnings of them, and nothing after the command that crossed the deadline. */
  lemma {:induction false} RunShape(repos: seq<Repo>, physical: bool, n: nat, deadline: Option<real>, run: Oracle)
    returns (parts: seq<seq<Row>>)
    requires n <= |repos| && RunRepos(repos, physical, n, deadline, run).Ok?
    ensures Shaped(repos, physical, n, RunRepos(repos, physical, n, deadline, run).value, parts, run)
  {
    parts := [];
    if n > 0 {
      parts := RunShape(repos, physical, n - 1, deadline, run);
      var p := RunRepos(repos, physical, n - 1, deadline, run).value;
      if !p.exceeded {
        hide Contributes, RunRepo;
        var rows := RepoContributes(repos[n - 1], physical, n - 1, p, deadline, run);
        assert (parts + [rows])[..|parts|] == parts;
        parts := parts + [rows];
      }
    }
  }

  /** The call ends in an escape exactly if some repository lies outside the factory root and neither an earlier one
      does nor the deadline was crossed before; the first such repository is named. */
  lemma {:induction false} EscapesExactly(repos: seq<Repo>, physical: bool, n: nat, deadline: Option<real>, run: Oracle)
    requires n <= |repos|
    ensures RunRepos(repos, physical, n, deadline, run).Err? <==>
            exists k: nat :: k < n && EscapesAt(repos, physical, k, deadline, run)
    ensures forall k: nat :: k < n && EscapesAt(repos, physical, k, deadline, run) ==>
                               RunRepos(repos, physical, n, deadline, run) == Err(repos[k].name)
  {
    hide RunRepo;
    if n > 0 {
      EscapesExactly(repos, physical, n - 1, deadline, run);
      forall k: nat | k < n && EscapesAt(repos, physical, k, deadline, run)
        ensures RunRepos(repos, physical, n, deadline, run) == Err(repos[k].name)
      {
        StopsThere(repos, physical, k + 1, n, deadline, run);
      }
      var before := RunRepos(repos, physical, n - 1, deadline, run);
      assert before.Ok? && RunRepos(repos, physical, n, deadline, run).Err? ==>
               EscapesAt(repos, physical, n - 1, deadline, run);
    }
  }

  predicate EscapesAt(repos: seq<Repo>, physical: bool, k: nat, deadline: Option<real>, run: Oracle)
    requires k < |repos|
  {
    var p := RunRepos(repos, physical, k, deadline, run);
    p.Ok? && !p.value.exceeded && !repos[k].inside
  }

  /** The row a repository without a profile run leaves. */
  lemma SingleRows(repo: Repo, physical: bool, r: nat, p: Progress, deadline: Option<real>, run: Oracle)
    ensures !repo.checkedOut ==>
              RunRepo(repo, physical, r, p, deadline, run).rows ==
              p.rows + [Row(repo.name, "repository-present", "failed")]
    ensures repo.checkedOut && physical && repo.profile == [] ==>
              RunRepo(repo, physical, r, p, deadline, run).rows ==
              p.rows + [Row(repo.name, "delegated-to-hosted-native-windows", "accepted")]
  {}

  /** A deadline is crossed when it is exceeded, not when it is met. */
  lemma OverTells(elapsed: real, deadline: Option<real>)
    ensures !Over(elapsed, deadline) <==> deadline.None? || elapsed <= deadline.value
  {}
}
