/** Accepting control tasks and polling a board (`accept_control_task` and `poll_once`). Whether an execution
    authorization verifies is an oracle of each poll; `EveryStartWasSigned` fills in the verification. */
module WorkerPoll {
  import opened Wrappers
  import opened Hashing
  import opened Signing
  import opened WorkerLedger
  import opened ExecutionAuthorization

  /** This worker: its node, and what Python's `str(value or "")` makes of a JSON value that is no text (the empty
      text exactly for the values that count as false). */
  datatype Host = Host(node: string, text: Value -> string)

  /** What acceptance reads of an `ao2_cross_host` object, and the object itself, which is verified. */
  datatype Request = Request(
    requestId: Id, action: string, parametersAreObject: bool, arbitraryCommand: bool, crossHost: CrossHost)

  function ValueText(host: Host, value: Value): string {
    if value.Text? then value.text else host.text(value)
  }

  function TextAt(host: Host, fields: Fields, key: string): string {
    if key in fields then ValueText(host, fields[key]) else ""
  }

  function RequestOf(host: Host, c: CrossHost): Request {
    Request(TextAt(host, c.fields, "request_id"), TextAt(host, c.fields, "action"),
            "parameters" in c.fields && c.fields["parameters"].Object?,
            TextAt(host, c.fields, "arbitrary_command_execution") != "", c)
  }

  /** A board task, with its `ao2_cross_host` object if it has one. */
  type Task = Option<CrossHost>

  /** What the control plane answers. */
  datatype Board = NoBoard | Malformed | Tasks(tasks: seq<Task>)

  datatype Status = Ignored | Duplicate | Rejected | Completed | Started

  datatype PollResult =
    | NothingPolled
    | MalformedBoard
    | TaskLimitExceeded
    | DuplicateRequestId
    | AuthorizationBudgetExceeded
    | Accepted(last: Status)

  const MAX_CONTROL_TASKS_PER_BOARD := 32
  const MAX_EXECUTION_AUTHORIZATIONS_PER_POLL := 4

  predicate UnsignedObserver(action: string) {
    action in {"status", "publish_capability"}
  }

  predicate Allowlisted(action: string) {
    || UnsignedObserver(action)
    || action in {"sync_ao_stack", "ao2_doctor", "timeout_fixture", "windows_stack_qualification"}
  }

  const CONTROL_TASK_SCHEMA := "ao2.cross-host.control-task.v1"

  /** Of the known schema and addressed to this worker. */
  predicate Relevant(host: Host, task: Task)
    ensures Relevant(host, task) ==> task.Some?
  {
    && task.Some?
    && Lookup(task.value.fields, "schema_version") == Some(Text(CONTROL_TASK_SCHEMA))
    && Lookup(task.value.fields, "target_node") == Some(Text(host.node))
  }

  /** What acceptance reads and changes: requests in the ledger, actions handed to a thread, observer
      actions answered at once, and rejections posted. */
  datatype View = View(known: set<Id>, started: seq<Request>, answered: seq<Request>, rejected: seq<Request>)

  function Accept(v: View, host: Host, verifies: Request -> bool, task: Task): (View, Status) {
    if !Relevant(host, task) then (v, Ignored)
    else
      var c := RequestOf(host, task.value);
      if c.requestId == "" then (v, Ignored)
      else if c.requestId in v.known then (v, Duplicate)
      else if c.arbitraryCommand || !Allowlisted(c.action) || !c.parametersAreObject
              || (!UnsignedObserver(c.action) && !verifies(c)) then (v.(rejected := v.rejected + [c]), Rejected)
      else if UnsignedObserver(c.action) then
        (v.(known := v.known + {c.requestId}, answered := v.answered + [c]), Completed)
      else (v.(known := v.known + {c.requestId}, started := v.started + [c]), Started)
  }

  function AcceptAll(v: View, host: Host, verifies: Request -> bool, tasks: seq<Task>): (View, Status) {
    if tasks == [] then (v, Ignored)
    else
      var (u, last) := AcceptAll(v, host, verifies, tasks[..|tasks| - 1]);
      var (w, status) := Accept(u, host, verifies, tasks[|tasks| - 1]);
      (w, if status.Ignored? then last else status)
  }

  /** The relevant tasks, in order. */
  function Controls(host: Host, tasks: seq<Task>): seq<Request> {
    if tasks == [] then []
    else
      var last := tasks[|tasks| - 1];
      Controls(host, tasks[..|tasks| - 1]) + if Relevant(host, last) then [RequestOf(host, last.value)] else []
  }

  function AuthorizationCount(controls: seq<Request>): nat {
    if controls == [] then 0
    else
      AuthorizationCount(controls[..|controls| - 1]) +
        if UnsignedObserver(controls[|controls| - 1].action) then 0 else 1
  }

  ghost predicate DistinctRequestIds(controls: seq<Request>) {
    forall i, j :: 0 <= i < j < |controls| && controls[i].requestId != "" ==>
                     controls[i].requestId != controls[j].requestId
  }

  /** The limits a board must meet before any of its tasks is looked at. */
  ghost function Preflight(host: Host, tasks: seq<Task>): Option<PollResult> {
    var controls := Controls(host, tasks);
    if |tasks| > MAX_CONTROL_TASKS_PER_BOARD then Some(TaskLimitExceeded)
    else if !DistinctRequestIds(controls) then Some(DuplicateRequestId)
    else if AuthorizationCount(controls) > MAX_EXECUTION_AUTHORIZATIONS_PER_POLL then Some(AuthorizationBudgetExceeded)
    else None
  }

  ghost function Poll(v: View, host: Host, verifies: Request -> bool, board: Board): (View, PollResult) {
    match board
    case NoBoard => (v, NothingPolled)
    case Malformed => (v, MalformedBoard)
    case Tasks(tasks) =>
      match Preflight(host, tasks)
      case Some(refusal) => (v, refusal)
      case None =>
        var (u, last) := AcceptAll(v, host, verifies, tasks);
        (u, Accepted(last))
  }

  /** The worker, with the ledger it claims from. */
  class OutboundWorker {
    const host: Host
    const state: WorkerState
    var started: seq<Request>
    var answered: seq<Request>
    var rejected: seq<Request>

    constructor (host: Host, state: WorkerState)
      ensures this.host == host && this.state == state
      ensures started == [] && answered == [] && rejected == []
    {
      this.host, this.state := host, state;
      started, answered, rejected := [], [], [];
    }

    ghost function Shown(): View
      reads this, state
    {
      View(state.memory.Keys, started, answered, rejected)
    }

    method AcceptControlTask(verifies: Request -> bool, task: Task) returns (status: Status)
      modifies this, state
      ensures (Shown(), status) == Accept(old(Shown()), host, verifies, task)
      ensures status.Completed? || status.Started? ==> task.Some?
      ensures match status
              case Completed =>
                var c := RequestOf(host, task.value);
                && state.memory == old(state.memory)[c.requestId := Entry(Some(c.action), "accepted")]
                && state.snapshot == Some(state.memory)
                && state.journal ==
                   Append(Append(old(state.journal), Claim(c.requestId, c.action)), Complete(c.requestId, "accepted"))
              case Started =>
                var c := RequestOf(host, task.value);
                && state.memory == old(state.memory)[c.requestId := Entry(Some(c.action), "in_progress")]
                && state.snapshot == Some(state.memory)
                && state.journal == Append(old(state.journal), Claim(c.requestId, c.action))
              case _ =>
                && state.memory == old(state.memory) && state.snapshot == old(state.snapshot)
                && state.journal == old(state.journal)
    {
      hide Allowlisted, UnsignedObserver, Append;
      if !Relevant(host, task) {
        return Ignored;
      }
      var c := RequestOf(host, task.value);
      if c.requestId == "" {
        return Ignored;
      }
      var known := state.HasRequest(c.requestId);
      if known {
        return Duplicate;
      }
      if c.arbitraryCommand || !Allowlisted(c.action) {
        rejected := rejected + [c];
        return Rejected;
      }
      if !c.parametersAreObject {
        rejected := rejected + [c];
        return Rejected;
      }
      if !UnsignedObserver(c.action) && !verifies(c) {
        rejected := rejected + [c];
        return Rejected;
      }
      var granted := state.TryClaim(c.requestId, c.action);
      if !granted {
        return Duplicate;
      }
      assert state.memory.Keys == old(state.memory.Keys) + {c.requestId};
      if UnsignedObserver(c.action) {
        answered := answered + [c];
        state.MarkComplete(c.requestId, "accepted");
        assert state.memory.Keys == old(state.memory.Keys) + {c.requestId};
        return Completed;
      }
      started := started + [c];
      return Started;
    }

    /** The all-or-nothing pass over the board, before any task is accepted. */
    method CheckLimits(tasks: seq<Task>) returns (refusal: Option<PollResult>)
      ensures refusal == Preflight(host, tasks)
    {
      hide Relevant, UnsignedObserver, Controls, AuthorizationCount;
      if |tasks| > MAX_CONTROL_TASKS_PER_BOARD {
        return Some(TaskLimitExceeded);
      }
      NoControls(host, tasks);
      var requestIds: set<Id> := {};
      var authorizations := 0;
      for i := 0 to |tasks|
        invariant authorizations == AuthorizationCount(Controls(host, tasks[..i]))
        invariant DistinctRequestIds(Controls(host, tasks[..i]))
        invariant forall c :: c in Controls(host, tasks[..i]) && c.requestId != "" ==> c.requestId in requestIds
        invariant forall id :: id in requestIds ==>
                                 exists c :: c in Controls(host, tasks[..i]) && c.requestId == id != ""
      {
        ControlsNext(host, tasks, i);
        if Relevant(host, tasks[i]) {
          var c := RequestOf(host, tasks[i].value);
          if c.requestId != "" {
            if c.requestId in requestIds {
              RepeatedId(host, tasks, i);
              return Some(DuplicateRequestId);
            }
            requestIds := requestIds + {c.requestId};
          }
          if !UnsignedObserver(c.action) {
            authorizations := authorizations + 1;
          }
        }
      }
      assert tasks[..|tasks|] == tasks;
      return if authorizations > MAX_EXECUTION_AUTHORIZATIONS_PER_POLL then Some(AuthorizationBudgetExceeded) else None;
    }

    method PollOnce(verifies: Request -> bool, board: Board) returns (r: PollResult)
      modifies this, state
      ensures (Shown(), r) == Poll(old(Shown()), host, verifies, board)
      ensures !r.Accepted? ==> state.memory == old(state.memory) && state.snapshot == old(state.snapshot)
                               && state.journal == old(state.journal)
    {
      hide Accept, Preflight, Controls;
      if board.NoBoard? {
        return NothingPolled;
      }
      if board.Malformed? {
        return MalformedBoard;
      }
      var tasks := board.tasks;
      var refusal := CheckLimits(tasks);
      if refusal.Some? {
        return refusal.value;
      }
      var accepted := Ignored;
      assert tasks[..0] == [];
      for i := 0 to |tasks|
        invariant (Shown(), accepted) == AcceptAll(old(Shown()), host, verifies, tasks[..i])
      {
        assert tasks[..i + 1][..i] == tasks[..i];
        var status := AcceptControlTask(verifies, tasks[i]);
        if !status.Ignored? {
          accepted := status;
        }
      }
      assert tasks[..|tasks|] == tasks;
      return Accepted(accepted);
    }
  }

  lemma NoControls(host: Host, tasks: seq<Task>)
    ensures Controls(host, tasks[..0]) == [] && AuthorizationCount([]) == 0
  {}

  lemma ControlsNext(host: Host, tasks: seq<Task>, i: nat)
    requires i < |tasks|
    ensures Controls(host, tasks[..i + 1]) ==
            if Relevant(host, tasks[i]) then Controls(host, tasks[..i]) + [RequestOf(host, tasks[i].value)]
            else Controls(host, tasks[..i])
    ensures Relevant(host, tasks[i]) ==>
              AuthorizationCount(Controls(host, tasks[..i + 1])) == AuthorizationCount(Controls(host, tasks[..i])) +
                if UnsignedObserver(RequestOf(host, tasks[i].value).action) then 0 else 1
  {
    hide Relevant, UnsignedObserver;
    assert tasks[..i + 1][..i] == tasks[..i];
    var before := Controls(host, tasks[..i]);
    if Relevant(host, tasks[i]) {
      assert (before + [RequestOf(host, tasks[i].value)])[..|before|] == before;
    } else {
      assert before + [] == before;
    }
  }

  lemma {:induction false} ControlsGrow(host: Host, tasks: seq<Task>, i: nat)
    requires i <= |tasks|
    ensures Controls(host, tasks[..i]) <= Controls(host, tasks)
    decreases |tasks| - i
  {
    hide Relevant;
    if i < |tasks| {
      ControlsNext(host, tasks, i);
      ControlsGrow(host, tasks, i + 1);
    } else {
      assert tasks[..i] == tasks;
    }
  }

  lemma RepeatedId(host: Host, tasks: seq<Task>, i: nat)
    requires i < |tasks| && Relevant(host, tasks[i])
    requires var id := RequestOf(host, tasks[i].value).requestId;
             id != "" && exists c :: c in Controls(host, tasks[..i]) && c.requestId == id
    ensures !DistinctRequestIds(Controls(host, tasks))
  {
    hide Relevant, Controls;
    ControlsNext(host, tasks, i);
    ControlsGrow(host, tasks, i + 1);
    var before, all := Controls(host, tasks[..i]), Controls(host, tasks);
    var a :| 0 <= a < |before| && before[a].requestId == RequestOf(host, tasks[i].value).requestId;
    assert all[a].requestId == all[|before|].requestId;
  }

  // Acceptance and the limits of a board, said on the fields of its tasks.

  /** The object names the control schema and this node. */
  predicate Addressed(host: Host, c: CrossHost) {
    && Lookup(c.fields, "schema_version") == Some(Text("ao2.cross-host.control-task.v1"))
    && Lookup(c.fields, "target_node") == Some(Text(host.node))
  }

  /** Status queries, which need no authorization. */
  predicate Observes(c: Request) {
    c.action == "status" || c.action == "publish_capability"
  }

  predicate Permitted(verifies: Request -> bool, c: Request) {
    && (Observes(c) || (c.action in {"sync_ao_stack", "ao2_doctor", "timeout_fixture", "windows_stack_qualification"}
                        && verifies(c)))
    && !c.arbitraryCommand && c.parametersAreObject
  }

  /** Exactly when a task is ignored, a duplicate, rejected, answered or started, and what that changes. */
  lemma AcceptTells(v: View, host: Host, verifies: Request -> bool, task: CrossHost)
    ensures var c, (u, status) := RequestOf(host, task), Accept(v, host, verifies, Some(task));
            var counts := Addressed(host, task) && c.requestId != "";
            && (status.Ignored? <==> !counts)
            && (status.Duplicate? <==> counts && c.requestId in v.known)
            && (status.Rejected? <==> counts && c.requestId !in v.known && !Permitted(verifies, c))
            && (status.Completed? <==> counts && c.requestId !in v.known && Permitted(verifies, c) && Observes(c))
            && (status.Started? <==> counts && c.requestId !in v.known && Permitted(verifies, c) && !Observes(c))
            && u.known == (if status.Completed? || status.Started? then v.known + {c.requestId} else v.known)
            && u.started == (if status.Started? then v.started + [c] else v.started)
            && u.answered == (if status.Completed? then v.answered + [c] else v.answered)
            && u.rejected == (if status.Rejected? then v.rejected + [c] else v.rejected)
    ensures Accept(v, host, verifies, None) == (v, Ignored)
  {
    hide RequestOf;
  }

  /** Two tasks for this node carry one request id. */
  ghost predicate Repeats(host: Host, tasks: seq<Task>, i: nat, j: nat) {
    && i < j < |tasks| && tasks[i].Some? && tasks[j].Some?
    && Addressed(host, tasks[i].value) && Addressed(host, tasks[j].value)
    && TextAt(host, tasks[i].value.fields, "request_id") == TextAt(host, tasks[j].value.fields, "request_id") != ""
  }

  /** The tasks for this node that no observer action excuses from an authorization. */
  function NeedAuthorization(host: Host, tasks: seq<Task>): set<nat> {
    set i: nat | i < |tasks| && tasks[i].Some? && Addressed(host, tasks[i].value)
                 && !Observes(RequestOf(host, tasks[i].value))
  }

  lemma {:induction false} ControlFrom(host: Host, tasks: seq<Task>, c: Request) returns (i: nat)
    requires c in Controls(host, tasks)
    ensures i < |tasks| && Relevant(host, tasks[i]) && RequestOf(host, tasks[i].value) == c
  {
    hide Relevant, RequestOf;
    var n := |tasks| - 1;
    if Relevant(host, tasks[n]) && RequestOf(host, tasks[n].value) == c {
      i := n;
    } else {
      i := ControlFrom(host, tasks[..n], c);
    }
  }

  lemma {:induction false} RepeatFound(host: Host, tasks: seq<Task>) returns (i: nat, j: nat)
    requires !DistinctRequestIds(Controls(host, tasks))
    ensures Repeats(host, tasks, i, j)
  {
    hide RequestOf;
    var n := |tasks| - 1;
    var init, last := tasks[..n], tasks[n];
    if !DistinctRequestIds(Controls(host, init)) {
      i, j := RepeatFound(host, init);
    } else {
      var all := Controls(host, tasks);
      var a, b :| 0 <= a < b < |all| && all[a].requestId == all[b].requestId != "";
      assert b == |all| - 1 && all[a] in Controls(host, init);
      i := ControlFrom(host, init, all[a]);
      j := n;
      IdRead(host, tasks[i].value);
      IdRead(host, last.value);
    }
  }

  lemma IdRead(host: Host, c: CrossHost)
    ensures RequestOf(host, c).requestId == TextAt(host, c.fields, "request_id")
  {}

  lemma RepeatCounts(host: Host, tasks: seq<Task>, i: nat, j: nat)
    requires Repeats(host, tasks, i, j)
    ensures !DistinctRequestIds(Controls(host, tasks))
  {
    IdRead(host, tasks[i].value);
    IdRead(host, tasks[j].value);
    ControlsNext(host, tasks, i);
    ControlsUpTo(host, tasks, i + 1, j);
    var c := RequestOf(host, tasks[i].value);
    hide RequestOf, Controls;
    assert c in Controls(host, tasks[..i + 1]);
    assert c in Controls(host, tasks[..j]);
    RepeatedId(host, tasks, j);
  }

  lemma ControlsUpTo(host: Host, tasks: seq<Task>, i: nat, j: nat)
    requires i <= j <= |tasks|
    ensures Controls(host, tasks[..i]) <= Controls(host, tasks[..j])
  {
    ControlsGrow(host, tasks[..j], i);
    assert tasks[..j][..i] == tasks[..i];
  }

  lemma AddressedTells(host: Host, task: Task)
    ensures Relevant(host, task) <==> task.Some? && Addressed(host, task.value)
    ensures task.Some? ==>
              (UnsignedObserver(RequestOf(host, task.value).action) <==> Observes(RequestOf(host, task.value)))
  {
    hide RequestOf;
  }

  ghost predicate Needs(host: Host, task: Task) {
    task.Some? && Addressed(host, task.value) && !Observes(RequestOf(host, task.value))
  }

  lemma NeedsNext(host: Host, tasks: seq<Task>)
    requires tasks != []
    ensures var n := |tasks| - 1;
            && n !in NeedAuthorization(host, tasks[..n])
            && NeedAuthorization(host, tasks) ==
               NeedAuthorization(host, tasks[..n]) + if Needs(host, tasks[n]) then {n} else {}
  {
    hide RequestOf, Addressed, Observes;
    var n := |tasks| - 1;
    assert forall i :: 0 <= i < n ==> tasks[..n][i] == tasks[i];
  }

  lemma {:induction false} AuthorizationsCounted(host: Host, tasks: seq<Task>)
    ensures AuthorizationCount(Controls(host, tasks)) == |NeedAuthorization(host, tasks)|
  {
    if tasks == [] {
      assert NeedAuthorization(host, tasks) == {};
    } else {
      var n := |tasks| - 1;
      AuthorizationsCounted(host, tasks[..n]);
      assert tasks[..n + 1] == tasks;
      ControlsNext(host, tasks, n);
      AddressedTells(host, tasks[n]);
      NeedsNext(host, tasks);
      hide Relevant, Addressed, UnsignedObserver, Observes, NeedAuthorization, RequestOf, Controls, AuthorizationCount;
    }
  }

  /** When a board is refused, and why, in the order of the checks; a refused board changes nothing, and any other
      board has all its tasks looked at. */
  lemma PollTells(v: View, host: Host, verifies: Request -> bool, tasks: seq<Task>)
    ensures var poll := Poll(v, host, verifies, Tasks(tasks));
            var repeated := exists i: nat, j: nat :: Repeats(host, tasks, i, j);
            && (|tasks| > 32 ==> poll == (v, TaskLimitExceeded))
            && (|tasks| <= 32 && repeated ==> poll == (v, DuplicateRequestId))
            && (|tasks| <= 32 && !repeated && |NeedAuthorization(host, tasks)| > 4 ==>
                  poll == (v, AuthorizationBudgetExceeded))
            && (|tasks| <= 32 && !repeated && |NeedAuthorization(host, tasks)| <= 4 ==>
                  var (u, last) := AcceptAll(v, host, verifies, tasks); poll == (u, Accepted(last)))
    ensures Poll(v, host, verifies, NoBoard) == (v, NothingPolled)
    ensures Poll(v, host, verifies, Malformed) == (v, MalformedBoard)
  {
    AuthorizationsCounted(host, tasks);
    if !DistinctRequestIds(Controls(host, tasks)) {
      var i, j := RepeatFound(host, tasks);
    }
    forall i: nat, j: nat | Repeats(host, tasks, i, j) ensures !DistinctRequestIds(Controls(host, tasks)) {
      RepeatCounts(host, tasks, i, j);
    }
    hide Repeats, DistinctRequestIds, NeedAuthorization, AuthorizationCount, Controls, AcceptAll;
  }

  /** The answer of an accepted board is that of its last task that was not ignored. */
  lemma {:induction false} LastAnswer(v: View, host: Host, verifies: Request -> bool, tasks: seq<Task>, i: nat)
    requires i <= |tasks|
    requires forall j: nat :: i <= j < |tasks| ==>
               Accept(AcceptAll(v, host, verifies, tasks[..j]).0, host, verifies, tasks[j]).1.Ignored?
    requires i > 0 ==>
               !Accept(AcceptAll(v, host, verifies, tasks[..i - 1]).0, host, verifies, tasks[i - 1]).1.Ignored?
    ensures AcceptAll(v, host, verifies, tasks).1 ==
            if i == 0 then Ignored
            else Accept(AcceptAll(v, host, verifies, tasks[..i - 1]).0, host, verifies, tasks[i - 1]).1
  {
    hide Accept;
    if i < |tasks| {
      var n := |tasks| - 1;
      assert forall j: nat :: j <= n ==> tasks[..n][..j] == tasks[..j];
      LastAnswer(v, host, verifies, tasks[..n], i);
    }
  }

  /** An action that may run: read from an object for this node, allowlisted, not marked arbitrary, well-formed,
      and authorized. */
  ghost predicate MayRun(host: Host, verifies: Request -> bool, c: Request) {
    && c == RequestOf(host, c.crossHost) && Relevant(host, Some(c.crossHost)) && c.requestId != ""
    && Allowlisted(c.action) && !c.arbitraryCommand && c.parametersAreObject
    && !UnsignedObserver(c.action) && verifies(c)
  }

  ghost predicate DistinctStarts(started: seq<Request>) {
    forall i, j :: 0 <= i < j < |started| ==> started[i].requestId != started[j].requestId
  }

  /** No request started twice, and every started request is in the ledger. */
  ghost predicate Sound(v: View) {
    && (forall i :: 0 <= i < |v.started| ==> v.started[i].requestId in v.known)
    && DistinctStarts(v.started)
  }

  /** `u` comes after `v`: nothing is forgotten, and what started since may run and was not known before. */
  ghost predicate Follows(v: View, u: View, host: Host, verifies: Request -> bool) {
    && v.known <= u.known && v.started <= u.started
    && forall i :: |v.started| <= i < |u.started| ==>
                     MayRun(host, verifies, u.started[i]) && u.started[i].requestId !in v.known
  }

  lemma AcceptSound(v: View, host: Host, verifies: Request -> bool, task: Task)
    requires Sound(v)
    ensures var (u, status) := Accept(v, host, verifies, task); Sound(u) && Follows(v, u, host, verifies)
  {
    hide Allowlisted, UnsignedObserver;
  }

  lemma FollowsOn(v: View, u: View, w: View, host: Host, verifies: Request -> bool)
    requires Follows(v, u, host, verifies) && Follows(u, w, host, verifies)
    ensures Follows(v, w, host, verifies)
  {
    hide MayRun;
  }

  lemma {:induction false} AcceptAllSound(v: View, host: Host, verifies: Request -> bool, tasks: seq<Task>)
    requires Sound(v)
    ensures var (u, last) := AcceptAll(v, host, verifies, tasks); Sound(u) && Follows(v, u, host, verifies)
    ensures |AcceptAll(v, host, verifies, tasks).0.started| <= |v.started| + AuthorizationCount(Controls(host, tasks))
  {
    hide Sound, MayRun;
    if tasks != [] {
      var i := |tasks| - 1;
      var init := tasks[..i];
      assert tasks[..i + 1] == tasks;
      AcceptAllSound(v, host, verifies, init);
      var u := AcceptAll(v, host, verifies, init).0;
      AcceptSound(u, host, verifies, tasks[i]);
      FollowsOn(v, u, Accept(u, host, verifies, tasks[i]).0, host, verifies);
      ControlsNext(host, tasks, i);
      hide UnsignedObserver, Allowlisted, Follows;
    }
  }

  /** One poll starts at most four threads, all of them actions that may run, with ids not seen before; a
      board over any limit claims nothing, starts nothing and answers nothing. */
  lemma PollIsBounded(v: View, host: Host, verifies: Request -> bool, board: Board)
    requires Sound(v)
    ensures var (u, r) := Poll(v, host, verifies, board);
            && Sound(u) && Follows(v, u, host, verifies)
            && |u.started| <= |v.started| + MAX_EXECUTION_AUTHORIZATIONS_PER_POLL
            && (!r.Accepted? ==> u == v)
  {
    hide Sound, MayRun;
    if board.Tasks? {
      AcceptAllSound(v, host, verifies, board.tasks);
    }
  }

  /** One poll: what verifies in it, and the time at which it verifies each request. */
  datatype Round = Round(board: Board, verifies: Request -> bool, clock: Request -> int)

  ghost function Polls(v: View, host: Host, rounds: seq<Round>): View {
    if rounds == [] then v
    else
      var last := rounds[|rounds| - 1];
      Poll(Polls(v, host, rounds[..|rounds| - 1]), host, last.verifies, last.board).0
  }

  ghost function StartsOf(known: set<Id>, host: Host, rounds: seq<Round>): seq<Request> {
    Polls(View(known, [], [], []), host, rounds).started
  }

  /** Start number `i` happened in round `k`, and was permitted and authorized in that round. */
  ghost predicate StartedIn(known: set<Id>, host: Host, rounds: seq<Round>, i: nat, k: nat) {
    && k < |rounds| && i < |StartsOf(known, host, rounds)|
    && |StartsOf(known, host, rounds[..k])| <= i < |StartsOf(known, host, rounds[..k + 1])|
    && MayRun(host, rounds[k].verifies, StartsOf(known, host, rounds)[i])
  }

  ghost predicate StartedSoundly(known: set<Id>, host: Host, rounds: seq<Round>, i: nat) {
    exists k: nat :: StartedIn(known, host, rounds, i, k)
  }

  /** Over every run of polls, from any ledger: whatever started was allowlisted, not arbitrary, and authorized
      in the very poll that started it, and no request started twice. */
  lemma {:induction false} EveryStartIsSound(known: set<Id>, host: Host, rounds: seq<Round>)
    ensures var v := Polls(View(known, [], [], []), host, rounds);
            && (forall i: nat :: i < |v.started| ==> StartedSoundly(known, host, rounds, i))
            && (forall i, j :: 0 <= i < j < |v.started| ==> v.started[i].requestId != v.started[j].requestId)
            && |v.started| <= MAX_EXECUTION_AUTHORIZATIONS_PER_POLL * |rounds|
            && Sound(v)
  {
    hide MayRun;
    if rounds != [] {
      var n := |rounds| - 1;
      EveryStartIsSound(known, host, rounds[..n]);
      var u := Polls(View(known, [], [], []), host, rounds[..n]);
      PollIsBounded(u, host, rounds[n].verifies, rounds[n].board);
      hide Poll;
      var v := Polls(View(known, [], [], []), host, rounds);
      forall i: nat | i < |v.started| ensures StartedSoundly(known, host, rounds, i) {
        if i < |u.started| {
          assert StartedSoundly(known, host, rounds[..n], i);
          var k: nat :| StartedIn(known, host, rounds[..n], i, k);
          assert rounds[..n][..k] == rounds[..k] && rounds[..n][..k + 1] == rounds[..k + 1];
          assert StartedIn(known, host, rounds, i, k);
        } else {
          assert rounds[..n + 1] == rounds;
          assert StartedIn(known, host, rounds, i, n);
        }
      }
    }
  }

  /** What runs is what was signed: the digest is of the very object the action was read from, and the signed
      subject names the request and the node. */
  ghost predicate RunsAsSigned(host: Host, trusted: set<Digest<PublicKey>>, now: int, c: Request) {
    SignedFor(c.crossHost, trusted, now) &&
    var subject := c.crossHost.attached.authorization.subject;
    && subject.actionDigest == ActionDigest(c.crossHost.fields)
    && c.action == TextAt(host, c.crossHost.fields, "action")
    && c.requestId == ValueText(host, subject.requestId) && subject.targetNode == Text(host.node)
  }

  /** A worker that verifies as `verify_execution_authorization` does: over every run of polls, each action started
      in a poll was signed with a trusted key for exactly the action, request and node that run, and the signature
      was in force at the time of that poll. */
  lemma {:induction false} EveryStartWasSigned(known: set<Id>, host: Host, rounds: seq<Round>,
                                               trusted: set<Digest<PublicKey>>)
    requires forall k, c :: 0 <= k < |rounds| && rounds[k].verifies(c) ==>
                              Verify(c.crossHost, trusted, rounds[k].clock(c)).Verified?
    ensures var started := StartsOf(known, host, rounds);
            forall i: nat :: i < |started| ==> StartedAsSigned(known, host, rounds, trusted, i)
  {
    EveryStartIsSound(known, host, rounds);
    var started := StartsOf(known, host, rounds);
    assert started == Polls(View(known, [], [], []), host, rounds).started;
    hide StartsOf, Polls, MayRun, RunsAsSigned;
    forall i: nat | i < |started| ensures StartedAsSigned(known, host, rounds, trusted, i) {
      assert StartedSoundly(known, host, rounds, i);
      var k: nat :| StartedIn(known, host, rounds, i, k);
      PermittedRunsAsSigned(host, trusted, rounds[k], started[i]);
    }
  }

  ghost predicate StartedAsSigned(known: set<Id>, host: Host, rounds: seq<Round>, trusted: set<Digest<PublicKey>>,
                                  i: nat)
    requires i < |StartsOf(known, host, rounds)|
  {
    var c := StartsOf(known, host, rounds)[i];
    exists k: nat :: StartedIn(known, host, rounds, i, k) && RunsAsSigned(host, trusted, rounds[k].clock(c), c)
  }

  lemma PermittedRunsAsSigned(host: Host, trusted: set<Digest<PublicKey>>, round: Round, c: Request)
    requires MayRun(host, round.verifies, c)
    requires round.verifies(c) ==> Verify(c.crossHost, trusted, round.clock(c)).Verified?
    ensures RunsAsSigned(host, trusted, round.clock(c), c)
  {
    VerifiedMeansSigned(c.crossHost, trusted, round.clock(c));
    hide Verify, Allowlisted, UnsignedObserver;
  }
}
