/** The result outbox: no completed result is lost, over every run of the worker protocol
    (`queue_result_board`, `flush_result_outbox`, `_run_action_thread`). */
module WorkerOutbox {
  import opened Wrappers
  import opened WorkerLedger
  import opened WorkerProtocol
  import opened WorkerRecovery

  /** The request never had two different boards queued. */
  ghost predicate OneBoard(queued: set<(Id, Board)>, id: Id) {
    forall b, c :: (id, b) in queued && (id, c) in queued ==> b == c
  }

  ghost predicate HasBoard(s: State, id: Id) {
    exists b :: (id, b) in s.queued
  }

  ghost predicate Delivered(s: State, id: Id, b: Board) {
    (id, b) in s.posted || (id in s.outbox && s.outbox[id] == b)
  }

  ghost predicate BoardsTracked(s: State) {
    && (forall id :: id in s.outbox ==> (id, s.outbox[id]) in s.queued)
    && (forall f :: f in s.flushes ==>
          var flush := s.flushes[f];
          (flush.id, flush.board) in s.queued && (flush.Sent? ==> (flush.id, flush.board) in s.posted))
  }

  /** An action is completed only after its board was queued. */
  ghost predicate BoardFirst(s: State) {
    && (forall id :: id in s.threads && s.threads[id].Published? ==> HasBoard(s, id))
    && (s.pending.CompleteLogged? ==> HasBoard(s, s.pending.id))
    && (forall id :: id in s.finished ==> HasBoard(s, id))
  }

  ghost predicate AllDelivered(s: State, id: Id) {
    forall b :: (id, b) in s.queued ==> Delivered(s, id, b)
  }

  ghost predicate SomeDelivered(s: State, id: Id) {
    HasBoard(s, id) ==> id in s.outbox || exists b :: (id, b) in s.posted
  }

  /** Claims, completions and crashes leave files, posts and queue history alone. */
  lemma LedgerStepsKeepOutbox(s: State, step: Step)
    requires !OutboxStep(step)
    ensures var t := Exec(s, step);
            && t.outbox == s.outbox && t.posted == s.posted && t.queued == s.queued
            && (t.flushes == s.flushes || t.flushes == map[])
  {
    if !s.pending.Idle? {
      SaveKeepsOutbox(s);
    }
    hide Append, AppendTorn, Recover, Readable, Recorded, MayLog, Saved, PendingEvent;
  }

  lemma SaveKeepsOutbox(s: State)
    requires !s.pending.Idle?
    ensures var t := Saved(s);
            t.outbox == s.outbox && t.posted == s.posted && t.queued == s.queued && t.flushes == s.flushes
  {
    hide Recorded;
    var t := Stored(s);
    assert t.outbox == s.outbox && t.posted == s.posted && t.queued == s.queued && t.flushes == s.flushes;
    hide Stored;
  }

  /** Where published threads, logged and finished completions come from. */
  ghost predicate PublishedFrom(s: State, t: State) {
    && t.queued == s.queued
    && (forall id :: id in t.threads && t.threads[id].Published? ==> id in s.threads && s.threads[id].Published?)
    && (t.pending.CompleteLogged? ==>
          (s.pending == t.pending || (t.pending.id in s.threads && s.threads[t.pending.id].Published?)))
    && (forall id :: id in t.finished ==> id in s.finished || (s.pending.CompleteLogged? && s.pending.id == id))
  }

  lemma LedgerStepsPublish(s: State, step: Step)
    requires !OutboxStep(step)
    ensures PublishedFrom(s, Exec(s, step))
  {
    hide Append, AppendTorn, Recover, Readable, Recorded;
    if Enabled(s, step) {
      match step
      case SaveLogged => SavePublishes(s);
      case LogClaim(id, action) => assert Exec(s, step) == Logged(s, Claim(id, action), ClaimLogged(id, action));
      case LogComplete(id, status) =>
        assert Exec(s, step) == Logged(s, Complete(id, status), CompleteLogged(id, status));
      case _ => hide Saved, Logged;
    }
  }

  lemma SavePublishes(s: State)
    requires !s.pending.Idle?
    ensures PublishedFrom(s, Saved(s))
  {
    hide Recorded;
    match s.pending
    case ClaimLogged(id, action) =>
    case CompleteLogged(id, status) =>
  }

  lemma BoardFirstStep(s: State, step: Step)
    requires BoardFirst(s)
    ensures BoardFirst(Exec(s, step))
  {
    if OutboxStep(step) {
      PublishKeepsBoardFirst(s, step);
    } else {
      LedgerStepsPublish(s, step);
      hide *;
      PublishedKeepsFirst(s, Exec(s, step));
    }
  }

  lemma PublishedKeepsFirst(s: State, t: State)
    requires BoardFirst(s) && PublishedFrom(s, t)
    ensures BoardFirst(t)
  {
    assert forall id :: HasBoard(s, id) ==> HasBoard(t, id);
    hide HasBoard;
  }

  lemma PublishKeepsBoardFirst(s: State, step: Step)
    requires BoardFirst(s) && OutboxStep(step)
    ensures BoardFirst(Exec(s, step))
  {
    hide MayLog;
    OutboxStepsKeepLedger(s, step);
    var t := Exec(s, step);
    assert forall id :: HasBoard(s, id) ==> HasBoard(t, id);
    if step.QueueResult? && Enabled(s, step) {
      assert (step.id, step.board) in t.queued;
    }
    hide HasBoard;
  }

  lemma BoardsTrackedStep(s: State, step: Step)
    requires BoardsTracked(s)
    ensures BoardsTracked(Exec(s, step))
  {
    hide Append, AppendTorn, Recover, Readable, Recorded;
    if !OutboxStep(step) {
      LedgerStepsKeepOutbox(s, step);
      hide Exec;
    }
  }

  /** Removing a posted file cannot remove an undelivered board of a request that has one board. */
  lemma DeliveredStep(s: State, step: Step, id: Id)
    requires BoardsTracked(s) && AllDelivered(s, id) && OneBoard(Exec(s, step).queued, id)
    ensures AllDelivered(Exec(s, step), id)
  {
    var t := Exec(s, step);
    ExecKeepsHistory(s, step);
    if !OutboxStep(step) {
      LedgerStepsKeepOutbox(s, step);
      hide Exec;
    } else {
      hide MayLog;
      forall b | (id, b) in t.queued ensures Delivered(t, id, b) {
        if (id, b) in s.queued {
          assert Delivered(s, id, b);
        }
      }
    }
  }

  /** A file is removed only after a board of its request was posted. */
  lemma SomeDeliveredStep(s: State, step: Step, id: Id)
    requires BoardsTracked(s) && SomeDelivered(s, id)
    ensures SomeDelivered(Exec(s, step), id)
  {
    var t := Exec(s, step);
    if !OutboxStep(step) {
      LedgerStepsKeepOutbox(s, step);
      hide Exec;
      assert HasBoard(t, id) ==> HasBoard(s, id);
    } else {
      hide MayLog;
      assert s.posted <= t.posted;
      if HasBoard(t, id) && !HasBoard(s, id) {
        assert id in t.outbox;
      }
    }
  }

  lemma {:induction false} Tracked(steps: seq<Step>)
    ensures BoardsTracked(Run(steps)) && BoardFirst(Run(steps))
  {
    if steps != [] {
      var init := steps[..|steps| - 1];
      Tracked(init);
      RunLast(steps);
      hide Run, Exec, BoardsTracked, BoardFirst;
      BoardsTrackedStep(Run(init), steps[|steps| - 1]);
      BoardFirstStep(Run(init), steps[|steps| - 1]);
    }
  }

  lemma {:induction false} DeliveredAlways(steps: seq<Step>, id: Id)
    ensures SomeDelivered(Run(steps), id)
    ensures OneBoard(Run(steps).queued, id) ==> AllDelivered(Run(steps), id)
  {
    if steps != [] {
      var init := steps[..|steps| - 1];
      Tracked(init);
      DeliveredAlways(init, id);
      RunLast(steps);
      hide Run, Exec, BoardsTracked, BoardFirst, AllDelivered, SomeDelivered;
      SomeDeliveredStep(Run(init), steps[|steps| - 1], id);
      if OneBoard(Run(steps).queued, id) {
        ExecKeepsHistory(Run(init), steps[|steps| - 1]);
        DeliveredStep(Run(init), steps[|steps| - 1], id);
      }
    }
  }

  // What counts as complete: what a restart reads in the files, whether or not the completion ever returned.

  ghost predicate EntriesHaveBoards(s: State, l: Ledger) {
    forall id :: id in l && l[id].status != IN_PROGRESS ==> HasBoard(s, id)
  }

  ghost predicate RecordsHaveBoards(s: State) {
    && (forall id, status :: Logs(s, Complete(id, status)) ==> HasBoard(s, id))
    && EntriesHaveBoards(s, Saves(s)) && (s.up ==> EntriesHaveBoards(s, s.memory))
  }

  lemma BoardsStay(s: State, step: Step)
    ensures forall id :: HasBoard(s, id) ==> HasBoard(Exec(s, step), id)
  {
    ExecKeepsHistory(s, step);
  }

  lemma ReplayedHaveBoards(s: State)
    requires RecordsHaveBoards(s)
    ensures EntriesHaveBoards(s, Recovered(s))
  {
    hide Events, Replay, HasBoard;
    forall id | id in Recovered(s) && Recovered(s)[id].status != IN_PROGRESS ensures HasBoard(s, id) {
      ReplayOutcome(Saves(s), Events(s.journal), id);
      LastStatusLogged(Events(s.journal), id);
      assert Lookup(Recovered(s), id).Some?;
    }
  }

  lemma LogHasBoard(s: State, e: Event, t: State)
    requires RecordsHaveBoards(s) && BoardFirst(s) && MayLog(s, e)
    requires t.queued == s.queued && t.snapshot == s.snapshot && (t.up ==> t.memory == s.memory)
    requires forall x :: Logs(t, x) ==> Logs(s, x) || x == e
    ensures RecordsHaveBoards(t)
  {
    hide Logs;
    assert forall id :: HasBoard(s, id) ==> HasBoard(t, id);
    hide HasBoard;
  }

  lemma SaveHasBoard(s: State)
    requires RecordsHaveBoards(s) && BoardFirst(s) && s.up && !s.pending.Idle?
    ensures RecordsHaveBoards(Saved(s))
  {
    var t, e := Saved(s), PendingEvent(s.pending).value;
    SavedFiles(s);
    assert forall id :: HasBoard(s, id) ==> HasBoard(t, id);
    assert forall x :: Logs(s, x) <==> Logs(t, x);
    assert e.Complete? ==> HasBoard(s, e.id);
    hide HasBoard, Events, Saved, Recorded, BoardFirst, Logs;
    forall id | id in t.memory && t.memory[id].status != IN_PROGRESS ensures HasBoard(t, id) {
      RecordedStatus(s.memory, e, id);
    }
  }

  lemma SavedFiles(s: State)
    requires !s.pending.Idle?
    ensures var t := Saved(s);
            && t.memory == Recorded(s.memory, PendingEvent(s.pending).value) && t.snapshot == Some(t.memory)
            && t.journal == s.journal && t.queued == s.queued && t.up == s.up
  {
    hide Recorded;
    var t := Stored(s);
    assert t.memory == Recorded(s.memory, PendingEvent(s.pending).value) && t.snapshot == Some(t.memory);
    assert t.journal == s.journal && t.queued == s.queued && t.up == s.up;
    hide Stored;
  }

  lemma RecordedStatus(l: Ledger, e: Event, id: Id)
    requires id in Recorded(l, e) && Recorded(l, e)[id].status != IN_PROGRESS
    ensures (id in l && l[id].status != IN_PROGRESS) || (e.Complete? && e.id == id)
  {}

  lemma OutboxHasBoard(s: State, step: Step)
    requires RecordsHaveBoards(s) && OutboxStep(step)
    ensures RecordsHaveBoards(Exec(s, step))
  {
    OutboxStepsKeepLedger(s, step);
    BoardsStay(s, step);
    hide Exec, HasBoard, Events;
  }

  lemma BootHasBoard(s: State)
    requires RecordsHaveBoards(s) && !s.up
    ensures RecordsHaveBoards(Exec(s, Boot))
  {
    ReplayedHaveBoards(s);
    BoardsStay(s, Boot);
    hide HasBoard, Events, Replay;
  }

  lemma DownHasBoard(s: State, step: Step)
    requires RecordsHaveBoards(s) && (step.Crash? || step.LoseSnapshot?)
    ensures RecordsHaveBoards(Exec(s, step))
  {
    BoardsStay(s, step);
    hide HasBoard, Events;
  }

  lemma RecordsHaveBoardsStep(s: State, step: Step)
    requires RecordsHaveBoards(s) && BoardFirst(s)
    ensures RecordsHaveBoards(Exec(s, step))
  {
    hide RecordsHaveBoards, BoardFirst, Saved, MayLog, Append, AppendTorn, Recover, Logs;
    if OutboxStep(step) {
      OutboxHasBoard(s, step);
    } else if Enabled(s, step) {
      match step
      case Boot => BootHasBoard(s);
      case LogClaim(id, action) =>
        AppendLogged(s, Claim(id, action), ClaimLogged(id, action));
        LogHasBoard(s, Claim(id, action), Exec(s, step));
      case LogComplete(id, status) =>
        AppendLogged(s, Complete(id, status), CompleteLogged(id, status));
        LogHasBoard(s, Complete(id, status), Exec(s, step));
      case SaveLogged => SaveHasBoard(s);
      case CrashInWrite(event, how) =>
        TornLogged(s, event, how);
        LogHasBoard(s, event, Exec(s, step));
      case _ => DownHasBoard(s, step);
    }
  }

  lemma AppendLogged(s: State, e: Event, pending: Pending)
    ensures forall x :: Logs(Logged(s, e, pending), x) ==> Logs(s, x) || x == e
  {
    AppendLogs(s.journal, e);
  }

  lemma TornLogged(s: State, e: Event, how: Torn)
    requires MayLog(s, e)
    ensures forall x :: Logs(Exec(s, CrashInWrite(e, how)), x) ==> Logs(s, x) || x == e
  {
    TornLogs(s.journal, e, how);
  }

  lemma {:induction false} RecordsAlwaysHaveBoards(steps: seq<Step>)
    ensures RecordsHaveBoards(Run(steps))
  {
    if steps == [] {
      assert Events(EMPTY_JOURNAL) == [];
    } else {
      var init := steps[..|steps| - 1];
      RecordsAlwaysHaveBoards(init);
      Tracked(init);
      RunLast(steps);
      hide Run, Exec, RecordsHaveBoards, BoardFirst;
      RecordsHaveBoardsStep(Run(init), steps[|steps| - 1]);
    }
  }

  /** The request is complete: its completion returned, or a restart would read one in the files. */
  ghost predicate RecordedComplete(s: State, id: Id) {
    id in s.finished || (id in Recovered(s) && Recovered(s)[id].status != IN_PROGRESS)
  }

  /** A request recorded complete has a board, and some board of it is in the outbox or at the control plane;
      if it has one board, that is the result -- whatever crashed, was torn or lost, failed to post, was flushed at
      the same time or happened to other requests. */
  lemma {:induction false} NoCompletedResultIsLost(steps: seq<Step>, id: Id)
    ensures var s := Run(steps);
            && (RecordedComplete(s, id) ==> HasBoard(s, id))
            && (HasBoard(s, id) ==> id in s.outbox || exists b :: (id, b) in s.posted)
            && (OneBoard(s.queued, id) ==> forall b :: (id, b) in s.queued ==> Delivered(s, id, b))
  {
    Tracked(steps);
    DeliveredAlways(steps, id);
    RecordsAlwaysHaveBoards(steps);
    ReplayedHaveBoards(Run(steps));
    hide Run, Delivered, BoardsTracked, Recovered;
  }

  // A request with several boards: rejected, perhaps often, and then run.

  /** A flush that read an earlier board of the request. */
  ghost predicate StaleFlush(s: State, id: Id, result: Board) {
    exists f :: f in s.flushes && s.flushes[f].id == id && s.flushes[f].board != result
  }

  /** The claimed request is still known, so that it gets no further board. */
  ghost predicate NoMoreBoards(s: State, id: Id) {
    && id in s.granted
    && (id in s.threads ==> s.threads[id].Published?)
    && !(s.pending.ClaimLogged? && s.pending.id == id)
  }

  /** Whatever a flush reads or removes of this request is the result. */
  ghost predicate ResultKept(s: State, id: Id, result: Board) {
    && Delivered(s, id, result) && (id in s.outbox ==> s.outbox[id] == result)
    && !StaleFlush(s, id, result)
    && forall f :: f in s.flushes && s.flushes[f] == Sent(id, result) ==> (id, result) in s.posted
  }

  lemma GrantedKnown(s: State, id: Id)
    requires ClaimsKept(s) && Recoverable(s) && s.up && id in s.granted
    ensures id in s.memory
  {
    var i :| 0 <= i < |s.granted| && s.granted[i] == id;
  }

  lemma NoMoreBoardsStep(s: State, step: Step, id: Id)
    requires ClaimsKept(s) && Recoverable(s) && NoMoreBoards(s, id)
    ensures NoMoreBoards(Exec(s, step), id)
  {
    if s.up {
      GrantedKnown(s, id);
    }
    hide Recover, Append, AppendTorn, Recorded, ClaimsKept, Readable;
  }

  lemma ResultKeptStep(s: State, step: Step, id: Id, result: Board)
    requires ClaimsKept(s) && Recoverable(s) && NoMoreBoards(s, id) && ResultKept(s, id, result)
    ensures ResultKept(Exec(s, step), id, result)
  {
    if s.up {
      GrantedKnown(s, id);
    }
    hide ClaimsKept;
    if !OutboxStep(step) {
      LedgerStepsKeepOutbox(s, step);
      hide Exec;
    } else if Enabled(s, step) {
      hide Enabled, ResultKept;
      match step
      case QueueResult(other, board) => OtherQueued(s, step, other, board, id, result);
      case QueueRejection(other, board) => OtherQueued(s, step, other, board, id, result);
      case ReadQueued(flush, other) => ResultRead(s, flush, other, id, result);
      case Post(flush) => ResultPosted(s, flush, id, result);
      case FailPost(flush) => ResultFailed(s, flush, id, result);
      case RemovePosted(flush) => ResultRemoved(s, flush, id, result);
    }
  }

  /** A board is queued for some other request. */
  lemma OtherQueued(s: State, step: Step, other: Id, board: Board, id: Id, result: Board)
    requires Enabled(s, step) && (step == QueueResult(other, board) || step == QueueRejection(other, board))
    requires NoMoreBoards(s, id) && ResultKept(s, id, result) && (s.up ==> id in s.memory)
    ensures ResultKept(Exec(s, step), id, result)
  {
    var t := Exec(s, step);
    assert other != id;
    assert t.outbox == s.outbox[other := board] && t.posted == s.posted && t.flushes == s.flushes;
    hide Exec, Enabled;
  }

  lemma ResultRead(s: State, flush: nat, other: Id, id: Id, result: Board)
    requires Enabled(s, ReadQueued(flush, other)) && ResultKept(s, id, result)
    ensures ResultKept(Exec(s, ReadQueued(flush, other)), id, result)
  {
    var t := Exec(s, ReadQueued(flush, other));
    assert t.outbox == s.outbox && t.posted == s.posted;
    assert t.flushes == s.flushes[flush := Holding(other, s.outbox[other])];
    hide Exec, Enabled;
  }

  lemma ResultPosted(s: State, flush: nat, id: Id, result: Board)
    requires Enabled(s, Post(flush)) && ResultKept(s, id, result)
    ensures ResultKept(Exec(s, Post(flush)), id, result)
  {
    var t, f := Exec(s, Post(flush)), s.flushes[flush];
    assert t.outbox == s.outbox && t.posted == s.posted + {(f.id, f.board)};
    assert t.flushes == s.flushes[flush := Sent(f.id, f.board)];
    hide Exec, Enabled;
  }

  lemma ResultFailed(s: State, flush: nat, id: Id, result: Board)
    requires Enabled(s, FailPost(flush)) && ResultKept(s, id, result)
    ensures ResultKept(Exec(s, FailPost(flush)), id, result)
  {
    var t := Exec(s, FailPost(flush));
    assert t.outbox == s.outbox && t.posted == s.posted && t.flushes == s.flushes - {flush};
    hide Exec, Enabled;
  }

  lemma ResultRemoved(s: State, flush: nat, id: Id, result: Board)
    requires Enabled(s, RemovePosted(flush)) && ResultKept(s, id, result)
    ensures ResultKept(Exec(s, RemovePosted(flush)), id, result)
  {
    var t := Exec(s, RemovePosted(flush));
    assert t.outbox == s.outbox - {s.flushes[flush].id} && t.posted == s.posted && t.flushes == s.flushes - {flush};
    hide Exec, Enabled;
  }

  lemma {:induction false} ResultKeptAlways(steps: seq<Step>, more: seq<Step>, id: Id, result: Board)
    requires NoMoreBoards(Run(steps), id) && ResultKept(Run(steps), id, result)
    requires Recoverable(Run(steps + more))
    ensures NoMoreBoards(Run(steps + more), id) && ResultKept(Run(steps + more), id, result)
    decreases |more|
  {
    if more == [] {
      assert steps + more == steps;
    } else {
      var init, last := more[..|more| - 1], more[|more| - 1];
      assert steps + more == (steps + init) + [last];
      RunNext(steps + init, last);
      hide Run, NoMoreBoards, ResultKept;
      ExecKeepsHistory(Run(steps + init), last);
      ResultKeptAlways(steps, init, id, result);
      ClaimsKeptAlways(steps + init);
      NoMoreBoardsStep(Run(steps + init), last, id);
      ResultKeptStep(Run(steps + init), last, id, result);
    }
  }

  lemma {:induction false} ThreadsGranted(steps: seq<Step>)
    ensures var s := Run(steps); forall id :: id in s.threads ==> id in s.granted && s.up
  {
    if steps != [] {
      var init := steps[..|steps| - 1];
      ThreadsGranted(init);
      RunLast(steps);
      ThreadsGrantedStep(Run(init), steps[|steps| - 1]);
    }
  }

  lemma ThreadsGrantedStep(s: State, step: Step)
    requires forall id :: id in s.threads ==> id in s.granted && s.up
    ensures var t := Exec(s, step); forall id :: id in t.threads ==> id in t.granted && t.up
  {
    if s.up && !s.pending.Idle? {
      SavedThreads(s);
    }
    hide Recover, Append, AppendTorn, Saved, Readable;
  }

  lemma SavedThreads(s: State)
    requires s.up && !s.pending.Idle? && forall id :: id in s.threads ==> id in s.granted
    ensures var t := Saved(s); t.up && forall id :: id in t.threads ==> id in t.granted
  {
    hide Recorded;
    var t := Stored(s);
    assert t.up == s.up && t.threads == s.threads && t.granted == s.granted;
    hide Stored;
  }

  /** The result stays delivered in every continuation short of both faults. */
  ghost predicate StaysDelivered(steps: seq<Step>, id: Id, result: Board) {
    forall more: seq<Step> :: Recoverable(Run(steps + more)) ==> Delivered(Run(steps + more), id, result)
  }

  lemma PostedStep(s: State, step: Step)
    ensures s.posted <= Exec(s, step).posted
  {
    if !OutboxStep(step) {
      LedgerStepsKeepOutbox(s, step);
      hide Exec;
    } else {
      hide MayLog;
    }
  }

  lemma {:induction false} PostedStays(steps: seq<Step>, more: seq<Step>)
    ensures Run(steps).posted <= Run(steps + more).posted
    decreases |more|
  {
    if more == [] {
      assert steps + more == steps;
    } else {
      var init, last := more[..|more| - 1], more[|more| - 1];
      assert steps + more == (steps + init) + [last];
      RunNext(steps + init, last);
      hide Run;
      PostedStays(steps, init);
      PostedStep(Run(steps + init), last);
    }
  }

  /** Exactly when the result of an action is safe from the moment it is queued, whatever boards its request got
      before: when no flush is under way that read another one of them, or the very same board was posted. */
  lemma {:induction false} ResultSafeExactly(steps: seq<Step>, id: Id, result: Board)
    requires Recoverable(Run(steps)) && Enabled(Run(steps), QueueResult(id, result))
    ensures StaysDelivered(steps + [QueueResult(id, result)], id, result) <==>
            !StaleFlush(Run(steps), id, result) || (id, result) in Run(steps).posted
  {
    var s, queue := Run(steps), QueueResult(id, result);
    var now := steps + [queue];
    RunNext(steps, queue);
    if (id, result) in s.posted {
      hide Run;
      PostedStep(s, queue);
      forall more: seq<Step> | Recoverable(Run(now + more)) ensures Delivered(Run(now + more), id, result) {
        PostedStays(now, more);
      }
    } else if StaleFlush(s, id, result) {
      var f :| f in s.flushes && s.flushes[f].id == id && s.flushes[f].board != result;
      hide Run;
      StaleFlushLoses(now, id, result, f);
    } else {
      Tracked(steps);
      ThreadsGranted(steps);
      hide Run;
      QueuedKept(s, id, result);
      forall more: seq<Step> | Recoverable(Run(now + more)) ensures Delivered(Run(now + more), id, result) {
        ResultKeptAlways(now, more, id, result);
      }
    }
  }

  lemma QueuedKept(s: State, id: Id, result: Board)
    requires Enabled(s, QueueResult(id, result)) && !StaleFlush(s, id, result) && BoardsTracked(s) && id in s.granted
    ensures var t := Exec(s, QueueResult(id, result)); NoMoreBoards(t, id) && ResultKept(t, id, result)
  {}

  lemma StaleFlushLoses(steps: seq<Step>, id: Id, result: Board, f: nat)
    requires var s := Run(steps);
             && s.up && Recoverable(s) && (id, result) !in s.posted
             && f in s.flushes && s.flushes[f].id == id && s.flushes[f].board != result
    ensures !StaysDelivered(steps, id, result)
  {
    var s := Run(steps);
    var more := if s.flushes[f].Sent? then [RemovePosted(f)] else [Post(f), RemovePosted(f)];
    RunNext(steps, RemovePosted(f));
    TwoSteps(steps, Post(f), RemovePosted(f));
    hide Run;
    StaleFlushStep(s, id, result, f);
    assert Recoverable(Run(steps + more)) && !Delivered(Run(steps + more), id, result);
  }

  lemma StaleFlushStep(s: State, id: Id, result: Board, f: nat)
    requires s.up && Recoverable(s) && (id, result) !in s.posted
    requires f in s.flushes && s.flushes[f].id == id && s.flushes[f].board != result
    ensures var t := if s.flushes[f].Sent? then Exec(s, RemovePosted(f)) else Exec(Exec(s, Post(f)), RemovePosted(f));
            Recoverable(t) && !Delivered(t, id, result)
  {}

  /** A request that was first rejected and then runs can lose its result: the flush that still holds the
      rejection removes the file after the result has replaced it. */
  lemma {:induction false} SecondBoardLosesResult(id: Id, action: string, status: string,
                                                  rejection: Board, result: Board)
    returns (steps: seq<Step>)
    requires Readable(Claim(id, action)) && Readable(Complete(id, status)) && rejection != result
    ensures var s := Run(steps); id in s.finished && (id, result) in s.queued && !Delivered(s, id, result)
  {
    var a := [Boot, QueueRejection(id, rejection), ReadQueued(0, id)];
    var b := [LogClaim(id, action), SaveLogged, QueueResult(id, result)];
    var c := [Post(0), RemovePosted(0)];
    var d := [LogComplete(id, status), SaveLogged];
    steps := a + b + c + d;
    assert [] + a == a;
    hide *;
    ThreeSteps([], Boot, QueueRejection(id, rejection), ReadQueued(0, id));
    Rejected(id, rejection);
    ThreeSteps(a, LogClaim(id, action), SaveLogged, QueueResult(id, result));
    ResultQueued(Run(a), id, action, result);
    TwoSteps(a + b, Post(0), RemovePosted(0));
    RejectionFlushed(Run(a + b), id, rejection, result);
    TwoSteps(a + b + c, LogComplete(id, status), SaveLogged);
    Finishes(Run(a + b + c), id, status, result);
  }

  lemma Rejected(id: Id, rejection: Board)
    ensures var s := Exec(Exec(Exec(Run([]), Boot), QueueRejection(id, rejection)), ReadQueued(0, id));
            && s.up && s.pending.Idle? && s.memory == map[] && s.posted == {} && s.threads == map[]
            && s.flushes == map[0 := Holding(id, rejection)] && s.outbox == map[id := rejection]
  {
    assert Events(EMPTY_JOURNAL) == [];
    assert Exec(Run([]), Boot).memory == map[];
    hide Recover;
  }

  lemma ResultQueued(s: State, id: Id, action: string, result: Board)
    requires s.up && s.pending.Idle? && id !in s.memory && Readable(Claim(id, action))
    ensures var t := Exec(Exec(Exec(s, LogClaim(id, action)), SaveLogged), QueueResult(id, result));
            && t.up && t.pending.Idle? && t.posted == s.posted && t.flushes == s.flushes
            && t.outbox == s.outbox[id := result] && t.threads == s.threads[id := Published]
            && t.queued == s.queued + {(id, result)}
  {
    hide Recorded, Append, Readable, Recover;
    var u := Exec(s, LogClaim(id, action));
    assert u == Logged(s, Claim(id, action), ClaimLogged(id, action));
    var v := Exec(u, SaveLogged);
    assert v == Saved(u) && v.threads == s.threads[id := Running];
  }

  lemma RejectionFlushed(s: State, id: Id, rejection: Board, result: Board)
    requires s.up && s.flushes == map[0 := Holding(id, rejection)] && (id, result) !in s.posted && rejection != result
    ensures var t := Exec(Exec(s, Post(0)), RemovePosted(0));
            && t.up && t.pending == s.pending && t.threads == s.threads && t.queued == s.queued
            && id !in t.outbox && (id, result) !in t.posted
  {}

  lemma Finishes(s: State, id: Id, status: string, result: Board)
    requires s.up && s.pending.Idle? && id in s.threads && s.threads[id].Published? && Readable(Complete(id, status))
    requires id !in s.outbox && (id, result) !in s.posted
    ensures var t := Exec(Exec(s, LogComplete(id, status)), SaveLogged);
            id in t.finished && !Delivered(t, id, result) && t.queued == s.queued
  {
    hide Recorded, Append, Readable, Recover;
    var u := Exec(s, LogComplete(id, status));
    assert u == Logged(s, Complete(id, status), CompleteLogged(id, status));
    assert Exec(u, SaveLogged) == Saved(u);
  }

  /** One file of a flush whose post succeeds. */
  function FlushOne(s: State, flush: nat, id: Id): State {
    Exec(Exec(Exec(s, ReadQueued(flush, id)), Post(flush)), RemovePosted(flush))
  }

  /** A whole flush pass over the pending files. */
  function FlushAll(s: State, flush: nat, ids: seq<Id>): State
    decreases |ids|
  {
    if ids == [] then s else FlushAll(FlushOne(s, flush, ids[0]), flush, ids[1..])
  }

  lemma FlushOneDelivers(s: State, flush: nat, id: Id)
    requires s.up && flush !in s.flushes && id in s.outbox
    ensures var t := FlushOne(s, flush, id);
            && t.up && t.flushes == s.flushes && t.outbox == s.outbox - {id} && t.queued == s.queued
            && t.posted == s.posted + {(id, s.outbox[id])} && SameLedger(s, t) && t.finished == s.finished
  {}

  /** Undisturbed, a flush whose posts succeed delivers everything in the outbox and empties it. */
  lemma {:induction false} FlushDelivers(s: State, flush: nat, ids: seq<Id>)
    requires s.up && flush !in s.flushes
    requires forall i, j :: 0 <= i < j < |ids| ==> ids[i] != ids[j]
    requires forall id :: id in ids <==> id in s.outbox
    ensures var t := FlushAll(s, flush, ids);
            && t.outbox == map[] && t.queued == s.queued && t.finished == s.finished
            && (forall id, b :: (id, b) in t.posted <==> (id, b) in s.posted || (id in s.outbox && s.outbox[id] == b))
    decreases |ids|
  {
    hide FlushOne;
    if ids == [] {
      assert s.outbox == map[];
    } else {
      FlushOneDelivers(s, flush, ids[0]);
      var t := FlushOne(s, flush, ids[0]);
      forall id ensures id in ids[1..] <==> id in t.outbox {
        if id in ids && id != ids[0] {
          var i :| 0 <= i < |ids| && ids[i] == id;
          assert ids[1..][i - 1] == id;
        }
      }
      FlushDelivers(t, flush, ids[1..]);
    }
  }

  /** A post that fails ends its flush and leaves files and control plane as they were; a later flush finds the board
      again. */
  lemma FailedPostKeeps(s: State, flush: nat)
    requires Enabled(s, FailPost(flush))
    ensures var t := Exec(s, FailPost(flush));
            && flush !in t.flushes && t.outbox == s.outbox && t.posted == s.posted && t.queued == s.queued
            && forall id :: id in t.outbox ==> Enabled(t, ReadQueued(flush, id))
  {
    hide Recover, Append, AppendTorn, Saved, Logged, MayLog;
  }
}
