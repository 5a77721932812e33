/** What a restart knows, exactly: over every run short of both faults, with torn lines as with a lost snapshot. */
module WorkerRestart {
  import opened Wrappers
  import opened WorkerLedger
  import opened WorkerProtocol
  import opened WorkerRecovery

  /** The tail is an event whose effect the line alone records, so that spoiling the line undoes it. The one
      event without an effect is a completion that reports the status every running action has. */
  predicate Spoils(tail: Tail) {
    tail.Unterminated? && tail.event != Complete(tail.event.id, IN_PROGRESS)
  }

  /** What the files say without an event that has no newline yet. */
  function Settled(s: State): Ledger {
    Recover(s.snapshot, Journal(s.journal.lines, Clean))
  }

  /** The event is not in the ledger yet. */
  predicate NotYetIn(l: Ledger, e: Event) {
    match e
    case Claim(id, _) => id !in l
    case Complete(id, _) => id in l && l[id].status == IN_PROGRESS
  }

  ghost predicate OneStatus(s: State) {
    forall id, a, b :: Logs(s, Complete(id, a)) && Logs(s, Complete(id, b)) ==> a == b
  }

  ghost predicate StatusesKnown(s: State) {
    s.up ==> forall id, status :: Logs(s, Complete(id, status)) ==>
                                    || PendingEvent(s.pending) == Some(Complete(id, status))
                                    || (id in s.memory && s.memory[id].status == status)
  }

  predicate TailNew(s: State) {
    s.journal.tail.Unterminated? ==> Readable(s.journal.tail.event) && NotYetIn(Settled(s), s.journal.tail.event)
  }

  /** Only the first append of a process can meet anything but a clean tail. */
  ghost predicate ThreadsRun(s: State) {
    && (forall id :: id in s.threads ==> s.up && id in s.memory && s.memory[id].status == IN_PROGRESS)
    && (s.up && !s.journal.tail.Clean? ==> s.threads == map[] && s.pending.Idle?)
  }

  /** What the files say, by what the pending append met. */
  predicate FilesKnow(s: State) {
    if s.pending.Idle? then Recovered(s) == s.memory
    else
      var e := PendingEvent(s.pending).value;
      match s.met
      case Clean => Recovered(s) == Recorded(s.memory, e)
      case Fragment => Recovered(s) == s.memory
      case Unterminated(last) =>
        && Readable(last) && NotYetIn(Recovered(s), last) && s.memory == Recorded(Recovered(s), last)
        && e.Claim? && e.id !in s.memory
  }

  ghost predicate Restartable(s: State) {
    && OneStatus(s) && StatusesKnown(s) && TailNew(s) && ThreadsRun(s)
    && (s.up ==> FilesKnow(s))
  }

  /** A ledger that holds every event already is not changed by replaying them. */
  lemma {:induction false} ReplayOfKnown(l: Ledger, events: seq<Event>)
    requires forall e :: e in events ==> e.id in l && (e.Complete? ==> l[e.id].status == e.status)
    ensures Replay(l, events) == l
  {
    if events != [] {
      var init, last := events[..|events| - 1], events[|events| - 1];
      assert last in events && forall e :: e in init ==> e in events;
      ReplayOfKnown(l, init);
      assert last.Complete? ==> l[last.id := l[last.id].(status := last.status)] == l;
    }
  }

  lemma SettledAfterAppend(s: State, e: Event)
    ensures !s.journal.tail.Clean? ==> Recover(s.snapshot, Append(s.journal, e)) == Settled(s)
    ensures s.journal.tail.Clean? ==> Settled(s) == Recovered(s)
  {
    EventsAfterAppend(s.journal, e);
    assert Events(Journal(s.journal.lines, Clean)) == WholeEvents(s.journal.lines);
  }

  lemma LogFiles(s: State, e: Event, pending: Pending)
    requires Restartable(s) && MayLog(s, e) && PendingEvent(pending) == Some(e)
    ensures FilesKnow(Logged(s, e, pending))
  {
    hide Recover, Append, Recorded, OneStatus, StatusesKnown;
    CrashBeforeSave(s.snapshot, s.journal, e);
    SettledAfterAppend(s, e);
  }

  lemma LogStatuses(s: State, e: Event, t: State)
    requires Restartable(s) && Durable(s) && !s.lost && MayLog(s, e)
    requires forall x :: Logs(t, x) ==> Logs(s, x) || x == e
    ensures OneStatus(t)
    ensures t.memory == s.memory && PendingEvent(t.pending) == Some(e) ==> StatusesKnown(t)
  {
    hide Logs, FilesKnow, TailNew, WholeJournal;
    if e.Complete? {
      assert OnlyPendingCompletes(s, e.id);
    }
  }

  lemma LogRestartable(s: State, e: Event, pending: Pending)
    requires Restartable(s) && Durable(s) && !s.lost && MayLog(s, e) && PendingEvent(pending) == Some(e)
    ensures Restartable(Logged(s, e, pending))
  {
    var t := Logged(s, e, pending);
    AppendLogs(s.journal, e);
    LogFiles(s, e, pending);
    LogStatuses(s, e, t);
    hide OneStatus, StatusesKnown, FilesKnow, Durable, Events;
  }

  lemma SaveRestartable(s: State)
    requires Restartable(s) && Durable(s) && !s.lost && s.up && !s.pending.Idle?
    ensures Restartable(Saved(s))
  {
    hide Events, Replay, WholeJournal, FinishedStays;
    var t := Saved(s);
    SaveStatuses(s);
    SaveThreads(s);
    ReplayOfKnown(t.memory, Events(t.journal));
    hide OneStatus, StatusesKnown, ThreadsRun, Durable, Saved;
  }

  lemma SaveStatuses(s: State)
    requires Restartable(s) && Durable(s) && !s.lost && s.up && !s.pending.Idle?
    ensures var t := Saved(s);
            && OneStatus(t) && StatusesKnown(t)
            && (forall e :: Logs(t, e) ==> e.id in t.memory && (e.Complete? ==> t.memory[e.id].status == e.status))
  {
    hide Events, WholeJournal, FinishedStays, FilesKnow, TailNew;
  }

  lemma SaveThreads(s: State)
    requires Restartable(s) && Durable(s) && !s.lost && s.up && !s.pending.Idle?
    ensures ThreadsRun(Saved(s)) && Saved(s).journal == s.journal && s.journal.tail.Clean? && TailNew(Saved(s))
  {
    hide Events, WholeJournal, FinishedStays, FilesKnow, OneStatus, StatusesKnown, LoggedKnown;
  }

  lemma BootRestartable(s: State)
    requires Restartable(s) && Durable(s) && !s.lost && !s.up
    ensures Restartable(Exec(s, Boot))
  {
    hide Events, Replay, WholeJournal, FinishedStays;
    var t := Exec(s, Boot);
    forall id, status | Logs(t, Complete(id, status)) ensures id in t.memory && t.memory[id].status == status {
      assert Logs(s, Complete(id, status));
      ReplayOutcome(Saves(s), Events(s.journal), id);
      LastStatusLogged(Events(s.journal), id);
      assert Lookup(t.memory, id).Some?;
    }
  }

  lemma CrashRestartable(s: State)
    requires Restartable(s)
    ensures Restartable(Down(s))
  {
    hide Events;
  }

  lemma TornRestartable(s: State, e: Event, how: Torn)
    requires Restartable(s) && Durable(s) && !s.lost && MayLog(s, e)
    ensures Restartable(Exec(s, CrashInWrite(e, how)))
  {
    var t := Exec(s, CrashInWrite(e, how));
    TornLogs(s.journal, e, how);
    LogStatuses(s, e, t);
    SettledAfterAppend(s, e);
    TornTail(s, e, how);
    hide Events, OneStatus, FilesKnow, Durable, TailNew;
  }

  /** Torn right before its newline on a clean tail, an event is new to what the files say otherwise. */
  lemma TornTail(s: State, e: Event, how: Torn)
    requires Restartable(s) && MayLog(s, e)
    requires s.journal.tail.Clean? ==> Settled(s) == Recovered(s)
    ensures TailNew(Exec(s, CrashInWrite(e, how)))
  {
    hide Recover, OneStatus, StatusesKnown;
  }

  lemma OutboxKeepsThreads(s: State, step: Step)
    requires OutboxStep(step)
    ensures Exec(s, step).threads.Keys == s.threads.Keys
  {}

  lemma OutboxRestartable(s: State, step: Step)
    requires Restartable(s) && OutboxStep(step)
    ensures Restartable(Exec(s, step))
  {
    OutboxStepsKeepLedger(s, step);
    OutboxKeepsThreads(s, step);
    hide Exec, Events, Replay;
    var t := Exec(s, step);
    assert forall id :: id in t.threads <==> id in t.threads.Keys;
    assert forall e :: Logs(t, e) <==> Logs(s, e);
  }

  lemma StepRestartable(s: State, step: Step)
    requires Restartable(s) && Durable(s) && !Exec(s, step).lost
    ensures Restartable(Exec(s, step))
  {
    hide Restartable, Durable, Saved, Logged, Down, MayLog;
    ExecKeepsHistory(s, step);
    if OutboxStep(step) {
      OutboxRestartable(s, step);
    } else if Enabled(s, step) {
      match step
      case Boot => BootRestartable(s);
      case LogClaim(id, action) => LogRestartable(s, Claim(id, action), ClaimLogged(id, action));
      case LogComplete(id, status) => LogRestartable(s, Complete(id, status), CompleteLogged(id, status));
      case SaveLogged => SaveRestartable(s);
      case Crash => CrashRestartable(s);
      case CrashInWrite(event, how) => TornRestartable(s, event, how);
      case LoseSnapshot =>
    }
  }

  lemma {:induction false} AlwaysRestartable(steps: seq<Step>)
    requires !Run(steps).lost
    ensures Restartable(Run(steps))
  {
    if steps == [] {
      assert Events(EMPTY_JOURNAL) == [];
    } else {
      var init := steps[..|steps| - 1];
      FaultsStay(steps, |init|);
      AlwaysRestartable(init);
      AlwaysDurable(init);
      RunLast(steps);
      hide Run, Exec;
      StepRestartable(Run(init), steps[|steps| - 1]);
    }
  }

  /** The ledger of before an append, or that ledger one event ahead. */
  predicate OldOrNew(recovered: Ledger, memory: Ledger, e: Event) {
    recovered == memory || recovered == Recorded(memory, e)
  }

  /** In every state of every run short of both faults: between the operations a restart knows exactly what the
      process knows, and between append and save it knows that or one event more -- exactly unless the
      append met an event without its newline, which it has made unreadable. */
  lemma {:induction false} RestartKnows(steps: seq<Step>)
    requires Recoverable(Run(steps)) && Run(steps).up
    ensures var s := Run(steps);
            match PendingEvent(s.pending)
            case None => Recovered(s) == s.memory
            case Some(e) => OldOrNew(Recovered(s), s.memory, e) <==> !Spoils(s.met)
  {
    var s := Run(steps);
    if s.lost {
      RecoveryIsExact(steps);
    } else {
      AlwaysRestartable(steps);
      hide Run;
      FilesKnowExactly(s);
    }
  }

  lemma FilesKnowExactly(s: State)
    requires s.up && FilesKnow(s)
    ensures match PendingEvent(s.pending)
            case None => Recovered(s) == s.memory
            case Some(e) => OldOrNew(Recovered(s), s.memory, e) <==> !Spoils(s.met)
  {
    hide Recovered;
    if !s.pending.Idle? && s.met.Unterminated? {
      EffectDiffers(Recovered(s), s.met.event, PendingEvent(s.pending).value);
    }
  }

  /** Recording a new event changes the ledger, and a claim after it does not lead back. */
  lemma EffectDiffers(l: Ledger, last: Event, e: Event)
    requires NotYetIn(l, last) && e.Claim? && e.id !in Recorded(l, last)
    ensures OldOrNew(l, Recorded(l, last), e) <==> last == Complete(last.id, IN_PROGRESS)
  {
    assert last == Complete(last.id, IN_PROGRESS) ==> l[last.id := l[last.id].(status := IN_PROGRESS)] == l;
    assert e.id in Recorded(Recorded(l, last), e) && e.id !in l;
  }

  /** The same for a crash inside the write of a line. */
  lemma {:induction false} TornWriteKnows(steps: seq<Step>, e: Event, how: Torn)
    requires MayLog(Run(steps), e) && Recoverable(Exec(Run(steps), CrashInWrite(e, how)))
    ensures var s, t := Run(steps), Exec(Run(steps), CrashInWrite(e, how));
            OldOrNew(Recovered(t), s.memory, e) <==> how == NoByte || !Spoils(s.journal.tail)
  {
    var s := Run(steps);
    RestartKnows(steps);
    if !s.lost {
      AlwaysRestartable(steps);
    }
    hide Run;
    TornWriteFiles(s, e, how);
  }

  lemma TornWriteFiles(s: State, e: Event, how: Torn)
    requires MayLog(s, e) && Recovered(s) == s.memory && (s.lost ==> how == NoByte)
    requires !s.lost ==> Restartable(s)
    ensures OldOrNew(Recovered(Exec(s, CrashInWrite(e, how))), s.memory, e) <==>
            how == NoByte || !Spoils(s.journal.tail)
  {
    var t := Exec(s, CrashInWrite(e, how));
    TornRecovers(s, e, how);
    SettledAfterAppend(s, e);
    hide Recover, Restartable, Recorded, Exec;
    if how != NoByte && s.journal.tail.Unterminated? {
      MetUnterminated(s, e);
    }
  }

  lemma TornRecovers(s: State, e: Event, how: Torn)
    requires MayLog(s, e)
    ensures var recovered := Recovered(Exec(s, CrashInWrite(e, how)));
            match how
            case NoByte => recovered == Recovered(s)
            case _ =>
              if s.journal.tail.Clean? && how.AllButNewline? then recovered == Recorded(Recovered(s), e)
              else recovered == Settled(s)
  {
    assert Readable(e);
    TornEvents(s.journal, e, how);
    ReplayNext(Saves(s), Events(s.journal), e);
    hide Events, Replay, Recorded, AppendTorn, MayLog;
    assert Exec(s, CrashInWrite(e, how)).journal == AppendTorn(s.journal, e, how);
    assert Exec(s, CrashInWrite(e, how)).snapshot == s.snapshot;
  }

  lemma TornEvents(j: Journal, e: Event, how: Torn)
    ensures AppendTorn(j, e, NoByte) == j
    ensures how != NoByte ==>
              Events(AppendTorn(j, e, how)) ==
              if j.tail.Clean? && how.AllButNewline? then Events(j) + [e] else Events(Journal(j.lines, Clean))
  {
    var whole := WholeEvents(j.lines);
    assert whole + [] == whole;
  }

  lemma MetUnterminated(s: State, e: Event)
    requires Restartable(s) && MayLog(s, e) && Recovered(s) == s.memory && s.journal.tail.Unterminated?
    ensures OldOrNew(Settled(s), s.memory, e) <==> !Spoils(s.journal.tail)
  {
    var last := s.journal.tail.event;
    CrashBeforeSave(s.snapshot, s.journal, e);
    SettledAfterAppend(s, e);
    assert e.Claim? && e.id !in s.memory;
    hide Recover, OneStatus, StatusesKnown;
    EffectDiffers(Settled(s), last, e);
  }

  /** A reachable loss, for any two requests: the claim of the first is torn before its newline, a restart knows
      it, the claim of the second spoils its line, and after one more crash it is forgotten. */
  lemma {:induction false} RestartForgets(id: Id, other: Id, action: string) returns (steps: seq<Step>)
    requires id != "" && other != "" && action != "" && id != other
    ensures var s, t := Run(steps), Run(steps + [Crash, Boot]);
            && s.up && id in s.memory && s.pending == ClaimLogged(other, action) && !s.lost
            && t.up && id !in t.memory
  {
    var tear := CrashInWrite(Claim(id, action), AllButNewline);
    var start := [Boot, tear, Boot];
    steps := start + [LogClaim(other, action)];
    hide *;
    ThreeSteps([], Boot, tear, Boot);
    assert [] + start == start;
    TornClaimKnown(id, action);
    RunNext(start, LogClaim(other, action));
    SpoiledByClaim(Run(start), id, other, action);
    TwoSteps(steps, Crash, Boot);
  }

  lemma TornClaimKnown(id: Id, action: string)
    requires id != "" && action != ""
    ensures var s := Exec(Exec(Exec(Run([]), Boot), CrashInWrite(Claim(id, action), AllButNewline)), Boot);
            && s.up && s.pending.Idle? && s.memory.Keys == {id} && s.snapshot == None && !s.lost
            && s.journal == Journal([], Unterminated(Claim(id, action)))
  {
    var e := Claim(id, action);
    RecoverAlone(e);
    var s1 := Exec(INITIAL, Boot);
    hide Recover, Saved, Logged, PendingEvent;
    assert Run([]) == INITIAL && s1.up && s1.pending.Idle? && s1.memory == map[] && s1.journal == EMPTY_JOURNAL;
    var s2 := Exec(s1, CrashInWrite(e, AllButNewline));
    assert MayLog(s1, e);
    assert s2.journal == Journal([], Unterminated(e)) && !s2.up && s2.snapshot == None && s2.pending.Idle? && !s2.lost;
    hide MayLog, AppendTorn, Down;
  }

  lemma RecoverAlone(e: Event)
    requires Readable(e)
    ensures Recover(None, EMPTY_JOURNAL) == map[]
    ensures Recover(None, Journal([], Unterminated(e))).Keys == {e.id}
  {
    assert Events(EMPTY_JOURNAL) == [];
    assert Events(Journal([], Unterminated(e))) == [e];
    ReplayNext(map[], [], e);
    assert [] + [e] == [e];
  }

  lemma SpoiledByClaim(s: State, id: Id, other: Id, action: string)
    requires s.up && s.pending.Idle? && s.memory.Keys == {id} && s.snapshot == None && !s.lost
    requires s.journal == Journal([], Unterminated(Claim(id, action)))
    requires id != "" && other != "" && action != "" && id != other
    ensures var t := Exec(s, LogClaim(other, action));
            && t.up && id in t.memory && t.pending == ClaimLogged(other, action) && !t.lost
            && Exec(Exec(t, Crash), Boot).up && Exec(Exec(t, Crash), Boot).memory == map[]
  {
    var t := Exec(s, LogClaim(other, action));
    assert id in s.memory.Keys && other !in s.memory.Keys;
    assert t == Logged(s, Claim(other, action), ClaimLogged(other, action));
    assert t.journal == Journal([] + [Garbled], Clean);
    assert WholeEvents([Garbled]) == [] + [];
  }
}
