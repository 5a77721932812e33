/** What a restart recovers, over every run of the worker protocol. */
module WorkerRecovery {
  import opened Wrappers
  import opened WorkerLedger
  import opened WorkerProtocol

  function Recovered(s: State): Ledger {
    Recover(s.snapshot, s.journal)
  }

  /** The ledger of before the crash, or that ledger one logged event ahead. */
  function WithPending(s: State): Ledger {
    if s.pending.Idle? then s.memory else Recorded(s.memory, PendingEvent(s.pending).value)
  }

  ghost predicate RecoversExactly(s: State) {
    && WholeJournal(s.journal)
    && Recovered(s) == Replay(map[], Events(s.journal))
    && (if s.up then Recovered(s) == WithPending(s) else s.pending.Idle?)
    && (!s.pending.Idle? ==> Readable(PendingEvent(s.pending).value) && s.met.Clean?)
  }

  lemma LoggedRecovers(s: State, e: Event, pending: Pending)
    requires RecoversExactly(s) && MayLog(s, e) && PendingEvent(pending) == Some(e)
    ensures RecoversExactly(Logged(s, e, pending))
  {
    hide Events, Replay, Append, Recorded;
    AppendLogs(s.journal, e);
    ReplayNext(map[], Events(s.journal), e);
    ReplayNext(Saves(s), Events(s.journal), e);
  }

  lemma SavedRecovers(s: State)
    requires RecoversExactly(s) && s.up && !s.pending.Idle?
    ensures RecoversExactly(Saved(s))
  {
    hide Events, Replay, Recorded;
    var events := Events(s.journal);
    ReplayAbsorbsPrefix(map[], events, |events|);
    assert events[..|events|] == events;
  }

  lemma StepRecovers(s: State, step: Step)
    requires RecoversExactly(s) && !Exec(s, step).torn
    ensures RecoversExactly(Exec(s, step))
  {
    hide RecoversExactly, Saved, Logged, MayLog;
    if OutboxStep(step) {
      OutboxStepsKeepLedger(s, step);
      SameLedgerRecovers(s, Exec(s, step));
    } else if Enabled(s, step) {
      match step
      case LogClaim(id, action) => LoggedRecovers(s, Claim(id, action), ClaimLogged(id, action));
      case LogComplete(id, status) => LoggedRecovers(s, Complete(id, status), CompleteLogged(id, status));
      case SaveLogged => SavedRecovers(s);
      case _ => OtherRecovers(s, step);
    }
  }

  lemma SameLedgerRecovers(s: State, t: State)
    requires RecoversExactly(s) && SameLedger(s, t)
    ensures RecoversExactly(t)
  {}

  lemma OtherRecovers(s: State, step: Step)
    requires RecoversExactly(s) && Enabled(s, step) && !Exec(s, step).torn
    requires step.Boot? || step.Crash? || step.CrashInWrite? || step.LoseSnapshot?
    ensures RecoversExactly(Exec(s, step))
  {
    hide Events, Replay, Recorded, MayLog;
  }

  lemma {:induction false} FaultsStay(steps: seq<Step>, k: nat)
    requires k <= |steps|
    ensures Run(steps[..k]).torn ==> Run(steps).torn
    ensures Run(steps[..k]).lost ==> Run(steps).lost
    ensures Run(steps[..k]).queued <= Run(steps).queued
  {
    if k < |steps| {
      var init := steps[..|steps| - 1];
      FaultsStay(init, k);
      assert init[..k] == steps[..k];
      hide Run;
      ExecKeepsHistory(Run(init), steps[|steps| - 1]);
      RunLast(steps);
    } else {
      assert steps[..k] == steps;
    }
  }

  lemma RunLast(steps: seq<Step>)
    requires steps != []
    ensures Run(steps) == Exec(Run(steps[..|steps| - 1]), steps[|steps| - 1])
  {}

  lemma ExecKeepsHistory(s: State, step: Step)
    ensures s.torn ==> Exec(s, step).torn
    ensures s.lost ==> Exec(s, step).lost
    ensures s.queued <= Exec(s, step).queued
  {}

  /** As long as no line was torn -- with any number of crashes between durable steps, and even with the
      snapshot lost at any time -- a restart knows what the process knew, or one logged event more. */
  lemma {:induction false} RecoveryIsExact(steps: seq<Step>)
    requires !Run(steps).torn
    ensures var s := Run(steps);
            s.up ==> || Recovered(s) == s.memory
                     || (!s.pending.Idle? && Recovered(s) == Recorded(s.memory, PendingEvent(s.pending).value))
    ensures RecoversExactly(Run(steps))
  {
    if steps == [] {
      assert Events(EMPTY_JOURNAL) == [];
    } else {
      var init := steps[..|steps| - 1];
      FaultsStay(steps, |init|);
      RecoveryIsExact(init);
      RunLast(steps);
      hide Run, Exec;
      StepRecovers(Run(init), steps[|steps| - 1]);
    }
  }

  // Completions, with torn lines or with a lost snapshot.

  /** Every logged completion of `id` is the one being logged now. */
  ghost predicate OnlyPendingCompletes(s: State, id: Id) {
    forall status :: Logs(s, Complete(id, status)) ==> s.pending == CompleteLogged(id, status)
  }

  ghost predicate LoggedKnown(s: State) {
    && (forall e :: Logs(s, e) ==> Readable(e))
    && (s.up ==> forall e :: Logs(s, e) ==> e.id in s.memory || PendingEvent(s.pending) == Some(e))
  }

  ghost predicate FinishedStays(s: State, id: Id, status: string) {
    && (forall other :: Logs(s, Complete(id, other)) ==> other == status)
    && (!s.lost ==> id in Saves(s) && Saves(s)[id].status == status)
    && (!s.torn ==> Logs(s, Complete(id, status)))
    && (s.up ==> id in s.memory && s.memory[id].status == status && id !in s.threads)
  }

  ghost predicate CompletionsKept(s: State) {
    && (!s.torn ==> WholeJournal(s.journal))
    && (!s.up ==> s.threads == map[] && s.pending.Idle?)
    && (forall id :: id in s.finished ==> FinishedStays(s, id, s.finished[id]))
    && (forall id :: id in s.threads ==> id in s.memory && OnlyPendingCompletes(s, id))
    && (s.pending.ClaimLogged? ==> s.pending.id !in s.memory && OnlyPendingCompletes(s, s.pending.id))
    && (s.pending.CompleteLogged? ==> s.pending.id in s.threads &&
                                      (!s.torn ==> Logs(s, PendingEvent(s.pending).value)))
  }

  ghost predicate Durable(s: State) {
    LoggedKnown(s) && (Recoverable(s) ==> CompletionsKept(s))
  }

  lemma LogClaimDurable(s: State, id: Id, action: string)
    requires Durable(s) && MayLog(s, Claim(id, action))
    ensures Durable(Logged(s, Claim(id, action), ClaimLogged(id, action)))
  {
    hide Events, Append;
    AppendLogs(s.journal, Claim(id, action));
  }

  lemma LogCompleteDurable(s: State, id: Id, status: string)
    requires Durable(s) && MayLog(s, Complete(id, status))
    ensures Durable(Logged(s, Complete(id, status), CompleteLogged(id, status)))
  {
    hide Events, Append;
    AppendLogs(s.journal, Complete(id, status));
  }

  lemma SaveClaimDurable(s: State)
    requires Durable(s) && s.up && s.pending.ClaimLogged?
    ensures Durable(Saved(s))
  {
    hide Events, WholeJournal;
  }

  lemma SaveCompleteDurable(s: State)
    requires Durable(s) && s.up && s.pending.CompleteLogged?
    ensures Durable(Saved(s))
  {
    hide Events, WholeJournal;
  }

  lemma {:induction false} LastStatusLogged(events: seq<Event>, id: Id)
    ensures LastStatus(events, id).Some? ==> Complete(id, LastStatus(events, id).value) in events
    ensures LastStatus(events, id).None? ==>
              forall status :: Readable(Complete(id, status)) ==> Complete(id, status) !in events
  {
    if events != [] {
      var init, last := events[..|events| - 1], events[|events| - 1];
      assert events == init + [last];
      LastStatusLogged(init, id);
    }
  }

  lemma BootDurable(s: State)
    requires Durable(s) && !s.up
    ensures Durable(Exec(s, Boot))
  {
    hide Events, Replay, WholeJournal;
    var t := Exec(s, Boot);
    var events := Events(s.journal);
    forall e | Logs(s, e) ensures e.id in t.memory {
      ReplayKeys(Saves(s), events, e.id);
    }
    forall id | id in s.finished && Recoverable(s) ensures FinishedStays(t, id, s.finished[id]) {
      FinishedRecovered(s, id);
    }
  }

  lemma FinishedRecovered(s: State, id: Id)
    requires Recoverable(s) && id in s.finished && FinishedStays(s, id, s.finished[id])
    requires forall e :: Logs(s, e) ==> Readable(e)
    ensures id in Recovered(s) && Recovered(s)[id].status == s.finished[id]
  {
    hide Events, Replay;
    ReplayOutcome(Saves(s), Events(s.journal), id);
    LastStatusLogged(Events(s.journal), id);
    assert Lookup(Recovered(s), id).Some?;
  }

  lemma CrashDurable(s: State, step: Step)
    requires Durable(s) && Enabled(s, step) && (step.Crash? || step.CrashInWrite?)
    ensures Durable(Exec(s, step))
  {
    hide Events, AppendTorn, WholeJournal;
    if step.CrashInWrite? {
      TornLogs(s.journal, step.event, step.how);
    }
  }

  lemma OutboxStepDurable(s: State, step: Step)
    requires Durable(s) && OutboxStep(step)
    ensures Durable(Exec(s, step))
  {
    hide Events, WholeJournal;
    OutboxStepsKeepLedger(s, step);
  }

  lemma LoseDurable(s: State)
    requires Durable(s)
    ensures Durable(Exec(s, LoseSnapshot))
  {
    hide Events, WholeJournal;
  }

  lemma StepDurable(s: State, step: Step)
    requires Durable(s)
    ensures Durable(Exec(s, step))
  {
    hide Durable, Saved, Logged, Down;
    if OutboxStep(step) {
      OutboxStepDurable(s, step);
    } else if Enabled(s, step) {
      match step
      case Boot => BootDurable(s);
      case LogClaim(id, action) => LogClaimDurable(s, id, action);
      case LogComplete(id, status) => LogCompleteDurable(s, id, status);
      case SaveLogged => if s.pending.ClaimLogged? { SaveClaimDurable(s); } else { SaveCompleteDurable(s); }
      case LoseSnapshot => LoseDurable(s);
      case _ => CrashDurable(s, step);
    }
  }

  lemma {:induction false} AlwaysDurable(steps: seq<Step>)
    ensures Durable(Run(steps))
  {
    if steps != [] {
      AlwaysDurable(steps[..|steps| - 1]);
      RunLast(steps);
      hide Run, Exec;
      StepDurable(Run(steps[..|steps| - 1]), steps[|steps| - 1]);
    }
  }

  /** A completion that returned is never forgotten and never changes: a restart at any later time finds its
      status, if not both faults occurred. */
  lemma {:induction false} CompletionIsFinal(steps: seq<Step>, id: Id)
    requires Recoverable(Run(steps)) && id in Run(steps).finished
    ensures id in Recovered(Run(steps)) && Recovered(Run(steps))[id].status == Run(steps).finished[id]
  {
    AlwaysDurable(steps);
    hide Run, Recover;
    FinishedRecovered(Run(steps), id);
  }
}
