/** The worker as a state machine over its durable steps: a crash may fall between any two of them, in the
    middle of a journal line, or between posting a result and removing it from the outbox. Threads, failed
    posts and concurrent flushes interleave freely; `claim`, `complete` and the outbox write hold the lock. */
module WorkerProtocol {
  import opened Wrappers
  import opened WorkerLedger

  type Board = string

  /** What the lock holder has logged but not saved yet. */
  datatype Pending = Idle | ClaimLogged(id: Id, action: string) | CompleteLogged(id: Id, status: string)

  /** An action thread has its result published (queued and perhaps flushed) before it completes. */
  datatype Phase = Running | Published

  /** One pass of `flush_result_outbox` over one file. */
  datatype Flush = Holding(id: Id, board: Board) | Sent(id: Id, board: Board)

  datatype State = State(
    // durable
    snapshot: Option<Ledger>, journal: Journal, outbox: map<Id, Board>,
    // at the control plane
    posted: set<(Id, Board)>,
    // in the process; `met` is the journal's tail that the last append found
    up: bool, memory: Ledger, pending: Pending, met: Tail, threads: map<Id, Phase>, flushes: map<nat, Flush>,
    // history: claims answered True, completions that returned, boards handed to the outbox, faults
    granted: seq<Id>, finished: map<Id, string>, queued: set<(Id, Board)>, torn: bool, lost: bool)

  const INITIAL :=
    State(None, EMPTY_JOURNAL, map[], {}, false, map[], Idle, Clean, map[], map[], [], map[], {}, false, false)

  datatype Step =
    | Boot
    | LogClaim(id: Id, action: string)
    | LogComplete(id: Id, status: string)
    | SaveLogged
    | QueueResult(id: Id, board: Board)
    | QueueRejection(id: Id, board: Board)
    | ReadQueued(flush: nat, id: Id)
    | Post(flush: nat)
    | FailPost(flush: nat)
    | RemovePosted(flush: nat)
    | Crash
    | CrashInWrite(event: Event, how: Torn)
    | LoseSnapshot

  function PendingEvent(pending: Pending): Option<Event> {
    match pending
    case Idle => None
    case ClaimLogged(id, action) => Some(Claim(id, action))
    case CompleteLogged(id, status) => Some(Complete(id, status))
  }

  /** The guard of `claim` on a request that passed acceptance, and of the `complete` that ends an action. */
  predicate MayLog(s: State, e: Event) {
    && s.up && s.pending.Idle? && Readable(e)
    && match e
       case Claim(id, _) => id !in s.memory
       case Complete(id, _) => id in s.threads && s.threads[id].Published?
  }

  predicate Enabled(s: State, step: Step) {
    match step
    case Boot => !s.up
    case LogClaim(id, action) => MayLog(s, Claim(id, action))
    case LogComplete(id, status) => MayLog(s, Complete(id, status))
    case SaveLogged => s.up && !s.pending.Idle?
    case QueueResult(id, board) => s.up && s.pending.Idle? && id in s.threads && s.threads[id].Running?
    case QueueRejection(id, board) => s.up && s.pending.Idle? && id !in s.memory
    case ReadQueued(flush, id) => s.up && flush !in s.flushes && id in s.outbox
    case Post(flush) => s.up && flush in s.flushes && s.flushes[flush].Holding?
    case FailPost(flush) => s.up && flush in s.flushes
    case RemovePosted(flush) => s.up && flush in s.flushes && s.flushes[flush].Sent?
    case Crash => s.up
    case CrashInWrite(event, _) => MayLog(s, event)
    case LoseSnapshot => true
  }

  /** The process is gone; files and the control plane stay. */
  function Down(s: State): State {
    s.(up := false, memory := map[], pending := Idle, threads := map[], flushes := map[])
  }

  function Logged(s: State, e: Event, pending: Pending): State {
    s.(journal := Append(s.journal, e), pending := pending, met := s.journal.tail)
  }

  /** The pending event enters memory and snapshot. */
  function Stored(s: State): State
    requires !s.pending.Idle?
  {
    var memory := Recorded(s.memory, PendingEvent(s.pending).value);
    s.(memory := memory, snapshot := Some(memory), pending := Idle)
  }

  function Saved(s: State): State
    requires !s.pending.Idle?
  {
    var t := Stored(s);
    match PendingEvent(s.pending).value
    case Claim(id, _) => t.(granted := s.granted + [id], threads := s.threads[id := Running])
    case Complete(id, status) => t.(finished := s.finished[id := status], threads := s.threads - {id})
  }

  /** One step; a step that is not enabled does nothing, so that every list of steps is a run. */
  function Exec(s: State, step: Step): State {
    if !Enabled(s, step) then s
    else match step
      case Boot => s.(up := true, memory := Recover(s.snapshot, s.journal))
      case LogClaim(id, action) => Logged(s, Claim(id, action), ClaimLogged(id, action))
      case LogComplete(id, status) => Logged(s, Complete(id, status), CompleteLogged(id, status))
      case SaveLogged => Saved(s)
      case QueueResult(id, board) =>
        s.(outbox := s.outbox[id := board], queued := s.queued + {(id, board)}, threads := s.threads[id := Published])
      case QueueRejection(id, board) =>
        s.(outbox := s.outbox[id := board], queued := s.queued + {(id, board)})
      case ReadQueued(flush, id) => s.(flushes := s.flushes[flush := Holding(id, s.outbox[id])])
      case Post(flush) =>
        var f := s.flushes[flush];
        s.(posted := s.posted + {(f.id, f.board)}, flushes := s.flushes[flush := Sent(f.id, f.board)])
      case FailPost(flush) => s.(flushes := s.flushes - {flush})
      case RemovePosted(flush) =>
        s.(outbox := s.outbox - {s.flushes[flush].id}, flushes := s.flushes - {flush})
      case Crash => Down(s)
      case CrashInWrite(event, how) =>
        Down(s).(journal := AppendTorn(s.journal, event, how), torn := s.torn || how != NoByte)
      case LoseSnapshot => s.(snapshot := None, lost := true)
  }

  function Run(steps: seq<Step>): State {
    if steps == [] then INITIAL else Exec(Run(steps[..|steps| - 1]), steps[|steps| - 1])
  }

  // The ledger: what a claim and a completion leave behind for good.

  function Saves(s: State): Ledger {
    if s.snapshot.Some? then s.snapshot.value else map[]
  }

  /** One of the two faults at most: the snapshot was never lost, or no line was ever torn. */
  predicate Recoverable(s: State) {
    !s.torn || !s.lost
  }

  ghost predicate WholeJournal(j: Journal) {
    j.tail.Clean? && forall i :: 0 <= i < |j.lines| ==> j.lines[i].Whole?
  }

  ghost predicate Logs(s: State, e: Event) {
    e in Events(s.journal)
  }

  /** Some evidence of a claim that survives: the snapshot's key if it was never lost, the journal's line if
      none was ever torn. */
  ghost predicate Kept(s: State, id: Id) {
    && (!s.lost ==> id in Saves(s))
    && (!s.torn ==> exists a :: Logs(s, Claim(id, a)))
  }

  ghost predicate ClaimsKept(s: State) {
    && (!s.torn ==> WholeJournal(s.journal))
    && (forall e :: Logs(s, e) ==> Readable(e))
    && (Recoverable(s) ==> forall i :: 0 <= i < |s.granted| ==> Kept(s, s.granted[i]))
    && (Recoverable(s) ==> forall i, j :: 0 <= i < j < |s.granted| ==> s.granted[i] != s.granted[j])
    && (s.pending.ClaimLogged? ==> s.up && s.pending.id !in s.memory &&
                                   (!s.torn ==> Logs(s, PendingEvent(s.pending).value)))
    && (s.up && Recoverable(s) ==> forall i :: 0 <= i < |s.granted| ==> s.granted[i] in s.memory)
    && (s.up && !s.lost ==> Saves(s).Keys <= s.memory.Keys)
  }

  lemma AppendLogs(j: Journal, e: Event)
    ensures WholeJournal(j) ==> WholeJournal(Append(j, e)) && Events(Append(j, e)) == Events(j) + [e]
    ensures forall x :: x in Events(Append(j, e)) ==> x in Events(j) || x == e
  {
    EventsAfterAppend(j, e);
  }

  lemma TornLogs(j: Journal, e: Event, how: Torn)
    ensures forall x :: x in Events(AppendTorn(j, e, how)) ==> x in Events(j) || x == e
    ensures how == NoByte ==> AppendTorn(j, e, how) == j
  {}

  lemma {:induction false} ReplayKeys(l: Ledger, events: seq<Event>, id: Id)
    ensures id in Replay(l, events) <==> id in l || exists e :: e in events && Readable(e) && e.id == id
  {
    if events != [] {
      var init, last := events[..|events| - 1], events[|events| - 1];
      assert events == init + [last];
      ReplayKeys(l, init, id);
      if id in Replay(l, init) && id !in l {
        var e :| e in init && Readable(e) && e.id == id;
        assert e in events;
      }
    }
  }

  /** The fields that the ledger's invariants speak of. */
  ghost predicate SameLedger(s: State, t: State) {
    && t.snapshot == s.snapshot && t.journal == s.journal && t.memory == s.memory && t.up == s.up
    && t.pending == s.pending && t.met == s.met && t.granted == s.granted && t.torn == s.torn && t.lost == s.lost
  }

  predicate OutboxStep(step: Step) {
    step.QueueResult? || step.QueueRejection? || step.ReadQueued? || step.Post? || step.FailPost? || step.RemovePosted?
  }

  lemma OutboxStepsKeepLedger(s: State, step: Step)
    requires OutboxStep(step)
    ensures SameLedger(s, Exec(s, step)) && Exec(s, step).finished == s.finished
  {}

  lemma ClaimsKeptStep(s: State, step: Step)
    requires ClaimsKept(s)
    ensures ClaimsKept(Exec(s, step))
  {
    hide *;
    if !OutboxStep(step) {
      LedgerStepKeeps(s, step);
    } else {
      OutboxStepsKeepLedger(s, step);
      SameLedgerKeeps(s, Exec(s, step));
    }
  }

  lemma SameLedgerKeeps(s: State, t: State)
    requires ClaimsKept(s) && SameLedger(s, t)
    ensures ClaimsKept(t)
  {
    assert forall id :: Kept(s, id) ==> Kept(t, id);
  }

  lemma LedgerStepKeeps(s: State, step: Step)
    requires ClaimsKept(s) && !OutboxStep(step)
    ensures ClaimsKept(Exec(s, step))
  {
    if Enabled(s, step) {
      hide Enabled, ClaimsKept, Saved, Logged, Down, Append, AppendTorn, Recover;
      match step
      case Boot => BootKeeps(s);
      case LogClaim(id, action) => LogKeeps(s, Claim(id, action), ClaimLogged(id, action));
      case LogComplete(id, status) => LogKeeps(s, Complete(id, status), CompleteLogged(id, status));
      case SaveLogged => SaveKeeps(s);
      case Crash => DownKeeps(s);
      case CrashInWrite(event, how) => TornKeeps(s, event, how);
      case LoseSnapshot => LoseKeeps(s);
    }
  }

  lemma LogKeeps(s: State, e: Event, pending: Pending)
    requires ClaimsKept(s) && MayLog(s, e) && PendingEvent(pending) == Some(e)
    ensures ClaimsKept(Logged(s, e, pending))
  {
    hide Events, Append;
    AppendLogs(s.journal, e);
    KeptByLog(s, Logged(s, e, pending));
  }

  lemma KeptByLog(s: State, t: State)
    requires t.lost == s.lost && t.torn == s.torn && (!t.lost ==> Saves(s).Keys <= Saves(t).Keys)
    requires !t.torn ==> forall e :: Logs(s, e) ==> Logs(t, e)
    ensures forall id :: Kept(s, id) ==> Kept(t, id)
  {}

  lemma RecordedKeys(l: Ledger, e: Event)
    ensures Recorded(l, e).Keys == l.Keys + {e.id}
  {}

  lemma SaveKeeps(s: State)
    requires ClaimsKept(s) && Enabled(s, SaveLogged)
    ensures ClaimsKept(Saved(s))
  {
    hide ClaimsKept, Saved;
    if s.pending.ClaimLogged? {
      SaveClaimKeeps(s);
    } else {
      SaveCompleteKeeps(s);
    }
  }

  lemma SaveClaimKeeps(s: State)
    requires ClaimsKept(s) && s.up && s.pending.ClaimLogged?
    ensures ClaimsKept(Saved(s))
  {
    var t := Saved(s);
    RecordedKeys(s.memory, Claim(s.pending.id, s.pending.action));
    GrantKept(s);
    hide Recorded, Events, WholeJournal, Readable;
    KeptByLog(s, t);
    hide Kept;
    GrantedOnce(s, t);
  }

  lemma SaveCompleteKeeps(s: State)
    requires ClaimsKept(s) && s.up && s.pending.CompleteLogged?
    ensures ClaimsKept(Saved(s))
  {
    var t := Saved(s);
    RecordedKeys(s.memory, Complete(s.pending.id, s.pending.status));
    hide Recorded, Events, WholeJournal, Readable;
    KeptByLog(s, t);
    hide Kept;
  }

  lemma GrantedOnce(s: State, t: State)
    requires s.pending.ClaimLogged? && t.granted == s.granted + [s.pending.id] && s.pending.id !in s.memory
    requires Recoverable(s) ==> forall i :: 0 <= i < |s.granted| ==> s.granted[i] in s.memory
    requires Recoverable(s) ==> forall i, j :: 0 <= i < j < |s.granted| ==> s.granted[i] != s.granted[j]
    ensures Recoverable(s) ==> forall i, j :: 0 <= i < j < |t.granted| ==> t.granted[i] != t.granted[j]
  {}

  lemma GrantKept(s: State)
    requires ClaimsKept(s) && Enabled(s, SaveLogged) && s.pending.ClaimLogged?
    ensures Kept(Saved(s), s.pending.id)
  {
    hide Events, WholeJournal;
    assert !s.torn ==> Logs(Saved(s), Claim(s.pending.id, s.pending.action));
  }

  lemma DownKeeps(s: State)
    requires ClaimsKept(s)
    ensures ClaimsKept(Down(s))
  {
    hide Events;
    KeptByLog(s, Down(s));
  }

  lemma TornKeeps(s: State, e: Event, how: Torn)
    requires ClaimsKept(s) && MayLog(s, e)
    ensures ClaimsKept(Exec(s, CrashInWrite(e, how)))
  {
    hide Events, AppendTorn;
    TornLogs(s.journal, e, how);
    var t := Exec(s, CrashInWrite(e, how));
    forall id | Kept(s, id) ensures Kept(t, id) {}
  }

  lemma LoseKeeps(s: State)
    requires ClaimsKept(s)
    ensures ClaimsKept(Exec(s, LoseSnapshot))
  {
    hide Events;
    var t := Exec(s, LoseSnapshot);
    forall id | Kept(s, id) ensures Kept(t, id) {}
  }

  lemma BootKeeps(s: State)
    requires ClaimsKept(s) && !s.up
    ensures ClaimsKept(Exec(s, Boot))
  {
    forall i | 0 <= i < |s.granted| && Recoverable(s) ensures s.granted[i] in Recover(s.snapshot, s.journal) {
      ReplayKeys(Saves(s), Events(s.journal), s.granted[i]);
    }
    forall id | id in Saves(s) ensures id in Recover(s.snapshot, s.journal) {
      ReplayKeys(Saves(s), Events(s.journal), id);
    }
  }

  lemma {:induction false} ClaimsKeptAlways(steps: seq<Step>)
    ensures ClaimsKept(Run(steps))
  {
    if steps != [] {
      ClaimsKeptAlways(steps[..|steps| - 1]);
      ClaimsKeptStep(Run(steps[..|steps| - 1]), steps[|steps| - 1]);
    }
  }

  /** The methods of the ledger take two steps of the protocol, the append and the save. */
  lemma MethodsAreTwoSteps(s: State, e: Event)
    requires MayLog(s, e)
    ensures var step := match e case Claim(id, action) => LogClaim(id, action)
                                case Complete(id, status) => LogComplete(id, status);
            var t := Exec(Exec(s, step), SaveLogged);
            && t.memory == Recorded(s.memory, e) && t.snapshot == Some(t.memory)
            && t.journal == Append(s.journal, e) && t.up && t.pending.Idle?
            && t.granted == (if e.Claim? then s.granted + [e.id] else s.granted)
  {
    hide Recorded, Append, Readable;
    match e
    case Claim(id, action) =>
      assert Exec(s, LogClaim(id, action)) == Logged(s, e, ClaimLogged(id, action));
    case Complete(id, status) =>
      assert Exec(s, LogComplete(id, status)) == Logged(s, e, CompleteLogged(id, status));
  }

  /** Over every run, a claim is answered True at most once per request, and the evidence of it is kept: in
      the snapshot if that was never lost, however many lines are torn; in the journal if no line is torn,
      however often the snapshot is lost. */
  lemma {:induction false} ClaimOnce(steps: seq<Step>)
    requires Recoverable(Run(steps))
    ensures var s := Run(steps);
            && (forall i, j :: 0 <= i < j < |s.granted| ==> s.granted[i] != s.granted[j])
            && (forall i :: 0 <= i < |s.granted| ==> Kept(s, s.granted[i]))
  {
    ClaimsKeptAlways(steps);
  }

  lemma RunNext(steps: seq<Step>, step: Step)
    ensures Run(steps + [step]) == Exec(Run(steps), step)
  {
    assert (steps + [step])[..|steps|] == steps;
  }

  /** Both faults together break it, for any request: a torn line spoils the claim logged after it, and then
      the snapshot that alone held that claim is lost. */
  lemma {:induction false} BothFaultsClaimTwice(id: Id, other: Id, action: string) returns (steps: seq<Step>)
    requires id != "" && other != "" && action != ""
    ensures Run(steps).granted == [id, id]
  {
    var claim := LogClaim(id, action);
    var torn := [Boot, CrashInWrite(Claim(other, action), SomeBytes), Boot];
    var again := [LoseSnapshot, Crash, Boot];
    steps := torn + [claim, SaveLogged] + again + [claim, SaveLogged];
    hide *;
    var tear := CrashInWrite(Claim(other, action), SomeBytes);
    ThreeSteps([], Boot, tear, Boot);
    TearAtStart(other, action);
    assert [] + torn == torn;
    TwoSteps(torn, claim, SaveLogged);
    ClaimGranted(Run(torn), id, action);
    ThreeSteps(torn + [claim, SaveLogged], LoseSnapshot, Crash, Boot);
    LoseAndRestart(Run(torn + [claim, SaveLogged]));
    TwoSteps(torn + [claim, SaveLogged] + again, claim, SaveLogged);
    ClaimGranted(Run(torn + [claim, SaveLogged] + again), id, action);
  }

  lemma TearAtStart(other: Id, action: string)
    requires other != "" && action != ""
    ensures var s := Exec(Exec(Exec(Run([]), Boot), CrashInWrite(Claim(other, action), SomeBytes)), Boot);
            s.up && s.pending.Idle? && s.memory == map[] && s.journal == Journal([], Fragment) && s.granted == []
  {}

  lemma ClaimGranted(s: State, id: Id, action: string)
    requires s.up && s.pending.Idle? && id !in s.memory && id != "" && action != ""
    ensures var t := Exec(Exec(s, LogClaim(id, action)), SaveLogged);
            && t.up && t.pending.Idle? && t.granted == s.granted + [id]
            && (s.journal == Journal([], Fragment) ==> t.journal == Journal([Garbled], Clean))
  {
    var u := Exec(s, LogClaim(id, action));
    assert u == Logged(s, Claim(id, action), ClaimLogged(id, action));
    assert u.journal == Append(s.journal, Claim(id, action));
    assert Exec(u, SaveLogged) == Saved(u);
    hide Exec, Enabled, Recorded, Readable, MayLog;
  }

  lemma LoseAndRestart(s: State)
    requires s.up && s.pending.Idle? && s.journal == Journal([Garbled], Clean)
    ensures var t := Exec(Exec(Exec(s, LoseSnapshot), Crash), Boot);
            t.up && t.pending.Idle? && t.memory == map[] && t.granted == s.granted
  {
    assert WholeEvents([Garbled]) == [] + [];
    assert Recover(None, s.journal) == map[];
    hide Recover, Saved, Logged, MayLog, PendingEvent;
    var lost := Exec(s, LoseSnapshot);
    assert lost.up && lost.snapshot == None && lost.journal == s.journal && lost.granted == s.granted;
    var down := Exec(lost, Crash);
    assert down == Down(lost) && !down.up;
    assert Exec(down, Boot) == down.(up := true, memory := Recover(down.snapshot, down.journal));
  }

  lemma TwoSteps(steps: seq<Step>, a: Step, b: Step)
    ensures Run(steps + [a, b]) == Exec(Exec(Run(steps), a), b)
  {
    assert steps + [a, b] == steps + [a] + [b];
    RunNext(steps + [a], b);
    RunNext(steps, a);
  }

  lemma ThreeSteps(steps: seq<Step>, a: Step, b: Step, c: Step)
    ensures Run(steps + [a, b, c]) == Exec(Exec(Exec(Run(steps), a), b), c)
  {
    assert steps + [a, b, c] == steps + [a, b] + [c];
    RunNext(steps + [a, b], c);
    TwoSteps(steps, a, b);
  }
}
