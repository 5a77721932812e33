/** When a request can be claimed again, exactly: in every state of every run, whatever faults it had. */
module WorkerClaims {
  import opened Wrappers
  import opened WorkerLedger
  import opened WorkerProtocol
  import opened WorkerRecovery
  import opened WorkerRestart

  /** Crashes between the writes are no fault; a torn line and a lost snapshot are. */
  predicate FaultFree(step: Step) {
    !step.LoseSnapshot? && !(step.CrashInWrite? && step.how != NoByte)
  }

  ghost predicate NoFault(more: seq<Step>) {
    forall i :: 0 <= i < |more| ==> FaultFree(more[i])
  }

  /** A claim of the request is answered True after the first `n` answers. */
  ghost predicate GrantedSince(s: State, n: nat, id: Id) {
    exists i :: n <= i < |s.granted| && s.granted[i] == id
  }

  /** No continuation without a further fault answers a claim of the request True. */
  ghost predicate NeverGrantedAgain(steps: seq<Step>, id: Id) {
    forall more: seq<Step> :: NoFault(more) ==> !GrantedSince(Run(steps + more), |Run(steps).granted|, id)
  }

  predicate ClaimPending(s: State, id: Id) {
    s.pending.ClaimLogged? && s.pending.id == id
  }

  /** The files hold the request, in the snapshot or in a whole line, and no claim of it is being saved. */
  predicate Barred(s: State, id: Id) {
    id in Settled(s) && !ClaimPending(s, id)
  }

  // What is in the files is in the process.

  ghost predicate FilesKnown(s: State) {
    && (s.up ==> Saves(s).Keys <= s.memory.Keys)
    && (!s.up ==> s.pending.Idle?)
  }

  lemma SavedKnown(s: State)
    requires !s.pending.Idle? && s.up
    ensures var t := Saved(s);
            && t.up && t.pending.Idle? && t.snapshot == Some(t.memory) && t.journal == s.journal
            && t.memory == Recorded(s.memory, PendingEvent(s.pending).value)
            && t.granted == if s.pending.ClaimLogged? then s.granted + [s.pending.id] else s.granted
  {
    hide Recorded;
    var t := Stored(s);
    assert t.memory == Recorded(s.memory, PendingEvent(s.pending).value) && t.snapshot == Some(t.memory);
    assert t.up && t.pending.Idle? && t.journal == s.journal && t.granted == s.granted;
    hide Stored;
  }

  lemma FilesKnownStep(s: State, step: Step)
    requires FilesKnown(s)
    ensures FilesKnown(Exec(s, step))
  {
    if OutboxStep(step) {
      OutboxStepsKeepLedger(s, step);
      hide Exec;
    } else {
      if s.up && !s.pending.Idle? {
        SavedKnown(s);
      }
      BootKnows(s);
      hide Saved, MayLog, Append, AppendTorn, Recover, PendingEvent;
    }
  }

  lemma BootKnows(s: State)
    ensures Saves(s).Keys <= Recovered(s).Keys
  {
    forall id | id in Saves(s) ensures id in Recovered(s) {
      ReplayKeys(Saves(s), Events(s.journal), id);
    }
  }

  lemma {:induction false} FilesAlwaysKnown(steps: seq<Step>)
    ensures FilesKnown(Run(steps)) && LoggedKnown(Run(steps))
  {
    AlwaysDurable(steps);
    if steps != [] {
      var init := steps[..|steps| - 1];
      FilesAlwaysKnown(init);
      RunLast(steps);
      hide Run, Exec, FilesKnown, LoggedKnown;
      FilesKnownStep(Run(init), steps[|steps| - 1]);
    }
  }

  /** What is settled: a key of the snapshot, or a readable event of a whole line. */
  lemma SettledKeys(s: State, id: Id)
    ensures id in Settled(s) <==>
            id in Saves(s) || exists e :: e in WholeEvents(s.journal.lines) && Readable(e) && e.id == id
  {
    var whole := WholeEvents(s.journal.lines);
    assert Events(Journal(s.journal.lines, Clean)) == whole;
    ReplayKeys(Saves(s), whole, id);
  }

  lemma SettledIsKnown(s: State, id: Id)
    requires FilesKnown(s) && LoggedKnown(s) && s.up && id in Settled(s)
    ensures id in s.memory || (!s.pending.Idle? && PendingEvent(s.pending).value.id == id)
  {
    SettledKeys(s, id);
    if id !in Saves(s) {
      var e :| e in WholeEvents(s.journal.lines) && Readable(e) && e.id == id;
      assert Logs(s, e);
    }
  }

  // A barred request stays barred.

  lemma AppendKeepsSettled(s: State, e: Event, pending: Pending, id: Id)
    requires id in Settled(s)
    ensures id in Settled(Logged(s, e, pending))
  {
    var t := Logged(s, e, pending);
    SettledKeys(s, id);
    SettledKeys(t, id);
    WholeEventsStep(t.journal.lines, |s.journal.lines|);
    assert t.journal.lines[..|s.journal.lines|] == s.journal.lines;
    assert t.journal.lines[..|s.journal.lines| + 1] == t.journal.lines;
  }

  lemma SaveKeepsSettled(s: State, id: Id)
    requires FilesKnown(s) && LoggedKnown(s) && s.up && !s.pending.Idle? && id in Settled(s)
    ensures id in Settled(Saved(s))
  {
    SettledIsKnown(s, id);
    SavedKnown(s);
    RecordedKeys(s.memory, PendingEvent(s.pending).value);
    hide Saved, Settled, LoggedKnown, WholeEvents;
    assert id in s.memory.Keys + {PendingEvent(s.pending).value.id};
    SettledKeys(Saved(s), id);
  }

  lemma BarredStep(s: State, step: Step, id: Id)
    requires FilesKnown(s) && LoggedKnown(s) && FaultFree(step) && Barred(s, id)
    ensures Barred(Exec(s, step), id)
    ensures Exec(s, step).granted == s.granted ||
            exists x :: x != id && Exec(s, step).granted == s.granted + [x]
  {
    if s.up { SettledIsKnown(s, id); }
    hide LoggedKnown, FilesKnown, Settled, Append, Recover;
    if OutboxStep(step) {
      OutboxStepsKeepLedger(s, step);
      SameFiles(s, Exec(s, step));
    } else if Enabled(s, step) {
      match step
      case LogClaim(x, action) =>
        AppendKeepsSettled(s, Claim(x, action), ClaimLogged(x, action), id);
      case LogComplete(x, status) =>
        AppendKeepsSettled(s, Complete(x, status), CompleteLogged(x, status), id);
      case SaveLogged =>
        SaveKeepsSettled(s, id);
        SavedKnown(s);
        hide Saved;
      case _ =>
        SameFiles(s, Exec(s, step));
    }
  }

  lemma SameFiles(s: State, t: State)
    requires t.snapshot == s.snapshot && t.journal == s.journal
    ensures Settled(t) == Settled(s)
  {}

  lemma {:induction false} BarredAlways(steps: seq<Step>, more: seq<Step>, id: Id)
    requires NoFault(more) && Barred(Run(steps), id)
    ensures Barred(Run(steps + more), id) && !GrantedSince(Run(steps + more), |Run(steps).granted|, id)
    ensures |Run(steps).granted| <= |Run(steps + more).granted|
    decreases |more|
  {
    if more == [] {
      assert steps + more == steps;
    } else {
      var init, last := more[..|more| - 1], more[|more| - 1];
      assert steps + more == (steps + init) + [last];
      RunNext(steps + init, last);
      FilesAlwaysKnown(steps + init);
      hide Run, Exec, Barred, FilesKnown, LoggedKnown;
      BarredAlways(steps, init, id);
      BarredStep(Run(steps + init), last, id);
    }
  }

  // A request that is not barred can be claimed again.

  /** Some readable id that the ledger does not know. */
  lemma {:induction false} FreshId(keys: set<Id>) returns (other: Id)
    ensures other != "" && forall id :: id in keys ==> |id| < |other|
  {
    other := "x";
    if keys != {} {
      var id :| id in keys;
      var rest := FreshId(keys - {id});
      other := if |id| < |rest| then rest else id + "x";
    }
  }

  lemma UnknownId(l: Ledger) returns (other: Id)
    ensures other != "" && other !in l
  {
    other := FreshId(l.Keys);
  }

  /** A process that starts without knowing the request answers its next claim True. */
  lemma GrantsUnknown(s: State, id: Id)
    requires !s.up && s.pending.Idle? && id !in Recovered(s) && id != ""
    ensures Exec(Exec(Exec(s, Boot), LogClaim(id, "a")), SaveLogged).granted == s.granted + [id]
  {
    var booted := Exec(s, Boot);
    hide Recover, Append, Saved;
    assert booted.up && booted.pending.Idle? && booted.memory == Recovered(s) && booted.granted == s.granted;
    var logged := Exec(booted, LogClaim(id, "a"));
    assert logged == Logged(booted, Claim(id, "a"), ClaimLogged(id, "a"));
    assert logged.granted == s.granted && logged.up && logged.pending == ClaimLogged(id, "a");
    SavedKnown(logged);
    hide Logged;
  }

  /** One start, one claim of another request and one crash leave the settled ledger, if the tail was not clean. */
  lemma SpoilsTail(s: State, other: Id)
    requires !s.up && s.pending.Idle? && other != "" && other !in Recovered(s) && !s.journal.tail.Clean?
    ensures var t := Exec(Exec(Exec(s, Boot), LogClaim(other, "a")), Crash);
            !t.up && t.pending.Idle? && Recovered(t) == Settled(s) && t.granted == s.granted
  {
    var booted, e := Exec(s, Boot), Claim(other, "a");
    SettledAfterAppend(s, e);
    hide Recover, Append, Saved, Settled;
    assert booted.up && booted.pending.Idle? && booted.memory == Recovered(s) && booted.granted == s.granted;
    assert booted.journal == s.journal && booted.snapshot == s.snapshot;
    var logged := Exec(booted, LogClaim(other, "a"));
    assert logged == Logged(booted, e, ClaimLogged(other, "a"));
    assert logged.up && logged.journal == Append(s.journal, e) && logged.snapshot == s.snapshot;
    assert logged.granted == s.granted;
    hide Logged;
    assert Exec(logged, Crash) == Down(logged);
  }

  lemma {:induction false} GrantFromUnknown(steps: seq<Step>, id: Id) returns (more: seq<Step>)
    requires var s := Run(steps); !s.up && s.pending.Idle? && id !in Recovered(s) && id != ""
    ensures NoFault(more) && Run(steps + more).granted == Run(steps).granted + [id]
  {
    more := [Boot, LogClaim(id, "a"), SaveLogged];
    assert NoFault(more);
    hide *;
    ThreeSteps(steps, Boot, LogClaim(id, "a"), SaveLogged);
    GrantsUnknown(Run(steps), id);
  }

  /** A restart and a claim that nobody asked about spoil what only an unterminated line holds. */
  lemma {:induction false} Spoil(steps: seq<Step>) returns (more: seq<Step>)
    requires var s := Run(steps); !s.up && s.pending.Idle? && !s.journal.tail.Clean?
    ensures NoFault(more)
    ensures var s, t := Run(steps), Run(steps + more);
            !t.up && t.pending.Idle? && Recovered(t) == Settled(s) && t.granted == s.granted
  {
    var other := UnknownId(Recovered(Run(steps)));
    more := [Boot, LogClaim(other, "a"), Crash];
    assert NoFault(more);
    hide *;
    ThreeSteps(steps, Boot, LogClaim(other, "a"), Crash);
    SpoilsTail(Run(steps), other);
  }

  lemma NoFaultJoined(a: seq<Step>, b: seq<Step>)
    requires NoFault(a) && NoFault(b)
    ensures NoFault(a + b)
  {
    hide FaultFree;
  }

  /** From a process that is down. */
  lemma {:induction false} GrantFromDown(steps: seq<Step>, id: Id) returns (more: seq<Step>)
    requires var s := Run(steps); !s.up && s.pending.Idle? && id !in Settled(s) && id != ""
    ensures NoFault(more) && Run(steps + more).granted == Run(steps).granted + [id]
  {
    hide *;
    if id !in Recovered(Run(steps)) {
      more := GrantFromUnknown(steps, id);
    } else {
      CleanIsSettled(Run(steps));
      var spoil := Spoil(steps);
      var claim := GrantFromUnknown(steps + spoil, id);
      more := spoil + claim;
      NoFaultJoined(spoil, claim);
      assert steps + more == (steps + spoil) + claim;
    }
  }

  lemma CleanIsSettled(s: State)
    ensures s.journal.tail.Clean? ==> Settled(s) == Recovered(s)
  {
    SettledAfterAppend(s, Claim("", ""));
  }

  lemma {:induction false} GrantPending(steps: seq<Step>, id: Id) returns (more: seq<Step>)
    requires ClaimPending(Run(steps), id) && Run(steps).up
    ensures NoFault(more) && Run(steps + more).granted == Run(steps).granted + [id]
  {
    more := [SaveLogged];
    assert NoFault(more) && Exec(Run(steps), SaveLogged) == Saved(Run(steps));
    SavedKnown(Run(steps));
    hide *;
    RunNext(steps, SaveLogged);
  }

  lemma {:induction false} GrantAgain(steps: seq<Step>, id: Id) returns (more: seq<Step>)
    requires !Barred(Run(steps), id) && id != "" && FilesKnown(Run(steps))
    ensures NoFault(more) && Run(steps + more).granted == Run(steps).granted + [id]
  {
    if ClaimPending(Run(steps), id) {
      more := GrantPending(steps, id);
    } else if Run(steps).up {
      assert id !in Settled(Run(steps)) && NoFault([Crash]);
      hide *;
      RunNext(steps, Crash);
      CrashKeepsFiles(Run(steps));
      var later := GrantFromDown(steps + [Crash], id);
      more := [Crash] + later;
      NoFaultJoined([Crash], later);
      assert steps + more == (steps + [Crash]) + later;
    } else {
      more := GrantFromDown(steps, id);
    }
    hide *;
  }

  lemma CrashKeepsFiles(s: State)
    requires s.up
    ensures var t := Exec(s, Crash); !t.up && t.pending.Idle? && t.granted == s.granted && Settled(t) == Settled(s)
  {
    hide Recover;
  }

  /** In every state of every run, whatever was torn or lost before: no continuation without a further fault
      grants a request anew exactly when the files hold it -- in the snapshot or in a whole line of the journal --
      and no claim of it waits to be saved. For a request granted before this is "never granted twice". */
  lemma {:induction false} ClaimSafeExactly(steps: seq<Step>, id: Id)
    requires id != ""
    ensures NeverGrantedAgain(steps, id) <==> Barred(Run(steps), id)
  {
    FilesAlwaysKnown(steps);
    hide Run, Barred, FilesKnown, LoggedKnown;
    if Barred(Run(steps), id) {
      forall more: seq<Step> | NoFault(more) ensures !GrantedSince(Run(steps + more), |Run(steps).granted|, id) {
        BarredAlways(steps, more, id);
      }
    } else {
      var more := GrantAgain(steps, id);
      assert GrantedSince(Run(steps + more), |Run(steps).granted|, id) by {
        assert Run(steps + more).granted[|Run(steps).granted|] == id;
      }
    }
  }

  /** A granted request is held by the files as long as not both kinds of fault occurred. */
  lemma {:induction false} GrantedIsBarred(steps: seq<Step>, id: Id)
    requires Recoverable(Run(steps)) && id in Run(steps).granted
    ensures Barred(Run(steps), id)
  {
    var s := Run(steps);
    ClaimsKeptAlways(steps);
    hide Run;
    var i :| 0 <= i < |s.granted| && s.granted[i] == id;
    SettledKeys(s, id);
    if !s.torn {
      var a :| Logs(s, Claim(id, a));
      assert Readable(Claim(id, a));
      assert Events(s.journal) == WholeEvents(s.journal.lines) + [];
    }
  }
}
