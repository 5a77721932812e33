/** The claim-once ledger of the outbound worker: a write-ahead journal replayed over a snapshot
    (`WorkerState` in `scripts/ao2_windows_outbound_worker.py`). Timestamps are left out. */
module WorkerLedger {
  import opened Wrappers

  type Id = string

  /** A claim creates an entry with an action; a completion without a claim creates one without. */
  datatype Entry = Entry(action: Option<string>, status: string)

  type Ledger = map<Id, Entry>

  datatype Event = Claim(id: Id, action: string) | Complete(id: Id, status: string)

  /** A line that was torn and then merged with the next append no longer parses. */
  datatype Line = Whole(event: Event) | Garbled

  /** What follows the last newline: nothing, a fragment that does not parse, or all of an event but its
      newline, which does parse. */
  datatype Tail = Clean | Fragment | Unterminated(event: Event)

  datatype Journal = Journal(lines: seq<Line>, tail: Tail)

  const EMPTY_JOURNAL := Journal([], Clean)

  /** How far the write of one line got before a crash. */
  datatype Torn = NoByte | SomeBytes | AllButNewline

  /** A completed append ends the pending tail's line with its own newline. */
  function Append(j: Journal, e: Event): Journal {
    Journal(j.lines + [if j.tail.Clean? then Whole(e) else Garbled], Clean)
  }

  function AppendTorn(j: Journal, e: Event, torn: Torn): Journal {
    match torn
    case NoByte => j
    case SomeBytes => j.(tail := Fragment)
    case AllButNewline => j.(tail := if j.tail.Clean? then Unterminated(e) else Fragment)
  }

  function WholeEvents(lines: seq<Line>): seq<Event> {
    if lines == [] then []
    else WholeEvents(lines[..|lines| - 1]) + match lines[|lines| - 1] case Whole(e) => [e] case Garbled => []
  }

  /** The events that replay can read. */
  function Events(j: Journal): seq<Event> {
    WholeEvents(j.lines) + match j.tail case Unterminated(e) => [e] case _ => []
  }

  /** Replay skips an event without an id, an action or a status. */
  predicate Readable(e: Event) {
    e.id != "" && match e case Claim(_, action) => action != "" case Complete(_, status) => status != ""
  }

  const IN_PROGRESS := "in_progress"

  /** `setdefault` for a claim; a completion overwrites the status. */
  function Recorded(l: Ledger, e: Event): Ledger {
    match e
    case Claim(id, action) => if id in l then l else l[id := Entry(Some(action), IN_PROGRESS)]
    case Complete(id, status) => l[id := Entry(if id in l then l[id].action else None, status)]
  }

  function ReplayEvent(l: Ledger, e: Event): Ledger {
    if Readable(e) then Recorded(l, e) else l
  }

  function Replay(l: Ledger, events: seq<Event>): Ledger {
    if events == [] then l
    else ReplayEvent(Replay(l, events[..|events| - 1]), events[|events| - 1])
  }

  /** A missing or unreadable snapshot counts as a blank ledger. */
  function Recover(snapshot: Option<Ledger>, j: Journal): Ledger {
    Replay(if snapshot.Some? then snapshot.value else map[], Events(j))
  }

  // What replay does to one request, in closed form.

  /** The first readable event of a request. */
  function FirstOf(events: seq<Event>, id: Id): Option<Event> {
    if events == [] then None
    else
      var earlier := FirstOf(events[..|events| - 1], id);
      var e := events[|events| - 1];
      if earlier.Some? then earlier else if Readable(e) && e.id == id then Some(e) else None
  }

  /** The status of the last readable completion of a request. */
  function LastStatus(events: seq<Event>, id: Id): Option<string> {
    if events == [] then None
    else
      var e := events[|events| - 1];
      if Readable(e) && e.id == id && e.Complete? then Some(e.status) else LastStatus(events[..|events| - 1], id)
  }

  /** First claim wins, last completion wins; an entry that was there keeps its action, and its status
      unless a completion is replayed. */
  function Outcome(base: Option<Entry>, first: Option<Event>, last: Option<string>): Option<Entry> {
    match (base, first)
    case (Some(entry), _) => Some(if last.Some? then entry.(status := last.value) else entry)
    case (None, None) => None
    case (None, Some(e)) =>
      Some(Entry(if e.Claim? then Some(e.action) else None, if last.Some? then last.value else IN_PROGRESS))
  }

  lemma {:induction false} ReplayOutcome(l: Ledger, events: seq<Event>, id: Id)
    ensures Lookup(Replay(l, events), id) == Outcome(Lookup(l, id), FirstOf(events, id), LastStatus(events, id))
    ensures LastStatus(events, id).Some? ==> FirstOf(events, id).Some?
    ensures FirstOf(events, id).Some? && FirstOf(events, id).value.Complete? ==> LastStatus(events, id).Some?
  {
    if events != [] {
      ReplayOutcome(l, events[..|events| - 1], id);
    }
  }

  lemma {:induction false} LastStatusPrefix(events: seq<Event>, k: nat, id: Id)
    requires k <= |events|
    ensures LastStatus(events[..k], id).Some? ==> LastStatus(events, id).Some?
    ensures FirstOf(events[..k], id).Some? ==> FirstOf(events, id) == FirstOf(events[..k], id)
  {
    if k < |events| {
      LastStatusPrefix(events[..|events| - 1], k, id);
      assert events[..|events| - 1][..k] == events[..k];
    } else {
      assert events[..k] == events;
    }
  }

  lemma SameLookups(a: Ledger, b: Ledger)
    requires forall id :: Lookup(a, id) == Lookup(b, id)
    ensures a == b
  {
    assert forall id :: id in a <==> Lookup(a, id).Some?;
    assert forall id :: id in b <==> Lookup(b, id).Some?;
    assert a.Keys == b.Keys;
    assert forall id :: id in a ==> Lookup(a, id) == Lookup(b, id);
  }

  /** Replaying the whole journal over a snapshot that already holds any prefix of it changes nothing
      against replaying it once. */
  lemma ReplayAbsorbsPrefix(l: Ledger, events: seq<Event>, k: nat)
    requires k <= |events|
    ensures Replay(Replay(l, events[..k]), events) == Replay(l, events)
  {
    var a, b := Replay(Replay(l, events[..k]), events), Replay(l, events);
    forall id ensures Lookup(a, id) == Lookup(b, id) {
      ReplayOutcome(Replay(l, events[..k]), events, id);
      ReplayOutcome(l, events[..k], id);
      ReplayOutcome(l, events, id);
      LastStatusPrefix(events, k, id);
    }
    SameLookups(a, b);
  }

  /** The durable files and the lock-protected memory, changed by the methods of the source. */
  class WorkerState {
    var snapshot: Option<Ledger>
    var journal: Journal
    var memory: Ledger

    /** A process start on whatever an earlier process left on disk. */
    constructor (snapshot: Option<Ledger>, journal: Journal)
      ensures this.snapshot == snapshot && this.journal == journal
      ensures memory == Recover(snapshot, journal)
    {
      this.snapshot := snapshot;
      this.journal := journal;
      this.memory := if snapshot.Some? then snapshot.value else map[];
      new;
      hide Replay, Events;
      ReplayJournal();
    }

    /** Line by line; what does not parse is skipped. */
    method ReplayJournal()
      modifies this`memory
      ensures memory == Replay(old(memory), Events(journal))
    {
      hide Replay, ReplayEvent, WholeEvents;
      var lines := journal.lines;
      ReplayStart(memory);
      assert lines[..0] == [];
      for i := 0 to |lines|
        invariant memory == Replay(old(memory), WholeEvents(lines[..i]))
      {
        WholeEventsStep(lines, i);
        if lines[i].Whole? {
          ReplayNext(old(memory), WholeEvents(lines[..i]), lines[i].event);
          memory := ReplayEvent(memory, lines[i].event);
        }
      }
      assert lines[..|lines|] == lines;
      if journal.tail.Unterminated? {
        ReplayNext(old(memory), WholeEvents(lines), journal.tail.event);
        memory := ReplayEvent(memory, journal.tail.event);
      } else {
        assert Events(journal) == WholeEvents(lines);
      }
    }

    method Save()
      modifies this`snapshot
      ensures snapshot == Some(memory)
    {
      snapshot := Some(memory);
    }

    method AppendJournalEvent(e: Event)
      modifies this`journal
      ensures journal == Append(old(journal), e)
    {
      journal := Append(journal, e);
    }

    /** True at most once while the entry stays known; the journal is written before the snapshot. */
    method TryClaim(id: Id, action: string) returns (granted: bool)
      modifies this
      ensures granted <==> id !in old(memory)
      ensures granted ==> memory == old(memory)[id := Entry(Some(action), "in_progress")] && snapshot == Some(memory)
                          && journal == Append(old(journal), Claim(id, action))
      ensures !granted ==> unchanged(this)
    {
      if id in memory {
        return false;
      }
      AppendJournalEvent(Claim(id, action));
      memory := memory[id := Entry(Some(action), IN_PROGRESS)];
      Save();
      return true;
    }

    method MarkComplete(id: Id, status: string)
      modifies this
      ensures var action := if id in old(memory) then old(memory)[id].action else None;
              memory == old(memory)[id := Entry(action, status)] && snapshot == Some(memory)
      ensures journal == Append(old(journal), Complete(id, status))
    {
      AppendJournalEvent(Complete(id, status));
      var item := if id in memory then memory[id] else Entry(None, status);
      memory := memory[id := item.(status := status)];
      Save();
    }

    method HasRequest(id: Id) returns (known: bool)
      ensures known <==> id in memory
    {
      known := id in memory;
    }
  }

  lemma ReplayStart(l: Ledger)
    ensures WholeEvents([]) == [] && Replay(l, []) == l
  {}

  lemma WholeEventsStep(lines: seq<Line>, i: nat)
    requires i < |lines|
    ensures WholeEvents(lines[..i + 1]) ==
            match lines[i]
            case Whole(e) => WholeEvents(lines[..i]) + [e]
            case Garbled => WholeEvents(lines[..i])
  {
    assert lines[..i + 1][..i] == lines[..i];
  }

  lemma ReplayNext(l: Ledger, events: seq<Event>, e: Event)
    ensures Replay(l, events + [e]) == ReplayEvent(Replay(l, events), e)
  {
    assert (events + [e])[..|events|] == events;
  }

  lemma EventsAfterAppend(j: Journal, e: Event)
    ensures Events(Append(j, e)) == if j.tail.Clean? then Events(j) + [e] else WholeEvents(j.lines)
  {
    var lines := Append(j, e).lines;
    assert lines[..|lines| - 1] == j.lines;
  }

  /** A crash right after an append and before the save: the restarted worker knows the ledger of before,
      with or without the appended event -- unless the journal it was loaded from ended in an event without
      its newline. The append then makes that event unreadable, and what only it had recorded is gone. */
  lemma CrashBeforeSave(snapshot: Option<Ledger>, j: Journal, e: Event)
    requires Readable(e)
    ensures var before, after := Recover(snapshot, j), Recover(snapshot, Append(j, e));
            match j.tail
            case Clean => after == Recorded(before, e)
            case Fragment => after == before
            case Unterminated(last) => before == ReplayEvent(after, last)
  {
    EventsAfterAppend(j, e);
    var l := if snapshot.Some? then snapshot.value else map[];
    ReplayNext(l, Events(j), e);
    assert !j.tail.Unterminated? ==> Events(j) == WholeEvents(j.lines);
    if j.tail.Unterminated? {
      ReplayNext(l, WholeEvents(j.lines), j.tail.event);
    }
  }

  /** For a journal that ends in an unterminated claim of a request that nothing else records, the loss happens
      on every further append. */
  lemma UnterminatedClaimIsLost(snapshot: Option<Ledger>, j: Journal, e: Event)
    requires j.tail.Unterminated? && j.tail.event.Claim? && Readable(j.tail.event) && Readable(e)
    requires j.tail.event.id !in Recover(snapshot, Journal(j.lines, Clean))
    ensures j.tail.event.id in Recover(snapshot, j)
    ensures j.tail.event.id !in Recover(snapshot, Append(j, e))
  {
    EventsAfterAppend(j, e);
    CrashBeforeSave(snapshot, j, e);
    assert Events(Journal(j.lines, Clean)) == WholeEvents(j.lines) == Events(Append(j, e));
  }

  /** What replaying one event does: nothing if a field is empty; a claim enters an unknown request and leaves a
      known one alone; a completion sets the status and nothing else. */
  lemma ReplayTells(l: Ledger, id: Id, text: string)
    ensures Replay(l, [Claim(id, text)]) ==
            if id == "" || text == "" || id in l then l else l[id := Entry(Some(text), "in_progress")]
    ensures Replay(l, [Complete(id, text)]) ==
            if id == "" || text == "" then l
            else l[id := Entry(if id in l then l[id].action else None, text)]
  {
    ReplayStart(l);
    ReplayNext(l, [], Claim(id, text));
    ReplayNext(l, [], Complete(id, text));
    assert [] + [Claim(id, text)] == [Claim(id, text)] && [] + [Complete(id, text)] == [Complete(id, text)];
    hide Replay;
  }
}
