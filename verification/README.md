# A verified model of AO2's stateful core

AO2 runs coding agents in sandbox copies of a repository and keeps signed, durable records of what they did. This
project models the parts of it whose guarantees span several functions and proves those guarantees in Dafny 4.11:

- **Sandbox patches.** A real tree (file with content and mode, link, directory, special file) is snapshotted twice,
  the ordered difference is bound to an approval subject, and the approved operations are replayed step by step on the
  target. (`SandboxPreview`, `SandboxApply`, `SandboxGuarantees`, `SandboxInterruption`, `SandboxCopy`,
  `SandboxMeaning`, on `Paths`, `FileTree`, `Lexicographic`, `Utf8Order`)
- **The outbound worker's durable protocol.** A write-ahead journal, an atomically replaced snapshot, a claim-once
  ledger and a result outbox, as classes with the source's methods and as a state machine in which a crash may fall
  between any two durable writes or inside a journal line. (`WorkerLedger`, `WorkerProtocol`, `WorkerRecovery`,
  `WorkerRestart`, `WorkerClaims`, `WorkerOutbox`) The poll loop with its all-or-nothing preflight, the signed
  execution authorizations and the qualification loop belong to the same worker. (`WorkerPoll`,
  `ExecutionAuthorization`, `StackQualification`)
- **Canonical JSON and text codecs.** The printer behind every digest against an independent RFC 8259 parser; shell
  quoting against a reader for POSIX shell words; percent coding; bounded UTF-8 text. (`CanonicalJson`, `CanonicalText`,
  `JsonParser`, `JsonRoundTrip`, `ShellQuoting`, `PercentCoding`, `Utf8`, `BoundedText`)
- **History retention.** Recording and pruning over a JSON index and a set of files. (`HistoryRetention`,
  `HistoryStore`)
- **Gate signing and transcripts.** Many signed wrappers that share one public key file; the transcript format, the
  body the parsers cut out of it, and the two parsers. (`GateSigning`, `Transcript`, `TranscriptParsers`,
  `TranscriptLines`)

Where the source changes state in place the model does too: `FileTree.RepoTree`, `CanonicalJson.TextBuffer`,
`WorkerLedger.WorkerState`, `WorkerPoll.OutboundWorker`, `HistoryStore.HistoryDirectory` and
`GateSigning.ExportsDirectory` are classes whose methods are proved against specification functions, and the theorems
are about those functions and about every run of them. The lemmas whose names end in `Tells` or `Meaning` say what the
specification functions mean without naming them again: on names, characters, bytes, fields and commits.

## What the proofs found

Each of these is where the code does less than a reader would hope. The model keeps the code's behaviour; lemmas say
under which condition the hoped-for property holds, and show an input or a run for which it does not.

- *A restart can know less than the process did.* If a crash leaves an event in the journal without its newline, that
  event is replayed once, but the next append makes it unreadable; a second crash before the save then forgets it
  (`WorkerRestart.RestartForgets` is such a run for any two requests). In every state of every run short of both
  faults (a torn line, a lost snapshot) this is the only way: between the operations a restart knows exactly what the
  process knew, and between append and save it knows that or one event more exactly unless the append met such an event
  (`WorkerRestart.RestartKnows`, and `WorkerRestart.TornWriteKnows` for a crash inside a line).
- *A request can be claimed twice* if a line was torn and the snapshot is lost as well
  (`WorkerProtocol.BothFaultsClaimTwice`); with at most one of the two faults it cannot (`WorkerProtocol.ClaimOnce`). In
  any state of any run, whatever faults it had, no continuation without a further fault grants a request anew exactly
  when the files hold it, in the snapshot or in a whole line, and no claim of it waits to be saved
  (`WorkerClaims.ClaimSafeExactly`).
- *A result can be lost* when a request gets two boards, a rejection and later a result: a flush that still holds
  the rejection removes the file of the result (`WorkerOutbox.SecondBoardLosesResult`). Whatever a restart
  would read as complete has a board, and a request with one board loses nothing, under any faults and whatever other
  requests do (`WorkerOutbox.NoCompletedResultIsLost`); with several, a result is safe from the
  moment it is queued exactly when no flush is under way that read another board of the request, or the same board was
  posted before (`WorkerOutbox.ResultSafeExactly`).
- *Applying an approved patch can fail half-way*: exactly when the sandbox has a file or link where the target has a
  directory, which no snapshot shows (`SandboxGuarantees.ApplySucceedsExactly`). A retry under the same approval is then
  refused, but a failure at the very first operation repeats itself (`SandboxGuarantees.RetryAfterFailure`). A stop
  inside an operation harms nothing: a fresh approval still ends at the sandbox's snapshot
  (`SandboxInterruption.StoppedInside`). The special
  permission bits (set-user-id and the like) are dropped on the way (`SandboxGuarantees.WriteEntryOutcome`).
- *An emit with another key takes the verdict from every gate emitted before it*, since the directory has one public
  key file; a gate's verdict holds exactly when all wrappers of it, old ones included, are signed with the key used last
  (`GateSigning.EmittedGateVerifies`).
- *A header with a delimiter in it hides the output*, but for two coincidences that are stated exactly
  (`Transcript.BodyIsStdoutExactly`).
- *`shell_quote` turns the empty word into nothing*, so a list reads back exactly when no word is empty
  (`ShellQuoting.QuotedListReadsBack`).
- *What `authorize_control_task` signs need not verify*: the verifier also wants node and request id to be texts and
  limits the sizes of key and signature (`ExecutionAuthorization.AuthorizedVerifiesInWindow`).
- *Pruning to a single entry changes the health trend* (`HistoryRetention.TrendSurvivesPrune`).
- *`percent_decode` slices by bytes*: it panics exactly when a percent sign is followed by a character of three bytes
  or more, or by one of one byte and then one of two or more (`PercentCoding.PanicsOnText`, with a text in
  `PercentCoding.PanickingText`). It also decodes `%+5` as the byte 5, which RFC 3986 does not know
  (`PercentCoding.TripleDecodes`). Encoded text never gets there (`PercentCoding.PercentRoundTrip`).

## Model

| member | source | states |
|---|---|---|
| Lexicographic.AscendingUnique | crates/ao2-adapters/src/sandbox_patch.rs:118-122 | Two strictly ascending path lists with the same members are equal, so the order of a patch does not depend on how the two snapshots were walked |
| Lexicographic.SortKeys | crates/ao2-adapters/src/sandbox_patch.rs:118-122 | Sorting collected keys gives the list of exactly these keys in which, of any two, the earlier one ends or has the smaller character at their first difference |
| Lexicographic.LessMeaning | crates/ao2-adapters/src/sandbox_patch.rs:118-122 | The recursive order of keys is the order at the first difference |
| Utf8Order.ByteOrder | crates/ao2-adapters/src/sandbox_patch.rs:118-122 | The order of keys by characters is the order of their UTF-8 bytes, which is what the source compares |
| Paths.CanonicalRelativePath | crates/ao2-adapters/src/sandbox_patch.rs:257-282 | Accepts exactly the non-empty lists of normal, non-empty components, and otherwise names the fault of the first bad one; the joined text of an accepted path splits back into it |
| Paths.SplitJoin | crates/ao2-adapters/src/sandbox_patch.rs:257-282 | Reading a snapshot key back as a path gives the components it was joined from |
| Paths.JoinInjective | crates/ao2-adapters/src/sandbox_patch.rs:257-282 | Two valid paths with one key are the same path |
| Paths.AncestorSortsFirst | crates/ao2-adapters/src/sandbox_patch.rs:118-122 | Every proper ancestor's key sorts before the keys beneath it |
| FileTree.RepoTree.CreateDirAll | crates/ao2-adapters/src/lib.rs:1278-1280 | Creates the missing ancestors one by one and stops, keeping what it made, at the first entry that is no directory |
| FileTree.MakeDirsAdds | crates/ao2-adapters/src/lib.rs:1278-1280 | Where every prefix is absent or a directory, it succeeds, adds exactly the missing prefixes and changes no other entry |
| FileTree.MakeDirsBlocked | crates/ao2-adapters/src/lib.rs:1278-1280 | Where an ancestor is there and no directory, nothing is made and the error says whether a link or another entry is in the way |
| SandboxPreview.SnapshotTree | crates/ao2-adapters/src/sandbox_patch.rs:211-255 | Succeeds exactly when no unignored entry is a special file, and then records every unignored file and link and nothing else, in any walking order |
| SandboxPreview.SnapshotOf | crates/ao2-adapters/src/sandbox_patch.rs:211-255 | A well-formed tree has a snapshot: each key is the path of an unignored file or link with its recorded state, and each of those has its key |
| SandboxPreview.SnapshotUnique | crates/ao2-adapters/src/sandbox_patch.rs:211-255 | A tree has only one snapshot |
| SandboxPreview.SnapshotLookup | crates/ao2-adapters/src/sandbox_patch.rs:211-255 | Looking a path up in the snapshot is looking at the tree |
| SandboxPreview.PreviewSandboxPatch | crates/ao2-adapters/src/sandbox_patch.rs:73-109 | Succeeds exactly with a repository state and two supported trees, and gives the sorted difference, its subject and the subject's digest |
| SandboxPreview.OperationsMeaning | crates/ao2-adapters/src/sandbox_patch.rs:111-155 | The operations ascend by path, each reports the two states of its entry and the right kind, and every path whose states differ is listed |
| SandboxPreview.DifferenceUnique | crates/ao2-adapters/src/sandbox_patch.rs:111-155 | Two trees have only one ordered difference |
| SandboxMeaning.IgnoredNames | crates/ao2-adapters/src/sandbox_patch.rs:284-311 | The seventeen ignored names, by what they are |
| SandboxMeaning.HiddenAtAnyDepth | crates/ao2-adapters/src/sandbox_patch.rs:216-221 | An ignored name at any depth keeps a path out of snapshot, run-time snapshot and copy |
| SandboxMeaning.RecordedOtherwise | crates/ao2-adapters/src/sandbox_patch.rs:211-255 | Without one, an entry is recorded and copied as what it is |
| SandboxMeaning.StateTells | crates/ao2-adapters/src/sandbox_patch.rs:226-247 | Two entries have one recorded state exactly for equal content and low nine bits, or equal link targets |
| SandboxMeaning.KindTells | crates/ao2-adapters/src/sandbox_patch.rs:125-146 | An operation is an addition, deletion or change exactly by which side has the entry |
| SandboxMeaning.SubjectNames | crates/ao2-adapters/src/sandbox_patch.rs:148-154 | The subject carries the schema, the operation type and the operations, and the preview lists their paths |
| SandboxApply.RemoveTargetSymlink | crates/ao2-adapters/src/lib.rs:1326-1340 | Removes a link, leaves a file or nothing alone, refuses a directory, and passes other errors on with the tree unchanged |
| SandboxApply.RemovePatchTarget | crates/ao2-adapters/src/lib.rs:1342-1356 | Removes a file or link, leaves nothing alone, refuses a directory |
| SandboxApply.ApplyOne | crates/ao2-adapters/src/lib.rs:1268-1298 | One turn of the loop: the tree it leaves and its error are those of the specification, also where it stops half-way |
| SandboxApply.ApplySandboxPatch | crates/ao2-adapters/src/lib.rs:1249-1308 | A failed preview or identity check leaves the target untouched; otherwise the operations run in order until the first error |
| SandboxGuarantees.SmallerIsDone | crates/ao2-adapters/src/lib.rs:1267-1299 | When an operation runs, every differing entry with a smaller path has been dealt with |
| SandboxGuarantees.AncestorsClear | crates/ao2-adapters/src/lib.rs:1278-1280 | When an added or modified entry is written, each of its ancestors is absent or a directory in the target, and a directory in the sandbox |
| SandboxGuarantees.WriteEntryOutcome | crates/ao2-adapters/src/lib.rs:1281-1292 | Writing an entry with its parents in place puts the sandbox's node there with its low nine permission bits, or stops at a directory and changes nothing |
| SandboxGuarantees.StepProgress | crates/ao2-adapters/src/lib.rs:1267-1299 | Each operation makes one step of progress and keeps the frame, unless it adds where the target has a directory; then it stops with the tree as it was |
| SandboxGuarantees.RunProgress | crates/ao2-adapters/src/lib.rs:1267-1299 | Any stretch of operations from any point of progress succeeds exactly when none hits a directory, and otherwise stops at the first that does with the progress up to it |
| SandboxGuarantees.ApplySucceedsExactly | crates/ao2-adapters/src/lib.rs:1249-1308 | Succeeds exactly when no unignored file or link of the sandbox is a directory in the target; then the target's snapshot is the sandbox's; ignored paths and directories stay, nothing goes through a link, and a failure is only ever the refused directory |
| SandboxGuarantees.OnlyApprovedRuns | crates/ao2-adapters/src/lib.rs:1250-1264 | Operations run under exactly the approval of the present difference and commit; every other request stops before the first write |
| SandboxMeaning.ApprovalBinds | crates/ao2-adapters/src/lib.rs:1250-1253 | An approval used for any later target, sandbox and repository state runs exactly if identity and base commit are the same and so are all differing entries with both states; otherwise it is refused before any write |
| SandboxMeaning.StaleCommitRefused | crates/ao2-adapters/src/lib.rs:1250-1253 | After the repository or its base commit changed, an old approval is refused though both trees are as they were |
| SandboxMeaning.RefusalReasons | crates/ao2-adapters/src/lib.rs:1250-1264 | Which check refuses: a wrong subject first, then a digest that is not the subject's; the last check never fails |
| SandboxMeaning.AppliedTree | crates/ao2-adapters/src/lib.rs:1249-1308 | After an apply that went through, every entry outside ignored components has the sandbox's content, bits or link target; below an ignored component at any depth the target is untouched, whatever happened |
| SandboxMeaning.DirectoryErrorTells | crates/ao2-adapters/src/lib.rs:1281-1292 | The directory error of a file to be written differs from that of a link |
| SandboxGuarantees.RemainingDifference | crates/ao2-adapters/src/sandbox_patch.rs:111-155 | After k operations a fresh preview lists exactly the remaining ones, numbered from 0 |
| SandboxGuarantees.RetryAfterInterruption | crates/ao2-adapters/src/lib.rs:1249-1308 | After k > 0 operations the old approval is refused before any write (so no non-empty patch is applied twice), and the remaining patch can succeed exactly if the whole one could |
| SandboxGuarantees.RetryAfterFailure | crates/ao2-adapters/src/lib.rs:1249-1308 | Retrying after a failure changes nothing: refused as a mismatch exactly when some operation had run, else the same failure |
| SandboxInterruption.StopIsInside | crates/ao2-adapters/src/lib.rs:1278-1292 | A stop after any of the parents, after a removal, or in the copy with any content and mode written leaves all else as it was |
| SandboxInterruption.StoppedInside | crates/ao2-adapters/src/lib.rs:1249-1308 | After such a stop in any operation a fresh approval succeeds exactly if the whole patch could and ends at the sandbox's snapshot; the old approval stands exactly if no operation had been done and the entry shows its old state, else it is refused before any write |
| SandboxCopy.CopyDirRecursive | crates/ao2-adapters/src/lib.rs:1432-1462 | In any walking order the copy is the source without ignored paths and special files, and no step fails |
| SandboxCopy.UnchangedCopyPreviewsEmpty | crates/ao2-adapters/src/lib.rs:288-317 | A copy that nothing changed previews to no operations |
| SandboxCopy.SnapshotFiles | crates/ao2-adapters/src/lib.rs:1487-1504 | Every unignored regular file is found under its slash-separated key, and every key belongs to such a file |
| SandboxCopy.SummarizeDiff | crates/ao2-adapters/src/lib.rs:1535-1566 | The changed paths ascending, each with the line for its kind of change |
| SandboxMeaning.SummaryTells | crates/ao2-adapters/src/lib.rs:1545-1562 | The line of a changed path says added, deleted or modified exactly by which side has it |
| SandboxCopy.RunDiffWithinPreview | crates/ao2-adapters/src/lib.rs:1535-1566 | For names without backslashes the run-time difference is within the preview's, which has more exactly for mode changes and for links where neither side has a file |
| SandboxCopy.RunDiffSubset | crates/ao2-adapters/src/lib.rs:288-317 | Every path a run reports as changed is among the preview's changed files |
| CanonicalJson.WriteString | crates/ao2-cli/src/cli_util.rs:380-398 | Appends the quoted text with each character escaped as specified |
| CanonicalJson.WriteValue | crates/ao2-cli/src/cli_util.rs:347-378 | Appends the canonical text of any value at any nesting, which the next four rows spell out |
| CanonicalText.ObjectText | crates/ao2-cli/src/cli_util.rs:364-376 | An object is its members between braces with bare commas, every key once, ascending at the first difference, each value the one held under its key |
| CanonicalText.ArrayText | crates/ao2-cli/src/cli_util.rs:349-363 | Literals, and an array as its elements' texts between brackets with bare commas |
| CanonicalText.TokenText | crates/ao2-cli/src/cli_util.rs:351-352 | A string is its escapes in quotes, a number its token |
| CanonicalText.EscapeTells | crates/ao2-cli/src/cli_util.rs:380-398 | The escape of every character: the short forms, lower-case hex for other controls, itself otherwise |
| JsonRoundTrip.StringParses | crates/ao2-cli/src/cli_util.rs:380-398 | An escaped string of any characters parses back to itself |
| JsonRoundTrip.ValueParses | crates/ao2-cli/src/cli_util.rs:347-378 | A printed value, followed by anything that cannot continue a number, parses back to itself with sorted members and leaves what follows |
| JsonRoundTrip.ParsePrint | crates/ao2-cli/src/cli_util.rs:205-209 | Parsing canonical text gives the value back, up to the order of object members |
| JsonRoundTrip.SameValuePrintsSame | crates/ao2-cli/src/cli_util.rs:347-378 | Values that differ only in member order, at any depth, have one text |
| JsonRoundTrip.CanonIdentifies | crates/ao2-cli/src/cli_util.rs:347-378 | Values with one sorted form differ only in member order |
| JsonRoundTrip.CanonicalTextIdentifies | crates/ao2-cli/src/cli_util.rs:211-215 | Canonical texts, and their digests, are equal exactly for the same value |
| WorkerLedger.WorkerState.constructor | scripts/ao2_windows_outbound_worker.py:1744-1769 | A start on whatever is on disk knows the snapshot with the journal replayed over it |
| WorkerLedger.WorkerState.ReplayJournal | scripts/ao2_windows_outbound_worker.py:1771-1806 | Replays the readable lines in order and skips the others |
| WorkerLedger.WorkerState.Save | scripts/ao2_windows_outbound_worker.py:1808-1811 | The snapshot becomes the ledger in memory and nothing else changes |
| WorkerLedger.WorkerState.AppendJournalEvent | scripts/ao2_windows_outbound_worker.py:1813-1823 | Appends one line; after a pending fragment the merged line is unreadable |
| WorkerLedger.WorkerState.TryClaim | scripts/ao2_windows_outbound_worker.py:1825-1833 | True exactly for an unknown request, which is then in journal, memory and snapshot; otherwise nothing changes |
| WorkerLedger.WorkerState.MarkComplete | scripts/ao2_windows_outbound_worker.py:1839-1846 | Records the status in journal, memory and snapshot and keeps the action |
| WorkerLedger.ReplayOutcome | scripts/ao2_windows_outbound_worker.py:1771-1806 | What replay leaves for each request, in closed form: first claim wins, last completion wins |
| WorkerLedger.ReplayTells | scripts/ao2_windows_outbound_worker.py:1785-1806 | What replaying one claim or completion does, and that an empty field makes it count for nothing |
| WorkerLedger.ReplayAbsorbsPrefix | scripts/ao2_windows_outbound_worker.py:1757-1806 | Replaying a journal over a snapshot taken after any prefix of it gives what replaying it once gives |
| WorkerLedger.CrashBeforeSave | scripts/ao2_windows_outbound_worker.py:1813-1846 | A restart between append and save knows the old ledger with or without the event, unless the journal ended in an event without newline; that event's effect is then gone |
| WorkerLedger.UnterminatedClaimIsLost | scripts/ao2_windows_outbound_worker.py:1813-1823 | The input for which recovery falls behind: a claim recovered from an unterminated line is forgotten after any further append |
| WorkerProtocol.ClaimsKeptStep | scripts/ao2_windows_outbound_worker.py:1757-1846 | Every step, with crashes, torn lines and a lost snapshot, keeps the evidence of every granted claim |
| WorkerProtocol.ClaimsKeptAlways | scripts/ao2_windows_outbound_worker.py:1757-1846 | That invariant holds after every run |
| WorkerProtocol.MethodsAreTwoSteps | scripts/ao2_windows_outbound_worker.py:1825-1846 | An undisturbed claim or completion is the protocol's append step followed by its save step |
| WorkerProtocol.ClaimOnce | scripts/ao2_windows_outbound_worker.py:1825-1833 | Over every run with at most one kind of fault a request is granted at most once; the snapshot keeps its key if never lost, the journal its claim if no line was torn |
| WorkerProtocol.BothFaultsClaimTwice | scripts/ao2_windows_outbound_worker.py:1813-1833 | With both kinds of fault there is a run that grants any given request twice |
| WorkerClaims.ClaimSafeExactly | scripts/ao2_windows_outbound_worker.py:1757-1833 | In every state of every run, whatever was torn or lost before: no continuation without a further fault answers a claim of the request True (again) exactly when the snapshot or a whole journal line holds it and no claim of it waits to be saved |
| WorkerClaims.GrantedIsBarred | scripts/ao2_windows_outbound_worker.py:1825-1833 | After every run short of both faults each granted request meets that condition |
| WorkerRestart.RestartKnows | scripts/ao2_windows_outbound_worker.py:1757-1846 | In every state of every run short of both faults: with no append pending a restart knows exactly what the process knows; with one pending it knows that or one event more exactly unless the append met an event without its newline (a completion that reports in_progress apart, which has no effect) |
| WorkerRestart.TornWriteKnows | scripts/ao2_windows_outbound_worker.py:1813-1823 | The same for a crash inside the write of a line: the old ledger or one event more, exactly unless something was written behind an event without its newline |
| WorkerRestart.RestartForgets | scripts/ao2_windows_outbound_worker.py:1813-1833 | A reachable run, for any two requests, in which the process knows a request and the next restart does not |
| WorkerRecovery.AlwaysDurable | scripts/ao2_windows_outbound_worker.py:1839-1846 | After every run the logged requests are known, and short of both faults each finished one keeps its status in snapshot, journal and memory, and no thread runs for it any more |
| WorkerRecovery.CompletionIsFinal | scripts/ao2_windows_outbound_worker.py:1839-1846 | A completion that returned is found with its status by a restart at any later time, short of both faults |
| WorkerOutbox.DeliveredStep | scripts/ao2_windows_outbound_worker.py:1853-1873 | No step loses a queued board of a request that has one board |
| WorkerOutbox.NoCompletedResultIsLost | scripts/ao2_windows_outbound_worker.py:2100-2118 | After every run, under any faults, for each request: one whose completion returned, or that a restart would read as complete in the files, has a board; of its boards at least one is in the outbox or posted; and if it has one board, that one is |
| WorkerOutbox.ResultSafeExactly | scripts/ao2_windows_outbound_worker.py:2443-2465 | The result that an action queues stays in the outbox or posted in every continuation short of both faults exactly when no flush under way read another board of the request, or the same board was posted before |
| WorkerOutbox.SecondBoardLosesResult | scripts/ao2_windows_outbound_worker.py:2443-2465 | The run in which a rejected request runs later and its result is removed unposted |
| WorkerOutbox.FlushDelivers | scripts/ao2_windows_outbound_worker.py:2456-2465 | An undisturbed flush with successful posts delivers exactly what was queued and empties the outbox |
| WorkerOutbox.FailedPostKeeps | scripts/ao2_windows_outbound_worker.py:2456-2465 | A failed post ends the flush and leaves the board for a later one |
| WorkerPoll.OutboundWorker.AcceptControlTask | scripts/ao2_windows_outbound_worker.py:2015-2098 | Beside its status: an observer request ends accepted in memory and snapshot with claim and completion journaled, a started one is in progress with its claim journaled, and any other leaves ledger and journal alone |
| WorkerPoll.AcceptTells | scripts/ao2_windows_outbound_worker.py:2015-2098 | On the fields of the task: exactly when it is ignored, a duplicate, rejected, answered or started, and what each changes |
| WorkerPoll.OutboundWorker.CheckLimits | scripts/ao2_windows_outbound_worker.py:2475-2497 | The one-pass check finds a limit exceeded exactly when the whole board exceeds it |
| WorkerPoll.OutboundWorker.PollOnce | scripts/ao2_windows_outbound_worker.py:2467-2502 | Nothing is accepted from a missing, malformed or refused board; otherwise all tasks in order |
| WorkerPoll.PollTells | scripts/ao2_windows_outbound_worker.py:2467-2502 | Exactly when a board is refused and why: more than 32 tasks, two tasks for this node with one request id, more than four that need authorization; otherwise all its tasks are accepted in order |
| WorkerPoll.LastAnswer | scripts/ao2_windows_outbound_worker.py:2497-2502 | An accepted board is answered with the status of its last task that was not ignored |
| WorkerPoll.PollIsBounded | scripts/ao2_windows_outbound_worker.py:2467-2502 | A poll starts at most four threads, all permitted, with ids never seen before; a refused board changes nothing |
| WorkerPoll.EveryStartIsSound | scripts/ao2_windows_outbound_worker.py:2015-2098 | Over every run of polls each started action was allowlisted, not arbitrary and authorized in the very poll that started it, no request started twice, and the starts are at most four times the polls |
| WorkerPoll.EveryStartWasSigned | scripts/ao2_windows_outbound_worker.py:2053-2063 | Over every run of polls that verify as the source does, each action started in a poll was signed with a trusted key for exactly the action, request and node that run, and the signature was in force at that poll's time |
| ExecutionAuthorization.AuthorizedVerifiesInWindow | scripts/ao2_windows_outbound_worker.py:1376-1575 | When signing succeeds, that it leaves the fields and their digest alone, and exactly when the result verifies: 300 s before issue to expiry, lifetime of 1 to 900 s, and the verifier's own limits |
| ExecutionAuthorization.AuthorizeTells | scripts/ao2_windows_outbound_worker.py:1386-1447 | Why signing is refused, exactly, in the order of the checks |
| ExecutionAuthorization.RefusalTells | scripts/ao2_windows_outbound_worker.py:1477-1575 | Why a signed task is refused later, exactly: key, node, request, other fields, too early, too late |
| ExecutionAuthorization.TamperingFails | scripts/ao2_windows_outbound_worker.py:1477-1575 | After a change of any field of the task or of the signed subject it verifies at no time and under no trust list |
| ExecutionAuthorization.VerifiedMeansSigned | scripts/ao2_windows_outbound_worker.py:1477-1575 | What verifies was signed by a trusted key for these very fields, node and request, and lives at most 15 minutes |
| StackQualification.Qualify | scripts/ao2_windows_outbound_worker.py:2257-2352 | The loops with their two breaks compute the recursive specification |
| StackQualification.AcceptedExactly | scripts/ao2_windows_outbound_worker.py:2257-2352 | Accepted exactly when there is a row, every repository is inside, checked out and passes its whole profile, and the total time is within the deadline; the rows are then every profile in order |
| StackQualification.ProfileShape | scripts/ao2_windows_outbound_worker.py:2313-2344 | An attempted profile adds a prefix of its commands, all but the last accepted, and ends early only at a failed command or at the deadline |
| StackQualification.RunShape | scripts/ao2_windows_outbound_worker.py:2257-2352 | The rows of every run that did not escape are the parts of the repositories in order, whole profiles or beginnings that end in a failed command, and nothing follows the command that crossed the deadline |
| StackQualification.StopsThere | scripts/ao2_windows_outbound_worker.py:2260-2346 | After an escape or a crossed deadline no further repository runs |
| StackQualification.EscapesExactly | scripts/ao2_windows_outbound_worker.py:2260-2263 | The call ends in an escape exactly at the first repository outside the factory root that is reached in time, and names it |
| StackQualification.SingleRows | scripts/ao2_windows_outbound_worker.py:2267-2311 | The one row of a repository that is not checked out, and of a delegated one |
| StackQualification.OverTells | scripts/ao2_windows_outbound_worker.py:2340-2342 | A deadline is crossed when it is exceeded, not when it is met |
| HistoryStore.FileNamesDiffer | crates/ao2-cli/src/control_plane_ops.rs:653-667 | Different suffixes give different file names |
| HistoryStore.FileNameTells | crates/ao2-cli/src/control_plane_ops.rs:655-660 | A file name is the stamp, the suffix if any, and the fixed ending |
| Decimals.DecimalReadsBack | crates/ao2-cli/src/control_plane_ops.rs:655-660 | A numeral has decimal digits, no leading zero, and reads back as its number |
| HistoryStore.HistoryDirectory.UniqueEntryPath | crates/ao2-cli/src/control_plane_ops.rs:653-667 | Ends on a finite directory with the first free name of the millisecond |
| HistoryStore.HistoryDirectory.Record | crates/ao2-cli/src/control_plane_ops.rs:610-651 | Adds one fresh file and appends one entry that points to it |
| HistoryStore.HistoryDirectory.Prune | crates/ao2-cli/src/control_plane_ops.rs:800-841 | Fails exactly for keep 0 or a missing index and then changes nothing; otherwise keeps the newest entries and deletes exactly the files of the others |
| HistoryStore.SplitNewest | crates/ao2-cli/src/control_plane_ops.rs:806-825 | Two sorts and a cut keep exactly the newest entries in their original order, and kept plus removed are all entries |
| HistoryRetention.NewestUnique | crates/ao2-cli/src/control_plane_ops.rs:813-825 | Age decides which positions are kept |
| HistoryRetention.KeptUnique | crates/ao2-cli/src/control_plane_ops.rs:813-825 | The kept list is determined by the entries and the count |
| HistoryRetention.PruneTwice | crates/ao2-cli/src/control_plane_ops.rs:806-825 | Pruning to k1 and then to k2 is pruning to the smaller |
| HistoryRetention.NewestAreLast | crates/ao2-cli/src/control_plane_ops.rs:813-825 | With timestamps in order the kept entries are the last ones |
| HistoryRetention.TrendSurvivesPrune | crates/ao2-cli/src/control_plane_ops.rs:711-757 | With timestamps in order, pruning leaves the trend alone exactly when it keeps two or there were fewer than two entries |
| HistoryRetention.TrendTells | crates/ao2-cli/src/control_plane_ops.rs:711-757 | The trend is improving, worsening or stable exactly as the last entry has fewer, more or as many alerts than the one before, with its status and path |
| HistoryStore.RecordKeepsConsistent | crates/ao2-cli/src/control_plane_ops.rs:610-651 | Recording keeps every entry's file there and the paths distinct |
| HistoryStore.PruneKeepsConsistent | crates/ao2-cli/src/control_plane_ops.rs:826-838 | Pruning never deletes a file that a kept entry points to |
| HistoryStore.RunsStayConsistent | crates/ao2-cli/src/control_plane_ops.rs:610-841 | Over any sequence of records and prunes every entry's file exists and the paths are pairwise distinct |
| HistoryStore.InterruptedPruneIsRepaired | crates/ao2-cli/src/control_plane_ops.rs:826-841 | A prune stopped after some deletions ends, when run again, where the whole prune ends |
| GateSigning.WrapperNamesDiffer | crates/ao2-cli/src/contract_gate_signing.rs:21-81 | Different stamps give different wrapper names |
| GateSigning.ExportsDirectory.Emit | crates/ao2-cli/src/contract_gate_signing.rs:21-81 | Writes wrapper, signature and the shared public key, and the signature verifies at once |
| GateSigning.VerifyGateSigning | crates/ao2-cli/src/contract_gate_signing.rs:139-261 | Reports on a matching wrapper of the first directory that has one, whatever the listing order, or that there is none |
| GateSigning.AuditTells | crates/ao2-cli/src/contract_gate_signing.rs:226-261 | Exactly when a matched wrapper is reported unsigned, invalid, not owned, or signed and verified |
| GateSigning.NotFoundTells | crates/ao2-cli/src/contract_gate_signing.rs:251-252 | A wrapper is reported missing exactly when no probed directory holds a matching one |
| GateSigning.DirectoryAfter | crates/ao2-cli/src/contract_gate_signing.rs:21-81 | After emits at fresh stamps into any directory it holds each wrapper with its own signature, all that was there unchanged, nothing else, and the last key |
| GateSigning.EmittedGateVerifies | crates/ao2-cli/src/contract_gate_signing.rs:98-261 | A gate that was emitted into any directory verifies, whatever else was emitted before or since, exactly when all its emissions used the key that was used last and named an operator role, and its older wrappers verify under that key too |
| GateSigning.OvertakenGate | crates/ao2-cli/src/contract_gate_signing.rs:59-63 | A gate whose key was replaced by a later emit is reported invalid, not missing |
| GateSigning.WrapperNameFound | crates/ao2-cli/src/contract_gate_signing.rs:56-58 | The chosen file name passes the filter of the verification |
| Transcript.HeaderEnds | crates/ao2-adapters/src/lib.rs:264-274 | Every header ends in true or false |
| Transcript.BodyIsStdoutExactly | crates/ao2-adapters/src/lib.rs:858-866 | The parse body of a formatted transcript is the output exactly when the header has no output delimiter and the output with a newline no error delimiter, or in one of two exactly stated coincidences of a header that has one |
| Transcript.BodyIsStdout | crates/ao2-adapters/src/lib.rs:858-866 | The case of a header without delimiter |
| Transcript.DirtyHeader | crates/ao2-adapters/src/lib.rs:858-866 | The case of a header with the output delimiter in it |
| Transcript.BodyTells | crates/ao2-adapters/src/lib.rs:858-866 | A text without output delimiter is its own body; behind the first one everything counts, up to the first error delimiter or to the end |
| TranscriptParsers.ParseScriptedTranscript | crates/ao2-adapters/src/lib.rs:746-856 | The loop over the lines with its local variables computes the line-by-line specification |
| TranscriptParsers.ParseGenericTranscript | crates/ao2-adapter-codex/src/lib.rs:126-228 | The same for the provider crate's copy |
| TranscriptParsers.ScriptedIsFilteredGeneric | crates/ao2-adapters/src/lib.rs:746-856 | On every transcript the scripted parser's result is the generic one without the concerns and blockers that are empty or say none; all other fields are equal |
| TranscriptParsers.OnlyOutputIsRead | crates/ao2-adapter-codex/src/lib.rs:126-228 | With no delimiter in header and output, neither header nor error output can change what is parsed |
| TranscriptParsers.FilesOnlyGrow | crates/ao2-adapters/src/lib.rs:752-755 | No line takes back a changed file of the sandbox |
| TranscriptParsers.LabelValueTrimmed | crates/ao2-adapters/src/lib.rs:868-880 | A labelled value is trimmed already, so the second trim of a blocker changes nothing |
| TranscriptLines.LabelledByName | crates/ao2-adapter-codex/src/lib.rs:153-214 | Trying the labels one by one as prefixes is looking up the name in front of the first separator: no label hides another |
| TranscriptLines.LineTells | crates/ao2-adapter-codex/src/lib.rs:154-214 | What each kind of line changes in the result, field by field; the first summary and the last count win |
| TranscriptLines.ReadTells | crates/ao2-adapter-codex/src/lib.rs:143-152 | Blank lines say nothing; a JSON line with a count or a cost is merged and not read by label |
| TranscriptLines.MergedTells | crates/ao2-adapter-codex/src/lib.rs:328-404 | What a JSON line carries overrides, what it lacks stays |
| TranscriptLines.TellingTells | crates/ao2-adapters/src/lib.rs:806-825 | A concern or blocker is dropped exactly when it is empty or says none in any case |
| TranscriptLines.CountReads | crates/ao2-adapter-codex/src/lib.rs:288-295 | A count below 2 to the 64 is read back from its digits amid other text, a larger one is not read |
| TranscriptLines.CostTells | crates/ao2-adapter-codex/src/lib.rs:297-304 | A cost is read with one dot or none and at least one digit |
| TranscriptLines.ConcernTells | crates/ao2-adapter-codex/src/lib.rs:274-286 | A concern splits at its first dash between blanks, or has no severity |
| TranscriptLines.TokenTells | crates/ao2-adapter-codex/src/lib.rs:261-272 | A bare file name is its own token, with slashes |
| TranscriptLines.TokenStripped | crates/ao2-adapter-codex/src/lib.rs:261-272 | Quotes around a name and a list mark in front of it are taken off |
| TranscriptLines.IdKindTells | crates/ao2-adapter-codex/src/lib.rs:344-346 | An id is filed under its label with underscores for blanks |
| TranscriptLines.SplitTells | crates/ao2-adapter-codex/src/lib.rs:254-259 | Splitting leaves no separator in a piece and loses nothing |
| TranscriptLines.TrimTells | crates/ao2-adapter-codex/src/lib.rs:143 | Trimming takes white space from both ends and nothing else |
| TranscriptLines.WhiteTells | crates/ao2-adapter-codex/src/lib.rs:143 | White space is the Unicode property White_Space |
| TranscriptLines.LowerTells | crates/ao2-adapter-codex/src/lib.rs:153 | Lower case changes ASCII capitals only |
| ShellQuoting.QuotedReads | crates/ao2-cli/src/cli_util.rs:473-482 | A quoted word, of any characters, reads back as itself after anything read so far |
| ShellQuoting.QuoteTells | crates/ao2-cli/src/cli_util.rs:473-482 | Exactly which words are left alone; every other is put in single quotes |
| ShellQuoting.JoinedReads | crates/ao2-cli/src/cli_util.rs:473-482 | Quoted words joined by blanks read back as the list without its empty words |
| ShellQuoting.QuotedListReadsBack | crates/ao2-cli/src/cli_util.rs:473-482 | They read back as the same list exactly when no word is empty |
| PercentCoding.PercentEncode | crates/ao2-cli/src/cli_util.rs:548-558 | The loop computes the byte-by-byte encoding |
| PercentCoding.EncodeTells | crates/ao2-cli/src/cli_util.rs:548-558 | Exactly which bytes stay; every other is a triple of upper-case hex |
| PercentCoding.PercentDecode | crates/ao2-cli/src/cli_util.rs:523-546 | The loop and the lossy conversion at its end compute the decoded text, or panic where the specification says so |
| PercentCoding.BytesRoundTrip | crates/ao2-cli/src/cli_util.rs:523-558 | Decoding inverts encoding on all byte strings |
| PercentCoding.PercentRoundTrip | crates/ao2-cli/src/cli_util.rs:523-558 | Decoding inverts encoding on all texts, and encoded text is made of unreserved characters and percent signs only |
| PercentCoding.PanicsExactly | crates/ao2-cli/src/cli_util.rs:531-532 | Decoding panics exactly when a continuation byte stands three bytes behind some percent sign |
| PercentCoding.PanicsOnText | crates/ao2-cli/src/cli_util.rs:531-532 | The same condition on the characters of the text |
| PercentCoding.TripleDecodes | crates/ao2-cli/src/cli_util.rs:531-539 | A triple becomes a byte exactly for two hex digits, or a plus sign and one; otherwise the percent sign stays and reading goes on behind it |
| PercentCoding.PanickingText | crates/ao2-cli/src/cli_util.rs:531-539 | A text that panics, and one that is decoded though RFC 3986 knows no such triple |
| Utf8.DecodeEncode | scripts/ao2_windows_outbound_worker.py:1585-1594 | Decoding the encoding of a text gives the text |
| Utf8.LossyDecodeEncode | crates/ao2-cli/src/cli_util.rs:545 | The lossy conversion gives back every text from its encoding |
| Utf8.LossyTells | crates/ao2-cli/src/cli_util.rs:545 | One replacement character stands for the longest cut-off beginning of a character, or for one byte that begins none |
| Utf8.CutDecodes | scripts/ao2_windows_outbound_worker.py:1592-1593 | Any cut of an encoding decodes to exactly the characters that are whole in it |
| Utf8.FitIsGreatest | scripts/ao2_windows_outbound_worker.py:1592-1593 | Those are as many characters as fit, and waste fewer than four bytes |
| BoundedText.TruncatedForm | scripts/ao2_windows_outbound_worker.py:1585-1594 | A truncated text is that prefix and the suffix |
| BoundedText.BoundedLength | scripts/ao2_windows_outbound_worker.py:1585-1594 | At most max(limit, 15) bytes; untouched if it fits, else a character prefix that loses fewer than four bytes to the cut, and the suffix |
| BoundedText.BoundingIsIdempotent | scripts/ao2_windows_outbound_worker.py:2833 | Bounding again at the same limit, as the row builder does, changes nothing |

## Assumptions

SHA-256 and RSA are free constructors: equal digests mean equal inputs, and a signature verifies under a key exactly
when that key's secret made it on that content. The results of `ExecutionAuthorization` follow from this by unfolding
two definitions; they are there for the poll theorems that use them. The replacement of a file by `replace` is atomic.
Sandbox and target are disjoint trees that nothing else writes to during an apply.

## Left out

- HTTP, Git, OpenSSL, process spawning and timeouts: repository state, child results and "this authorization verifies" are parameters; failed posts are steps of the protocol.
- The Windows side of applying and copying (no mode, links refused), permission errors, umask, hard links, and races between preview and apply.
- Going through a symbolic link: the file operations report it as the error `ThroughLink`, and the theorems show that an apply never does.
- JSON text of journal lines: a line is a whole event, garbled, a fragment, or an event without its newline; times in the ledger are not kept, and a ledger file of a wrong shape is not modelled.
- The outbox on disk: writes to it succeed, file names are taken to be distinct for distinct requests (they hold 64 bits of a digest), and unreadable files that are set aside as invalid do not occur.
- Threads of the poll: `WorkerPoll` hands a started action to a thread and stops there; the thread's steps are those of `WorkerProtocol`.
- What Python's `str(value or "")` gives for a request id, an action or a mark that is no text: a parameter of `WorkerPoll`.
- PEM and Base64 syntax, the exact key set of an authorization, and the text form of its timestamps: one verdict each for a missing, misshapen or untimed authorization.
- Python floats: durations and deadlines of the qualification loop are reals.
- What precedes the qualification loop: validation of the repository list, the physical-host lease and the deadline, which is positive if it is there.
- Number formatting in canonical JSON: a number is a token of the grammar of RFC 8259 section 6.
- `bound_text` on text with lone surrogates, and the redaction before it.
- Expansions, assignments and operators of the shell: the reader of words rejects every unquoted character with a meaning of its own.
- The fleet history's record and prune, twins of the health history's; the u32 bound of the name suffix; directories named in different ways.
- The survey over many gates and its entry merging; the wrapper's fields that verification does not read.
- What a JSON line of a transcript says (an oracle shared by both parsers), and the value of a cost beyond its text.
- Rendering, argument parsing, console output, tool discovery, lease and parameter validators: long conjunctions without a property of their own.
