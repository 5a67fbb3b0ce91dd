# Verified model of the replicated store, schedulers and canonical forms

This project models the algorithmic cores of the repository in Dafny and proves properties of them. Code that
works step by step on state is a class or a method with loops, proved against a specification; expression-style
code is functions; the main results are lemmas over all inputs, all runs or all schedules.

| modules | what they model |
|---|---|
| `DocStore`, `DocStoreLog`, `DocStoreReplica`, `DocStoreLeases`, `DocStoreLists`, `DocStoreObjects` | the replicated document store: documents with tombstones, the change log, revisions, leases, and the file-backed store |
| `EventScan` | the block-window search, the pool of eight workers over one shared counter, the final sort |
| `CliSupervisor`, `CliSeen`, `CliOutcome`, `CliProgress`, `CliRun` | the child-process supervisor as a timed event machine, what its flags and outcomes mean in terms of the events, why it cannot get stuck, and the object with flags and timers |
| `RelayLeadership` | the settlement order and the failover timeline |
| `LaunchDemo` | the two-pass greedy choice of members over gateways |
| `CanonicalJson`, `JsonReader` | the canonical JSON printer behind the policy hash, and an independent reader after the grammar of RFC 8259, sections 2 to 7 |
| `ReviveQuote` | unit discovery by galloping and bisection, and the rounded-up quote |
| `TranscriptText`, `Transcript`, `TranscriptWriter` | the transcript's chunk-to-line buffers and group headers |
| `OperatorCapability` | the search for an operator, gateway and processor in signed reports |
| `EnvText`, `EnvUpdates`, `EnvFile`, `EnvUpsert` | the upsert of env files |
| `Wrappers`, `Ordering`, `Decimal` | options and results, filtering and stable sorting, decimal text |

Each stateful part has two layers. A specification gives the step of every operation on values (`DocStore.Step`,
`CliSupervisor.Step`, `Transcript.Step`, `EnvFile.Upserted`), and the theorems are about runs of these steps. The
classes and loops are proved to take exactly these steps, so the theorems hold of them (`DocStoreObjects.CallInTurn`,
`CliRun.Supervise`, `TranscriptWriter.Transcribe`, `EnvUpsert.EnvFiles.Upsert`). `EventScan.ScanBlocks` leaves open
which worker runs next, so one proof covers every interleaving.

## Where a wished-for property does not hold of the code

Each of these has a concrete input, and what does hold is proved, where possible as an exact condition.

- A renewal by the same owner may shorten the term, so a name can pass to another owner before an expiry that was
  handed out earlier (`RenewalMayShorten`). What holds is `HandOverIsSafe`: the last grant of the earlier owner was over.
- Output that matches after the timeout has begun the termination does not save the run: if the child then stays
  open, the promise is rejected (`LateMatchIsStillRejected`). The exact condition is `AbandonOutcome`.
- `list` is not a function of the documents when the collation ties two ids: two histories leave the same documents
  and are listed differently (`TiedListsTellHistory`). The documents fix the list exactly when the collation can tell
  the live documents apart (`ListingUniqueExactly`).
- When two finalized blocks are stamped exactly at the end of the time window, the block window misses all but the
  first (`EqualStampsLoseABlock`); otherwise it is complete (`WindowCompleteExactly`).
- A key that looks like a comment, or a value with a line break in it, is accepted by the env upsert
  (`CommentedKeyIsAccepted`, `BrokenValueIsAccepted`) but never read back, and a second run changes the file again
  (`RereadingExactly`, `SecondRunChangesNothingExactly`, `CommentKeyPilesUp`).
- Normalising a report gives every scope a processor list, so the fallback from `processors` to `includeProcessors`
  never applies to normalised reports and processors can be lost (`NormalizingLosesZeroId`,
  `NormalizingKeepsProcessorsExactly`).

Two findings of another kind: the guard "at least two selected gateways" after the allocator can never fire
(`SelectCapacity`), and without a timeout or matched output no timer ever settles the promise (`TimersSettleExactly`).
The settlement order is a function of the set of active relays unless two of them have one digest
(`SameSetSameOrderUnlessCollision`, with `OrderDependsOnlyOnSetExactly` for scores and collations in general).

## Model

| member | source | states |
|---|---|---|
| `DocStoreObjects.MemoryStore.PutOne` | src/replicated-doc-store.ts:99-114 | a put takes the store and its reply to exactly what `PutStep` says, in place; a refused put leaves the whole state unchanged |
| `DocStoreObjects.MemoryStore.DeleteOne` | src/replicated-doc-store.ts:116-134 | a delete (of a tombstone too) takes the store to exactly what `DeleteStep` says: the tombstone keeps its value, its log entry does not; a refused delete changes nothing |
| `DocStoreObjects.MemoryStore.GetOne` | src/replicated-doc-store.ts:87-90 | the stored document, or nothing exactly when it is absent or a tombstone |
| `DocStoreObjects.MemoryStore.ListAll` | src/replicated-doc-store.ts:92-97 | exactly the live documents, no document after one whose id the collation puts later; the order of enumeration is left open |
| `DocStoreObjects.MemoryStore.ReadSince` | src/replicated-doc-store.ts:136-141 | in a consistent store the changes after a checkpoint are the rest of the log from there |
| `DocStoreObjects.MemoryStore.Acquire` | src/replicated-doc-store.ts:143-162 | a lease call is refused for a non-positive term, answered with nothing while another owner holds an unexpired lease, and otherwise stores and returns a new lease; nothing but the leases changes |
| `DocStoreObjects.MemoryStore.Release` | src/replicated-doc-store.ts:164-171 | a lease is removed exactly when the stored lease has the presented token |
| `DocStoreObjects.MemoryStore.NextSequence` | src/replicated-doc-store.ts:185-188 | hands out the next sequence number and stores it |
| `DocStoreObjects.JsonFileStore.PutOne` | src/replicated-doc-store.ts:206-211 | over the file: the step of a memory store that holds the file contents; a throwing put leaves the file as it was |
| `DocStoreObjects.JsonFileStore.DeleteOne` | src/replicated-doc-store.ts:213-218 | the same for delete; a throwing delete leaves the file as it was |
| `DocStoreObjects.JsonFileStore.Acquire` | src/replicated-doc-store.ts:225-230 | the same for leases; a refused lease still writes the file, an invalid term does not |
| `DocStoreObjects.JsonFileStore.Release` | src/replicated-doc-store.ts:232-239 | the same for releases; the file is written only when a lease was released |
| `DocStoreObjects.JsonFileStore.Reload` | src/replicated-doc-store.ts:241-257 | the store holds the file contents, or the empty snapshot when the file is absent |
| `DocStoreObjects.CallInTurn` | src/replicated-doc-store.ts:191-263 | any number of file-backed stores over one file, called one at a time in any order, answer like one memory store that starts from the file contents, whatever they are, and leave its state in the file; every reply is determined when the collation is a total order and documents are stored under their own ids |
| `DocStore.ListingUniqueExactly` | src/replicated-doc-store.ts:92-97 | what `list` returns is fixed by the documents, whatever order the properties are enumerated in, if and only if the collation can tell the live ids apart |
| `DocStore.ListingMeans` | src/replicated-doc-store.ts:92-97 | in every listing ids ascend in the collation, and it holds exactly the live documents, once each when they are stored under their own ids |
| `DocStore.TotalOrderDistinguishes` | src/replicated-doc-store.ts:95 | a collation that is a total order tells the documents apart, so `list` is determined |
| `DocStoreLists.FirstWritesEnumerate` | src/replicated-doc-store.ts:92-97 | in every reachable store the order of first writes, in which an object enumerates its properties, enumerates exactly the live documents |
| `DocStoreLists.TiedListsTellHistory` | src/replicated-doc-store.ts:92-97 | two runs from the empty store that end with the same documents, two of them tied by the collation, and are listed differently |
| `DocStoreLog.NextGeneration` | src/replicated-doc-store.ts:279-287 | reading a new revision back gives a generation one above that of the revision it replaces |
| `DocStoreLog.StepConsistent` | src/replicated-doc-store.ts:99-171 | every operation keeps log and documents in agreement, only extends the log, and leaves alone every id it does not write |
| `DocStoreLog.ReachableConsistent` | src/replicated-doc-store.ts:99-134 | over any run: the sequence counts the log, entry i has sequence i + 1, every generation counts the writes of its id, replaying the log gives every id, rev, sequence, time, deleted flag and live value and nothing else; the log only grows |
| `DocStoreLog.EmptyConsistent` | src/replicated-doc-store.ts:78-85 | every state reachable from the empty store is consistent |
| `DocStoreLog.ReplayGives` | src/replicated-doc-store.ts:289-298 | replaying the log gives for each id its document's rev, sequence, time and deleted flag, its value unless it is a tombstone, and nothing for other ids |
| `DocStoreLog.DocumentGeneration` | src/replicated-doc-store.ts:111-112 | a stored document exists exactly when its id was written, its rev is that of the last log entry of its id and its generation is the number of writes |
| `DocStoreLog.WriteCommits` | src/replicated-doc-store.ts:99-134 | a write either changes nothing, or commits exactly one document with the next sequence number, a rev made of the number of writes and the digest, the caller's value (a tombstone keeps the old one), having named the last rev of its id; a refusal names the expected and the actual rev |
| `DocStoreLog.AcceptedExactly` | src/replicated-doc-store.ts:265-277 | a put is accepted exactly when it names the rev of the last write of its id (none for a new id), a delete exactly when it names the rev of an existing id, tombstones included |
| `DocStoreLog.WriteChain` | src/replicated-doc-store.ts:99-134 | at every point of every run an accepted write names the rev of the write just before it on the same id and its generation is the number of writes so far; a refused one changes nothing |
| `DocStoreLog.RevsNeverRepeat` | src/replicated-doc-store.ts:279-287 | no ABA: two log entries of one id never have the same rev, across deletes and recreations |
| `DocStoreLog.NoLostUpdate` | src/replicated-doc-store.ts:99-134 | a write with a rev read earlier is accepted exactly when nobody has written the id since, and then the document is still the one that was read |
| `DocStoreLog.ChangesSinceIsSuffix` | src/replicated-doc-store.ts:136-141 | the changes after a checkpoint are a suffix of the log and the sort moves nothing |
| `DocStoreReplica.ApplySlice` | src/replicated-doc-store.ts:136-141 | a batch that starts at or before the checkpoint, overlapping or not, brings a replica to the batch's end or leaves it alone |
| `DocStoreReplica.NextKeepsInvariant` | src/replicated-doc-store.ts:99-141 | clients, fetches and late, repeated, reordered or truncated deliveries all keep the replica equal to the replay of a prefix of the log |
| `DocStoreReplica.RunKeepsInvariant` | src/replicated-doc-store.ts:99-141 | the same over whole runs of the system |
| `DocStoreReplica.UpToDateServesPrimary` | src/replicated-doc-store.ts:87-97 | a replica at the primary's sequence serves exactly what `get` and `list` return |
| `DocStoreReplica.ReplicaCatchesUp` | src/replicated-doc-store.ts:136-141 | after any run, applying the changes after any reached checkpoint gives the live view of the primary |
| `DocStoreLeases.HistoryLegal` | src/replicated-doc-store.ts:143-171 | every grant and release of a run is legal against the lease stored just before it, and the store holds the last grant that was not released |
| `DocStoreLeases.TenureEnds` | src/replicated-doc-store.ts:148-151 | at a grant to B, the last grant that A had of the name before it had run out or was released with its own token |
| `DocStoreLeases.HandOverIsSafe` | src/replicated-doc-store.ts:143-171 | with a non-decreasing clock, over every run: when a name passes from A to B, the last grant of A before that had expired by B's `now` or had been released |
| `DocStoreLeases.TakeoverOnlyAfterExpiry` | src/replicated-doc-store.ts:144-151 | a name is granted exactly when the term is positive and the last unreleased grant is absent, the caller's own, or expired by `now` |
| `DocStoreLeases.TokenReleasesOnlyItsLease` | src/replicated-doc-store.ts:164-171 | with fresh tokens, a grant's token releases a lease exactly when nothing has happened to that name since; a renewed, released or taken-over token releases nothing |
| `DocStoreLeases.RenewalMayShorten` | src/replicated-doc-store.ts:149-160 | a same-owner renewal replaces the token and may shorten the term, so another owner is granted the name before the first lease's expiry |
| `EventScan.PushBlock` | scripts/acurast/express-harness.ts:1452-1476 | one block's wanted records are pushed contiguously in record order |
| `EventScan.AtLoopTest` | scripts/acurast/express-harness.ts:1444-1446 | a worker at the loop test claims the next block, which nobody holds, or finishes; the pool invariant is kept |
| `EventScan.Resume` | scripts/acurast/express-harness.ts:1447-1477 | a worker that comes back from an await keeps the pool invariant: no block is held twice, and every claimed block that nobody holds has been pushed once and whole |
| `EventScan.ScanBlocks` | scripts/acurast/express-harness.ts:1439-1479 | for every interleaving of the eight workers the sorted events are those of a sequential scan, the blocks of the window are claimed exactly once each in order, and the pool finishes |
| `EventScan.SameBlocksSameSort` | scripts/acurast/express-harness.ts:1479 | the stable sort cannot see how the blocks' events were interleaved |
| `EventScan.PoolDone` | scripts/acurast/express-harness.ts:1443-1479 | when all workers have finished, the sorted events and the claimed blocks are those of the whole window |
| `EventScan.FirstBlockAtOrAfterTimestamp` | scripts/acurast/express-harness.ts:1490-1505 | with non-decreasing stamps the search ends at the least block at or after the target, or at the upper bound |
| `EventScan.ScanWindowExactly` | scripts/acurast/express-harness.ts:1421-1433 | the time window is exactly the instants up to the clock within two minutes before the scheduled start and ten minutes after the scheduled end when there are any, and otherwise those from two minutes before the clock or the tenth minute after the end, whichever is first; it is never inverted |
| `EventScan.ScheduleReachedExactly` | scripts/acurast/express-harness.ts:1430 | when there are any such instants |
| `EventScan.ScanWindowOrdered` | scripts/acurast/express-harness.ts:1424-1433 | the time window is never inverted |
| `EventScan.ScanDeploymentEvents` | scripts/acurast/express-harness.ts:1411-1488 | with non-decreasing stamps: the events are exactly those of the records to report in the block window, by block and then by name; the window is complete if and only if no two finalized blocks are stamped at its end, and then (always with strictly increasing stamps) every record to report stamped at an instant to scan is reported |
| `EventScan.BlockEventsExactly` | scripts/acurast/express-harness.ts:1452-1475 | an event is reported for a block exactly when some record of it is of one of the two pallets and a sequence needle and an alias stand in its printed form; with the record's own fields |
| `EventScan.EventsExactly` | scripts/acurast/express-harness.ts:1444-1479 | the sorted events are exactly those that report a record of a block of the window |
| `EventScan.EventsInOrder` | scripts/acurast/express-harness.ts:1479 | by block, then by event name |
| `EventScan.WindowHolds` | scripts/acurast/express-harness.ts:1435-1436 | with strictly increasing stamps a finalized block stamped within the time window lies in the block window |
| `EventScan.WindowCompleteExactly` | scripts/acurast/express-harness.ts:1435-1436 | with repeated stamps the window is complete if and only if no two finalized blocks are stamped exactly at its end |
| `EventScan.EqualStampsLoseABlock` | scripts/acurast/express-harness.ts:1490-1505 | a chain with equal stamps on which the window misses a block |
| `CliRun.CliProcess.Settle` | scripts/acurast/express-harness.ts:1686-1708 | settles the promise once and clears all four timers; nothing changes when it has settled before |
| `CliRun.CliProcess.TerminateChildTree` | scripts/acurast/express-harness.ts:1741-1767 | termination begins at most once and sets the kill and abandon timers, or settles with the signalling error |
| `CliRun.CliProcess.OnData` | scripts/acurast/express-harness.ts:1769-1780 | output is collected and tested until it matches once; the first match sets the kill timer |
| `CliRun.CliProcess.OnClose` | scripts/acurast/express-harness.ts:1793-1807 | a close settles the promise by the four branches in order |
| `CliRun.CliProcess.OnAbandon` | scripts/acurast/express-harness.ts:1760-1766 | the abandon timer settles by the reason for which termination began |
| `CliRun.CliProcess.On` | scripts/acurast/express-harness.ts:1674-1809 | every handler takes the object one step of the event machine |
| `CliRun.Supervise` | scripts/acurast/express-harness.ts:1674-1809 | a whole supervised run of the object is the run of the machine: settled at most once, and with a timeout settled by timers alone within the deadline, whatever the child does |
| `CliSupervisor.SettlesOnce` | scripts/acurast/express-harness.ts:1686-1708 | in every run the promise settles at most once, and later events change neither the fact nor the outcome |
| `CliProgress.SettlesByDeadline` | scripts/acurast/express-harness.ts:1741-1791 | with a timeout, and timers at most `lag` late, every run goes on to settle by timers alone within timeout + grace + 1000 + 2 lag, and none passes that point unsettled |
| `CliSupervisor.DeadlineKept` | scripts/acurast/express-harness.ts:1741-1791 | on an unsettled promise nothing can happen after that point |
| `CliProgress.SettlesAfterMatch` | scripts/acurast/express-harness.ts:1741-1780 | from the first chunk with which everything printed so far is accepted, timeout or no timeout, every run goes on to settle by timers alone within kill delay + grace + 1000 + 2 lag |
| `CliSupervisor.MatchDeadlineKept` | scripts/acurast/express-harness.ts:1741-1780 | on an unsettled promise nothing can happen after that point |
| `CliProgress.RunPunctual` | scripts/acurast/express-harness.ts:1741-1791 | after every run no pending timer has been kept waiting for more than `lag` |
| `CliProgress.TimersSettleExactly` | scripts/acurast/express-harness.ts:1741-1791 | timers alone settle an unsettled promise if and only if there is a timeout or at some chunk everything printed so far was accepted |
| `CliSupervisor.RunBounded` | scripts/acurast/express-harness.ts:1741-1767 | in every run, an unsettled termination has an abandon timer at most a grace and a second away |
| `CliSupervisor.OutcomeExplained` | scripts/acurast/express-harness.ts:1674-1809 | in every run the promise resolves only with child output, after exit code 0 or with the awaited output in it, and is rejected as timed out only after the timeout fired |
| `CliOutcome.CloseOutcome` | scripts/acurast/express-harness.ts:1793-1807 | a close of a pending promise resolves it with everything printed exactly when at some chunk everything printed so far was accepted (whatever the exit code) or the code is 0 and no timeout has fired; else it rejects as timed out or with the exit code |
| `CliOutcome.ChildErrorOutcome` | scripts/acurast/express-harness.ts:1792 | a child error rejects with that error |
| `CliOutcome.TerminationOutcome` | scripts/acurast/express-harness.ts:1741-1767 | the first kill timer or timeout on a pending promise rejects with the signal's error, or sets the force-kill timer one grace ahead and the abandon timer a second after it, with the reason; a later one does nothing |
| `CliOutcome.ForceKillOutcome` | scripts/acurast/express-harness.ts:1753-1759 | a failing force kill rejects with its error, one that goes through settles nothing |
| `CliOutcome.OutputOutcome` | scripts/acurast/express-harness.ts:1769-1780 | output alone settles nothing |
| `CliOutcome.MatchSetsKillTimer` | scripts/acurast/express-harness.ts:1776-1779 | the chunk that completes the awaited output sets the kill timer the kill delay ahead |
| `CliOutcome.TimeoutPending` | scripts/acurast/express-harness.ts:1785-1790 | the timeout is pending from the start until it fires or the promise settles |
| `CliOutcome.TimersKept` | scripts/acurast/express-harness.ts:1686-1791 | no other event touches the kill, force-kill and abandon timers of a pending promise |
| `CliOutcome.SettlingClearsTimers` | scripts/acurast/express-harness.ts:1690-1702 | settling clears all four timers |
| `CliSeen.OutputIsPrinted` | scripts/acurast/express-harness.ts:1771 | in every run the collected output is the concatenation of the chunks |
| `CliSeen.MatchedExactly` | scripts/acurast/express-harness.ts:1769-1780 | in every run the output counts as matched if and only if at some chunk the test accepted the concatenation up to and including it |
| `CliSeen.TimedOutExactly` | scripts/acurast/express-harness.ts:1786-1788 | timed out if and only if the timeout has fired |
| `CliSeen.TerminatingExactly` | scripts/acurast/express-harness.ts:1741-1745 | terminating if and only if the kill timer or the timeout has fired on a pending promise |
| `CliSupervisor.AbandonReason` | scripts/acurast/express-harness.ts:1741-1767 | in every run the abandon timer's reason is timeout exactly when a timeout event began the termination |
| `CliSupervisor.AbandonOutcome` | scripts/acurast/express-harness.ts:1760-1766 | an abandon rejects as timed out exactly when the timeout began the termination, even if the output matched meanwhile; otherwise it resolves |
| `CliSupervisor.LateMatchIsStillRejected` | scripts/acurast/express-harness.ts:1760-1766 | a run in which the awaited output arrives after the timeout and the promise is still rejected |
| `RelayLeadership.ActiveUniqueRelayIds` | src/relay-leadership.ts:80-91 | the loop yields every active non-empty id exactly once, in order of first appearance |
| `RelayLeadership.OrderIsPermutation` | src/relay-leadership.ts:28-37 | the settlement order lists exactly the active ids, once each, sorted by score and id |
| `RelayLeadership.OrderGoesByScore` | src/relay-leadership.ts:35 | no relay stands after one with a later score, nor, among scores that the collation ties, after one with a later id |
| `RelayLeadership.ActiveExactly` | src/relay-leadership.ts:84 | active ids are the non-empty ones listed by a relay that is not marked inactive |
| `RelayLeadership.SameSetSameOrder` | src/relay-leadership.ts:28-37 | any two lists with the same distinguishable active ids, permuted or duplicated, give the same order |
| `RelayLeadership.SameSetSameOrderUnlessCollision` | src/relay-leadership.ts:28-37 | with digests for scores, the same active set gives the same order unless two active relays have one digest |
| `RelayLeadership.ScoresDistinguish` | src/relay-leadership.ts:35 | ids with scores that the collation tells apart are never tied |
| `RelayLeadership.TotalOrderDistinguishes` | src/relay-leadership.ts:35 | a collation that is a total order ties no two ids, whatever their scores |
| `RelayLeadership.TiedKeepInputOrder` | src/relay-leadership.ts:35 | two ids that the collation cannot tell apart come out in input order |
| `RelayLeadership.OrderDependsOnlyOnSetExactly` | src/relay-leadership.ts:28-37 | the order is a function of the active set if and only if no two distinct active ids are tied |
| `RelayLeadership.RemovalKeepsOrder` | src/relay-leadership.ts:28-37 | removing one relay leaves the relative order of the others unchanged |
| `RelayLeadership.SelectSettlementLeader` | src/relay-leadership.ts:39-65 | nothing without active relays, an error for a non-positive grace, otherwise the leader of the timeline; `primaryDeadlineUnixSeconds` is the window's end plus the grace, and with more than one relay the instant at which, on every clock, the first one stops leading |
| `RelayLeadership.Timeline` | src/relay-leadership.ts:54-55 | position i below the last leads exactly in its grace interval after the window, the last position from its interval on |
| `RelayLeadership.TimelineByClock` | src/relay-leadership.ts:54-55 | position i leads exactly from i graces after the window's end (the first one from ever) until one grace later (the last one for good) |
| `RelayLeadership.LeadMovesForward` | src/relay-leadership.ts:54-55 | the leader index never goes back |
| `RelayLeadership.EveryRelayLeadsInTurn` | src/relay-leadership.ts:39-65 | at every instant an active relay leads, and every active relay's turn comes, one interval after another |
| `RelayLeadership.NodesAgree` | src/relay-leadership.ts:67-69 | nodes with the same active set and clocks in the same interval name the same leader |
| `RelayLeadership.NodesAgreeUnlessCollision` | src/relay-leadership.ts:67-69 | so nodes agree unless two active relays have one digest |
| `RelayLeadership.IsSettlementLeader` | src/relay-leadership.ts:67-69 | yes exactly for the relay that the timeline names |
| `LaunchDemo.RankPreorder` | cli/src/index.ts:2386-2395 | the comparator is a total preorder |
| `LaunchDemo.RankMeans` | cli/src/index.ts:2386-2395 | one member ranks strictly before another if and only if it has fewer active routes; or as many and more capacity; or those equal and a fresher heartbeat, an unknown one counting as the oldest safe integer; or all equal and a name strictly first |
| `LaunchDemo.KeyNamesPair` | cli/src/index.ts:2397-2399 | a member key determines gateway and processor, colons in the gateway id notwithstanding: its last colon is the one in between |
| `LaunchDemo.FirstLoop` | cli/src/index.ts:2358-2369 | the first loop takes exactly the first member of each gateway in rank order, up to the count |
| `LaunchDemo.SecondLoop` | cli/src/index.ts:2371-2377 | the second loop fills up in rank order with keys not taken yet |
| `LaunchDemo.SelectLaunchDemoMembers` | cli/src/index.ts:2354-2380 | fails exactly when more than one member is asked of fewer than two gateways; otherwise min(count, distinct keys) candidates over min(count, distinct gateways) gateways, no key twice, renumbered from 1; of each chosen gateway the best candidate is there, no candidate of another gateway is better than any member, and no candidate with another key is better than a member that is not its gateway's best; first one member per gateway, best first, then the others, best first |
| `LaunchDemo.SelectionSizes` | cli/src/index.ts:2363-2377 | the member and gateway counts of the greedy selection are exactly the least of count and what there is |
| `LaunchDemo.RenumberedSame` | cli/src/index.ts:2382-2384 | renumbering changes only the member ids |
| `LaunchDemo.GreedyIsOptimal` | cli/src/index.ts:2363-2377 | against any other selection of as many distinct keys over as many gateways, the k-th best member taken stands at or before the other's k-th best, for every k |
| `LaunchDemo.GreedyIsOptimalByRank` | cli/src/index.ts:2358-2395 | the same in the members' own fields: their k-th best is never better than the k-th best taken |
| `LaunchDemo.SelectCapacity` | cli/src/index.ts:2142-2162 | success exactly when there are enough candidates, two gateways if needed, and min(count, distinct keys) reaches the minimum; the guard on selected gateways never fires |
| `CanonicalJson.EscapeReadable` | src/ingress-quote.ts:288 | no escape sequence is the start of another one with different meaning |
| `CanonicalJson.QuoteReadable` | src/ingress-quote.ts:288 | a quoted string can be read back from any text that starts with it |
| `CanonicalJson.IntReadable` | src/ingress-quote.ts:288 | whole numbers have different texts, also with something behind them that is not a digit |
| `JsonReader.NumberReadBack` | src/ingress-quote.ts:288 | a whole number is printed as the decimal text that is worth it, without leading zeros |
| `JsonReader.StringReadBack` | src/ingress-quote.ts:288 | an escaped string is read back as it was |
| `JsonReader.EscapesExactly` | src/ingress-quote.ts:288 | which characters are escaped, and how long their escapes are |
| `JsonReader.QuotedEach` | src/ingress-quote.ts:288 | a string is printed character by character between quotation marks |
| `CanonicalJson.Readable` | src/ingress-quote.ts:286-298 | no text is the print of two values that differ by more than key order, whatever follows it |
| `CanonicalJson.PrintsAlike` | src/ingress-quote.ts:294-297 | values equal up to key order at every depth print alike |
| `CanonicalJson.CanonicalExactly` | src/ingress-quote.ts:286-298 | two values print to the same text if and only if they are equal up to object key order (that the text is the value's own JSON is `JsonReader.CanonicalTextIsJson`) |
| `JsonReader.ReadsBack` | src/ingress-quote.ts:286-298 | a reader after the RFC 8259 grammar, at the start of any text, reads the printed value with its keys in order, and leaves the rest |
| `JsonReader.CanonicalTextIsJson` | src/ingress-quote.ts:286-298 | reading the canonical text gives a value equal up to key order, with the keys of every object in order, and nothing left over |
| `JsonReader.PolicyHashOfJson` | src/ingress-quote.ts:277-279 | the policy hash is the digest of such a text |
| `CanonicalJson.PolicyHashCanonical` | src/ingress-quote.ts:277-279 | key order never changes the policy hash, and equal hashes mean equal policies or a digest collision |
| `ReviveQuote.DeriveContractValuePerNativeUnit` | src/revive.ts:47-64 | finds the oracle's unit exactly, in 2k + 1 probes where 2^k is the least power of two that buys a native unit |
| `ReviveQuote.LeastExponentUnique` | src/revive.ts:48-51 | that k is unique, so the number of probes is determined |
| `ReviveQuote.CeilingFacts` | src/revive.ts:31-33 | the rounded-up quotient is the least number of units that covers the request, with less than one unit to spare |
| `ReviveQuote.QuoteNativeCallValue` | src/revive.ts:20-45 | a negative request fails without a probe; otherwise the call value is the ceiling of request over unit, 0 <= excess < unit, and the excess is 0 exactly when there is no dust |
| `Transcript.CutAnywhere` | cli/src/output.ts:125-127 | cutting a text in two and buffering the unfinished line loses and adds nothing |
| `Transcript.SplitExactly` | cli/src/output.ts:126 | the parts hold no newline, and with newlines in between they give the text back |
| `Transcript.ChompExactly` | cli/src/output.ts:103 | one carriage return at the end of a line is dropped, and nothing else |
| `Transcript.WritesKeepApart` | cli/src/output.ts:123-131 | over any interleaving of streams, each buffer holds the unfinished line of its own stream and each stream's complete lines have gone out in order |
| `Transcript.EveryLineOnce` | cli/src/output.ts:122-140 | after a final flush each stream's lines have come out whole, once each and in order, an unterminated last line too, and nothing is buffered |
| `Transcript.FlushSendsUnfinished` | cli/src/output.ts:132-139 | a flush sends out the unfinished lines after everything else, stream by stream |
| `Transcript.StreamsByFirstWrite` | cli/src/output.ts:127 | in the order in which the streams were first written to |
| `Transcript.ChunkingInvisible` | cli/src/output.ts:123-139 | for one stream the output depends only on the concatenation of the chunks |
| `Transcript.HeaderExactly` | cli/src/output.ts:102-120 | on the whole page each line has one output of its own, in order, and before it stand a separator and the title of its group exactly when it is not empty and the last non-empty line before it (on any stream) is of another group or missing |
| `Transcript.BlocksFillPage` | cli/src/output.ts:102-120 | nothing else is on the page |
| `TranscriptWriter.Writer.StartGroup` | cli/src/output.ts:109-116 | writes the separator and title that a change of group needs, and nothing otherwise |
| `TranscriptWriter.Writer.EmitLine` | cli/src/output.ts:102-120 | appends one line's block to the page |
| `TranscriptWriter.Writer.WriteChunk` | cli/src/output.ts:123-131 | takes the writer one write step |
| `TranscriptWriter.Writer.FlushAll` | cli/src/output.ts:132-139 | takes the writer one flush step, streams in the order of their first write |
| `TranscriptWriter.Transcribe` | cli/src/output.ts:98-141 | the writer's output calls over any sequence of calls are the page of the lines it sent out |
| `TranscriptText.PrefixMeansSwitchboard` | cli/src/output.ts:188-199 | a line with the (possibly coloured) prefix is in the Switchboard group and is shown without it |
| `TranscriptText.UncolouredLines` | cli/src/output.ts:188-199 | a line without escape sequences is in the Switchboard group exactly when it starts with the prefix, and only then loses the prefix and one space |
| `TranscriptText.ColouredPrefix` | cli/src/output.ts:188-199 | a prefix between colour sequences counts and is taken off with them and one space |
| `TranscriptText.ColourIsSkipped` | cli/src/output.ts:193-198 | a colour sequence is skipped as a whole |
| `OperatorCapability.ExpandedReportProcessors` | src/operator-capability.ts:469-493 | the loops keep the first offer of every id, scope by scope |
| `OperatorCapability.ExpandedExactly` | src/operator-capability.ts:469-493 | every id at most once, and exactly the ids that some scope lists without excluding them |
| `OperatorCapability.ProcessorsComeFrom` | src/operator-capability.ts:477-490 | each processor stands for the first entry that lists its id, scope by scope: with the entry as address unless it is an id itself, and the scope's manager |
| `OperatorCapability.RawProcessorsExactly` | src/operator-capability.ts:478 | what a scope lists: its processors, or for a manager scope without any its inclusions |
| `OperatorCapability.ListsAtExactly` | src/operator-capability.ts:477-484 | an entry lists the id it decodes to unless one of the scope's exclusions decodes to it |
| `OperatorCapability.RefExactly` | src/operator-capability.ts:495-504 | a 32-byte hex id is taken in lower case, anything else decoded |
| `OperatorCapability.FirstPassing` | src/operator-capability.ts:429-438 | the first processor that passes the three processor filters |
| `OperatorCapability.SelectOperatorCapabilityCandidate` | src/operator-capability.ts:386-467 | nothing exactly when no report and processor pass every filter; otherwise the first passing processor of the newest report that has one |
| `OperatorCapability.CandidateIsListed` | src/operator-capability.ts:394-429 | a passing processor is one that its report lists without excluding, and later reports are no newer |
| `OperatorCapability.CandidateMeetsRequest` | src/operator-capability.ts:394-463 | the candidate is fresh, has a free route, is the operator and processor asked for, has the URLs that were required, and the operator's last given profile is active and vouches for its signer, gateway, processor and manager |
| `OperatorCapability.ReportPassesExactly` | src/operator-capability.ts:394-427 | a report passes if and only if the operator's last given profile makes it eligible, by the fields of report, profile and request |
| `OperatorCapability.ProcessorPassesExactly` | src/operator-capability.ts:430-438 | a processor passes if and only if it is the one requested, and listed by id and manager where the profile lists any |
| `OperatorCapability.CandidateSays` | src/operator-capability.ts:440-454 | every field of the candidate, from report, profile and processor |
| `OperatorCapability.ReasonsExactly` | src/operator-capability.ts:455-462 | the fixed reasons and their order |
| `OperatorCapability.ProfilesExactly` | src/operator-capability.ts:392 | an operator has a profile if and only if one was given |
| `OperatorCapability.ProfilesAreLast` | src/operator-capability.ts:392 | of several profiles with one operator id the last one counts |
| `OperatorCapability.UniqueStringsMembers` | src/operator-capability.ts:506-508 | deduplication keeps exactly the non-empty values, once each |
| `OperatorCapability.NormalizingKeepsProcessorsExactly` | src/operator-capability.ts:285-290 | normalising keeps a report's processors if and only if everything listed through the `includeProcessors` fallback is also listed outright |
| `OperatorCapability.NormalizingLosesFallback` | src/operator-capability.ts:285-290 | a manager scope that names a processor only in `includeProcessors` offers it, and nothing once normalised |
| `OperatorCapability.NormalizingLosesZeroId` | src/operator-capability.ts:478 | the same at a concrete id |
| `EnvUpdates.CollectedExactly` | scripts/mainnet/upsert-env-from-stdin.py:25-38 | the collected dictionary of a group holds exactly the keys given to it, each with its last value, in the order in which they first came |
| `EnvUpdates.CollectUpdates` | scripts/mainnet/upsert-env-from-stdin.py:25-38 | succeeds exactly when no line is refused, and otherwise reports the first refused line |
| `EnvUpdates.ShapeExactly` | scripts/mainnet/upsert-env-from-stdin.py:30-32 | a line is refused for its shape if and only if it holds fewer than two tabs |
| `EnvUpdates.ParseExactly` | scripts/mainnet/upsert-env-from-stdin.py:33-38 | any other line is refused for an unknown group, else for an empty key or one with an equals sign, and otherwise gives the texts around its first two tabs |
| `EnvUpdates.FieldsExactly` | scripts/mainnet/upsert-env-from-stdin.py:30 | the fields are cut at the first two tabs |
| `EnvFile.UpsertLines` | scripts/mainnet/upsert-env-from-stdin.py:46-60 | the two loops compute the upserted lines |
| `EnvFile.LineParts` | scripts/mainnet/upsert-env-from-stdin.py:50-57 | a written line is read back as its key and value, and is an assignment exactly when the key does not look like a comment |
| `EnvFile.AssignmentsExactly` | scripts/mainnet/upsert-env-from-stdin.py:48-53 | a reader gets for a key what the last line that assigns it says: no comment, and the key ends at the first equals sign |
| `EnvFile.CommentExactly` | scripts/mainnet/upsert-env-from-stdin.py:49 | a comment is a hash sign with nothing but white space before it |
| `EnvFile.BreaksExactly` | scripts/mainnet/upsert-env-from-stdin.py:45 | the characters at which `splitlines` cuts |
| `EnvFile.SpacesExactly` | scripts/mainnet/upsert-env-from-stdin.py:49 | the characters that `lstrip` takes off |
| `EnvFile.RereadingLines` | scripts/mainnet/upsert-env-from-stdin.py:46-60 | re-reading the lines gives the old assignments overwritten by the updates whose keys do not look like comments |
| `EnvUpsert.LinesInPlace` | scripts/mainnet/upsert-env-from-stdin.py:48-60 | comments and unrelated lines keep text and place, updated assignments are rewritten in place, missing keys follow once each in update order |
| `EnvUpsert.SecondPassAppends` | scripts/mainnet/upsert-env-from-stdin.py:48-60 | a second pass keeps every line and appends exactly the comment-like keys again |
| `EnvUpsert.LinesRoundTripExactly` | scripts/mainnet/upsert-env-from-stdin.py:45-61 | written lines are read back unchanged if and only if none holds a line break |
| `EnvUpsert.SplitLinesIs` | scripts/mainnet/upsert-env-from-stdin.py:45 | how a text falls into lines |
| `EnvUpsert.FileTextIs` | scripts/mainnet/upsert-env-from-stdin.py:61 | every line ends with a newline in the file |
| `EnvUpsert.RereadingExactly` | scripts/mainnet/upsert-env-from-stdin.py:45-61 | upserting a file refines a map override if and only if no key looks like a comment and no key or value holds a line break |
| `EnvUpsert.SecondRunChangesNothingExactly` | scripts/mainnet/upsert-env-from-stdin.py:45-61 | a second run changes nothing under exactly the same condition |
| `EnvUpsert.CommentKeyPilesUp` | scripts/mainnet/upsert-env-from-stdin.py:36-60 | any comment-like key is written once more by every run |
| `EnvUpsert.CommentedKeyIsAccepted` | scripts/mainnet/upsert-env-from-stdin.py:25-38 | a concrete input line with a comment-like key is accepted, and its update is one an env file cannot hold |
| `EnvUpsert.BrokenValueIsAccepted` | scripts/mainnet/upsert-env-from-stdin.py:25-38 | so is a concrete line whose value holds a line separator |
| `EnvUpdates.InputLineIsAccepted` | scripts/mainnet/upsert-env-from-stdin.py:29-38 | a line of a known group, a good key without tabs and any value is accepted and means just that |
| `EnvUpsert.EnvFiles.UpsertGroup` | scripts/mainnet/upsert-env-from-stdin.py:40-61 | one group's file is rewritten, or left (and not created) when the group has no updates; no other file changes |
| `EnvUpsert.EnvFiles.Upsert` | scripts/mainnet/upsert-env-from-stdin.py:24-64 | a refused line leaves every file as it was; otherwise each group's file is what its updates make of it |
| `EnvUpsert.RunOverrides` | scripts/mainnet/upsert-env-from-stdin.py:40-61 | one run overwrites the old assignments of a group's file by its plain updates and leaves the files of other groups as they were |
| `EnvUpsert.RerunChangesNothingExactly` | scripts/mainnet/upsert-env-from-stdin.py:24-64 | running the script again on the same input changes no file if and only if all collected updates are plain |

## Left out

- `DocStoreObjects.JsonFileStore`: overlapping calls of two processes on one file (the code has no lock), I/O errors other than an absent file, malformed file contents, and the JSON text of the file (a written snapshot is read back as it was).
- `DocStoreObjects.MemoryStore`: values are immutable, so what `cloneJson` protects from aliasing is not captured; values that cannot be cloned (which would use up a sequence number) and ids that are JavaScript property names of `Object.prototype` are not modelled.
- `DocStoreObjects.MemoryStore.ListAll`: the collation is a parameter, and the order in which an object's properties are enumerated is left open (`DocStoreLists` takes the order of first writes, which ids that look like array indices do not follow).
- `DocStoreLog.NextGeneration`: the digest is a parameter; a hand-made previous revision that does not start with decimal digits counts as generation 0 where the code would go through `NaN`.
- `DocStoreObjects.MemoryStore.Acquire`: times and terms are whole numbers, tokens are arguments (fresh where a lemma says so); fractional terms, which the code refuses, and unparsable dates are not modelled.
- `EventScan.ScanDeploymentEvents`: RPC failures, a changing chain, the computation of needles and aliases, and the formatting of timestamps are left out; block contents and stamps are functions of the block number.
- `CliProgress.SettlesByDeadline`: the code's timers carry no upper bound on lateness, so the bound has a parameter `lag`, which is 0 for punctual timers; the clamping of very large timeouts, malformed grace values in the environment, and spawning are left out.
- `CliRun.CliProcess.TerminateChildTree`: signalling the child tree is an event field that says whether it throws.
- `RelayLeadership.SelectSettlementLeader`: the seed is a parameter, scores are an uninterpreted digest, times are whole numbers; a non-numeric window end is not modelled; `weight` is not used by the code.
- `LaunchDemo.SelectCapacity`: the building of candidates from reports and the error texts are left out; of processor ids only that they hold no colon is used, which `processorRefToId` ensures (it returns "0x" and hex digits).
- `CanonicalJson.CanonicalExactly`: numbers are whole; lone surrogates, `undefined` and `toJSON` are not modelled; the order of keys is any total order, of which code-unit order is one.
- `JsonReader.ReadsBack`: the reader knows no white space, fractions, exponents or escaped surrogates, none of which is printed for the modelled values.
- `ReviveQuote.QuoteNativeCallValue`: oracle errors and the two echoed balances of the result are left out; the oracle is a fixed base and unit.
- `Transcript.EveryLineOnce`: chunks are decoded text (a character split between two buffers is not modelled), titles are a parameter, and the statement is about a final flush; a flush in the middle of a line does split it, as in the code.
- `OperatorCapability.SelectOperatorCapabilityCandidate`: lower-casing and address decoding are parameters, times are whole numbers; reports and profiles hold the fields that the search reads.
- `OperatorCapability.NormalizingKeepsProcessorsExactly`: assumes that the empty text does not decode as an address.
- `EnvUpsert.EnvFiles.Upsert`: texts are as Python's text layer hands them over (`\r\n` and `\r` already turned into `\n`); the printed summary, a failure between two files and undecodable bytes are not modelled.
- The wait-log coalescer and the other output helpers, zod schemas, configuration merging, quote fields and signatures, DNS, the registry contract, hostnames, relay lifecycle and amount formatting: finite branch tables or library calls that would add only easy members.
- The deploy workflow lives in another repository and is not part of this model.
