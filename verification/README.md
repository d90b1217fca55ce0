# Signal Arcade: verified models

This project models the stateful core of the Signal Arcade backend in Dafny and proves what its
state machines keep over every run. Each area has a module of values and specification functions
(`...Model`), modules of theorems about whole runs (`...Runs`) and about exactly what each operation
does (`...Service` and the like), and, where the original changes state in place, a class or loops
whose methods are proved to compute exactly the specification.

| area | files |
|---|---|
| Season event queue | `EventQueueModel`, `EventQueueRuns`, `EventQueue` |
| Coach forward evidence | `CoachModel`, `CoachEvidence`, `CoachRuns`, `CoachProgress`, `CoachOutcomes`, `CoachValues`, `CoachVerdict`, `Coach` |
| Diagnostics store, codec and export | `StoreModel`, `StoreRuns`, `StoreTiers`, `StoreService`, `StoreCounterexample`, `DiagnosticsStore`, `SummaryCodec`, `DiagnosticsExport` |
| Diagnostics writer thread | `WriterModel`, `WriterRuns`, `DiagnosticsWriter` |
| Diagnostics recorder and pipeline cursor | `RecorderModel`, `RecorderRuns`, `RecorderService`, `DiagnosticsRecorder`, `PipelineModel`, `PipelineRuns`, `PipelineCursor` |
| Recorder and writer together | `DiagnosticsFlow` |
| Storage retention | `RetentionModel`, `RetentionRuns`, `Retention` |
| Request quotas | `QuotaModel`, `QuotaRuns`, `Quota` |
| Season strategy records | `StrategyModel`, `StrategyRuns`, `StrategyService`, `Strategy` |
| Battle replays | `ReplayModel`, `ReplayRuns`, `ReplayService`, `BattleReplay` |
| Artifact pruning | `ArtifactModel`, `Artifacts` |
| Identity reservations | `IdentityModel`, `IdentityLedger` |
| Paper portfolio and seasons | `PaperModel`, `PaperRuns`, `PaperTrades`, `PaperSeasons`, `Paper` |
| Shared vocabulary | `Common` |

`dafny verify dfyconfig.toml` checks everything.

How to read the models:

* A run is a list of steps. A step may be taken only when the original would allow it; everything
  the environment decides (arrivals, clocks, aborts, which rows exist, which messages encode) is a
  parameter of the step, so a theorem over all runs covers every interleaving of them.
* A database transaction is one step. The portfolio class writes table by table and restores the
  saved state when a later step raises; the diagnostics store works on a private copy of its tables
  and publishes it at the commit.
* Clocks and times are integers or reals, amounts are integers, floats are reals. Hashes and text
  encodings are injective.
* Callers' obligations are stated as such: queue sequences are issued once and in order and every
  get is acknowledged once; new diagnostics records of a boot come in increasing sequence; the
  monotonic clock does not go back. For the diagnostics store the obligation is needed
  (`StoreRuns.OutOfOrderMergesTwice`, `StoreCounterexample.MergedTwiceFromEmpty`).
* Journal rows may be written at any time. A row is late when it is written behind an open study's
  cursor or that of a page in flight. It is missed when the saved cursor has passed it without
  showing it: the rows shown and the rows missed together are exactly the scanned part
  (`CoachRuns.NoSurvivorBias`), and what a late write causes is stated exactly
  (`CoachRuns.LateInsertIsLost`, `CoachRuns.InFlightInsertIsLost`, `CoachRuns.LostStaysLost`).

Six statements one might expect of the code do not hold without a condition, and the exact
condition is proved:

* A monthly cap is kept if and only if the reserve is not negative (`QuotaModel.KeepsCapExactly`).
* Reservations with an empty episode but a readable clock depend on their order when no real one
  exists (`IdentityModel.OrderFreeExactly`).
* A summary survives packing if and only if it uses known metric names and no packed field of its own
  (`SummaryCodec.RoundTripExactly`).
* A provider's tokens and backoff survive reconfigurations if and only if every one of them lists
  it (`Quota.SurvivesExactly`).
* A recording is accepted by the validator after a call if and only if the call's statistics are
  usable or an unrestarted recording already had points (`ReplayRuns.ValidExactly`; over whole runs
  `ReplayRuns.ValidRunExactly`; an input that fails, `ReplayRuns.UnusableStart`).
* An hour row whose start a merge moves back during an export is delivered if and only if no page's
  cursor had reached it first (`DiagnosticsExport.DeliveredExactly`).

## Model

| member | source | states |
|---|---|---|
| `EventQueueRuns.ReachableAccounting` | backend/signal_arcade/event_queue.py:62-180 | In every reachable state the admitted sequences are the disjoint union of waiting producers, queued rows and receipts in flight; asyncio's unfinished count is queued plus in flight, also after a discard; a bounded queue keeps its bound |
| `EventQueueRuns.SeasonIsolation` | backend/signal_arcade/event_queue.py:102-117 | While a boundary is active no get and no get-before hands out a sequence above it, in any reachable state |
| `EventQueueRuns.ReadyExactly` | backend/signal_arcade/event_queue.py:153-157 | A boundary is ready if and only if every sequence ever admitted at or below it was acknowledged, forgotten or discarded |
| `EventQueueRuns.DrainEnabled` | backend/signal_arcade/event_queue.py:69-80 | A boundary that is not ready always has an enabled drain step, because parked rows never take capacity owed to old producers: no deadlock |
| `EventQueueRuns.DrainMeasure` | backend/signal_arcade/event_queue.py:139-157 | Three times the waiting plus twice the queued plus the in-flight old work falls on every drain step and is unchanged by every other step, parked arrivals included |
| `EventQueueRuns.DrainBound` | backend/signal_arcade/event_queue.py:145-157 | Over any run that keeps the boundary, drain steps plus remaining old work never exceed the old work at its start, however many events arrive |
| `EventQueueRuns.DrainCompletes` | backend/signal_arcade/event_queue.py:145-166 | From every state with an active boundary there is a legal schedule, no longer than the remaining work, that makes the boundary ready |
| `EventQueueRuns.PromotionOrder` | backend/signal_arcade/event_queue.py:124-137 | Rows of a mint queued when it is promoted leave in sequence order and before any later-numbered row of that mint, across any boundaries begun or ended since |
| `EventQueueRuns.StepKeeps` | backend/signal_arcade/event_queue.py:37-180 | Every step keeps the accounting, parking, capacity-reservation and settlement invariants |
| `EventQueueRuns.PutSucceedsExactly` | backend/signal_arcade/event_queue.py:62-80 | In any reachable state a waiting producer's row enters the queue if and only if the queue is unbounded or has a free place not owed to old producers still waiting at the boundary; it keeps what was put and no other row moves |
| `EventQueueRuns.GetServesExactly` | backend/signal_arcade/event_queue.py:102-122 | In any reachable state a get hands out a row if and only if some queued row is not above an active boundary, and then the most urgent, oldest one; a get-before does so if and only if one such row is more urgent than its limit |
| `EventQueueRuns.PromotionExactly` | backend/signal_arcade/event_queue.py:124-137 | A promotion makes exactly the queued rows of its mint critical and changes nothing else |
| `EventQueueRuns.BeginExactly` | backend/signal_arcade/event_queue.py:145-151 | A boundary takes in everything admitted so far and lets every queued row leave; a second one changes nothing while the first is active |
| `EventQueueRuns.EndExactly` | backend/signal_arcade/event_queue.py:159-166 | After the end of a boundary every queued row may leave, unchanged otherwise, and nothing else moves |
| `EventQueueRuns.DiscardExactly` | backend/signal_arcade/event_queue.py:168-180 | A discard forgets the boundary and the queued rows; waiting producers and receipts in flight stay |
| `EventQueueModel.HeadExists` | backend/signal_arcade/event_queue.py:102-106 | Every nonempty heap has a least row under the tuple order |
| `EventQueue.HeapifyKeeps` | backend/signal_arcade/event_queue.py:145-151 | Restoring heap order keeps the rows and their sequences and sorts them |
| `EventQueue.FirstIsHead` | backend/signal_arcade/event_queue.py:102-110 | The first row of the ordered representation is the least row of the heap |
| `EventQueue.SeasonEventQueue.Admit` | backend/signal_arcade/event_queue.py:37-40 | A producer's sequence joins the admitted set before it has capacity |
| `EventQueue.SeasonEventQueue.Forget` | backend/signal_arcade/event_queue.py:58-60 | A sequence leaves the admitted set, nothing else changes |
| `EventQueue.SeasonEventQueue.IsFull` | backend/signal_arcade/event_queue.py:69-80 | The refusal test counts exactly the old producers still waiting |
| `EventQueue.SeasonEventQueue.PutNowait` | backend/signal_arcade/event_queue.py:62-80 | A put succeeds unless refused; a later row is parked; a refused put changes nothing |
| `EventQueue.SeasonEventQueue.GetNowait` | backend/signal_arcade/event_queue.py:102-110 | Returns and removes the least row that is not parked, appending its receipt, or nothing |
| `EventQueue.SeasonEventQueue.GetNowaitBefore` | backend/signal_arcade/event_queue.py:112-117 | The same, only for a row more urgent than the given priority |
| `EventQueue.SeasonEventQueue.HasReadyBefore` | backend/signal_arcade/event_queue.py:119-122 | Says whether such a row exists |
| `EventQueue.SeasonEventQueue.PromoteMint` | backend/signal_arcade/event_queue.py:124-137 | Raises every queued row of the mint, keeps sequences and parking, returns the number changed |
| `EventQueue.SeasonEventQueue.TaskDone` | backend/signal_arcade/event_queue.py:139-143 | Acknowledges the oldest receipt; false when there is nothing unfinished |
| `EventQueue.SeasonEventQueue.BeginBoundary` | backend/signal_arcade/event_queue.py:145-151 | Sets the boundary to the largest of the given and all admitted sequences and unparks every row; ignored when one is active |
| `EventQueue.SeasonEventQueue.BoundaryReady` | backend/signal_arcade/event_queue.py:153-157 | True exactly when no admitted sequence is at or below the boundary |
| `EventQueue.SeasonEventQueue.EndBoundary` | backend/signal_arcade/event_queue.py:159-164 | Removes the boundary and unparks every row |
| `EventQueue.SeasonEventQueue.DiscardQueued` | backend/signal_arcade/event_queue.py:168-178 | Drops every queued row with its admission and its unfinished count, keeping in-flight receipts |
| `CoachRuns.NoSurvivorBias` | backend/signal_arcade/database.py:3717-3790 | From a fresh study, under any interleaving of writes, retention, page reads and competing saves, for a study still testing and not full the rows between cutoff and cursor, rows deleted since included, are exactly those it was shown, once each, and those it missed; only late rows are missed, and its counters add up to the rows shown |
| `CoachRuns.GapExactly` | backend/signal_arcade/database.py:2757-2799 | Over every run from a fresh study the gap flag is raised if and only if some pruned row lies beyond the cursor |
| `CoachRuns.LateInsertIsLost` | backend/signal_arcade/database.py:3759-3765 | A row written after the cutoff is lost if and only if it does not land beyond the saved cursor, and that alone decides whether an exhaustive scan stays so |
| `CoachRuns.InFlightInsertIsLost` | backend/signal_arcade/database.py:3759-3765 | When a row is written while a page is in flight and that page is saved, the row is lost if and only if it does not lie beyond the page's cursor, and that alone decides whether an otherwise exhaustive scan is so |
| `CoachRuns.LostStaysLost` | backend/signal_arcade/coach.py:1396-1402 | A lost row is never presented in any later run |
| `CoachEvidence.PassAdvances` | backend/signal_arcade/coach.py:1502-1512 | A pass that changes an open study and leaves it open makes progress, so an earlier record never returns and a stale page can never be saved |
| `CoachRuns.EvidenceIsAppendOnly` | backend/signal_arcade/coach.py:1374-1512 | Over every run enrolments stay distinct, ordered and at most 180, resolved values never change, counted lists are only extended, and a verdict is never left |
| `CoachRuns.HandoffIsFinal` | backend/signal_arcade/coach.py:742-780 | Over every run only a promising study is waiting, handed over or stale, and one that is handed over or stale stays so |
| `CoachProgress.MarkExactly` | backend/signal_arcade/coach.py:742-780 | A handover is recorded if and only if the study is promising and was not handed over or given up before |
| `CoachProgress.ScanAdvances` | backend/signal_arcade/database.py:3717-3790 | From every state of an open study without a gap and with a row ahead, one page read and saved moves the cursor to a later row |
| `CoachProgress.PageExactly` | backend/signal_arcade/database.py:3757-3768 | A page holds the first rows ahead of the study, as many as there are up to its limit; a full study reads none |
| `CoachProgress.MissingWasPruned` | backend/signal_arcade/database.py:3733-3771 | A pending enrolment can be missing from a page only because its row was pruned |
| `CoachRuns.SaveKeeps` | backend/signal_arcade/database.py:3523-3553 | A compare-and-swap save of any page read earlier keeps the study's invariants and only accumulates; a stale page changes nothing |
| `CoachRuns.ReadPage` | backend/signal_arcade/database.py:3729-3790 | A page as read fits its study, and without a gap it covers every row ever written between the old and the new cursor |
| `CoachEvidence.EnrolmentIsOutcomeBlind` | backend/signal_arcade/coach.py:1398-1426 | Two passes over episodes that differ only in outcomes enrol the same episodes in the same order with the same counters, for every kind of experiment |
| `CoachEvidence.RunsAreOutcomeBlind` | backend/signal_arcade/coach.py:1374-1512 | Over whole runs two studies whose rows ahead differ only in outcomes, however differently their enrolled episodes turn out, enrol the same episodes in the same order while both are open |
| `CoachEvidence.PrefixGrows` | backend/signal_arcade/coach.py:1490-1501 | Since only the resolved prefix counts, later passes extend the earlier identifier and value lists |
| `CoachEvidence.EnrolAllKeeps` | backend/signal_arcade/coach.py:1397-1426 | A scan appends enrolments with new identities and increasing positions, within the maximum |
| `CoachEvidence.ScanCovers` | backend/signal_arcade/coach.py:1398-1402 | Unless the study fills up, every row of the page beyond the cursor is counted once |
| `CoachEvidence.ScanAddsUp` | backend/signal_arcade/coach.py:1402-1426 | Scanned equals enrolled plus the three exclusion counters |
| `CoachEvidence.PassAccumulates` | backend/signal_arcade/coach.py:1374-1512 | One pass keeps the study well formed and only adds evidence |
| `CoachEvidence.LostStaysObserved` | backend/signal_arcade/coach.py:1427-1447 | A vanished or altered enrolment is resolved without a value and stays in the observed denominator |
| `CoachEvidence.PromisingIsProved` | backend/signal_arcade/coach.py:1515-1541 | A promising verdict rests on the required samples, availability and seasons among the earliest enrolments, none still pending, with a lower bound above the minimum uplift |
| `CoachModel.OrderedKeeps` | backend/signal_arcade/coach.py:1397-1397 | Sorting a page by time and identifier keeps its episodes and orders them strictly |
| `CoachOutcomes.EnrolmentExactly` | backend/signal_arcade/coach.py:1395-1427 | A pass enrols exactly the complete policy entries beyond the cursor that are first of their identity and selected by the design: nothing else, and every one while there is room |
| `CoachOutcomes.ObservationExactly` | backend/signal_arcade/coach.py:1583-1649 | For a selected episode: when the outcome can be read, and its worth; a veto gains what the avoided trade lost, a size the difference of the gains over the size-one cost, an earlier review the difference of the returns |
| `CoachOutcomes.OutcomeExactly` | backend/signal_arcade/coach.py:1428-1489 | A pending enrolment whose row is unaltered is resolved if and only if its checkpoints are complete and none lies in the future, or its time is up; it has a value if and only if the checkpoints give one, and that value |
| `CoachOutcomes.LostExactly` | backend/signal_arcade/coach.py:1428-1448 | A pending enrolment whose row is gone or altered is resolved without a value and counted as missing or changed accordingly |
| `CoachOutcomes.CountersExactly` | backend/signal_arcade/coach.py:1412-1496 | A pass adds the enrolments found gone or altered to their counters, counts all and the pending ones, and leaves the scan's counters as they are |
| `CoachOutcomes.FatesAre` | backend/signal_arcade/coach.py:1434-1448 | The fates that are counted are those of the enrolments, in order |
| `CoachOutcomes.ValuesExactly` | backend/signal_arcade/coach.py:1490-1501 | The counted values are those of the enrolments that have one, in order |
| `CoachOutcomes.SumsAdd` | backend/signal_arcade/coach.py:1295-1300 | The sum behind the mean adds every value once |
| `CoachValues.ValuesAreTrue` | backend/signal_arcade/coach.py:1433-1492 | Over every run from a fresh study each counted value is what the change under study would really have gained on that episode |
| `CoachValues.VetoCountsAvoidedLosses` | backend/signal_arcade/coach.py:1583-1612 | Over every run a veto's counted values sum to minus the returns of the avoided trades, and a value is positive if and only if the avoided trade lost |
| `CoachVerdict.VerdictExactly` | backend/signal_arcade/coach.py:1515-1580 | A pass finds an open study supported, not supported, inconclusive or still open exactly by the resolved prefix it leaves: samples, availability, two seasons of ten, interval bounds, 180 observed, 90 days; only a supported study of a learnable baseline becomes ready |
| `CoachVerdict.AvailabilityIs` | backend/signal_arcade/coach.py:1522-1524 | The availability threshold is a share of the observed outcomes |
| `CoachVerdict.GapEnds` | backend/signal_arcade/coach.py:1385-1394 | A study whose rows were pruned unread before it filled up ends inconclusive with its evidence as it was |
| `CoachVerdict.ChangesAreStamped` | backend/signal_arcade/coach.py:1536-1580 | A pass that changes anything is stamped with its time, a new measurement as an evaluation, and the reason says why |
| `Coach.EvaluatePolicyHypothesis` | backend/signal_arcade/coach.py:1374-1512 | The procedure computes the modelled pass: gap verdict, scan, resolution, prefix, verdict, collection |
| `Coach.ScanPage` | backend/signal_arcade/coach.py:1394-1426 | The enrolment loop computes the modelled scan and its counters |
| `Coach.ResolvePending` | backend/signal_arcade/coach.py:1427-1489 | The resolution loop resolves exactly the modelled fates and counts missing and changed enrolments |
| `Coach.CollectPrefix` | backend/signal_arcade/coach.py:1490-1501 | The collection loop returns identifiers, values and season counts of exactly the resolved prefix |
| `Coach.PrunedThrough` | backend/signal_arcade/database.py:2774-2791 | The new watermark is the latest of the deleted positions and the previous watermark |
| `StoreRuns.MergedAtMostOnce` | backend/signal_arcade/diagnostics_store.py:259-265 | Over every run that offers new records of a boot in increasing sequence and replays accepted ones at will, no (boot, sequence) is merged twice, even after its boot was retired |
| `StoreRuns.OrderIsNeeded` | backend/signal_arcade/diagnostics_store.py:336-343 | After a boot was retired an earlier record of it stays recognisable if and only if its sequence does not exceed the returning one |
| `StoreRuns.OutOfOrderMergesTwice` | backend/signal_arcade/diagnostics_store.py:259-265 | After a record of a retired boot returned, the replay of an accepted record of that boot commits and is merged a second time if and only if the returning record came out of order |
| `StoreCounterexample.MergedTwiceFromEmpty` | backend/signal_arcade/diagnostics_store.py:259-340 | Some run from empty that keeps the order contract fills the boot table and retires a boot, after which one record out of order commits and an accepted record is then merged a second time |
| `StoreRuns.HourRowIsExact` | backend/signal_arcade/diagnostics_store.py:345-354 | Each live hour row holds the sums, maxima, histogram sums, elapsed time and number of accepted records of that hour, no record twice |
| `StoreRuns.StoreStaysBounded` | backend/signal_arcade/diagnostics_store.py:344-397 | After any run from empty the cached interval, event and boot counts are the real ones and every cap holds |
| `StoreRuns.RetentionIsPaced` | backend/signal_arcade/diagnostics_store.py:297-302 | Over every run from empty the retention clock never goes back and, between any two points, advances by at most the elapsed monotonic time plus five seconds per committed append, whatever the wall clock says |
| `StoreTiers.YoungRowsStay` | backend/signal_arcade/diagnostics_store.py:297-400 | Over every run an append within the caps that reclaims nothing keeps every minute row of the last 30 days, hour row of the last 365 and event row of the last 90 by the store's own clock |
| `StoreTiers.NewRowsAreStored` | backend/signal_arcade/diagnostics_store.py:297-400 | A committed record of the last 30 days has its minute row as stored, and its kept events their rows |
| `StoreTiers.OldRowsGo` | backend/signal_arcade/diagnostics_store.py:360-400 | An append that leaves a row past its days in a tier has deleted a hundred others of that tier |
| `StoreTiers.FullTablesLoseTheOldest` | backend/signal_arcade/diagnostics_store.py:367-386 | A tier over its cap loses its oldest rows: none that is left is older |
| `StoreTiers.BootsExactly` | backend/signal_arcade/diagnostics_store.py:328-342 | Over every run a commit knows the record's boot by its sequence and latest end and keeps every other boot, up to 10,000; beyond, exactly the longest ended of the others goes and the retired clock moves to its end |
| `StoreTiers.ReclaimExactly` | backend/signal_arcade/diagnostics_store.py:304-327 | Page pressure reclaims the oldest hundred minute rows or all of them, and nothing is reclaimed otherwise |
| `StoreTiers.EarlyIsCounted` | backend/signal_arcade/diagnostics_store.py:304-390 | Over every run each minute or hour row that leaves is deleted for its age or counted as evicted early |
| `StoreTiers.ExpiredAreOld` | backend/signal_arcade/diagnostics_store.py:360-366 | Only minute rows past their days are deleted for their age |
| `StoreService.AppendExactly` | backend/signal_arcade/diagnostics_store.py:242-330 | A record is a duplicate, pauses the store or commits exactly by its validity, its boot's watermark, the retired clock, its size, the room and clashes with stored rows; in every other case it fails |
| `StoreService.StoredExactly` | backend/signal_arcade/diagnostics_store.py:265-283 | The stored interval notes a skipped sequence and how many events were left out and is otherwise as offered |
| `StoreService.HourExactly` | backend/signal_arcade/diagnostics_store.py:303-303 | A record belongs to the hour its end lies in |
| `StoreService.FoldFlags` | backend/signal_arcade/diagnostics_store.py:130-148 | A flag of an hour row is one of its records', or marks another context, another boot or more than five silent seconds between them |
| `StoreService.FoldLongest` | backend/signal_arcade/diagnostics_store.py:161-166 | The longest time of a phase in an hour row is the longest of any of its records |
| `StoreService.HourRowTells` | backend/signal_arcade/diagnostics_store.py:130-168 | Over every run a live hour row has the left-out events, flags, phase counts and phase times of its records |
| `StoreRuns.FoldCounters` | backend/signal_arcade/diagnostics_store.py:130-151 | Merging hour by hour adds up each counter |
| `StoreRuns.FoldBuckets` | backend/signal_arcade/diagnostics_store.py:153-159 | and each histogram slot |
| `StoreRuns.FoldMaxima` | backend/signal_arcade/diagnostics_store.py:151-152 | and keeps each maximum |
| `StoreRuns.FoldElapsed` | backend/signal_arcade/diagnostics_store.py:131-135 | and the elapsed time, the number of intervals and the covered time span |
| `StoreRuns.CommitCounts` | backend/signal_arcade/diagnostics_store.py:314-397 | One committed append keeps every cached count exact and every cap |
| `StoreRuns.CommitOnce` | backend/signal_arcade/diagnostics_store.py:332-343 | A committed record was never accepted before and is remembered afterwards, by its boot or by the retirement clock |
| `DiagnosticsStore.Store.Append` | backend/signal_arcade/diagnostics_store.py:243-397 | The append ends in the modelled state with an allowed choice of deletions, or leaves the store as it was |
| `DiagnosticsStore.Transact` | backend/signal_arcade/diagnostics_store.py:314-394 | Writing table by table on a private copy gives exactly the modelled commit, and fails only where a statement raises |
| `DiagnosticsStore.InsertAll` | backend/signal_arcade/diagnostics_store.py:315-359 | The insertions of minute row, watermark, hour row and events, with reclamation and boot retirement, are the modelled ones |
| `DiagnosticsStore.TrimRows` | backend/signal_arcade/diagnostics_store.py:360-386 | Expired rows, then the excess over the cap, oldest first and at most one batch each |
| `DiagnosticsStore.RetiringBoot` | backend/signal_arcade/diagnostics_store.py:336-343 | The boot that makes room is the one that ended earliest, never the current one |
| `SummaryCodec.RoundTripExactly` | backend/signal_arcade/diagnostics_store.py:50-77 | Packing then unpacking a summary gives it back if and only if it uses only known metric names and no packed field of its own |
| `SummaryCodec.RepackExactly` | backend/signal_arcade/diagnostics_store.py:50-77 | Unpacking then packing a readable summary gives it back if and only if its indices increase |
| `SummaryCodec.NamedExactly` | backend/signal_arcade/diagnostics_store.py:63-73 | A packed list is readable if and only if its indices are in range and none repeats, and then it means what it lists |
| `SummaryCodec.PackSummary` | backend/signal_arcade/diagnostics_store.py:50-60 | The packing loop computes the modelled packing |
| `SummaryCodec.UnpackSummary` | backend/signal_arcade/diagnostics_store.py:63-77 | The unpacking loop computes the modelled unpacking, rejecting bad lists |
| `DiagnosticsExport.NothingTwice` | backend/signal_arcade/diagnostics_store.py:533-573 | Pages read one after another deliver rows in order and none twice, whatever is inserted or deleted meanwhile |
| `DiagnosticsExport.NothingSkipped` | backend/signal_arcade/diagnostics_store.py:533-573 | A row that stays in the table at one key is delivered by the time a page comes back empty, even if pages stop early at a deadline |
| `DiagnosticsExport.DeliveredExactly` | backend/signal_arcade/diagnostics_store.py:533-573 | An hour row whose start may move back under a merge is delivered by the time a page comes back empty if and only if it was never found at or behind the cursor before its delivery |
| `DiagnosticsExport.NoIdTwice` | backend/signal_arcade/diagnostics_store.py:533-573 | Such a row is delivered at most once, although its key changes |
| `DiagnosticsExport.NothingInvented` | backend/signal_arcade/diagnostics_store.py:448-530 | Every delivered row was in the table when its page was read |
| `DiagnosticsExport.PagesAreBounded` | backend/signal_arcade/diagnostics_store.py:533-573 | No page holds more than a hundred rows nor more than were asked for |
| `DiagnosticsExport.ExportEnds` | backend/signal_arcade/diagnostics_store.py:533-573 | However small its pages, an export meets an empty page before it has read more pages than there are rows |
| `WriterModel.AccountingIsExact` | backend/signal_arcade/diagnostics_worker.py:111-244 | Under any interleaving of offers, the writer loop, a permission check that raises and a stop, each accepted message is in exactly one of slot, held, saved, rejected and uncertain; saved means its append returned true or raised with its row in the store, rejected means neither, and at exit nothing is left |
| `WriterModel.StopBound` | backend/signal_arcade/diagnostics_worker.py:219-244 | After a stop nothing more is accepted and the writer exits within eight sections of its own |
| `WriterModel.StopIsEnabled` | backend/signal_arcade/diagnostics_worker.py:159-232 | A stopped writer that has not exited always has an enabled section |
| `WriterModel.RunKeeps` | backend/signal_arcade/diagnostics_worker.py:111-244 | Every run keeps the accounting invariant |
| `WriterRuns.OfferExactly` | backend/signal_arcade/diagnostics_worker.py:111-119 | In every reachable state an offer is accepted if and only if it fits 32 KiB, the thread runs, no stop was requested and the slot is empty; it then waits in the slot |
| `WriterRuns.WritesNeedPermission` | backend/signal_arcade/diagnostics_worker.py:164-178 | Writing begins only with a granted permission and never after a stop |
| `WriterRuns.ResolveExactly` | backend/signal_arcade/diagnostics_worker.py:189-218 | After an append that raised the message is uncertain if and only if the store cannot be read, else saved if and only if its row is there |
| `WriterRuns.WaitingIsSaved` | backend/signal_arcade/diagnostics_worker.py:159-218 | From every state of a serving writer with a message waiting at most seven sections, with permission given and appends that succeed, save it |
| `WriterRuns.FirstMessageIsSaved` | backend/signal_arcade/diagnostics_worker.py:111-218 | A fresh writer that is started and opens its store serves, and saves the first message that fits |
| `WriterRuns.StopReachesExit` | backend/signal_arcade/diagnostics_worker.py:219-244 | From every reachable state of a live writer a stop leads to the exit within eight sections and accepts nothing more |
| `WriterRuns.LeavesExactly` | backend/signal_arcade/diagnostics_worker.py:130-173 | Only a failed opening, a permission check that raises, a stop or its wake-up sends the writer to its exit |
| `WriterRuns.LeavingSavesNothing` | backend/signal_arcade/diagnostics_worker.py:219-232 | Once on its way out the writer saves no message and writes no row |
| `DiagnosticsWriter.Writer.Offer` | backend/signal_arcade/diagnostics_worker.py:111-119 | Accepts exactly when the message fits, the thread lives, no stop was requested and the slot is free |
| `DiagnosticsWriter.Writer.RequestStop` | backend/signal_arcade/diagnostics_worker.py:234-244 | Rejects a queued message and leaves the wake-up sentinel |
| `DiagnosticsWriter.Writer.TakeMessage` | backend/signal_arcade/diagnostics_worker.py:159-163 | Takes the message or the sentinel out of the slot |
| `DiagnosticsWriter.Writer.RecordAppend` | backend/signal_arcade/diagnostics_worker.py:183-188 | Classifies an append that returned |
| `DiagnosticsWriter.Writer.ResolveRaised` | backend/signal_arcade/diagnostics_worker.py:194-206 | Classifies an append that raised by whether the interval is stored, or as uncertain when that cannot be read |
| `DiagnosticsWriter.Writer.Finish` | backend/signal_arcade/diagnostics_worker.py:221-230 | Rejects what is held or queued when the thread ends |
| `RecorderRuns.SubmittedIsConserved` | backend/signal_arcade/diagnostics.py:487-553 | Over every run each submitted training or proof event is in the event deque, a publication group, a queued interval, handed to the writer, or counted as lost; every buffer keeps its bound |
| `RecorderRuns.StepConserves` | backend/signal_arcade/diagnostics.py:665-753 | Every step keeps that balance for every guarded category |
| `RecorderRuns.SelectConserves` | backend/signal_arcade/diagnostics.py:596-619 | A selection moves events between the waiting lists and the record, losing none |
| `RecorderRuns.ProtectedEventStays` | backend/signal_arcade/diagnostics.py:534-552 | A protected event leaves the deque on a submission only if every slot and the newcomer are protected, and then only the oldest does |
| `RecorderRuns.ProtectedIntervalStays` | backend/signal_arcade/diagnostics.py:732-741 | The same for intervals in the handoff queue |
| `RecorderRuns.ProtectedFirst` | backend/signal_arcade/diagnostics.py:605-614 | While a protected event is left behind no optional one is collected |
| `RecorderService.CountIsNumber` | backend/signal_arcade/diagnostics_handoff.py:11-27 | A category count is the number of events of that category |
| `RecorderService.ProtectedIntervalExactly` | backend/signal_arcade/diagnostics_handoff.py:11-32 | An interval is protected if and only if one of its first eight events is |
| `RecorderService.SubmitExactly` | backend/signal_arcade/diagnostics.py:527-553 | An event that encodes is kept as the newest unless all eight slots hold protected events and it is not one; with a free slot nothing is lost |
| `RecorderService.PublishExactly` | backend/signal_arcade/diagnostics.py:487-514 | A publication keeps the retained events of its first seven items together, in order, as the newest group; only a fifth group displaces the oldest |
| `RecorderService.ItemsAre` | backend/signal_arcade/diagnostics.py:494-507 | A publication retains an offered training or proof event that encodes, as it is; an unbuilt proof counts as a lost proof |
| `RecorderService.PickedExactly` | backend/signal_arcade/diagnostics.py:605-619 | Single events are collected protected ones first, each class oldest first, as many as there is room for; the rest keeps its order |
| `RecorderService.CollectsExactly` | backend/signal_arcade/diagnostics.py:596-619 | A collection takes whole groups from the oldest on, as many as fit into seven events, then fills eight places; the oldest group is never left behind; a record that does not encode takes nothing |
| `DiagnosticsFlow.EveryEventIsAccounted` | backend/signal_arcade/diagnostics.py:745-753 | Under any interleaving of recorder, handover and writer, each submitted training or proof event is waiting, queued, in the writer's hands, saved, uncertain, or counted as lost by recorder, handoff or writer |
| `DiagnosticsFlow.StoppedIsSettled` | backend/signal_arcade/diagnostics.py:816-829 | Once the recorder holds nothing and the writer has exited, the submitted events are exactly the saved, the uncertain and those counted as lost |
| `DiagnosticsRecorder.Recorder.SubmitEvent` | backend/signal_arcade/diagnostics.py:527-553 | Accepts, displaces or loses exactly as modelled; true only if the event is now waiting |
| `DiagnosticsRecorder.Recorder.Publication` | backend/signal_arcade/diagnostics.py:487-514 | Keeps the valid members of a group together and counts every other one as lost |
| `DiagnosticsRecorder.Recorder.TakeEvents` | backend/signal_arcade/diagnostics.py:596-619 | The preview returns what a following commit consumes and changes nothing itself |
| `DiagnosticsRecorder.Recorder.CollectInterval` | backend/signal_arcade/diagnostics.py:716-743 | Records exactly what it consumes; a record that does not encode consumes nothing; a full queue gives up an unprotected interval first |
| `DiagnosticsRecorder.Recorder.FlushOne` | backend/signal_arcade/diagnostics.py:745-753 | Hands over the oldest interval if and only if the writer accepts it |
| `DiagnosticsRecorder.Recorder.StopRecording` | backend/signal_arcade/diagnostics.py:816-825 | Counts everything still held as lost and empties every buffer |
| `DiagnosticsRecorder.TakeGroups` | backend/signal_arcade/diagnostics.py:602-604 | Takes whole publication groups from the left while they fit |
| `DiagnosticsRecorder.TakeSingles` | backend/signal_arcade/diagnostics.py:605-614 | Fills the remaining room, protected events first |
| `PipelineRuns.CountsAreConserved` | backend/signal_arcade/diagnostics.py:152-183 | Over every run of growth and snapshots, what the cursor reported plus what no snapshot could show any more is exactly what the log held up to the cursor, for each counter and histogram slot |
| `PipelineRuns.ExactWhenRetained` | backend/signal_arcade/diagnostics.py:159-183 | When every snapshot still held the last consumed bucket, the reported totals are the log's totals |
| `PipelineRuns.NeverExceeds` | backend/signal_arcade/diagnostics.py:159-183 | Reported totals never exceed the log's, whatever was evicted |
| `PipelineRuns.SealedIsExact` | backend/signal_arcade/orchestrator.py:1805-1825 | With a new bucket opened after each snapshot and no gap ever flagged nothing is missed, even when the last consumed bucket was evicted |
| `PipelineRuns.GapExactly` | backend/signal_arcade/diagnostics.py:162-162 | The gap flag is raised if and only if a whole bucket was never shown |
| `PipelineRuns.PeaksAreExact` | backend/signal_arcade/diagnostics.py:175-177 | Over a retained run the reported maxima are the maxima of everything seen |
| `PipelineRuns.SnapshotPeakExactly` | backend/signal_arcade/diagnostics.py:159-184 | One snapshot reports the largest maximum of the buckets that processed something since the last one, and zero if there is none |
| `PipelineCursor.PipelineCursor.Take` | backend/signal_arcade/diagnostics.py:159-183 | One call returns the modelled increments, maxima and gap flag and remembers the newest bucket |
| `RetentionModel.IndexedForm` | backend/signal_arcade/database.py:1632-1652 | The boundary found by N-th newest timestamp and tie rank selects exactly the rows below the N-th newest by (timestamp, identifier), for any order of tied rows in the index |
| `RetentionModel.DirectForm` | backend/signal_arcade/database.py:1616-1621 | Comparing with the N-th newest row selects exactly the rows that are not among the newest N |
| `RetentionModel.TooFewRows` | backend/signal_arcade/database.py:1632-1652 | With fewer than N rows nothing is selected |
| `RetentionModel.SurplusSize` | backend/signal_arcade/database.py:1616-1621 | The surplus is the number of rows above N, or none |
| `RetentionModel.OffsetInRange` | backend/signal_arcade/database.py:1639-1646 | The tie offset always names one of the tied rows |
| `RetentionModel.DeleteKeeps` | backend/signal_arcade/database.py:1655-1673 | A chunk never removes a row outside the class or among the newest N of all rows seen during the pass |
| `RetentionRuns.PassKeeps` | backend/signal_arcade/database.py:1576-1673 | Whatever arrives and however it ends, a pass keeps the newest N of each class and all other rows, and ends only by its cap, a stop, the turns, or with nothing more to remove |
| `RetentionRuns.TurnRemovesExactly` | backend/signal_arcade/database.py:1594-1671 | A turn that is not stopped removes exactly the least of the chunk, what is left of the cap and the surplus of its class, and nothing of the other class |
| `RetentionRuns.ClassesAlternate` | backend/signal_arcade/database.py:1576-1671 | While both classes may have surplus they take turns, events first if and only if the offset is even |
| `RetentionRuns.RemovedExactly` | backend/signal_arcade/database.py:1659-1668 | Of each table exactly as many rows are gone as the pass reports |
| `RetentionRuns.PassIsComplete` | backend/signal_arcade/database.py:1576-1690 | When nothing arrives and nothing stops it, a pass removes exactly both surpluses or as much as its cap allows, and reports nothing more only when none is left |
| `RetentionRuns.OldestGoFirst` | backend/signal_arcade/database.py:1622-1657 | When nothing arrives a pass removes the oldest rows of each class: none that is left is older than one that went |
| `Retention.SurplusRows` | backend/signal_arcade/database.py:1632-1652 | The two-step selection computes the rows outside the newest N |
| `Retention.DeleteChunk` | backend/signal_arcade/database.py:1622-1660 | One transaction removes the oldest surplus rows, exactly as many as the limit and the surplus allow |
| `Retention.Journal.EnforceBudget` | backend/signal_arcade/database.py:1503-1673 | A whole alternating pass with inserts between chunks keeps the newest N of each class and every row outside it, stays within the row cap, and stops early only for a cap, a halt, an abort or because both classes are done; invalid limits are refused |
| `QuotaModel.RateBound` | backend/signal_arcade/quota.py:59-94 | In any window, for any mix of routine and critical requests, backoffs and plan changes of at most rpm, grants are at most max(1, rpm/30) plus rpm/60 per second |
| `QuotaModel.MonthlyCap` | backend/signal_arcade/quota.py:68-73 | Usage of a month never passes the cap when no plan has a negative reserve |
| `QuotaModel.KeepsCapExactly` | backend/signal_arcade/quota.py:68-73 | A plan keeps its monthly cap if and only if its routine limit does not exceed the cap, that is, for a nonnegative limit, its reserve is not negative |
| `QuotaModel.RoutineStops` | backend/signal_arcade/quota.py:68-73 | Routine requests alone stop at the limit minus the reserve |
| `QuotaModel.UsageCountsGrants` | backend/signal_arcade/quota.py:59-83 | Stored monthly usage grows by exactly the requests granted |
| `QuotaModel.BackoffIsHonoured` | backend/signal_arcade/quota.py:85-94 | Until the announced time nothing is granted, not even after a new plan |
| `QuotaModel.LaterBackoffReplaces` | backend/signal_arcade/quota.py:85-94 | A second backoff replaces the first, for one to 300 seconds, and shortens it only when its own delay is shorter |
| `QuotaModel.ReplanAddsNothing` | backend/signal_arcade/quota.py:96-107 | A new plan for the same provider never adds tokens and keeps the backoff |
| `QuotaRuns.ReserveIsTruncated` | backend/signal_arcade/quota.py:69-69 | The reserve is the fraction of the limit rounded toward zero |
| `QuotaRuns.MonthlyEarnings` | backend/signal_arcade/quota.py:157-164 | Over a whole month an unpaced plan earns its own rate and a paced one exactly its allowance for the month if that is less |
| `QuotaRuns.GrantedExactly` | backend/signal_arcade/quota.py:59-83 | A request is granted if and only if its plan may be billed and has calls left, the backoff is over, and tokens at the last update plus those earned since make one |
| `QuotaRuns.PaceIsServed` | backend/signal_arcade/quota.py:32-83 | A provider out of backoff grants every request that keeps the pace of its plan until the month's calls are spent, a critical one also inside the reserve |
| `QuotaRuns.PaceCounts` | backend/signal_arcade/quota.py:32-83 | Without a monthly limit the granted requests of such a trace are all of them |
| `QuotaRuns.BurstIsServed` | backend/signal_arcade/quota.py:167-175 | After two idle seconds, or the time of one token, two seconds of traffic are granted at once |
| `QuotaRuns.NewServesAtOnce` | backend/signal_arcade/quota.py:29-30 | A provider that was just listed serves two seconds of routine traffic at once |
| `QuotaRuns.AfterBackoffExactly` | backend/signal_arcade/quota.py:85-94 | After an announced backoff a request is granted if and only if the bounded delay is over and one token was earned since |
| `QuotaRuns.ReplanKeepsTokens` | backend/signal_arcade/quota.py:96-107 | A new plan loses no token that its burst can hold |
| `Quota.SurvivesExactly` | backend/signal_arcade/quota.py:96-107 | Over any list of reconfigurations a provider's bucket is kept, with no more tokens and the same backoff whatever they were, if and only if every one of them lists the provider |
| `Quota.DropForgets` | backend/signal_arcade/quota.py:96-107 | After a reconfiguration without the provider nothing of its earlier bucket is left |
| `Quota.ReplannedCarries` | backend/signal_arcade/quota.py:96-107 | The broker's reconfiguration carries each bucket as the run of reconfigurations says |
| `Quota.ReaddedIsFull` | backend/signal_arcade/quota.py:96-107 | A provider dropped by one reconfiguration and listed by the next starts with a full bucket and no backoff |
| `Quota.QuotaBroker.Acquire` | backend/signal_arcade/quota.py:59-83 | One request acts on its provider as modelled and leaves every other provider as it was |
| `Quota.QuotaBroker.Penalize` | backend/signal_arcade/quota.py:85-94 | Empties the bucket and blocks the provider for the bounded delay |
| `Quota.QuotaBroker.Reconfigure` | backend/signal_arcade/quota.py:96-107 | The buckets are exactly those of the last plan listed per name, carried over for known providers |
| `StrategyRuns.RecordDescribesRun` | backend/signal_arcade/season_strategy.py:136-189 | From a new record and any calls: the participants are the first 128 distinct valid identities with their first times, and skills, critic, champion, baseline and unattributed flags are exact for everything offered |
| `StrategyService.ParticipantsExactly` | backend/signal_arcade/season_strategy.py:136-189 | Unless the list is full the participants are exactly the identities some counted call offered, each since the first such call; a full list holds 128 |
| `StrategyService.NotesExactly` | backend/signal_arcade/season_strategy.py:136-165 | Unattributed and baseline are set if and only if some counted call made an offer that names nobody, or had none, the baseline since the first such call |
| `StrategyService.FlagsExactly` | backend/signal_arcade/season_strategy.py:155-165 | The critic, champion and skill flags hold if and only if some counted call offered such an identity, listed or not |
| `StrategyRuns.RecordKeepsHistory` | backend/signal_arcade/season_strategy.py:43-75 | Recording keeps a consistent record consistent, whatever is offered and whenever |
| `StrategyRuns.Idempotent` | backend/signal_arcade/season_strategy.py:166-175 | Repeating a recorded call at any time returns the record unchanged |
| `StrategyRuns.UnchangedIsUpdated` | backend/signal_arcade/season_strategy.py:166-189 | The no-write shortcut returns what the update would have built |
| `Strategy.RecordStrategyUse` | backend/signal_arcade/season_strategy.py:136-189 | The procedure computes the modelled update |
| `Strategy.Validate` | backend/signal_arcade/season_strategy.py:145-154 | The validation loop keeps the valid offers in order and notices any other |
| `ReplayRuns.RecordingIsFaithful` | backend/signal_arcade/battle_replay.py:26-121 | Over any run of starts, calls and freezes a recording is an in-order selection of at most 32 of the accepted points, unaltered, with the first and the last, marked sampled if and only if a point was dropped; every frozen copy passes the validator |
| `ReplayRuns.ValidExactly` | backend/signal_arcade/battle_replay.py:76-104 | A call leaves a recording that the validator accepts if and only if the statistics are usable, or an unrestarted recording had points |
| `ReplayRuns.ValidRunExactly` | backend/signal_arcade/battle_replay.py:26-115 | Over whole runs a recording passes the validator if and only if some call since it last began afresh read usable statistics |
| `ReplayRuns.UnusableStart` | backend/signal_arcade/battle_replay.py:76-79 | A first call whose observed count is not a whole number leaves a recording that the validator rejects |
| `ReplayRuns.RecordKeepsSound` | backend/signal_arcade/battle_replay.py:43-115 | From valid start parameters a call leaves header and points that satisfy the validator's rules, the number of points apart |
| `ReplayRuns.RestartIsMarked` | backend/signal_arcade/battle_replay.py:55-73 | Points of other contestants or scoring rules are never joined, and a cut recording is marked partial |
| `ReplayRuns.FreezeIsValid` | backend/signal_arcade/battle_replay.py:118-121 | A recording with points replaces the event's earlier copy, other events keep theirs, and all copies are valid replays; an empty recording changes nothing |
| `ReplayRuns.FrozenStays` | backend/signal_arcade/battle_replay.py:118-121 | A frozen copy stays unchanged over any run until its event is frozen again |
| `ReplayService.ReadingExactly` | backend/signal_arcade/battle_replay.py:76-99 | Statistics give a reading if and only if counts and measures are usable, and it carries exactly their counts, share, mean and bounds |
| `ReplayService.VictimExactly` | backend/signal_arcade/battle_replay.py:105-113 | Thinning gives up the first inner point than which none is less missed: one that opens no gap, and bends least from the middle of its neighbours' means |
| `ReplayService.RecordExactly` | backend/signal_arcade/battle_replay.py:43-115 | What one call does with header, partial mark, dirty flag and points: usable, new and timely statistics add one point that carries them, beyond 32 giving up one inner point |
| `ReplayService.StartedIsWhole` | backend/signal_arcade/battle_replay.py:26-40 | A recording that was started for its contest is not partial after its first call |
| `ReplayService.ValidatorExactly` | backend/signal_arcade/battle_replay.py:124-185 | The validator accepts exactly this version's recordings with good names of two different contestants, usable thresholds and one to 32 good points that advance in time and number |
| `BattleReplay.LeastImportant` | backend/signal_arcade/battle_replay.py:105-113 | The dropped point is the first inner point of least importance |
| `BattleReplay.CheckReplay` | backend/signal_arcade/battle_replay.py:124-185 | Comparing neighbours accepts exactly the replays whose points are all ordered and well formed |
| `BattleReplay.ChallengerSkillState.RecordReplay` | backend/signal_arcade/battle_replay.py:43-115 | The procedure updates recording and dirty flag as modelled |
| `BattleReplay.ChallengerSkillState.FreezeReplay` | backend/signal_arcade/battle_replay.py:118-121 | Stores a copy only when the recording has points |
| `Artifacts.Close` | backend/signal_arcade/database.py:3310-3318 | The worklist ends on every dependency graph and computes the least closed superset of the protected versions |
| `ArtifactModel.ClosureIsReachable` | backend/signal_arcade/database.py:3310-3318 | That set is exactly what can be reached through dependencies |
| `Artifacts.ArtifactStore.Prune` | backend/signal_arcade/database.py:3269-3350 | Every existing member of the closure survives, exactly max(existing closure, min(limit, all)) remain, every removed version is archived without parameters and existing archive rows stay |
| `ArtifactModel.KeptSize` | backend/signal_arcade/database.py:3325-3330 | The number kept is the larger of the existing closure and the limit (or all there are) |
| `ArtifactModel.NewestSurvive` | backend/signal_arcade/database.py:3319-3330 | No removed version is newer than a surviving unprotected one |
| `Artifacts.CollectRoots` | backend/signal_arcade/database.py:3278-3306 | The protected versions are the preserved ones and every version a skill state or its pending list refers to |
| `IdentityModel.MergeIsEarliest` | backend/signal_arcade/database.py:2672-2690 | From an empty ledger a key holds the least (instant, episode) over its well-formed real reservations, else its first empty reservation, else nothing |
| `IdentityModel.OrderFreeExactly` | backend/signal_arcade/database.py:2672-2690 | Every reordering gives the same entry if and only if some reservation is real or all empty ones carry the same clock |
| `IdentityModel.SameMembersSameEntry` | backend/signal_arcade/database.py:2672-2690 | Under that condition neither order nor repetition matters |
| `IdentityModel.MergeBatches` | backend/signal_arcade/database.py:2642-2697 | Splitting a list into batches changes nothing |
| `IdentityModel.UnreadableStays` | backend/signal_arcade/database.py:2680-2687 | An existing episode with an unreadable clock is never replaced |
| `IdentityModel.OnlyEarlier` | backend/signal_arcade/database.py:2680-2687 | A readable real entry only ever moves to an earlier one |
| `IdentityLedger.PolicyIdentities.Remember` | backend/signal_arcade/database.py:2642-2697 | Loading the keys in blocks, folding over a copy and writing only the changes leaves the merged ledger |
| `PaperRuns.EveryRunIsValid` | backend/signal_arcade/database.py:4361-4504 | After any run of initialise, order, ledger, buy, sell, rollover and reset: debits equal credits in all and per transaction, no order has two fills, each mint has at most one position, seasons are numbered 1, 2, 3 and so on, and initialised holds exactly when the stored season is the one current season |
| `PaperRuns.NoOrderFilledTwice` | backend/signal_arcade/database.py:4493-4517 | Within a season an order is never committed twice, even if it was saved as pending again |
| `PaperRuns.SeasonHistoryIsPermanent` | backend/signal_arcade/database.py:1917-1975 | Season rows are never removed or renumbered, and a completed one never changes |
| `PaperRuns.SeasonStartsClean` | backend/signal_arcade/database.py:4709-4800 | A season that begins has its bankroll in cash, nothing realised, and after a rollover no orders, fills or positions |
| `PaperRuns.NextKeeps` | backend/signal_arcade/database.py:4649-4800 | Every single operation keeps those invariants, failed or not |
| `PaperRuns.AppendKeepsDoubleEntry` | backend/signal_arcade/database.py:4428-4451 | Posting a validated list keeps every transaction balanced |
| `PaperTrades.CommitSucceedsExactly` | backend/signal_arcade/database.py:4361-4517 | A commit succeeds if and only if order, receipt and position tell the same trade in order of time, the entries balance, the order waits unused, and the position is new of an unheld mint, or open for a sell |
| `PaperTrades.SellCloses` | backend/signal_arcade/database.py:4391-4427 | A committed sell closes its position and no other and stores the result that was passed |
| `PaperTrades.OpenPositionsExactly` | backend/signal_arcade/database.py:4361-4427 | After any run the open positions are exactly those bought and, since, neither sold nor ended with a season |
| `PaperTrades.SecondSellNeedsBuy` | backend/signal_arcade/database.py:4410-4414 | A position is sold a second time only if it was bought again in between |
| `PaperTrades.SoldMintCanBeBought` | backend/signal_arcade/database.py:4361-4427 | Once its position is sold a mint can be bought again |
| `PaperTrades.OrdersAreLatest` | backend/signal_arcade/database.py:4101-4129 | After any run an order's row holds exactly the latest record saved or committed for it in the season, with its status |
| `PaperTrades.SaveSucceedsExactly` | backend/signal_arcade/database.py:4101-4129 | Saving an order fails only with its evidence and touches no other row and no other table |
| `PaperTrades.ColumnsStay` | backend/signal_arcade/database.py:4101-4115 | Later writes of a season never change an order's mint, side or time of creation |
| `PaperTrades.FillsAreCommits` | backend/signal_arcade/database.py:4506-4517 | The fills of a season are exactly those committed in it; none is changed or lost |
| `PaperTrades.LedgerIsHistory` | backend/signal_arcade/database.py:4355-4451 | After any run the ledger is the list of all postings of the season, each under its transaction, nothing lost, changed or reordered |
| `PaperTrades.PostingSucceedsExactly` | backend/signal_arcade/database.py:4428-4451 | A bare posting is accepted if and only if it is not empty, balances and has no negative amount |
| `PaperSeasons.InitialiseSucceedsExactly` | backend/signal_arcade/database.py:1862-1915 | After any run a first season begins if and only if the bankroll is positive, none runs, the ledger is empty and the name is new |
| `PaperSeasons.RolloverSucceedsExactly` | backend/signal_arcade/database.py:4709-4800 | After any run a rollover succeeds if and only if a season runs, the bankroll is positive, the name is new and every open position is accounted for once |
| `PaperSeasons.RolloverDoes` | backend/signal_arcade/database.py:4709-4800 | A rollover completes the running season, records its retired positions for good and opens the next number |
| `PaperSeasons.ResetExactly` | backend/signal_arcade/database.py:4649-4707 | A reset succeeds if and only if no season runs or its positions are accounted for, and leaves an empty portfolio with its history |
| `Paper.PaperDatabase.InitialisePortfolio` | backend/signal_arcade/database.py:1862-1915 | Creates the first bankroll or changes nothing |
| `Paper.PaperDatabase.SaveOrder` | backend/signal_arcade/database.py:4101-4129 | Inserts an order or overwrites status and record only |
| `Paper.PaperDatabase.AppendLedger` | backend/signal_arcade/database.py:4355-4359 | Posts a balanced list or changes nothing |
| `Paper.PaperDatabase.CommitBuyFill` | backend/signal_arcade/database.py:4361-4389 | Fills a pending order once and opens one position per mint, or undoes every write |
| `Paper.PaperDatabase.CommitSellFill` | backend/signal_arcade/database.py:4391-4427 | Fills a pending order once and closes an existing position, or undoes every write |
| `Paper.PaperDatabase.RolloverPaperState` | backend/signal_arcade/database.py:4709-4800 | Archives the current season and opens the next, or undoes every write |
| `Paper.PaperDatabase.ResetPaperState` | backend/signal_arcade/database.py:4649-4707 | Archives an active season and clears the portfolio, or undoes every write |

## Left out

- Event queue heap layout: the heap is a sorted list, since only its first element and its contents are observable; the asyncio futures and wake-up lists are not modelled, a blocked put is a put tried again.
- Coach page paging details: the batched reads of 25 identifiers, deadlines and the legacy single-text watermark are not modelled; the text sentinel that sorts after every identifier is a cursor value of its own, and text order of timestamps is taken to be time order.
- CoachEvidence.PromisingIsProved: the square root in the confidence margin is a parameter, any function of the values; its statistics are not modelled.
- What the learner does with a study handed over to it, hypothesis generation, prompts and the older observation-based evaluation are not part of this model; marking the handoff is.
- The formatting of size multipliers into keys and the policy identity functions of the learning package are abstract fields of an episode.
- Diagnostics counters saturate at 2**53-1 in the original and are unbounded here; file budgets, the pause thresholds, encoding sizes and disk checks are conditions of an append.
- DiagnosticsStore.Store.Append: which rows are deleted among equally old ones is left open, as in the original's query; the pause flag is not part of the state.
- DiagnosticsExport.NothingSkipped: speaks of a row at one key; an hour row whose start moves back is covered by `DiagnosticsExport.DeliveredExactly`.
- StoreRuns.HourRowIsExact: pipeline sections are taken to have seven counters, three maxima and nine-slot histograms; gauges are not modelled.
- The recorder's choice among optional events, its cadence and its phase timing are abstract: an optional event is appended when there is room or swapped for another optional one.
- RecorderRuns.SubmittedIsConserved: stated for training and proof events, the classes the original protects and accounts for; optional detail may be replaced silently.
- PipelineRuns.PeaksAreExact: assumes that a bucket's maxima move only together with its processed count, as the recording side does.
- Retention.Journal.EnforceBudget: page accounting and timing are reduced to a stop signal per turn; rows are inserted only between chunks and an identifier always names the same row.
- RetentionRuns.RemovedExactly: takes inserted rows to be new; a row that is inserted again after its removal would be counted once more.
- CoachValues.ValuesAreTrue: takes each journal row to show nothing that its episode's final outcome contradicts.
- Floating-point rounding is not modelled in quotas, coverage and importance weights.
- QuotaModel.RateBound: for a negative requests-per-minute setting the bound uses zero.
- Whitespace of participant versions follows Python's definition; times are compared as instants, and a time text that does not parse is an absent time.
- Season display names, views and codenames are not part of this model.
- Artifact states, pending lists and archive timestamps are read as sets and left out of the archive rows; the newest-first listing is given, with ties in any order.
- Paper seasons: season statistics, accounting status, profiles, equity points, settings without a role in the invariants and learning evidence are not modelled; an evidence update either succeeds or raises.
- Paper retirement: evidence behind a write-off is one confirmed flag of a retired position.
- Saving fills or deleting positions outside a commit, editing an unstarted portfolio, and schema migrations are not modelled.
- Orchestrator, broker, curve mathematics, learning, HTTP routes, providers, the AI critic and the frontend are not modelled.
