# May agent host: durable protocols, verified

A Dafny model of the state machines inside the May agent host (a TypeScript runtime for agents, Tasks and
Apps over SQLite), with proofs of what each of them promises over whole runs. `dafny verify dfyconfig.toml`
checks everything; every statement below is a proof about the model.

## What is modelled

| part | files | in one line |
|---|---|---|
| Event store | `Delivery.dfy`, `EventLog.dfy`, `EventLogLaws.dfy`, `DbWriter.dfy` | keyed publication, delivery receipts, expiry, open/close pairs, exact Task wakes |
| Session tree | `ExecutionScope.dfy`, `SessionTree.dfy`, `SessionTreeLaws.dfy`, `SessionEndings.dfy`, `SessionManager.dfy` | admission, stop, close and join of bounded sessions and their helpers |
| Metrics | `Samples.dfy`, `Metrics.dfy`, `MetricLaws.dfy`, `MetricService.dfy` | calculation, alert rules and alert episodes |
| Task list | `TaskPages.dfy`, `TaskList.dfy`, `TaskListLaws.dfy` | list against exact read, keyset pages |
| Pass scheduler | `PassScheduler.dfy` | coalescing drains and the gap before `finally` |
| Streams | `Lines.dfy`, `CliCollector.dfy`, `OutputBuffer.dfy`, `TranscriptTail.dfy`, `TranscriptLaws.dfy` | bounded forms of simple functions on a whole stream |
| Compaction | `Compaction.dfy`, `SummaryTrim.dfy` | where a history is cut and how summaries are trimmed |
| Deploy receipt | `DeployReceipt.dfy` | lock directory and receipt file under any interleaving |

Classes stand for the objects that change in place (`DbWriter`, `SessionManager`, `MetricService`,
`PassScheduler`, `Collector`, `OutputBuffer`, `CompactionTransform`). Each of their methods is proved equal to a
step function on a value, and the laws are about those step functions, for every run. Concurrent protocols are
step relations: one step is the code between two awaits, one SQL transaction, or one file-system call. SQL
tables are sequences or maps; a clock reading, the outcome of a child process and an id generator are
parameters.

## Where the code does less than it says

Each of these is kept as the code has it, with the failing case and the exact condition.

- Joining helpers: `waitFor` answers from the remembered result of an earlier execution with the same id, so a
  closing session skips a helper that carries such an id. Every other step keeps helpers with their callers; a
  close does so exactly when none of its helpers has a remembered result (`StepKeepsValidExactlyWhen`), and a
  helper can lose its caller exactly when some working session that can itself leave has such a helper
  (`HelperCanLoseCallerExactlyWhen`, `ReusedIdBreaksTheJoin`). The session laws over runs are for runs in which
  no close skips a helper.
- Waiting for ever: a closing session awaits every active session that names it as parent, whether or not it was
  admitted under it. Where no helper will be skipped, all sessions can end exactly when nobody awaits itself
  through such links (`AllCanLeaveExactlyWhen`); sessions that await each other never end, whatever else happens
  (`KnotNeverLeaves`), for instance one that names itself as parent (`OwnParentNeverLeaves`).
- Pair closure: an end that arrives first is looked up by its correlation column, one that arrives second by
  its trimmed payload key. The two differ, for example, when the id carries a blank or a Task fence overwrites
  the column. `ColumnClosedExactlyWhen` is what the code does on any log, `OrderFreeExactlyWhen` when that is
  the order-free reading, and `OrderMattersExactlyWhen` when arrival order matters at all. The handler contract
  has no column and looks back over 200 ends (`HandlerClosedExactlyWhen`), so 200 ends of other runs hide one
  (`OtherEndsHideAnEnd`).
- Recovery: the consecutive alert rules signal `metric.recovered` at a value that still breaches
  (`RecoversBeyondThresholdExactlyWhen`, `RecoveryBeyondThresholdHappens`).
- List and exact read: a receipt without a generation is listed beside a live row of the same Task
  (`ListAgreesExactlyWhenRegular`, `ReceiptWithoutGenerationListsTwice`).
- Pages: a page that ends with a row no cursor can name has no successor (`PagesVisitTheList`,
  `UnnameableRowHidesTheRest`).
- Transcript tail: it trims every line, the full read only the whole file, so white space that JSON does not
  allow around a document makes the tail longer (`TailsAreSuffixesExactlyWhen`, `OddLineBreaksSuffix`).
- Settled receipts: a second settler that read the receipt while it was requested overwrites the first
  (`SettledChangesExactlyWhen`, `SecondSettlerOverwrites`).
- Child deadlines: the scope constructor reads the clock twice, so a helper's deadline can pass its caller's by
  the time in between (`DeadlineHeldExactlyWhen`, `DeadlineCanSlip`; the chain law carries that skew).
- Crashed requests: a requester that dies with the lock before it writes leaves a path at which every later
  request fails (`CrashedHolderBlocksForEver`, `CrashCanBlock`). A receipt can still appear exactly when there is
  no such dead holder (`ReceiptCanAppearExactlyWhen`).

## Model

| member | source | states |
|---|---|---|
| `Delivery.ReceiptIsDecisiveStamp` | src/lib/db-writer.ts:644-694 | Without expiry, the whole delivery receipt is the stamp of one report: the last of those with the highest level; App admission is settled exactly when some report admitted. |
| `Delivery.LevelIsJoin` | src/lib/db-writer.ts:651-686 | Every outcome is a join in the chain none < stored only < failed < directly accepted, from any row. |
| `Delivery.ClassDependsOnOutcomeSet` | src/lib/db-writer.ts:651-692 | Status, route and admission flag depend only on the set of outcomes reported, not on order or repetition. |
| `Delivery.AcceptedExactlyWhen` | src/lib/db-writer.ts:651-692 | Over every run of reports and expiry sweeps: exactly when a row is accepted, by which route, when a failure bars it and when it stands expired. |
| `Delivery.FailedRowExpiresExactlyWhen` | src/lib/db-writer.ts:1214-1226 | Over every run, exactly when a row with a failure and no direct acceptance stands unhandled: expired before the first failure and not stored by then, or swept late after it; otherwise it is pending. |
| `Delivery.LateSweepSettles` | src/lib/db-writer.ts:1214-1226 | At the end of any history of a tracked row, a sweep past the deadline settles what is pending, whatever its route, and keeps a note that is there; otherwise it changes nothing. |
| `Delivery.UntrackedIsNotSwept` | src/lib/db-writer.ts:1219-1225 | A legacy row without an admission plan is not swept. |
| `Delivery.DirectAcceptanceIsPermanent` | src/lib/db-writer.ts:656-686 | A direct acceptance survives every later report and sweep. |
| `Delivery.FailureIsNeverHidden` | src/lib/db-writer.ts:652-686 | After a recorded failure only a direct acceptance makes the row accepted. |
| `Delivery.ExpiredIsRevivedOnlyWhen` | src/lib/db-writer.ts:673-677 | An expired row is revived by storage-only reports exactly when the event was record-only and nothing failed. |
| `Delivery.RetryIsToldExactlyOne` | src/lib/db-writer.ts:802-837 | A keyed retry is told exactly one of "already accepted" and "deliver again", and which one is exact. |
| `EventLog.Find` | src/lib/db-writer.ts:755-767 | Finds the row that holds an event's type, ingress, scope and key, if any row does. |
| `EventLog.CloserAfterAppend` | src/lib/db-writer.ts:1143-1177 | Storing an event changes who closes a run only by closing a run nobody closed before. |
| `EventLog.RunsReplayAfterStore` | src/lib/db-writer.ts:943-947 | After the follow-up, closing and opening statements of an insert, the whole run table is again the replay of the log. |
| `EventLog.StepKeepsValid` | src/lib/db-writer.ts:703-958 | Every insert, report and sweep keeps keys unique, receipts well formed, and runs and closure links equal to the replay of the log. |
| `EventLog.RunKeepsValid` | src/lib/db-writer.ts:703-958 | The same in every state of every run. |
| `EventLogLaws.LogOnlyGrows` | src/lib/db-writer.ts:891-928 | The fixed columns of a stored event never change and no row disappears. |
| `EventLogLaws.ClosedIsAbsorbing` | src/lib/db-writer.ts:1035-1043 | A closed run keeps its closing event and time for ever. |
| `EventLogLaws.RetriesChangeNothing` | src/lib/db-writer.ts:755-844 | Log, receipts, runs, wakes and projections are those of the same steps without the retries and key reuses. |
| `EventLogLaws.RunKeepsFirstUses` | src/lib/db-writer.ts:738-844 | When nothing but key reuse is refused, all tables, wakes and projections included, end as if only the first publication of every key had been sent. |
| `EventLogLaws.ReceiptIsHistory` | src/lib/db-writer.ts:644-694 | A row's receipt is the delivery history of the steps that concern it, whatever else the store does. |
| `EventLogLaws.RetryIsAnsweredByOriginal` | src/lib/db-writer.ts:782-843 | Any number of steps later, a retry finds the original row, gets back its source, owner, time and record-only intent and exactly one answer, and changes nothing; other input under the key is refused. |
| `EventLogLaws.StoredRowStandsExactlyWhen` | src/lib/db-writer.ts:1207-1228 | Over every run, exactly where a stored event stands, with the deadline at its time plus its time to live, or 120000 ms. |
| `EventLogLaws.PublishExactlyWhen` | src/lib/db-writer.ts:738-889 | Every outcome of a publication and exactly when it comes about: retry or key reuse, stale attempt, missing target, unknown metric, stored; the ownership test written out. |
| `EventLogLaws.StoredAppendsOneRow` | src/lib/db-writer.ts:891-928 | A stored event adds one fresh row; leases and App authorities stay. |
| `EventLogLaws.OtherStepsStayLocal` | src/lib/db-writer.ts:644-701 | Reports, sweeps, leases and assignments change nothing but the rows they name. |
| `EventLogLaws.ContractsAreTheTable` | src/lib/db-writer.ts:413-464 | Which kinds open and close each contract, and its timeout. |
| `EventLogLaws.KeysAreTheIds` | src/lib/db-writer.ts:405-475 | The key and the correlation column of each contract, with the fallbacks of the handler key. |
| `EventLogLaws.EndsAreClosers` | src/lib/db-writer.ts:1023-1177 | An event ends a run by key or by column exactly as a closing kind that carries the key there, and follows one up exactly when it names it. |
| `EventLogLaws.OpenedRunIsAsContracted` | src/lib/db-writer.ts:1056-1075 | The run a stored event opens: contract, key, owner and expected close. |
| `EventLogLaws.ColumnClosedExactlyWhen` | src/lib/db-writer.ts:1056-1182 | On any log, a run of a column contract is closed exactly when an earlier event ends it by column or a later one ends it by key or names it. |
| `EventLogLaws.OrderFreeExactlyWhen` | src/lib/db-writer.ts:1085-1177 | "Closed exactly when an end of the key is anywhere in the log or a later event names it" holds exactly when something later ends the run, or earlier ends by key and by column agree. |
| `EventLogLaws.ClosedExactlyWhenEndLogged` | src/lib/db-writer.ts:1056-1182 | So it holds of every run whose own key is aligned, whatever other keys look like. |
| `EventLogLaws.HandlerClosedExactlyWhen` | src/lib/db-writer.ts:1097-1115 | The handler contract's exact closure condition, with its look-back of 200 ends. |
| `EventLogLaws.OtherEndsHideAnEnd` | src/lib/db-writer.ts:1097-1115 | In a store reached by an end, `n` ends of other handler runs and then the start, the run stays open exactly from 200 other ends on. |
| `EventLogLaws.ClosureIgnoresArrivalOrder` | src/lib/db-writer.ts:1056-1182 | Two stores with the same events in any two orders agree on whether runs of an aligned key are closed. |
| `EventLogLaws.OrderMattersExactlyWhen` | src/lib/db-writer.ts:1085-1177 | Every arrival order of any other events closes a run exactly when some event ends it both by key and by column; none does exactly when no event ends it by either. |
| `EventLogLaws.ClosedBetweenIsClosed` | src/lib/db-writer.ts:1073-1141 | In every store, a run's state is that of its start between the events before and after it. |
| `EventLogLaws.MisalignedEndLeavesRunOpen` | src/lib/db-writer.ts:1089-1096 | Every misaligned end that arrives first leaves the run open. |
| `EventLogLaws.NoRunClosesBeforeItOpens` | src/lib/db-writer.ts:1119-1138 | Under a forward clock a run closes no earlier than it opened, by another event, with its closure link. |
| `EventLogLaws.OrphanedExactlyWhenOverdue` | src/lib/db-writer.ts:1192-1201 | A run nothing closed is an orphan exactly when a sweep came after its expected close. |
| `EventLogLaws.AttemptsAreFenced` | src/lib/db-writer.ts:845-882 | Over every run, a stored fenced emission had a running attempt with a live lease, and between two of different attempts of one Task the Task was reassigned. |
| `EventLogLaws.StoredWakesExactly` | src/lib/db-writer.ts:943-1016 | A stored event wakes exactly the Task it targets, in a resource App, when it is fenced or resolves or dismisses an escalation: one wake, one version, changed, ready and its time; every other Task row is unchanged. |
| `EventLogLaws.TablesReplayStoredEvents` | src/lib/db-writer.ts:943-948 | Over every run, each Task has exactly one wake and one version step per stored event that wakes it, the condition written out, in order, and each projection is folded once per stored event. |
| `DbWriters.DbWriter.RecordDelivery` | src/lib/db-writer.ts:644-701 | Updates one receipt in place as the delivery step says; unknown ids change nothing. |
| `DbWriters.DbWriter.ClosePairForFollowup` | src/lib/db-writer.ts:1023-1054 | Closes exactly the unclosed runs the event names, with their links. |
| `DbWriters.DbWriter.CloseConventionPairs` | src/lib/db-writer.ts:1143-1182 | The loop over the contracts closes exactly the unclosed runs the event ends by key, with their links. |
| `DbWriters.DbWriter.OpenConventionPair` | src/lib/db-writer.ts:1056-1141 | Opens the event's run, closed at once by the latest earlier end. |
| `DbWriters.DbWriter.StoreRow` | src/lib/db-writer.ts:884-950 | Insert, wake, close, open and project together, or every table as before. |
| `DbWriters.DbWriter.InsertEventRow` | src/lib/db-writer.ts:703-959 | The whole call is one publication step with its answer, what a retry gets back included, and keeps the store valid. |
| `DbWriters.DbWriter.SweepStalePairs` | src/lib/db-writer.ts:1192-1205 | Marks overdue open runs as orphans and nothing else. |
| `DbWriters.DbWriter.SweepUnacceptedEvents` | src/lib/db-writer.ts:1207-1228 | Expires overdue pending rows that are tracked, and nothing else. |
| `ExecutionScopes.ExecutionTimeout` | src/lib/execution-scope.ts:14-22 | The allowed time is positive, within the request and the caller's deadline; when it is refused. |
| `ExecutionScopes.FinishTime` | src/lib/execution-scope.ts:47-50 | The finish reserve is at most a minute and a fifth of the allowance, absent unless asked for. |
| `ExecutionScopes.OpenScope` | src/lib/execution-scope.ts:37-73 | A fresh scope is live, its work deadline lies before its deadline, and that within the caller's up to the clock skew. |
| `ExecutionScopes.DeadlineCanSlip` | src/lib/execution-scope.ts:45-46 | A scope whose deadline falls after its caller's. |
| `ExecutionScopes.DeadlineHeldExactlyWhen` | src/lib/execution-scope.ts:45-46 | The caller's deadline is respected exactly when the clock stood still or the timeout fits anyway. |
| `SessionTree.StepKeepsValid` | src/lib/manager.ts:1849-1922 | Every admission, cancel, timeout, work end, join and removal, and every close that skips no helper, keeps helpers held by their callers. |
| `SessionTree.StepKeepsValidExactlyWhen` | src/lib/manager.ts:1913-1919 | A step breaks that exactly when it is a close of a session one of whose helpers has a remembered result. |
| `SessionTree.RunStaysValid` | src/lib/manager.ts:1849-1922 | In every state of every run without such a close. |
| `SessionTree.NewHelperIsHeld` | src/lib/manager.ts:554-573 | An admitted helper starts within its caller's limits, with its restrictions, binding, context, recovery owner and root. |
| `SessionTreeLaws.AdmittedExactlyWhen` | src/lib/manager.ts:553-590 | Every refusal of an admission in its order, and otherwise one more session. |
| `SessionTreeLaws.NewSessionIsAsAsked` | src/lib/manager.ts:560-573 | The new session: place, policy asked for or inherited, loans, and its two deadlines from timeout, bound and clock. |
| `SessionTreeLaws.HelperNeverOutlivesCaller` | src/lib/manager.ts:1913-1922 | While a helper is active, the very caller it was admitted under is active and is working or waiting for it. |
| `SessionTreeLaws.LimitsHoldDownTheChain` | src/lib/manager.ts:554-573 | At any depth: deadlines shrink, a stopped work signal above means not running, policy, binding, context, recovery owner and root are inherited. |
| `SessionTreeLaws.AbortReachesRunningDescendants` | src/lib/execution-scope.ts:51-59 | An abort gets to exactly the running descendants. |
| `SessionTreeLaws.CancelStopsTheSubtree` | src/lib/manager.ts:834-846 | Cancelling interrupts the session and stops it and exactly the running descendants, which are told that their caller stopped; nothing else changes, and a second cancel does nothing. |
| `SessionTreeLaws.TimeoutStopsTheSubtree` | src/lib/execution-scope.ts:60-63 | A timeout marks the session, stops it for that reason, stops exactly the running descendants as stopped by their caller, and changes nothing else. |
| `SessionTreeLaws.SignalStopsTheSubtree` | src/lib/execution-scope.ts:51-59 | An abort of the given signal stops session and running descendants, as a work stop if it was one, else as stopped by the caller. |
| `SessionTreeLaws.AbortStopsTheSubtree` | src/lib/execution-scope.ts:75-80 | A stop reaches exactly the session and its running descendants, and the first reason on each signal wins. |
| `SessionTreeLaws.WorkStopKeepsItsKind` | src/lib/execution-scope.ts:51-72 | When the work allowance ends the session keeps running, exactly the running descendants stop with the work-stop kind, and nothing else changes. |
| `SessionTreeLaws.NoWorkStopOtherwise` | src/lib/execution-scope.ts:65-71 | Without a separate work allowance, or once stopped, nothing happens. |
| `SessionTreeLaws.CloseStopsEveryHelper` | src/lib/manager.ts:1913-1919 | Closing detaches and stops the session, makes it await exactly the active sessions that name it and have no remembered result, stops every running helper below it, and changes nothing else. |
| `SessionTreeLaws.CloseBarsAdmission` | src/lib/manager.ts:1913-1919 | Over every run, once a session has closed its scope no helper is admitted under it again. |
| `SessionTreeLaws.LeavingFreesTheWaiting` | src/lib/manager.ts:1849-1868 | Who leaves is awaited by nobody any more, and its result is remembered or not; nothing else changes. |
| `SessionTreeLaws.NothingElseEnds` | src/lib/manager.ts:1913-1922 | Only an empty wait ends a session, only an ended one leaves, and only a working one closes, times out or is aborted. |
| `SessionTreeLaws.ForgettingForgetsOne` | src/lib/manager.ts:332-342 | A remembered result is forgotten alone. |
| `SessionEndings.HelperCanLoseCallerExactlyWhen` | src/lib/manager.ts:998-1004 | In every valid table, some run of closes, joins and removals leaves a helper without its caller exactly when a working session that can leave has a helper with a remembered result, whatever other helpers it has and whatever other sessions wait for. |
| `SessionEndings.ReusedIdBreaksTheJoin` | src/lib/manager.ts:998-1004 | Such a run exists from the empty table. |
| `SessionEndings.AllCanLeaveExactlyWhen` | src/lib/manager.ts:1916-1919 | Where no helper will be skipped, some run, of closes, joins and removals or of whatever steps, empties the table exactly when no session awaits itself, directly or through others; otherwise some sessions await each other in a knot. |
| `SessionEndings.KnotNeverLeaves` | src/lib/manager.ts:1918-1919 | Sessions each of which awaits one of them stay in the table, still waiting, over every run of whatever steps. |
| `SessionEndings.BoundLinksAreAcyclic` | src/lib/manager.ts:1916-1919 | That is so whenever every active session with an active parent was admitted under it. |
| `SessionEndings.OwnParentNeverLeaves` | src/lib/manager.ts:1918-1919 | A session that names itself as parent is admitted and then stays in the table over every run of whatever steps. |
| `SessionManagers.SessionManager.AbortWork` | src/lib/execution-scope.ts:51-59 | The chain of abort listeners reaches exactly what the step relation says. |
| `SessionManagers.SessionManager.Stop` | src/lib/execution-scope.ts:75-80 | The recursive stop halts exactly the reached sessions, the first reason winning. |
| `SessionManagers.SessionManager.RunDefinition` | src/lib/manager.ts:553-590 | Admission checks in order, inheritance, and the new session, or the denial. |
| `SessionManagers.SessionManager.Cancel` | src/lib/manager.ts:834-846 | One cancel step; repeated cancels change nothing. |
| `SessionManagers.SessionManager.TimeoutFired` | src/lib/execution-scope.ts:60-63 | One timeout step. |
| `SessionManagers.SessionManager.WorkTimerFired` | src/lib/execution-scope.ts:65-72 | One work-end step. |
| `SessionManagers.SessionManager.CloseExecutionScope` | src/lib/manager.ts:1913-1922 | One close step, with the helpers it will await; the table stays valid exactly when none is skipped. |
| `SessionManagers.SessionManager.Remove` | src/lib/manager.ts:1849-1868 | A settled execution leaves the table and releases whoever awaits it. |
| `Samples.LatestIsGreatest` | src/lib/metric-calculation.ts:41-46 | The ordered lookup returns the lexicographically greatest (time, id) row. |
| `Samples.NewestReadsBackwards` | src/lib/metrics.ts:369-370 | The newest k rows are the end of any sorted listing, read backwards. |
| `Samples.LookupsFindRunStart` | src/lib/metrics.ts:412-423 | Two ordered lookups find the first row of the maximal run of equal values that ends at the latest row. |
| `Metrics.StepKeepsValid` | src/lib/metrics.ts:247-586 | Every define, record, evaluate, alert and resolve keeps the episode accounting and the current values. |
| `Metrics.RunKeepsValid` | src/lib/metrics.ts:247-586 | The same in every state of every run. |
| `MetricLaws.ResolutionIsFinal` | src/lib/metrics.ts:584-586 | A resolution time, once set, never changes; nor do an alert's metric and creation time. |
| `MetricLaws.EpisodesAreAccounted` | src/lib/metrics.ts:445-516 | Each alert id has exactly one breach event and at most one later recovery; one open alert per metric. |
| `MetricLaws.EvaluatingTwiceIsQuiet` | src/lib/metrics.ts:457-496 | Evaluating again without new evidence changes and signals nothing. |
| `MetricLaws.ReportTellsTheEpisode` | src/lib/metrics.ts:336-516 | Breached names the alert that is then open; ok or recovered leaves none open; unknown changes nothing. |
| `MetricLaws.PlainBreachExactlyWhen` | src/lib/metrics.ts:436-450 | Under the plain rule an evaluation breaches exactly when the known value is past the limit as the operator says, cannot tell exactly when it is not known, and what it then does to alerts and events. |
| `MetricLaws.InARowBreachExactlyWhen` | src/lib/metrics.ts:364-377 | Under the consecutive rules: exactly when the value and each of the last samples in time order, three unless configured, are past the limit; unknown with too few. |
| `MetricLaws.RateBreachExactlyWhen` | src/lib/metrics.ts:378-435 | Under the rate rule: exactly when the value is past the limit, the rate of the last two young samples is outside the configured rates, or the value stands still; with the alert kind. |
| `MetricLaws.NotReportedExactlyWhen` | src/lib/metrics.ts:299-326 | Which metrics are not reported, and which are a fault. |
| `MetricLaws.DisabledIsQuiet` | src/lib/metrics.ts:336-342 | A disabled metric is fine, and its alert is resolved without an event. |
| `MetricLaws.RetirementClosesQuietly` | src/lib/metrics.ts:269-277 | Retiring resolves the metric's open alert without an event and touches no other metric's alerts. |
| `MetricLaws.RecordTracksLatest` | src/lib/metrics.ts:285-295 | After a record, `current` is the last sample in time order, also for late arrivals. |
| `MetricLaws.StalledExactlyWhen` | src/lib/metrics.ts:410-424 | A stall is reported exactly when the final run of equal samples began longer ago than allowed. |
| `MetricLaws.StalledIsStandingStill` | src/lib/metrics.ts:410-424 | The same as the final stretch of equal samples in time order. |
| `MetricLaws.TimelineHolds` | src/lib/metrics.ts:367-369 | The samples in time order are exactly those of the metric up to the time, and from it where asked. |
| `MetricLaws.ConsecutiveExactlyWhen` | src/lib/metrics.ts:363-376 | Too few samples is unknown; otherwise the last n in time order must all breach. |
| `MetricLaws.LatestCalculationExactlyWhen` | src/lib/metric-calculation.ts:55-60 | The latest-value calculation is the last sample in time order unless there is none or it is older than the maximum age, two measuring intervals, or the window. |
| `MetricLaws.RefusedExactlyWhenUnusable` | src/lib/metric-calculation.ts:5-24 | Exactly which options are refused. |
| `MetricLaws.MeanIsKnownExactlyWhen` | src/lib/metric-calculation.ts:61-73 | A mean is known exactly with a last sample young enough and enough samples in its window. |
| `MetricLaws.SumAddsEveryValue` | src/lib/metric-calculation.ts:61-73 | The sum behind a mean counts every value once. |
| `MetricLaws.MeanIsTheAverageOfItsWindow` | src/lib/metric-calculation.ts:61-73 | A known mean is the average of enough samples of its window and lies between their bounds. |
| `MetricLaws.RateIsOfLastTwo` | src/lib/metrics.ts:378-397 | The rate is that of the last two samples young enough, unknown for fewer. |
| `MetricLaws.SlopeIsChangePerTime` | src/lib/metrics.ts:393-397 | A known rate is the change per hour or day of a counter that did not go down. |
| `MetricLaws.RecoveryMeansClear` | src/lib/metrics.ts:440-513 | A recovery is signalled only for the open alert, with its known value, not stalled and within its rates; a breaching value only under a consecutive rule. |
| `MetricLaws.RecoversBeyondThresholdExactlyWhen` | src/lib/metrics.ts:363-376 | A recovery at a breaching value happens exactly under a consecutive rule with enough, not all breaching, samples. |
| `MetricLaws.RecoveryBeyondThresholdHappens` | src/lib/metrics.ts:363-376 | Such an evaluation exists. |
| `MetricServices.FaultKeepsEarlierWork` | src/lib/metrics.ts:318-320 | A failing metric ends the pass but keeps what the metrics before it committed. |
| `MetricServices.MetricService.DefineMetric` | src/lib/metrics.ts:247-278 | Upsert that keeps the current value; retirement resolves open alerts without an event. |
| `MetricServices.MetricService.Record` | src/lib/metrics.ts:280-296 | Appends the sample and refreshes `current` of a defined metric. |
| `MetricServices.MetricService.EvaluateMetric` | src/lib/metrics.ts:320-518 | One evaluation transaction is one step, with its report or fault. |
| `MetricServices.MetricService.Evaluate` | src/lib/metrics.ts:298-521 | The pass over several metrics, each committed on its own. |
| `MetricServices.MetricService.RaiseAlert` | src/lib/metrics.ts:523-582 | A manual alert opens an episode or relabels the open one; an unknown metric is refused. |
| `MetricServices.MetricService.ResolveOne` | src/lib/metrics.ts:584-586 | Resolves once; later calls keep the first time. |
| `TaskPages.LessIsTotal` | src/app/human-task-service.ts:1207 | The list order is total and strict on listed rows. |
| `TaskPages.PastCursorIsLess` | src/app/human-task-service.ts:1179-1184 | The four-way cursor clause is exactly that order. |
| `TaskPages.AfterIsSuffix` | src/app/human-task-service.ts:1200-1210 | The rows past the k-th row's cursor are the sorted list from k on. |
| `TaskPages.CursorAdvances` | src/app/human-task-service.ts:1235-1243 | Each next cursor leaves strictly fewer rows, so following cursors ends. |
| `TaskPages.NextCursorExactlyWhen` | src/app/human-task-service.ts:1200-1243 | A page is the beginning of the rest; it has a next cursor exactly when there is more and its last row has both ids and a safe time, and the cursor is that row's place. |
| `TaskPages.PagesVisitTheList` | src/app/human-task-service.ts:1177-1245 | Following cursors visits a prefix of the sorted list, and all of it exactly when every page boundary can be named. |
| `TaskPages.UnnameableRowHidesTheRest` | src/app/human-task-service.ts:1235-1243 | A row whose time is past the safe integers, and a limit for which following cursors then misses the next row. |
| `TaskPages.PagesVisitEveryRowOnce` | src/app/human-task-service.ts:1177-1245 | With ordinary rows every row is visited exactly once, for every limit. |
| `TaskList.ListTasks` | src/app/human-task-service.ts:1046-1246 | The page assembled part by part is the page of the listed rows; a limit outside 1 to 100 is refused. |
| `TaskListLaws.ReadFollowsTheRule` | src/app/human-task-service.ts:695-732 | The exact read picks cancellation first, then the higher generation, the receipt on a tie. |
| `TaskListLaws.StoredPhaseSearchIsComplete` | src/app/human-task-service.ts:1085-1089 | Narrowing by stored phase loses no row the view phase asks for. |
| `TaskListLaws.ShownPendingExactlyWhen` | src/app/core/state/task-view-phase.ts:3-16 | Exactly when a Task is shown as pending, dependencies included; otherwise it is shown in its stored phase. |
| `TaskListLaws.ListShowsWhatReadSelects` | src/app/human-task-service.ts:1071-1174 | Under any App and status filter a regular Task is listed at most once, as the selected row, exactly if its status is asked for. |
| `TaskListLaws.ListAgreesExactlyWhenRegular` | src/app/human-task-service.ts:1121-1174 | In the whole list a Task appears exactly once and as the selected row exactly when its rows are regular. |
| `TaskListLaws.ReceiptWithoutGenerationListsTwice` | src/app/human-task-service.ts:1133-1159 | A receipt without a generation is listed beside the live row. |
| `TaskListLaws.ListedIsDistinct` | src/app/human-task-service.ts:1200-1205 | The union of the branches never holds a row twice. |
| `TaskListLaws.PagesShowEveryTaskOnce` | src/app/human-task-service.ts:1177-1245 | End to end: the pages show every regular Task once, as the exact read selects it, in order. |
| `PassScheduling.RunKeepsValid` | src/app/metric-source-measurement.ts:498-517 | Under every interleaving the scheduler's state is sound: one chain, latest request pending or started, starts in order. |
| `PassScheduling.OnePassAtATime` | src/app/metric-source-measurement.ts:501-517 | At most one pass runs at a time, and a pending request has an active drain. |
| `PassScheduling.QuietMeansLatestWasStarted` | src/app/metric-source-measurement.ts:525-530 | When `idle` can return, the last pass started was for the latest request. |
| `PassScheduling.OwnStepsDecreaseWork` | src/app/metric-source-measurement.ts:504-516 | Every step but a request brings quiet closer, also a failed run and the gap before `finally`. |
| `PassScheduling.QuietIsReached` | src/app/metric-source-measurement.ts:504-516 | At most five steps after the last request, and no earlier stop than quiet. |
| `PassScheduling.OvertakenNeverRuns` | src/app/metric-source-measurement.ts:501-503 | A request overtaken before its pass started never runs, forced or not. |
| `PassScheduling.EveryRequestIsNoted` | src/app/metric-source-measurement.ts:518-524 | Over every run all requests are noted in order, and what has started stays started. |
| `PassScheduling.PassStartsExactlyWhen` | src/app/metric-source-measurement.ts:504-511 | A pass starts exactly when a drain comes to the top of its loop with a request pending, and it is that of the latest request. |
| `PassScheduling.RequestsAreKept` | src/app/metric-source-measurement.ts:501-516 | A failed run leaves the loop and keeps a request; settling forgets the drain and gives such a request a new one. |
| `PassScheduling.PassScheduler.ScheduleRequest` | src/app/metric-source-measurement.ts:501-504 | The latest request wins; a drain is made only when none is recorded. |
| `PassScheduling.PassScheduler.OnEvent` | src/app/metric-source-measurement.ts:518-524 | One request step. |
| `PassScheduling.PassScheduler.TakePending` | src/app/metric-source-measurement.ts:506-509 | The loop top takes the latest request or leaves the loop. |
| `PassScheduling.PassScheduler.OnSettled` | src/app/metric-source-measurement.ts:513-516 | Forgets the drain and schedules again when a request slipped in. |
| `CliCollectors.AppendTailIsTail` | src/lib/cli-agent.ts:144-150 | Appending to a bounded tail gives the tail of everything. |
| `CliCollectors.FeedSplits` | src/lib/cli-agent.ts:248-272 | Fed character by character, the lines inspected are the short ones of the split stream. |
| `CliCollectors.ChunkingDoesNotMatter` | src/lib/cli-agent.ts:248-301 | However the stream is cut, the same lines are inspected. |
| `Lines.JoinSplit` | src/lib/cli-agent.ts:258-270 | Splitting at newlines loses nothing. |
| `Lines.SplitAtEveryNewline` | src/lib/cli-agent.ts:258-270 | No line of a split stream holds a newline. |
| `CliCollectors.Collector.Consume` | src/lib/cli-agent.ts:248-272 | The chunk loop equals feeding every character. |
| `CliCollectors.Collector.Stdout` | src/lib/cli-agent.ts:275-279 | Everything held stays a function of the stream so far. |
| `CliCollectors.Collector.Finish` | src/lib/cli-agent.ts:285-301 | All short lines have been inspected and the tail is the last 64 KiB. |
| `OutputBuffers.AppendTracks` | src/lib/background-exec.ts:32-40 | The buffer stays a bounded suffix of the stream with the cursor at the undrained part. |
| `OutputBuffers.TrimsExactlyWhen` | src/lib/background-exec.ts:32-40 | Nothing is given up until 200000 characters are passed; then exactly the last 100000 are kept. |
| `OutputBuffers.UnreadIsSuffix` | src/lib/background-exec.ts:43-48 | A full drain returns the undrained text or at least its last 100,000 characters. |
| `OutputBuffers.EveryCharacterAtMostOnce` | src/lib/background-exec.ts:28-60 | Over every sequence of appends and drains, full or line-limited, no character is consumed twice or out of order; each drain consumes at least the last 100,000 characters since the one before and shows its stretch or its last non-empty lines. |
| `OutputBuffers.StreamIsEverythingAppended` | src/lib/background-exec.ts:32-33 | The stream the reads are about is everything appended. |
| `OutputBuffers.OneReadPerDrain` | src/lib/background-exec.ts:43-48 | There is one read per drain, with its limit. |
| `OutputBuffers.ShowsTheLastLines` | src/lib/background-exec.ts:50-58 | A limited drain shows the last non-empty lines, as many as allowed; an unlimited one everything. |
| `OutputBuffers.LinesKeepEveryCharacter` | src/lib/background-exec.ts:51-53 | The non-empty lines hold every character but the newlines, in order. |
| `OutputBuffers.OutputBuffer.AppendData` | src/lib/background-exec.ts:32-40 | In-place append and trim. |
| `OutputBuffers.OutputBuffer.Drain` | src/lib/background-exec.ts:43-59 | Returns the unread text or its last non-empty lines, and consumes all of it. |
| `TranscriptTails.WindowTestIsExact` | src/lib/persistence.ts:420-428 | Testing the byte before the window finds exactly the lines that begin inside it. |
| `TranscriptTails.SpacesAre` | src/lib/persistence.ts:433 | Which characters count as white space for JSON and for JavaScript. |
| `TranscriptTails.TrimsTheSpaceAround` | src/lib/persistence.ts:433 | Trimming takes away exactly the white space around a text. |
| `TranscriptTails.ReadWindow` | src/lib/persistence.ts:409-428 | The lines wholly inside the last bytes, found from the window alone. |
| `TranscriptTails.CollectFromEnd` | src/lib/persistence.ts:430-442 | Walking back and turning round gives the last records of the lines. |
| `TranscriptTails.ReadTail` | src/lib/persistence.ts:391-446 | The whole bounded read. |
| `TranscriptTails.ReadAll` | src/lib/persistence.ts:167-180 | The whole full read. |
| `TranscriptLaws.TailIsSuffixOfRecords` | src/lib/persistence.ts:391-446 | The tail is a suffix of the line-by-line records, of the limit or the window's count, whichever is less. |
| `TranscriptLaws.ReadersAgreeUnlessOdd` | src/lib/persistence.ts:432-436 | On a line the two readers agree exactly unless odd white space surrounds its document. |
| `TranscriptLaws.TrimKeepsRecords` | src/lib/persistence.ts:170-172 | Trimming the whole file does not change the records of its lines. |
| `TranscriptLaws.TailsAreSuffixesExactlyWhen` | src/lib/persistence.ts:391-446 | Every tail is a suffix of the full read exactly when no line is odd. |
| `TranscriptLaws.OddLineBreaksSuffix` | src/lib/persistence.ts:432-436 | A file where it fails. |
| `Compaction.SplitMessages` | src/lib/compaction.ts:294-311 | The cut is the shortest end that meets the token budget, moved back over tool results. |
| `Compaction.BudgetIsTheShare` | src/lib/compaction.ts:294-295 | The budget is the whole part of the given share of the total, at least one, and nothing else is. |
| `Compaction.TotalAddsEveryMessage` | src/lib/compaction.ts:294-301 | The total counts every message once. |
| `Compaction.BudgetCutIsUnique` | src/lib/compaction.ts:295-303 | The place of the cut is determined by the budget. |
| `Compaction.KeptIsWellFormedExactlyWhen` | src/lib/compaction.ts:305-308 | An end of a well-formed history keeps calls with results exactly when it does not begin with a result. |
| `Compaction.SplitKeepsCallsWithResults` | src/lib/compaction.ts:294-311 | A history that begins with the user is cut into two non-empty parts and no kept result loses its call. |
| `Compaction.CompactionStaysSendable` | src/lib/compaction.ts:318-336 | A compacted conversation is sendable and ends exactly as the old one did. |
| `Compaction.EveryStateIsSendable` | src/lib/compaction.ts:318-336 | Over any number of turns and compactions no result ever loses its call. |
| `Compaction.CompactionTransform.Apply` | src/lib/compaction.ts:318-349 | When it compacts, that it keeps exactly the end the budget and the tool results ask for, and that a sequence of calls keeps conversations sendable. |
| `SummaryTrim.JoinSections` | src/lib/compaction.ts:241-258 | Splitting at the separator and joining gives the summary back. |
| `SummaryTrim.FindIsFirst` | src/lib/compaction.ts:241 | The split takes the leftmost separator, and finds one whenever there is one. |
| `SummaryTrim.SectionsHoldNoSeparator` | src/lib/compaction.ts:241 | No section holds the separator. |
| `SummaryTrim.LastSections` | src/lib/compaction.ts:247-256 | The loop keeps the longest end of whole sections within the budget, at least the newest. |
| `SummaryTrim.TrimSummary` | src/lib/compaction.ts:238-259 | The whole trim: unchanged, a marked tail, or a marker and a suffix of whole sections, with its size bound. |
| `DeployReceipts.RunKeepsValid` | scripts/deploy-receipt.ts:113-168 | Under any interleaving, with failed writes and crashes, lock, file and reports stay consistent. |
| `DeployReceipts.AtMostOneRequestIsCreated` | scripts/deploy-receipt.ts:113-148 | At most one requester reports creation, and none when a receipt was there already. |
| `DeployReceipts.ReportsMatchTheFile` | scripts/deploy-receipt.ts:125-144 | A refused duplicate has a receipt on file; a reported creation is the request on file. |
| `DeployReceipts.EveryProcessFinishes` | scripts/deploy-receipt.ts:113-168 | Whatever the others do, a requester is answered after four steps of its own and a settler done after two. |
| `DeployReceipts.RequestCreates` | scripts/deploy-receipt.ts:125-147 | A valid request that finds lock and path free creates its receipt, says so and frees the lock. |
| `DeployReceipts.ReceiptOnFileRefusesRequests` | scripts/deploy-receipt.ts:125-132 | Over every run, with a receipt on file a valid request that has yet to look is told it is a duplicate. |
| `DeployReceipts.RequestFailsWithoutATrace` | scripts/deploy-receipt.ts:121-130 | An invalid request, or one that finds the lock taken and no receipt, fails and touches neither. |
| `DeployReceipts.FailedWriteIsReported` | scripts/deploy-receipt.ts:131-147 | A failed write leaves no file, is reported, and frees the lock. |
| `DeployReceipts.SettlingTakesEffect` | scripts/deploy-receipt.ts:150-168 | Settling a requested receipt files the phase and outcome given under its identity; otherwise the file stays. |
| `DeployReceipts.SettlerWritesItsOutcome` | scripts/deploy-receipt.ts:159-167 | What a settler that holds a receipt writes: that identity, its own phase, its own outcome. |
| `DeployReceipts.FiledReceiptIsExplained` | scripts/deploy-receipt.ts:131-167 | Over every run, a receipt on file was there at the start, or is that of a valid request of the run, or has the phase and outcome of one settler of the run and the identity of a receipt that waited. |
| `DeployReceipts.CrashedHolderBlocksForEver` | scripts/deploy-receipt.ts:125-147 | Once a lock holder has crashed before writing, no receipt appears and no request reports creation or a duplicate, for ever. |
| `DeployReceipts.CrashCanBlock` | scripts/deploy-receipt.ts:125-147 | Such a crash. |
| `DeployReceipts.ReceiptCanAppearExactlyWhen` | scripts/deploy-receipt.ts:125-147 | In every valid state, some run has a receipt on file exactly when no requester died holding the lock before writing. |
| `DeployReceipts.ReceiptKeepsItsRequest` | scripts/deploy-receipt.ts:131-167 | The requested identity never changes and the phase never returns to requested. |
| `DeployReceipts.SettledChangesExactlyWhen` | scripts/deploy-receipt.ts:157-167 | A settled receipt can still change exactly while a settler that read it earlier has yet to write something else. |
| `DeployReceipts.SecondSettlerOverwrites` | scripts/deploy-receipt.ts:150-168 | Two settlers of one requested receipt: the file says `Succeeded`, then `Failed`. |

## Left out

- SQLite, the file system, processes, sockets and timers are abstracted as above; JSON encoding, SHA-256, UTF-8
  decoding and base64 cursors are the identity or injective.
- Event store: traces other than closure links, notes, artifact bodies, session rows, the housekeeping throttle,
  admission plans and commands beyond the sweep condition, `metric.alert_resolved`, nested savepoints.
- Event store: Task rows have no writers in the model but event wakes and reassignment; the reconciler that
  consumes wakes is not modelled.
- DbWriters.DbWriter.InsertEventRow: does not model the causal trace that a retry also gets back, because traces are
  left out.
- Event store: a producer that retries with the same event object keeps redelivery flags from the earlier call;
  the model gives every publication a fresh object.
- Persistent chat sessions, the model loop, task feedback, finish recovery and stored results.
- Sessions: scopes and signals are values in the session table, not separate objects; listeners run in any order,
  and the result does not depend on it.
- Metrics: message texts, owners, urgency and event envelopes; floating-point rounding (values are reals).
- TaskList.ListTasks: does not model the human-action filter with its condition joins, nor the total it counts;
  the projection of rows into cards and references are left out too.
- Metric passes: the collectors a pass runs, and the throttling by measure interval.
- CliCollectors.Collector.Finish: the protocol flags, final text and diagnostics that line inspection derives are
  not modelled; they are a fold over the inspected lines, except for the stderr diagnostics carry.
- TranscriptTails.ReadTail: bytes are characters, so invalid UTF-8 is not modelled; the file does not change
  while it is read.
- Compaction.CompactionTransform.Apply: the summary text and token estimates are inputs; key-fact extraction is
  not modelled.
- Deploy receipt: file modes and owners, and the read commands.
- Task reconciler, inbox, event bus, App registry, transports, CLI parsing and migrations: not part of this model.
