# APILogger: a verified model of the check pipeline

APILogger checks registered services on a schedule. The coordinator's scheduler
publishes check tasks to a Redis stream; checker processes read the stream as one
consumer group, probe the service and publish a result to a second stream; the
coordinator's consumer writes each result to Postgres and calls the incident
detector, which opens or resolves an incident by a quorum over a sliding window.

This project models that pipeline and proves what it keeps over every run. The
modules, from the bottom up:

| module | what it models |
|---|---|
| `Wrappers`, `Decimal`, `Json` | options; `str`/`int` of integers; `json.dumps`/`json.loads` of a flat object of strings (sections 4 and 7 of RFC 8259) |
| `Keys`, `Codec` | the idempotency key; the two wire formats, both ends of each |
| `Database` | the tables, the transactions that change them, and the invariant of every committed state |
| `Quorum`, `Agreement` | the quorum rule and one uninterrupted evaluation as a function on tables; when a quorum of results is one of nodes |
| `DetectorTasks` | any number of evaluations in one process, interleaved at every `await` with each other and with every other writer |
| `Detector` | the detector as it runs: locks, tables and counters updated in place |
| `Ingest`, `Consumer` | what handling results does to the tables; the consumer as it runs |
| `Scheduler`, `Votes` | the job table and its reconciliation, rounds; how many rows one node can have |
| `Streams`, `Worker` | a stream with one consumer group; one checker process as a value |
| `Pipeline` | the whole protocol as a state machine, with crashes, claims, duplicates and service deletion in any order |
| `Provenance`, `Detection` | what its runs say of where tasks, results and rows come from, and of what the detector makes of the attempts |
| `Refinement`, `Stranded` | what they say of duplicates and the counter, and of pending entries |
| `Process`, `Probe` | a checker process as it runs; the probe's records and its retry loop |
| `Runs` | what the consumer and a handler do, as runs of the pipeline |
| `Fences`, `LatencyChart` | code-fence removal; the chart's buckets and percentiles |

Two modules are state machines. `Pipeline.Step` and `DetectorTasks.Step` name
everything that can happen next, `Can` when it can and `Do` what it does; `Reaches`
is a run, and `Inv` is proved of every state of every run. The classes
`Detector.IncidentDetector`, `Consumer.ResultConsumer`, `Scheduler.JobTable` and
`Process.CheckerProcess` are the imperative code, and their methods are proved against
the functions and steps the lemmas are about: the detector's against `Quorum.Evaluate`,
which is what an uninterrupted task of `DetectorTasks` does; the job table's against
`Scheduler.InLine`; a process's against `Worker` and `Streams`. `Runs.TurnIsARun` and
`Runs.TaskIsARun` say that a turn of the consumer and a handler of a process, as their
methods state them, are runs of `Pipeline`, so what is proved of every reachable state
holds of those they leave.

Time is an integer read from one monotone clock. `QUORUM_FRACTION` is an exact
fraction num/den with 0 < num <= den. A service id is text without a colon, as a
UUID is. What the outside world decides (HTTP outcomes, clock readings, jitters, which
insert fails, who crashes when) is a parameter of a method or of a step.

## Where the code and its documentation differ

The model follows the code. Each difference has its lemma.

- The repository's README (lines 11 and 94) and the head of `checker/app/worker.py`
  promise that a task whose node dies is claimed and handled again. The code only logs
  how many entries it claimed, and both loops read new entries only. A pending task can
  still be acknowledged exactly when some process has a handler for it
  (`Stranded.PendingTaskCanBeAckedIff`), and a crash strands every task in hand
  (`Stranded.CrashStrandsItsTasks`).
- A comment in the consumer (`coordinator/app/queue/consumer.py`, line 95) says that a
  result whose insert failed will be delivered again. A pending result can still be
  acknowledged exactly when it is in the batch the consumer is at
  (`Stranded.PendingResultCanBeAckedIff`); a failed insert strands its result
  (`Stranded.FailedInsertStrandsItsResult`), and a consumer that dies strands what is left
  of its batch (`Stranded.DroppedBatchIsStranded`).
- The README (lines 10 and 77) says that 51% of the nodes must agree. The detector
  counts results, whoever sent them (`Quorum.NodesDoNotMatter`), so three failing results
  of one node and two good ones of another open an incident at 51%
  (`Agreement.HalfTheNodesOpenAnIncident`). Whatever the results of a window say,
  incidents need agreement exactly when no minority of the reporting nodes holds a quorum
  of the window's results (`Agreement.IncidentsNeedAgreementIff`), as when all report
  equally often (`Agreement.EqualReportersNeedAgreement`). And one failing result is enough
  exactly when, counting itself, the window holds at most den/num results
  (`Quorum.OneFailureOpensIff`).
- The lock that keeps two evaluations of a service apart lives in one process, the
  schema does not forbid a second open incident, and the production compose file starts
  two workers. The incident invariants are proved for one worker. Of two evaluations
  without the lock that found the same, exactly those that both found nothing and said
  down leave two incidents open (`Database.OneOpenWithoutLockIff`). When the status word
  is wrong depends on when the second one reads the status row, after the first has
  committed (`Database.StatusAgreesWithoutLockIff`) or before
  (`Database.StatusAgreesWhenReadEarlyIff`).
- A changed service is only half noticed by its job: the trigger follows the new
  interval, the arguments stay as they were (`Scheduler.KwargsAreCurrentIff`). The rounds
  of successive firings stay apart exactly when the interval is not below the one the job
  was added with (`Scheduler.FiringsKeepRoundsApartIff`); otherwise, at some firing, a
  node's result is refused as a copy of the same node's for the firing before, if both
  tasks went to that node (`Votes.JobLosesVotesIff`).
- A missing error message is stored as the text "None". That is harmless for what the
  probe reports: the text then means "up" (`Probe.TheTextNoneMeansUp`).

## Model

| member | source | states |
|---|---|---|
| Pipeline.StepKeeps | checker/app/worker.py:56-137 | every step of the protocol (publish, deliver, probe, report, ack, crash, claim, duplicate, persist, delete, ...) keeps the whole invariant |
| Pipeline.EveryRunKeepsInv | coordinator/app/queue/consumer.py:29-109 | so does every run, in any interleaving |
| Pipeline.NothingIsLostFromTheStreams | checker/app/worker.py:58-112 | in every reachable state each entry of either stream is exactly one of undelivered, pending, acknowledged, and the three counts add up to all that was published |
| Pipeline.StreamsOnlyGrow | coordinator/app/queue/producer.py:28-33 | over any run no entry disappears or changes, none is delivered anew, none is unacknowledged |
| Pipeline.AckedTaskHasResult | checker/app/worker.py:111-112 | an acknowledged task has a result in the result stream for its service with the key of its round: the ack comes after the report |
| Pipeline.AckedResultIsKept | coordinator/app/queue/consumer.py:78-109 | an acknowledged result has a row with its key, or its service was deleted (the foreign key is an `IntegrityError` too, and acked) |
| Pipeline.EverythingParses | checker/app/worker.py:94-99 | no entry the two encoders produced is ever dropped as unparseable, on either stream |
| Pipeline.HandlersAreBounded | checker/app/worker.py:37-81 | at most CONCURRENCY handlers of a process are inside its semaphore, no task is read by two processes, and every unfinished handler's task is pending |
| Pipeline.ShutdownLeavesNothingBehind | checker/app/worker.py:83-89 | when `run` has returned, each entry it read is acked, or its handler raised and it is still pending |
| Pipeline.VotesAreBounded | checker/app/reporter.py:14-28 | in every reachable state: one row per service, node and round, and a bound on the rows of one node with the rounds of a window |
| Pipeline.TablesStayValid | coordinator/app/incidents/detector.py:46-94 | in every reachable state of the pipeline at most one incident per service is open, and "down" is shown exactly then |
| Provenance.EveryRunIsTraced | coordinator/app/queue/consumer.py:57-109 | in every run each task carries the arguments of the job that published it, each result tells the attempt that was reported, and each row is such a result |
| Provenance.PublishedIsRead | coordinator/app/scheduler/scheduler.py:45-67 | the task a job publishes is read by the checker with the service, URL, method, timeout, expected status, headers and interval of the job, its body unless that is the text "None", and the round whose bucket holds the moment |
| Provenance.TasksCarryArguments | checker/app/worker.py:140-151 | in every reachable state that is so of each task entry and the job that published it |
| Provenance.ReportedIsRead | checker/app/reporter.py:22-48 | what a handler reports is read by the coordinator as a row of that service, node, time and round, and the row tells how the attempt ended |
| Provenance.ResultsTellAttempts | coordinator/app/queue/consumer.py:112-127 | in every reachable state that is so of each result entry, duplicates included |
| Provenance.RowsAnswerTasks | coordinator/app/scheduler/scheduler.py:57-67 | in every reachable state each row answers a task of its service, tells the attempt reported for it, and has the round of the moment the task was published |
| Provenance.VotesOfAWindow | coordinator/app/scheduler/scheduler.py:40-67 | in every reachable state one node has at most `Rounds`, so at most length/interval + 2, rows for the tasks of a service published within any window |
| Provenance.HistoryStays | coordinator/app/db/models.py:61-143 | over any run of the pipeline a committed incident stays with its service and start, once resolved with its end, and a stored result stays as it is, until its own service is deleted |
| Detection.RecordIsFailingIffNotUp | coordinator/app/incidents/detector.py:66 | an attempt counts as a failure exactly when its record is not "up", so exactly when it was not a response with the expected code |
| Detection.EveryRowIsProbed | coordinator/app/incidents/detector.py:62-69 | in every reachable state each row is of an attempt, and counts as a failure exactly when that was not the expected response |
| Detection.DetectedOrRecovered | coordinator/app/incidents/detector.py:48-94 | if all attempts on a service since `from` were up, an evaluation one window later that finds a row leaves no incident open; if none was, it leaves one open |
| Detection.ReachableDetection | coordinator/app/incidents/detector.py:48-94 | in every reachable state the statuses of the rows alone decide that |
| Refinement.StepIsEvent | coordinator/app/queue/consumer.py:57-109 | each step of the pipeline does to tables, counter and the row in hand what its `Ingest` event does, or nothing |
| Refinement.RunIsEvents | coordinator/app/queue/consumer.py:29-109 | so every run of the pipeline is, for tables and counter, a run of `Ingest` |
| Refinement.DuplicatesAreHarmless | coordinator/app/queue/consumer.py:78-109 | any run, with duplicates, half-handled entries and deletions at any moment, ends in the tables and counter of the run that skips every insert of a settled key |
| Refinement.CounterAccountsForRows | coordinator/app/queue/consumer.py:98-107 | in every reachable state every row ever stored has been counted once, or was abandoned before its evaluation, or is the one in hand |
| Refinement.SettledForGood | coordinator/app/db/models.py:93 | once a result is stored, or its service gone, no run reaches a state where a result with its key can be inserted; its copies are refused, change nothing and are acked |
| Stranded.OrphansStay | checker/app/worker.py:122-137 | a pending task without a handler stays pending in every run, claims and restarts included |
| Stranded.AbandonedResultsStay | coordinator/app/queue/consumer.py:35-54 | a pending result no longer in the consumer's batch is never acknowledged |
| Stranded.HandlerCanFinish | checker/app/worker.py:92-112 | from every reachable state a handler can be run to its acknowledgement, whatever the semaphore holds |
| Stranded.PendingTaskCanBeAckedIff | checker/app/worker.py:122-137 | a pending task can still be acknowledged if and only if some process has a handler for it |
| Stranded.CrashStrandsItsTasks | checker/app/worker.py:7-10 | after a crash no run acknowledges a task the process had in hand |
| Stranded.ConsumerCanFinish | coordinator/app/queue/consumer.py:45-109 | from every reachable state the consumer can run each entry of its batch to its acknowledgement |
| Stranded.PendingResultCanBeAckedIff | coordinator/app/queue/consumer.py:35-47 | a pending result can still be acknowledged if and only if it is in the batch the consumer is at |
| Stranded.FailedInsertStrandsItsResult | coordinator/app/queue/consumer.py:92-96 | after an insert that failed for another reason than a constraint no run acknowledges the result |
| Stranded.DroppedBatchIsStranded | coordinator/app/queue/consumer.py:49-54 | after the consumer has died or left its batch no run acknowledges what was left of it |
| Streams.CountsAddUp | checker/app/worker.py:60-66 | undelivered, pending and acknowledged entries add up to the stream |
| Streams.OperationsKeepValid | checker/app/worker.py:60-66 | XADD, XREADGROUP, XACK and XAUTOCLAIM keep every delivered entry in exactly one of pending and acked |
| Streams.DeliveryNamesTheReader | checker/app/worker.py:60-66 | a delivery makes the next entries the reader's, and takes none from anybody |
| Streams.ClaimMovesOwners | checker/app/worker.py:122-137 | after a claim the pending entries claimed are the claimer's, the others are whose they were, and nothing else has changed |
| Worker.StepsKeepValid | checker/app/worker.py:56-112 | semaphore permits and handlers inside always add up to CONCURRENCY, and handlers end only by finishing, raising or a crash |
| Worker.ReadKeepsValid | checker/app/worker.py:77-81 | so they do when a handler is created for each entry read |
| Process.CheckerProcess.StartHandlers | checker/app/worker.py:77-81 | the loop adds a queued handler for exactly the entries read |
| Process.CheckerProcess.ReadEntries | checker/app/worker.py:58-81 | one turn of the loop is the protocol's read step: the next entries become pending and get handlers |
| Process.CheckerProcess.HandleTask | checker/app/worker.py:92-112 | an undisturbed handler leaves the semaphore as it was, acks its entry, and adds the result of the right attempt, or nothing if the entry does not parse |
| Process.CheckerProcess.ProbeAndReport | checker/app/worker.py:94-111 | inside the semaphore: the result of the first attempt that is not an error, or of the last, is published once, with the node's name |
| Process.CheckerProcess.StopWhenDrained | checker/app/worker.py:83-89 | the process stops exactly when no handler is left |
| Process.CheckerProcess.HandleSignal | checker/app/worker.py:30-32 | a signal sets the flag and nothing else |
| Process.CheckerProcess.LeaveTheLoop | checker/app/worker.py:58 | the loop is left once the flag is set, with every handler still there |
| Runs.TaskIsARun | checker/app/worker.py:92-112 | from any world a queued handler that finds a permit can take its steps of the protocol one after the other; its entry is then acked, it is gone, and there is one result more, which the coordinator reads as what the attempt tells, or none if the task cannot be parsed |
| Ingest.DuplicatesStutter | coordinator/app/queue/consumer.py:78-109 | over any sequence of inserts, evaluations, deaths, creations and deletions, every insert of a key settled before can be skipped without a change to tables, counter or the row in hand |
| Ingest.DuplicatesAreHarmless | coordinator/app/db/models.py:93 | the same from empty tables, assuming nothing of the state |
| Ingest.DedupHandlesOnce | coordinator/app/queue/consumer.py:86-91 | what is left then has no insert after a settled one of the same key: the reduction is complete |
| Ingest.HandleIsPutThenJudge | coordinator/app/queue/consumer.py:78-107 | the handling of one entry is its insert followed by its evaluation |
| Ingest.CounterAccountsForRows | coordinator/app/queue/consumer.py:98-107 | over any sequence of events the counter rises by one for each row stored, but for the one in hand and those abandoned |
| Consumer.ResultConsumer.ConstraintFails | coordinator/app/db/models.py:83-93 | the insert is refused exactly when the key is taken or the service is gone |
| Consumer.ResultConsumer.HandleRow | coordinator/app/queue/consumer.py:65-107 | a parsed result: insert, evaluate and count, or refuse, or fail and leave everything as it was |
| Consumer.ResultConsumer.HandleResult | coordinator/app/queue/consumer.py:57-109 | one entry: tables and counter become what `Ingest.Handle` says, and it is acked unless the insert met another error |
| Consumer.ResultConsumer.RunBatch | coordinator/app/queue/consumer.py:45-47 | the loop over a batch is the run of its events in order |
| Consumer.WhatABatchAcks | coordinator/app/queue/consumer.py:58-109 | a batch moves exactly its unparseable, stored and refused entries from pending to acked |
| Consumer.ResultConsumer.ReadBatch | coordinator/app/queue/consumer.py:35-41 | it takes at most 50 of the undelivered entries, in order, and fewer only if there are no more; exactly those become pending, and the group stays consistent |
| Consumer.ReadIsDelivery | coordinator/app/queue/consumer.py:35-41 | that determines the read: it is the delivery of the next batch |
| Consumer.ResultConsumer.Turn | coordinator/app/queue/consumer.py:33-47 | one turn of the consumer loop: the tables are those after the entries it read, in order, and the stream is as `AfterTurn` says |
| Consumer.TurnSettlesWhatItReads | coordinator/app/queue/consumer.py:33-109 | a turn acknowledges each entry it read or, if its insert failed for another reason than a constraint, leaves it pending, and does nothing to any other entry |
| Runs.EntryIsARun | coordinator/app/queue/consumer.py:57-109 | handling the head of a batch is a run of the protocol of one to three steps, whatever its fate |
| Runs.TurnIsARun | coordinator/app/queue/consumer.py:33-47 | from any world a turn of the consumer loop is a run of the protocol, and leaves stream, tables and counter as `Turn` does |
| DetectorTasks.StepKeeps | coordinator/app/incidents/detector.py:40-146 | every step of any task, and of any other writer of the tables, keeps the invariant |
| DetectorTasks.EveryRunKeepsInv | coordinator/app/incidents/detector.py:40-146 | so does every run |
| DetectorTasks.CommitIsAtomic | coordinator/app/incidents/detector.py:74-94 | what a task chose on its earlier reads is what it would choose on the tables at its commit |
| DetectorTasks.UninterruptedTaskEvaluates | coordinator/app/incidents/detector.py:40-100 | a waiting task whose lock is free can run through at any clock readings from now on, rows or no rows in the window, is then over with its lock free, and has done what `Quorum.Evaluate` says |
| DetectorTasks.TaskOfDeletedServiceFails | coordinator/app/incidents/detector.py:92-94 | a task whose service is deleted while it runs cannot commit, and changes as little as `Quorum.Evaluate` then does |
| DetectorTasks.NeverTwoOpen | coordinator/app/incidents/detector.py:75-81 | in every reachable state at most one incident of a service is open, so `scalar_one_or_none` never raises |
| DetectorTasks.StatusAgreesWithIncidents | coordinator/app/incidents/detector.py:86-94 | in every reachable state a service is "down" if and only if it has an unresolved incident |
| DetectorTasks.IncidentsAreSuccessive | coordinator/app/incidents/detector.py:103-128 | the incidents of a service are ordered, disjoint intervals of the past, and only the last can be open |
| DetectorTasks.CountersAccountForEveryIncident | coordinator/app/incidents/detector.py:113-128 | opened minus resolved is the number of open incidents, plus exactly the deleted, uncommitted and abandoned ones; with none of those it is the number |
| DetectorTasks.OneFollowUpPerCommit | coordinator/app/incidents/detector.py:96-100 | one follow-up task per committed opening and resolution, started after the commit and once |
| DetectorTasks.SinceIsTheLastChange | coordinator/app/incidents/detector.py:131-143 | `since` is when the current word was first committed without a break since, and not after the last check |
| DetectorTasks.UnknownUntilEvaluated | coordinator/app/incidents/detector.py:131-143 | a service is "unknown" exactly until its first committed evaluation, and "up" or "down" from then on |
| DetectorTasks.HistoryStays | coordinator/app/incidents/detector.py:86-128 | over any run of interleaved tasks and writers a committed incident stays with its service and start, once resolved with its end, until its own service is deleted |
| Database.AtMostOneOpen | coordinator/app/db/models.py:116-137 | disjoint incident intervals mean at most one open incident |
| Database.CreateKeepsValid | coordinator/app/api/v1/services.py:187-210 | creating a service with its "unknown" status row keeps the invariant |
| Database.NewServiceIsBlank | coordinator/app/api/v1/services.py:187-210 | a new service is "unknown" since now, with no row and no incident, and nothing of the others changes |
| Database.DeleteKeepsValid | coordinator/app/api/v1/services.py:232-236 | deleting a service with everything that cascades keeps it |
| Database.DeletionLeavesTheOthers | coordinator/app/api/v1/services.py:232-236 | a deletion leaves exactly the incidents and status rows of the other services, unchanged, and their check results in order |
| Database.InsertKeepsValid | coordinator/app/queue/consumer.py:65-79 | inserting a row that violates no constraint keeps it |
| Database.AnnotateKeepsValid | coordinator/app/incidents/ai_summary.py:185-196 | the summary and alert tasks keep it and open or close nothing |
| Database.AnnotateWrites | coordinator/app/incidents/ai_summary.py:185-196 | they write these two columns of that incident and nothing else |
| Database.CommitOpens | coordinator/app/incidents/detector.py:86-94 | after a commit an incident is open exactly when the quorum said down, and no other service is touched |
| Database.CommitKeepsValid | coordinator/app/incidents/detector.py:86-94 | the commit of an evaluation keeps the invariant |
| Database.OneOpenWithoutLockIff | infra/docker-compose.prod.yml:72 | two evaluations that found the same without the lock leave at most one incident open if and only if not both found none and said down |
| Database.StatusAgreesWithoutLockIff | coordinator/app/incidents/detector.py:131-143 | if the second reads the status row after the first has committed, the status agrees with the incidents if and only if they said the same, or the second had nothing of the first to undo |
| Database.StatusAgreesWhenReadEarlyIff | coordinator/app/incidents/detector.py:131-143 | if it read the row before, so that an unchanged word is not written, it agrees unless none was open, the first said down and the second up, and the service was not shown up |
| Quorum.EvaluateKeepsValid | coordinator/app/incidents/detector.py:46-94 | an uninterrupted evaluation keeps the invariant and touches no row, service or other status |
| Quorum.EvaluateDecides | coordinator/app/incidents/detector.py:58-94 | after an evaluation that found a row an incident is open if and only if the quorum says down, and the status agrees |
| Quorum.WhatAnEvaluationWrites | coordinator/app/incidents/detector.py:86-143 | what is written, reading by reading: the start of a new incident, the end of a resolved one, word, `since` and last check, and no other incident changes |
| Quorum.EvaluateAgainChangesNothing | coordinator/app/incidents/detector.py:131-143 | evaluating again on the same counts changes no incident, not the word and not `since` |
| Quorum.OneMoreResult | coordinator/app/incidents/detector.py:70-72 | one more failing result never turns the quorum off, one more up result never on |
| Quorum.DetectedWithinAWindow | coordinator/app/incidents/detector.py:48-94 | if every row since `from` is failing, an evaluation one window later that finds a row leaves an incident open |
| Quorum.RecoveredWithinAWindow | coordinator/app/core/config.py:63-68 | if none is failing, it leaves none open: this needs the quorum to be positive |
| Quorum.AfterStretch | coordinator/app/incidents/detector.py:46-94 | over any results alike, each inserted and evaluated, the tables stay valid, gain exactly those rows, and an incident is open exactly when the verdict on the window is down |
| Quorum.OpenAfter | coordinator/app/incidents/detector.py:58-94 | after k failing results on t rows with f failing, an incident is open exactly when k(den - num) >= num t - den f |
| Quorum.ClosedAfter | coordinator/app/incidents/detector.py:58-94 | after k results that are not failing none is open exactly when num k > den f - num t |
| Quorum.ClosesExactlyAtNeededUp | coordinator/app/incidents/detector.py:88-90 | so the incident is resolved at exactly the `NeededUp`-th such result and stays so |
| Quorum.NeededIsTheThreshold | coordinator/app/incidents/detector.py:70-72 | that is when k has reached a number computed from t and f |
| Quorum.OpensExactlyAtNeeded | coordinator/app/incidents/detector.py:86-90 | so the incident opens at exactly the `Needed`-th failing result and stays open |
| Quorum.NodesDoNotMatter | coordinator/app/incidents/detector.py:52-69 | the counts are the same whichever nodes sent the results |
| Quorum.OneFailureOpensIff | coordinator/app/incidents/detector.py:70-87 | a single failing result opens an incident exactly when the window holds at most den/num results |
| Agreement.AgreementIff | README.md:77 | whatever the results of a window say, the quorum of results is met only by a quorum of nodes if and only if no minority of the nodes holds a quorum of the results |
| Agreement.IncidentsNeedAgreementIff | coordinator/app/incidents/detector.py:51-94 | the same of the incident an evaluation leaves open |
| Agreement.HalfTheNodesOpenAnIncident | coordinator/app/incidents/detector.py:70-87 | a window in which an incident opens although half of the nodes report a failure and 51% must |
| Agreement.EqualReportersNeedAgreement | README.md:10 | for nodes that report equally often the quorum of results is one of nodes |
| Detector.IncidentDetector.GetLock | coordinator/app/incidents/detector.py:34-37 | the same lock for a service ever after, a new free one the first time, no other changed |
| Detector.IncidentDetector.CountWindow | coordinator/app/incidents/detector.py:51-69 | the numbers of rows of the service since the cutoff, and of those among them that say "down", "timeout" or "error" |
| Quorum.CountsAreSizes | coordinator/app/incidents/detector.py:51-69 | the counts the quorum rests on are the sizes of those two sets |
| Detector.IncidentDetector.FindOpen | coordinator/app/incidents/detector.py:75-81 | the open incident of the service, of which there is at most one |
| Detector.IncidentDetector.UpdateStatus | coordinator/app/incidents/detector.py:131-143 | the status row after, `since` kept if the word is kept |
| Detector.IncidentDetector.Evaluate | coordinator/app/incidents/detector.py:46-94 | the tables become exactly the specified evaluation, stay valid, and the counters move with them |
| Detector.IncidentDetector.ProcessCheckResult | coordinator/app/incidents/detector.py:40-43 | the same under the service's lock, which is free again after, with no other lock touched |
| Scheduler.JobTable.ExistingIds | coordinator/app/scheduler/scheduler.py:83 | the ids collected are those of the services that have a check job |
| Scheduler.JobTable.RemoveStale | coordinator/app/scheduler/scheduler.py:85-88 | just the stale check jobs go |
| Scheduler.JobTable.SyncJobs | coordinator/app/scheduler/scheduler.py:75-125 | from any job table: check jobs for exactly the active services, each updated as it must be, all others untouched |
| Scheduler.TriggersFollowServices | coordinator/app/scheduler/scheduler.py:82-125 | afterwards every check job fires at its service's interval |
| Scheduler.TriggerAfterSync | coordinator/app/scheduler/scheduler.py:104-124 | a new or rescheduled job has the interval of its service and the jitter drawn for it; any other keeps its trigger; only a new one gets arguments |
| Scheduler.SecondSyncChangesNothing | coordinator/app/scheduler/scheduler.py:75-125 | a second reconciliation changes nothing, whatever jitters are drawn |
| Scheduler.KwargsAreCurrentIff | coordinator/app/scheduler/scheduler.py:104-114 | a job's arguments are the service as it is now if and only if the job is new or they already were |
| Scheduler.GapWithinBucket | coordinator/app/scheduler/scheduler.py:40-42 | a firing shares its round with one a gap later exactly when the gap ends within its bucket |
| Scheduler.NeverSharesIff | coordinator/app/scheduler/scheduler.py:40-42 | no firing does if and only if the gap is at least the interval of the rounds |
| Scheduler.FiringsKeepRoundsApartIff | coordinator/app/scheduler/scheduler.py:104-114 | successive firings of the job a reconciliation leaves never share a round if and only if the service's interval is not below the one the job was added with |
| Scheduler.ShortenedIntervalSharesRounds | coordinator/app/scheduler/scheduler.py:107-114 | so a job rescheduled from 60 s to 30 s has firings that share a round, which a new job would not |
| Scheduler.Enqueue | coordinator/app/scheduler/scheduler.py:45-67 | the task published carries the round whose bucket, by the job's own interval, holds the moment of publication |
| Scheduler.BucketOf | coordinator/app/scheduler/scheduler.py:40-42 | the round is k exactly in the k-th interval-sized bucket, before time zero too |
| Scheduler.SameRound | coordinator/app/scheduler/scheduler.py:40-42 | two times share a round exactly when one bucket holds both |
| Votes.OnlyTheSameVoteConflicts | coordinator/app/queue/consumer.py:86-91 | for a service that exists, a result is refused only if its service, node and round already have a row |
| Votes.OneBallotPerRound | coordinator/app/db/models.py:93 | one node has at most one row per round of a range |
| Votes.VoteBound | coordinator/app/scheduler/scheduler.py:57-67 | at most `Rounds` rows of one node, so at most length/interval + 2, have the round of an instant of any window |
| Votes.BoundIsReached | coordinator/app/scheduler/scheduler.py:40-42 | for every length and interval there are a window and a table with exactly that many |
| Votes.LosesAVoteIff | coordinator/app/queue/consumer.py:86-91 | the result of a firing leaves that of one a gap later no place, in any table, exactly when the gap ends within the bucket |
| Votes.JobLosesVotesIff | coordinator/app/scheduler/scheduler.py:104-114 | a job loses a vote at some firing if and only if its trigger is shorter than the interval in its arguments |
| Keys.KeyNamesItsService | checker/app/reporter.py:14-19 | the text before the first colon of a key is its service |
| Keys.KeyInjective | checker/app/reporter.py:14-19 | two keys are equal if and only if service, node and round are, for any node ids |
| Keys.KeysEqualIff | checker/app/reporter.py:19 | for any ids, two keys are equal if and only if the rounds are and the texts before the last colon are |
| Decimal.IntRoundTrip | checker/app/worker.py:145-150 | `int(str(n))` is n, for zero and negative numbers too |
| Decimal.ParsesIff | checker/app/worker.py:145-150 | a text is an integer exactly when it is digits with at most one sign before them |
| Json.StringBack | coordinator/app/queue/producer.py:30 | every string comes back from its JSON text, escapes and surrogate pairs included, and what follows it is left |
| Json.RoundTrip | checker/app/worker.py:147 | every dict of strings comes back from its JSON text, in order |
| Json.LastMemberCounts | checker/app/worker.py:147 | of members with one name the last one counts |
| Codec.TaskRoundTrip | coordinator/app/queue/producer.py:28-31 | a task is read back as written exactly when its body is not the text "None", which alone becomes absent |
| Codec.TaskNeeds | checker/app/worker.py:140-151 | an entry without a required field is not a task |
| Codec.TaskCanDoWithout | checker/app/worker.py:140-151 | body and headers may be missing, and the headers empty |
| Codec.ResultRoundTrip | coordinator/app/queue/consumer.py:112-127 | a result is read as its normal form, and as itself exactly when it has a non-empty error message and no empty header dict |
| Codec.ResultNeeds | coordinator/app/queue/consumer.py:112-127 | an entry without a required field is not a result |
| Codec.ResultCanDoWithout | coordinator/app/queue/consumer.py:112-127 | each of the four others is absent from the row if it is missing |
| Codec.EmptyIsMissing | coordinator/app/queue/consumer.py:112-127 | or empty |
| Codec.NormalIsIdempotent | checker/app/reporter.py:31-43 | a second trip loses nothing more |
| Probe.Probe | checker/app/probe.py:28-49 | n <= MAX + 1 attempts, all before the last errors, stops early only on a non-error, and has slept base (2^(n-1) - 1) |
| Probe.ShapeOfRecords | checker/app/probe.py:52-111 | no error message exactly when up; code and headers exactly those of the response, if there was one; the latency exactly that of the attempt, unless it is an error |
| Probe.RowTellsTheAttempt | checker/app/probe.py:71-111 | the row the coordinator reads tells the attempt: status, code, latency, headers, and in its message the expected and the actual code, or the time it took, or the text of the exception |
| Probe.TheTextNoneMeansUp | checker/app/reporter.py:40 | the coordinator reads the error text "None" for exactly the up results |
| Fences.JoinSplit | coordinator/app/incidents/ai_summary.py:210-211 | joining the lines of a text gives it back |
| Fences.SplitAppend | coordinator/app/incidents/ai_summary.py:210 | splitting distributes over a newline between two texts |
| Fences.FencedBodyIsRecovered | coordinator/app/incidents/ai_summary.py:206-211 | any fenced body is recovered exactly, whatever its tag and the space around it |
| Fences.UnclosedFence | coordinator/app/incidents/ai_summary.py:211 | without a closing fence only the first line goes |
| Fences.PlainReplyIsKept | coordinator/app/incidents/ai_summary.py:206-209 | a reply without a fence loses the space around it and nothing else |
| LatencyChart.FillBuckets | frontend/src/components/LatencyChart.tsx:23-32 | the two records hold the latencies and statuses of exactly the checks of each minute, in order |
| LatencyChart.BuildChartData | frontend/src/components/LatencyChart.tsx:21-42 | one point for each minute that has checks and no other, in order, with that minute's percentiles and statuses |
| LatencyChart.RankSplits | frontend/src/components/LatencyChart.tsx:37-39 | the value at rank k is a member with more than k values at most it, and at most k below any smaller bound |
| LatencyChart.Percentiles | frontend/src/components/LatencyChart.tsx:38-39 | both percentiles are members with exactly their ranks n/2 and 99n/100: more values than the rank at most them, and no more than the rank at most any smaller bound; p50 <= p99; none without values |
| LatencyChart.RankIsUnique | frontend/src/components/LatencyChart.tsx:37-39 | a rank belongs to one value |
| LatencyChart.EveryCheckIsShown | frontend/src/components/LatencyChart.tsx:26-32 | no check is lost: its status, and its latency if it has one, is in its minute |
| LatencyChart.OnlyChecksAreShown | frontend/src/components/LatencyChart.tsx:26-32 | a minute shows one status for each of its checks and one latency for each that has one, and no more |
| LatencyChart.PointsTellTheirMinutes | frontend/src/components/LatencyChart.tsx:34-42 | each point has the statuses of its minute and its percentiles by rank |

## Left out

- Eventual processing of pending entries: the code never handles a claimed or failed entry again, so safety is stated, and exactly which tasks can still be acknowledged.
- More than two evaluations at once without the lock, as in several coordinator processes: for two, `Database.OneOpenWithoutLockIff` and `Database.StatusAgreesWithoutLockIff` say exactly what goes wrong.
- Stream trimming (`maxlen`), eviction and failure of Redis: streams are assumed to stay below their limits. `ensure_consumer_groups` and group creation are not modelled.
- Postgres and SQLAlchemy: tables are maps and sequences with one unique key and cascading foreign keys, and a transaction commits whole or not at all. Service and incident ids never repeat; incident ids are numbered in the order they are generated. Column lengths are not modelled.
- Pipeline.StepKeeps: a detector evaluation is one step there; the steps inside it, and rows arriving between its two counts, are in `DetectorTasks`. A report there carries the record of some one attempt; that it is the one where the retry loop stops is in `Process`.
- Detector.IncidentDetector.Evaluate: the class holds the tables of one process and runs an evaluation without interruption; the interleaving is in `DetectorTasks`. The text of `trigger_reason` and the published status event are not modelled.
- Consumer.ResultConsumer.RunBatch: an acknowledgement never fails there; a consumer that dies or raises within a batch is `DropBatch` in `Pipeline`.
- Process.CheckerProcess.HandleTask: shows one handler from its permit to its acknowledgement; handlers that interleave, raise or are killed are in `Worker` and `Pipeline`. Cancellation of `run` itself is not modelled.
- An evaluation cancelled after its commit and before it starts its follow-up task.
- Floating point: `failing / total >= QUORUM_FRACTION` is a comparison of exact fractions, `math.floor(time.time() / interval)` a division of whole seconds, and `Math.floor(n * 0.99)` one of integers.
- ISO timestamps: an inverse pair of functions. `Decimal.ParseInt` does not accept the spaces and underscores that `int()` accepts.
- JSON values other than flat objects of strings, and lone surrogates, which are not `char` values here.
- `interval_secs` of zero or less, which PATCH does not reject: rounds are stated for positive intervals.
- APScheduler itself: when triggers fire and what jitter does to the gap between two firings (the lemmas are about any gap), misfires, `coalesce`, and jobs that disappear between two calls of one reconciliation.
- The HTTP request of a probe: how it ended is a parameter, with the texts of exceptions arbitrary.
- The JSON part of `_parse_response`, prompts, the language model, alerting and the order in which alerts arrive.
- LatencyChart.BuildChartData: "HH:mm" texts are numbers in the same order, and the texts of a point's statuses are not joined with commas.
- Accounts, tokens, HTTP routes, server-sent events, React components, migrations and deployment files: input, output or thin wrappers.
