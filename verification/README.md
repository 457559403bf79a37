# Ogoune alerting engine: a Dafny model

This project models the alerting engine of the Ogoune uptime monitor and proves what it keeps over
whole runs: the per-resource incident lifecycle, the timing wheel that drives it, the two together,
the SQL migration splitter and runner, the migration drift check, the notification protocols, the
uptime aggregates and the ping limiter. `dafny verify dfyconfig.toml` checks all of it.

Each part is a module. Operations that the source performs by updating state are classes whose
methods are proved equal to functions on values; the theorems are about those functions and about
every run built from them. What comes from outside (the clock, probe results, repository failures,
crashes, the order in which Go ranges over a map) is an input, so a theorem over all inputs covers
every failure and every interleaving of atomic steps.

| file | models |
|---|---|
| `Incidents.dfy` | incident rows; create, resolve, remind |
| `CheckStep.dfy` | one check: `ProcessTask`, `handleFlapping`, flap detector |
| `Lifecycle.dfy` | runs of one resource |
| `IncidentHistory.dfy` | what becomes of each incident row |
| `SettingsEffects.dfy` | what each setting and default decides |
| `FlapRuns.dfy` | runs whose transitions are counted from their own log |
| `TimingWheel.dfy` | scheduler, bounded queue, adapter |
| `DetectionLatency.dfy` | handler and wheel together, in time |
| `SqlSplitter.dfy`, `SqlRoundTrip.dfy` | statement splitter and its round trips |
| `SqlSegments.dfy` | the splitter on quotes, comments and code |
| `SqlScanners.dfy` | the drift checker's scanner against the splitter |
| `MigrationRunner.dfy` | migration runs under interruption |
| `DriftCheck.dfy` | pairing, snapshots, comparison |
| `ComponentAlerts.dfy`, `NotificationRetry.dfy`, `HostLiveness.dfy` | notification protocols |
| `UptimeAggregates.dfy`, `DayWindows.dfy` | daily rows, ratios, reports, status page days |
| `PingLimiter.dfy` | heartbeat ping limiter |

## Where the code does less than its documentation or a reader may expect

- "Up means resolved" does not hold. A check resolves only when the stored status was exactly Down,
  so Down, Flapping, Up leaves the incident open (`FlapRuns.FlappingLeavesIncidentOpen`), as does Down,
  Error, Up (`Lifecycle.DetourLeavesIncidentOpen`), which takes a type without a strategy; the exact
  condition is `Lifecycle.UpLeavesOpenIff`, over runs `Lifecycle.OpenUntilDirectRecovery`.
- An Up result whose row cannot be stored does not reset the failure count
  (`Lifecycle.UnstoredUpIsForgotten`); confirmation is exact over recorded results
  (`Lifecycle.CreateCalledIffConfirmed`).
- The maximum flap duration ends each episode but does not bound suppression. While a resource flaps,
  only a Down result past it attempts an incident (`Lifecycle.FlappingAttemptsIff`); an Up result ends
  the episode silently and the next Down starts another. A resource that alternates so that the overdue
  check is always Up never gets an incident, exactly as `FlapRuns.AlternationNeverAttemptsIff` says; at
  the default settings a monitor checked every two minutes is one (`FlapRuns.DefaultsNeverAttempt`).
  The bound holds per episode (`Lifecycle.EpisodeBounded`), that is while no result is let through, no
  error is stored and no heartbeat recovers (`Lifecycle.SuppressionBoundedWithoutDetours`). A lasting
  outage is never suppressed once its window holds no success (`FlapRuns.OutageIsLetThrough`).
- With flap detection disabled, a non-positive effective threshold still suppresses up/down results
  (`Lifecycle.DisablingWorksIff`). A resource's own threshold is validated to be at least 2
  (internal/service/resource_validation.go:103-106), so this takes a global threshold of 0 or less.
- Reminders keep their distance only while the anchor step is stored (`Lifecycle.ReminderRepeatsIff`,
  over runs `Lifecycle.RefusedAnchorsRepeat`).
- A retry pass that stops while holding an event, or whose mark is refused, leaves it claimed for good;
  nothing releases claims (`NotificationRetry.ClaimedEventFate`, `NotificationRetry.RefusedMarkAbandons`).
- `Schedule` arms one tick later than the comment above it says; the latency bound uses the code's.
- The aggregator reads 5000 rows per resource and overwrites yesterday's correct row with a smaller
  count once more activities than that are newer (`UptimeAggregates.TruncatedRowIff`); at a
  30-second interval two days hold 5760, and 760 samples are lost
  (`UptimeAggregates.HalfMinuteChecksTruncated`).
- A repeated migration version can be skipped for good (`MigrationRunner.AlwaysAppliedIff`), and the
  shipped trees do repeat versions: both dialects hold a `.down.sql` and a `.up.sql` file for each of 0014
  to 0030, four files for 0026, and `loadMigrations` loads them all as forward migrations. An
  interruption between the two loses the up script (`MigrationRunner.ShippedUpScriptLost`).
- A failing write of a host's alert state repeats the notice that went with it; alternation holds
  exactly without such failures (`HostLiveness.NoticesAlternate`, `HostLiveness.FailedWriteRepeats`).
- A burst of component changes yields one grouped notice only if it ends in a new status
  (`ComponentAlerts.BurstYieldsOneNoticeIff`).
- The limiter admits twice its limit across a window boundary (`PingLimiter.TwiceTheLimitIsReached`).

## Model

| member | source | states |
|---|---|---|
| Incidents.PickActive | internal/monitoring/incident_service.go:398-406 | the chosen incident is unresolved, listed, and starts no earlier than any other unresolved listed one; none is chosen exactly when none is unresolved |
| Incidents.FirstOpen | internal/service/resource_heartbeat.go:53-61 | the found incident is unresolved and every one listed before it is resolved; none is found exactly when all listed are resolved |
| Incidents.IncidentService.CreateIncident | internal/monitoring/incident_service.go:111-186 | adds a row exactly when the newest row is not unresolved and listing and insert succeed; success or error in every case, including the error after the insert when the lookup of an earlier down alert fails |
| Incidents.IncidentService.FindActiveIncident | internal/monitoring/incident_service.go:358-370 | the loop picks the latest-starting unresolved incident of the ten newest |
| Incidents.IncidentService.ResolveIncident | internal/monitoring/incident_service.go:387-423 | resolves that incident and no other row; failures change nothing |
| Incidents.IncidentService.SendReminderIfDue | internal/monitoring/incident_service.go:288-356 | a reminder round is logged and re-anchored exactly when the last down alert is at least the interval old |
| Incidents.IncidentService.HandleHeartbeatRecovery | internal/service/resource_heartbeat.go:47-62 | resolves the first unresolved incident of the ten newest |
| Incidents.IncidentService.ResolveBeforeDelete | internal/service/resource_service.go:360-368 | resolves the newest unresolved incident at any depth |
| Incidents.CreateKeepsSingleOpen | internal/monitoring/incident_service.go:116-148 | looking at one row suffices: at most one open incident, the newest, and one is open afterwards exactly when one was or the insert went through |
| Incidents.ResolveKeepsSingleOpen | internal/monitoring/incident_service.go:392-423 | looking at ten rows suffices: an error-free resolve leaves none open, and resolving, heartbeat recovery and deletion then coincide |
| Incidents.RemindKeepsSingleOpen | internal/monitoring/incident_service.go:288-356 | reminders neither open nor close anything |
| IncidentHistory.CreateExact | internal/monitoring/incident_service.go:116-148 | the added row starts now, is unresolved and has had no reminder; otherwise nothing changes |
| IncidentHistory.ResolveExact | internal/monitoring/incident_service.go:417-423 | checks, heartbeats and deletion alike: without a failure the unresolved row gets the time of the resolve, its start, alert and reminders unchanged, and every other row is unchanged |
| IncidentHistory.NewestOpenCloses | internal/service/resource_heartbeat.go:47-62 | on any rows at all, a recovered heartbeat closes the newest unresolved row if it is among the ten newest, and a deletion closes it wherever it is |
| IncidentHistory.LatestStartCloses | internal/monitoring/incident_service.go:392-423 | on any rows, a resolving check closes, of the unresolved among the ten newest, the one that started last, the newer row on a tie |
| IncidentHistory.RemindExact | internal/monitoring/incident_service.go:288-356 | a reminder is logged now and, if its anchor is stored, moves the last alert exactly when the newest row is unresolved and its last alert at least the interval old; nothing else changes |
| IncidentHistory.RowAccounted | internal/monitoring/incident_service.go:116-148 | over every run each incident carries the time of the operation that opened it and, once resolved, of the operation that found it unresolved and closed it |
| IncidentHistory.ClosedForGood | internal/monitoring/incident_service.go:387-423 | over every run a resolved incident never changes again |
| IncidentHistory.ResolvedAfterStart | internal/monitoring/incident_service.go:387-423 | with a clock that does not run back no incident is resolved before it started |
| IncidentHistory.MissedOpens | internal/service/heartbeat_detector.go:64-103 | after every run a missed heartbeat touches incidents only: with its stores answering the newest incident is left unresolved, and one already unresolved is kept as it is |
| IncidentHistory.RecoveryCloses | internal/service/resource_heartbeat.go:39-65 | after every run a recovered heartbeat sets the status to up and resolves the unresolved incident now; nothing changes when the status cannot be stored |
| IncidentHistory.DeletionCloses | internal/service/resource_service.go:355-374 | after every run a deletion resolves the unresolved incident first, whether or not the deletion itself succeeds |
| IncidentHistory.GoneIff | internal/service/resource_service.go:372-374 | over every run a resource is there exactly while no deletion has succeeded |
| IncidentHistory.ActiveIff | internal/service/resource_lifecycle.go:12-58 | over every run a resource is active as the last activation change left it, and to begin with; no check, heartbeat or deletion alters it |
| IncidentHistory.ActivationOnly | internal/service/resource_lifecycle.go:12-58 | an activation change touches neither the stored columns nor any incident |
| CheckStep.MonitoringTaskHandler.LockForResource | internal/worker/handler_monitoring.go:93-104 | a resource always gets the same lock and two resources never share one |
| CheckStep.MonitoringTaskHandler.HandleFlappingTask | internal/worker/handler_monitoring.go:277-364 | the mutations of the in-memory row, the stored row and the notices in every branch, failures included |
| CheckStep.MonitoringTaskHandler.ProcessTask | internal/worker/handler_monitoring.go:107-275 | a monitoring job is one step on values: stored row, incidents and effects in order |
| CheckStep.MonitoringTaskHandler.ProcessResult | internal/worker/handler_monitoring.go:192-267 | the switch over the result, including its three ways of failing to store the row |
| CheckStep.MonitoringTaskHandler.ProcessUp | internal/worker/handler_monitoring.go:193-212 | resolve only from Down, then reset and store |
| CheckStep.MonitoringTaskHandler.ProcessDown | internal/worker/handler_monitoring.go:214-260 | count, store, confirm or create and remind |
| SettingsEffects.ThresholdDecides | internal/worker/handler_monitoring.go:282-336 | on the fields: a resource starts to flap, with a notice, exactly when the counted transitions, none with detection off, reach its own threshold or else the default |
| SettingsEffects.MaximumDecides | internal/worker/handler_monitoring.go:295-330 | on the fields: a Down result at the threshold that finds Flapping since t attempts an incident exactly when the own maximum, or else the default one, is set and over, and is suppressed until then |
| SettingsEffects.BelowThresholdSettles | internal/worker/handler_monitoring.go:348-362 | below the threshold Flapping ends with a notice, and a Down result attempts an incident at once |
| SettingsEffects.WindowDecides | internal/worker/handler_monitoring.go:291-306 | on the fields and over a counted run: Up and Down make a resource flap exactly when no further apart than its own window or else the default |
| SettingsEffects.ConfirmationDecides | internal/worker/handler_monitoring.go:173-260 | over runs of failing checks: the attempt comes from the check on that the own count names, or the first; before, the next check is asked for after the own retry interval or 30 seconds, then after the interval |
| SettingsEffects.RearmedIff | internal/worker/handler_monitoring.go:192-260 | exactly which checks ask for a next one |
| SettingsEffects.RecalculatedIff | internal/worker/handler_monitoring.go:268-273 | exactly which checks recalculate the component |
| SettingsEffects.ResultIsStored | internal/worker/handler_monitoring.go:192-266 | a result let through and stored is the new status, and ends a flap episode |
| SettingsEffects.TransitionStamp | internal/worker/handler_monitoring.go:182-184 | the time of the last transition moves exactly when a stored result differs from the status found |
| SettingsEffects.CallsIff | internal/worker/handler_monitoring.go:193-256 | exactly which checks call resolve and reminder |
| SettingsEffects.NothingHappens | internal/worker/handler_monitoring.go:124-167 | checks that do not run or cannot count transitions change nothing and call nobody |
| SettingsEffects.StableNoticeIff | internal/worker/handler_monitoring.go:348-362 | exactly which checks send the notice that flapping has ended |
| Lifecycle.SingleOpenAlways | internal/monitoring/incident_service.go:116-148 | in every reachable state at most one incident is unresolved and it is the newest, under any failures, heartbeat events and deletion |
| Lifecycle.StreakMeaning | internal/worker/handler_monitoring.go:214-237 | a count of at least j means the last j recorded results are down, or all since the one that left Flapping |
| Lifecycle.CountIsStreak | internal/worker/handler_monitoring.go:204-217 | the stored failure count is the streak of the recorded history in every run |
| Lifecycle.CreateCalledIffConfirmed | internal/worker/handler_monitoring.go:192-267 | `CreateIncident` is called if and only if the result is recorded and the last N recorded results, or all since Flapping was left, are down |
| Lifecycle.UnstoredUpIsForgotten | internal/worker/handler_monitoring.go:204-208 | counterexample: an Up that cannot be stored does not interrupt the streak |
| Lifecycle.PlainRunsExact | internal/worker/handler_monitoring.go:130-260 | in runs of up/down checks without flapping and failures, with idle and maintenance steps in between, an incident is open exactly when the status is Down with the count at the threshold |
| Lifecycle.IdleChecksLeaveNoTrace | internal/worker/handler_monitoring.go:130-167 | erasing every check that met an inactive or missing resource, maintenance or a failed probe from any run leads to the same state and recorded history |
| Lifecycle.UpLeavesOpenIff | internal/worker/handler_monitoring.go:193-205 | a check ending Up leaves an incident open exactly when one was open and the previous status was not Down or the resolve failed |
| Lifecycle.ChecksCloseOnlyFromDown | internal/worker/handler_monitoring.go:193-201 | exactly which checks close an open incident |
| Lifecycle.OpenUntilDirectRecovery | internal/worker/handler_monitoring.go:193-201 | over runs, an open incident is closed only by deletion, heartbeat recovery, or a check going straight from Down to up |
| Lifecycle.DetourLeavesIncidentOpen | internal/worker/handler_monitoring.go:195-201 | counterexample: Down, Error, Up leaves the incident open |
| Lifecycle.FlappingIsSet | internal/worker/handler_monitoring.go:323-336 | in every run Flapping implies count 0 and a set flap start |
| Lifecycle.SuppressionBounded | internal/worker/handler_monitoring.go:311-361 | in every reachable state a check leaves the resource Flapping exactly when it is suppressed, and then within the maximum duration of the latest flap start; an overdue Down check leaves Flapping and attempts an incident in the same step |
| Lifecycle.SuppressedCheckRestartsIff | internal/worker/handler_monitoring.go:323-346 | a suppressed check starts a new flap clock and sends a notice exactly when the status it finds is not Flapping |
| Lifecycle.EpisodeBounded | internal/worker/handler_monitoring.go:311-346 | over runs: while the resource has not left Flapping since a notice, checks are suppressed only within the maximum duration of that notice |
| Lifecycle.LeavesFlappingIff | internal/worker/handler_monitoring.go:192-275 | exactly which operations leave Flapping: recorded results that are not suppressed, stored error results and heartbeat recoveries |
| Lifecycle.SuppressionBoundedWithoutDetours | internal/worker/handler_monitoring.go:261-346 | over runs: with no stored error, no heartbeat recovery and no result let through since a notice, suppression ends within the maximum duration of it |
| Lifecycle.FlappingAttemptsIff | internal/worker/handler_monitoring.go:311-321 | while transitions are at the threshold, a recorded check attempts an incident if and only if it is Down and finds the resource Flapping past the maximum duration |
| Lifecycle.FlapNoticesSeparated | internal/worker/handler_monitoring.go:311-346 | between two flapping notices some operation left Flapping |
| Lifecycle.DisabledDetectionSuppressesIff | internal/monitoring/flap_detector.go:26-31 | with detection disabled, an up/down result is suppressed exactly when the effective threshold is not positive and the check does not end an overdue flap episode |
| Lifecycle.DisablingWorksIff | internal/monitoring/flap_detector.go:26-31 | over all runs nothing is ever suppressed with detection disabled if and only if the effective threshold is positive |
| Lifecycle.RemindersSpaced | internal/monitoring/incident_service.go:296-354 | in every run with stored anchors, reminder rounds of an incident are at least the interval apart, the first that long after the start |
| Lifecycle.ReminderRepeatsIff | internal/monitoring/incident_service.go:303-354 | within the interval another round is due exactly when the anchor was not stored |
| Lifecycle.RefusedAnchorsRepeat | internal/monitoring/incident_service.go:303-354 | failing runs, for all check times: while anchors are refused every failing check after the first due one sends a reminder, so two checks closer than the interval break the spacing |
| FlapRuns.CountTransitionsInWindow | internal/repository/store/monitoring_activity_repository_sqlc.go:148-184 | the loop counts changes between neighbouring outcomes in the window, and finds none exactly when the window does not hold both outcomes |
| FlapRuns.OutageIsLetThrough | internal/worker/handler_monitoring.go:306-358 | in every run with counted transitions, a failing check with no success in the window is never suppressed, and attempts an incident at once if the resource was Flapping |
| FlapRuns.AlternatingCount | internal/repository/store/monitoring_activity_repository_sqlc.go:178-184 | in an alternating run paced to flap, the count reaches the threshold exactly from the check with that number on |
| FlapRuns.AttemptIff | internal/worker/handler_monitoring.go:192-346 | check by check, an alternating run attempts an incident exactly where a two-state machine over the position does, and the handler asks for the stated next gap |
| FlapRuns.AlternationNeverAttemptsIff | internal/worker/handler_monitoring.go:306-346 | an alternating run paced to flap, with counted transitions and gaps that vary within the bounds, never attempts an incident if and only if one failure is not confirmed, the threshold is even and an episode lasts an odd number of checks |
| FlapRuns.DefaultsNeverAttempt | internal/worker/handler_monitoring.go:306-346 | failing runs at the default settings, for every number of checks: Down and Up alternating, each check up to eight seconds later than the handler asked for, with counted transitions, attempt no incident and leave none |
| FlapRuns.DefaultRunsExist | internal/worker/handler_monitoring.go:192-260 | such runs exist at every length |
| FlapRuns.FlappingLeavesIncidentOpen | internal/worker/handler_monitoring.go:193-201 | failing runs with counted transitions: after Down, a suppressed Up and an Up the status is Up and the incident still open |
| TimingWheel.TimingWheelScheduler.Start | internal/scheduler/timingwheel.go:91-136 | fresh maps and queue, each loadable item armed; refused unless stopped |
| TimingWheel.TimingWheelScheduler.Schedule | internal/scheduler/timingwheel.go:171-188 | re-arms one interval and one tick ahead and unpauses; refused for non-positive intervals |
| TimingWheel.TimingWheelScheduler.CollectDue | internal/scheduler/timingwheel.go:254-258 | exactly the due ids, each once, in some order |
| TimingWheel.TimingWheelScheduler.Tick | internal/scheduler/timingwheel.go:248-288 | dispatches the due ids in some order, re-arming those that got a slot |
| TimingWheel.RepositorySchedulerAdapter.ScheduleWithInterval | internal/scheduler/adapter.go:67-82 | guards, then the wheel's schedule |
| TimingWheel.DispatchAllEffect | internal/scheduler/timingwheel.go:262-287 | each visited id is either enqueued and re-armed or unchanged, and unchanged only if the queue ends full |
| TimingWheel.PacedWithoutLoss | internal/scheduler/timingwheel.go:91-288 | in every run each dispatch comes strictly more than its interval after the last dispatch, scheduling or load; paused ids are scheduled; jobs enqueued are those consumed then those queued, at most MaxWorkers queued |
| TimingWheel.DueUntilEnqueued | internal/scheduler/timingwheel.go:271-286 | a due id stays due with the same entry until enqueued, paused, rescheduled or removed |
| TimingWheel.RoomServesAll | internal/scheduler/timingwheel.go:262-287 | with room for every due id, each is enqueued and re-armed whatever the order |
| TimingWheel.StartLoads | internal/scheduler/timingwheel.go:91-127 | after a start an id is scheduled exactly when some listed item with it is not paused and has a positive interval, with the last such item's interval and due one interval later; nothing is paused or queued |
| TimingWheel.LoadedIsDispatched | internal/scheduler/timingwheel.go:91-288 | from a start, a so loaded id that is not disturbed is dispatched at the latest by the first tick with room more than one interval later |
| TimingWheel.DueIsDispatched | internal/scheduler/timingwheel.go:248-288 | in every run, a scheduled id that is not disturbed is dispatched at the latest by the first tick with room after its due time |
| TimingWheel.NotDispatchedWhileBlocked | internal/scheduler/timingwheel.go:190-230 | in every run, a paused or removed id, or any id once stopped, is not dispatched until it is resumed, scheduled or the scheduler started |
| TimingWheel.ScheduleArms | internal/scheduler/timingwheel.go:171-188 | scheduling arms exactly one id, unpaused, an interval and a tick ahead |
| TimingWheel.ResumeRestores | internal/scheduler/timingwheel.go:202-230 | resuming gives a paused id back the due time it had |
| TimingWheel.OthersUntouched | internal/scheduler/timingwheel.go:171-230 | operations on one id leave every other as it was |
| TimingWheel.StopClears | internal/scheduler/timingwheel.go:290-297 | stopping forgets all schedules and allows the next start |
| TimingWheel.AdapterGuards | internal/scheduler/adapter.go:67-82 | exactly the calls with an id and a positive interval are passed on |
| DetectionLatency.DetectedInTime | internal/worker/handler_monitoring.go:214-260 | an only-failing resource has an open incident that started within (N-1) times (retry interval + tick + d + w) of the first failure |
| DetectionLatency.RetryKeeps | internal/worker/handler_monitoring.go:228-234 | a failing check below the threshold re-arms so that the next finishes before its deadline |
| DetectionLatency.ThresholdOpens | internal/worker/handler_monitoring.go:236-252 | the check reaching the threshold opens the incident before its deadline |
| DetectionLatency.TickKeeps | internal/scheduler/timingwheel.go:248-288 | a tick with room keeps the next check on time |
| DetectionLatency.NextMoves | internal/scheduler/timingwheel.go:248-288 | every event sets the clock; ticks are remembered and add the check they enqueue, and finishing takes exactly one check off |
| SqlSplitter.SplitSQLStatements | internal/database/migrator.go:187-259 | the one-pass scanner with three flags returns the trimmed non-empty pieces between live semicolons |
| SqlSplitter.Advance | internal/database/migrator.go:197-241 | the three flags encode the scanner mode, and the branches consume one or two characters and cut exactly as the mode says |
| SqlSplitter.TrimUnique | internal/database/migrator.go:243-256 | trimming is determined by its meaning: blank ends dropped, trimmed core kept |
| SqlSplitter.SpaceCodePoints | internal/database/migrator.go:243 | the white space trimmed, by code point |
| SqlSegments.QuotedScan | internal/database/migrator.go:236-240 | a quote ends at the next quote, whatever is in it, or runs to the end; nothing in it is a cut |
| SqlSegments.LineScan | internal/database/migrator.go:204-210 | a line comment ends at its newline or runs to the end; nothing in it is a cut |
| SqlSegments.BlockScan | internal/database/migrator.go:211-219 | a block comment ends at its first star and slash or runs to the end; nothing in it is a cut |
| SqlSegments.CutsMeaning | internal/database/migrator.go:196-252 | for every list of code, quotes and comments given by their delimiters, the text is cut at exactly the semicolons of the code |
| SqlSegments.Segmented | internal/database/migrator.go:196-252 | every text is such a list |
| SqlSegments.SplitMeaning | internal/database/migrator.go:187-259 | the statements of every text are the pieces between the semicolons of its code, trimmed, blank ones dropped |
| SqlSegments.EndMeaning | internal/database/migrator.go:196-252 | scanning ends inside exactly the segment that is not closed |
| SqlSegments.CleanMeaning | internal/database/migrator.go:242-249 | a text has no live semicolon exactly when its code has none |
| SqlRoundTrip.PiecesExact | internal/database/migrator.go:197-252 | a list is the cut of a text if and only if no piece has a live semicolon, all but the last end outside quotes and comments, and they join to the text |
| SqlRoundTrip.SplitStatements | internal/database/migrator.go:187-259 | statements are non-empty, trimmed and free of semicolons outside quotes and comments |
| SqlRoundTrip.SplitterRoundTrip | internal/database/migrator.go:187-259 | for every text, joining with newline-semicolon-newline and splitting again gives the same list, and each statement splits to itself |
| SqlRoundTrip.BareSemicolonIff | internal/database/migrator.go:204-210 | with a bare semicolon the round trip of two statements works exactly when the first does not end in a line comment |
| SqlScanners.StripComments | cmd/migrations-drift-check/column.go:167-196 | the text without its line comments |
| SqlScanners.SplitStatements | cmd/migrations-drift-check/column.go:118-139 | the text cut at semicolons at depth zero, an empty last piece dropped |
| SqlScanners.StripKeeps | cmd/migrations-drift-check/column.go:167-196 | text without two dashes in a row is kept |
| SqlScanners.StripDrops | cmd/migrations-drift-check/column.go:167-196 | two dashes drop everything up to the end of the line, which stays |
| SqlScanners.DriftCutsMeaning | cmd/migrations-drift-check/column.go:118-139 | a semicolon is a cut exactly when as many parentheses were closed as opened before it |
| SqlScanners.AtTopMeaning | cmd/migrations-drift-check/column.go:118-139 | semicolons at the top level are those with as many parentheses closed as opened before |
| SqlScanners.SamePieces | cmd/migrations-drift-check/column.go:118-196 | with all semicolons at depth zero both scanners cut a plain text in the same places |
| SqlScanners.ScannersAgreeIff | cmd/migrations-drift-check/column.go:118-196 | on a text without quotes and block comments both tools see the same statements if and only if every semicolon outside comments is at depth zero |
| MigrationRunner.Runner.ExecuteStatements | internal/database/migrator.go:163-173 | one operation per statement that is not blank, stopping at the first failure |
| MigrationRunner.Runner.RunMigrations | internal/database/migrator.go:30-76 | the database and outcome after a run stopped at any operation |
| MigrationRunner.RunCompletesIff | internal/database/migrator.go:30-76 | a run completes exactly when not interrupted within its operations: the bootstrap's statements, record and read, and begin, statements, record and commit of each pending migration |
| MigrationRunner.RunStopsEarly | internal/database/migrator.go:39-50 | what a run interrupted in the bootstrap leaves |
| MigrationRunner.BlankPassedOver | internal/database/migrator.go:163-173 | exactly blank statements are passed over |
| MigrationRunner.SplitAllExecuted | internal/database/migrator.go:163-185 | every statement the splitter returns is executed: none is blank |
| MigrationRunner.AppliedOnceInOrder | internal/database/migrator.go:30-76 | for every list and any series of interrupted runs: migrations are applied in list order and never twice, all entries up to an applied one are recorded, every record is the bootstrap's or an applied migration's, the first entry of a recorded version is applied, and a completed run leaves every version recorded |
| MigrationRunner.AlwaysAppliedIff | internal/database/migrator.go:47-73 | in every list, a migration is applied in the end whatever was interrupted if and only if no earlier entry has its version |
| MigrationRunner.RunExtends | internal/database/migrator.go:30-76 | a run of any list, stopped anywhere, keeps the state sound, drops no record and only appends to what is applied; with distinct versions it extends the exactly recorded and applied prefix, to the whole list when it succeeds |
| MigrationRunner.CrashRecovery | internal/database/migrator.go:30-76 | after any series of interrupted runs of any list the state is sound; with distinct versions the recorded versions are a prefix of the list and exactly it is applied, each once, in order |
| MigrationRunner.CompleteIsStable | internal/database/migrator.go:52-55 | after completion a run changes nothing |
| MigrationRunner.EventuallyComplete | internal/database/migrator.go:52-73 | one uninterrupted run after any interruptions of any list records every version and applies the first entry of each; with distinct versions that is the whole list |
| MigrationRunner.DuplicateVersionLost | internal/database/migrator.go:47-55 | for every list with a repeated version some interruption makes all later runs skip the later migration |
| MigrationRunner.RecoversIffDistinct | internal/database/migrator.go:47-73 | every migration is applied in the end whatever was interrupted if and only if versions are distinct |
| MigrationRunner.VersionOf | internal/database/migrator.go:113-120 | the version of a file name is what precedes its first underscore, whatever follows |
| MigrationRunner.ShippedUpScriptLost | internal/database/migrator.go:78-120 | a bootstrap with a down and an up script of one version, as shipped, is not distinct: both run uninterrupted, and an interruption between them makes all later runs skip the up script |
| DriftCheck.BuildPairs | cmd/migrations-drift-check/pair.go:56-75 | the pairs of all prefixes of both trees in ascending order |
| DriftCheck.CheckPairs | cmd/migrations-drift-check/pair.go:78-89 | one message per unpaired prefix |
| DriftCheck.OrderedPaired | cmd/migrations-drift-check/main.go:76-84 | the definitions of the paired files, in order, per tree |
| DriftCheck.BuildSnapshot | cmd/migrations-drift-check/column.go:32-43 | the nested map of the files' definitions |
| DriftCheck.SnapshotMeaning | cmd/migrations-drift-check/column.go:97-104 | a lookup is the last definition of the column |
| DriftCheck.DiffSnapshots | cmd/migrations-drift-check/column.go:200-240 | exactly the messages that the differing (table, column) pairs call for, each once, whatever the map order |
| DriftCheck.Check | cmd/migrations-drift-check/main.go:39-74 | exit code 0 exactly when the trees are in sync; the messages are exactly those of unpaired prefixes and of columns whose last definitions disagree, each once |
| DriftCheck.NothingToReportIff | cmd/migrations-drift-check/main.go:39-74 | nothing is counted exactly when prefixes agree and the last definitions agree on every column |
| ComponentAlerts.DeriveMeaning | internal/service/component_notification.go:186-212 | down exactly when some resource is down or in error, up exactly when all are up, paused or flapping |
| ComponentAlerts.DeriveComponentStatus | internal/service/component_notification.go:186-212 | the loop computes the derived status and the impacted positions |
| ComponentAlerts.ImpactedMeaning | internal/service/component_notification.go:191-202 | the notice lists exactly the resources that are not up, paused or flapping, and nothing exactly when the component is up |
| ComponentAlerts.ImpactedInOrder | internal/service/component_notification.go:191-202 | in listing order, each once |
| ComponentAlerts.RecalculateDecides | internal/service/component_notification.go:31-60 | on the own and the configured window: skipped, deferred with a new and only timer, or notified at once |
| ComponentAlerts.ComponentService.RecalculateAndNotify | internal/service/component_notification.go:18-61 | skip, replace the timer, or dispatch, by the effective window |
| ComponentAlerts.ComponentService.DispatchComponentAlertImmediate | internal/service/component_notification.go:75-114 | a notice and a new last status exactly when the status differs |
| ComponentAlerts.ComponentService.TimerFires | internal/service/component_notification.go:51-54 | a running timer leaves the table and dispatches |
| ComponentAlerts.AlertsConverge | internal/service/component_notification.go:18-114 | in every run one live timer per component, no repeated notice, and no outstanding work means the last notified status is the current one |
| ComponentAlerts.BurstYieldsOneNoticeIff | internal/service/component_notification.go:45-57 | a burst and its timer yield one notice exactly when the final status is new, none otherwise |
| NotificationRetry.PendingNotificationRetryService.ClaimPending | internal/repository/store/notification_repository_sqlc.go:226-267 | test-and-set on pending, unclaimed events |
| NotificationRetry.PendingNotificationRetryService.FinishClaimed | internal/service/pending_notification_retry_service.go:104-165 | the mark and the counter of a claimed event in every branch |
| NotificationRetry.PendingNotificationRetryService.RetryPendingNotifications | internal/service/pending_notification_retry_service.go:69-176 | an undisturbed pass is the iteration of claim and finish over the listed events |
| NotificationRetry.RetriesAreSafe | internal/service/pending_notification_retry_service.go:89-166 | however passes interleave and stop, each event is claimed by at most one pass and marked at most once |
| NotificationRetry.SummaryComplete | internal/service/pending_notification_retry_service.go:80-175 | counted entries, nil entries and refused claims and marks add up to the entries gone over; a finished pass counts all of its entries if and only if none was nil and the repository refused none of its claims and marks |
| NotificationRetry.ClaimedEventFate | internal/service/pending_notification_retry_service.go:89-166 | over every interleaving a claimed event is marked, once, exactly when its one handler finished it and the mark was accepted; otherwise it is pending, claimed and not claimable |
| NotificationRetry.RefusedMarkAbandons | internal/service/pending_notification_retry_service.go:104-166 | after a refused mark the event never changes again, whatever passes follow |
| NotificationRetry.MarkedOnce | internal/service/pending_notification_retry_service.go:104-166 | over every interleaving an event marked by one step is marked by no later one, and counts one mark |
| NotificationRetry.MarkedRight | internal/service/pending_notification_retry_service.go:104-166 | over every interleaving a marked event is expired exactly if created before its handler's cutoff, sent exactly if not, a down or up alert, and its incident, channels and dispatch succeeded in the finishing step, failed otherwise; its claim is released |
| NotificationRetry.CountersAreMarks | internal/service/pending_notification_retry_service.go:104-176 | every pass's retried, expired and failed counters are the numbers of events it marked sent, expired and failed |
| NotificationRetry.ClaimDecides | internal/service/pending_notification_retry_service.go:80-102 | exactly which events a claim step takes, skips or passes over |
| NotificationRetry.PassSettlesAll | internal/service/pending_notification_retry_service.go:69-176 | without refused calls an undisturbed pass leaves no listed, unclaimed event pending |
| NotificationRetry.PassOrigin | internal/service/pending_notification_retry_service.go:69-88 | a pass keeps the entries and cutoff it began with |
| NotificationRetry.IterationIsTwoSteps | internal/service/pending_notification_retry_service.go:89-166 | a loop iteration is the claim step followed by the finish step of the interleaved system |
| HostLiveness.StateMatchesRun | internal/service/host_liveness_service.go:109-147 | with durable writes the stored state is determined by the run of processed offline observations |
| HostLiveness.SinceIsFirst | internal/service/host_liveness_service.go:131-142 | the stored offline state keeps the time of the first offline observation of the run |
| HostLiveness.FreshnessDecides | internal/domain/models.go:898-903 | a host is seen offline exactly when it has reported and its last report is older than the freshness |
| HostLiveness.ReachedMeaning | internal/service/host_liveness_service.go:78-99 | a scan reaches every host or stops at the first page that cannot be listed |
| HostLiveness.NoticeIff | internal/service/host_liveness_service.go:119-146 | an offline notice at the second processed offline observation in a row and no other; a recovery at the first online one after at least two |
| HostLiveness.NoticesAlternate | internal/service/host_liveness_service.go:109-159 | in every run, whatever fails, decided notices strictly alternate starting with offline if and only if the write that went with each of them but the last was stored |
| HostLiveness.NoticesChained | internal/service/host_liveness_service.go:109-159 | in every run each notice is the opposite of the one before it if that one's write was stored, and the same again if not |
| HostLiveness.OnlyCrashesLose | internal/service/host_liveness_service.go:119-146 | without a crash after the write, every decided notice is emitted |
| HostLiveness.FailedWriteRepeats | internal/service/host_liveness_service.go:138-142 | failing runs: for every n, n offline observations whose write fails repeat the notice n times and leave the state as it was |
| HostLiveness.HostLivenessService.ReconcileHost | internal/service/host_liveness_service.go:109-159 | state and feed after evaluating one host |
| HostLiveness.HostLivenessService.Detect | internal/service/host_liveness_service.go:74-105 | the paging loop evaluates every host once in order, up to the first page that cannot be listed |
| HostLiveness.ScanIsPerHost | internal/service/host_liveness_service.go:84-95 | a scan changes the state of each host and emits its notices as its own one evaluation decides, whatever the other hosts |
| UptimeAggregates.UptimeAggregator.Recompute | internal/service/uptime_aggregator.go:62-111 | the counting loop writes the page's count, or nothing for a day without samples |
| UptimeAggregates.UptimeAggregator.RunOnce | internal/service/uptime_aggregator.go:43-60 | yesterday and today for every listed resource |
| UptimeAggregates.RecountMeaning | internal/service/uptime_aggregator.go:74-91 | a count is the number of logged checks of the span outside maintenance, by outcome |
| UptimeAggregates.PageExactIff | internal/service/uptime_aggregator.go:66-91 | the page gives the day's count exactly when no counted sample of the day lies beyond it |
| UptimeAggregates.RowsMatchLog | internal/service/uptime_aggregator.go:43-111 | while the log fits, a run leaves the rows of today and yesterday equal to a direct recount |
| UptimeAggregates.TruncatedRowIff | internal/service/uptime_aggregator.go:69-111 | recomputing a day leaves the table alone if the page holds none of its samples; otherwise its row is right exactly when no sample of the day lies beyond the page, and a wrong row counts too few |
| UptimeAggregates.BusyDaysTruncated | internal/service/uptime_aggregator.go:43-111 | failing inputs: when two days overflow the page and today alone does not fill it, a run replaces yesterday's row, whatever it was, by one without the samples beyond the page |
| UptimeAggregates.HalfMinuteChecksTruncated | internal/service/uptime_aggregator.go:66-69 | with a check every thirty seconds yesterday's row ends with 2120 of its 2880 samples |
| UptimeAggregates.RunIdempotent | internal/service/uptime_aggregator.go:16-19 | running again changes nothing |
| UptimeAggregates.ClosedDayStaysExact | internal/service/uptime_aggregator.go:66-69 | an exact row of a past day stays exact as the log grows |
| UptimeAggregates.Uptime30dFromAgg | internal/service/monitoring_activity_service.go:172-184 | the ratio of the summed rows, none without samples |
| UptimeAggregates.WindowMatchesLog | internal/service/monitoring_activity_service.go:166-184 | exact daily rows sum to a count of the raw log over the window |
| UptimeAggregates.SeriesIsExact | internal/service/uptime_aggregator.go:43-111 | after any series of runs over a growing log with at least one run on every day, while the log fits, all rows since the day before the first run are exact and there are no others |
| UptimeAggregates.SeriesMatchesLog | internal/service/monitoring_activity_service.go:162-184 | after such a series the rows of any window, so of the last thirty days, sum to a direct recount of the raw log |
| UptimeAggregates.GroupRows | internal/service/report_aggregation.go:30-40 | the per-resource groups are the flat sums of their rows |
| UptimeAggregates.AddGroup | internal/service/report_aggregation.go:43-47 | visiting one more resource adds exactly its group |
| UptimeAggregates.SortedByName | internal/service/report_aggregation.go:58 | the sorted lines are ordered by name and a permutation |
| UptimeAggregates.LeqMeaning | internal/service/report_aggregation.go:58 | the order of names is lexicographic |
| UptimeAggregates.LineMeaning | internal/service/report_aggregation.go:43-57 | a line has its resource's name, incidents, and the share of ups among all counted samples of its rows |
| UptimeAggregates.KnownMeaning | internal/service/report_aggregation.go:23-28 | the last entry listed for an id decides its name and interval |
| UptimeAggregates.AggregatePeriod | internal/service/report_aggregation.go:18-64 | totals are flat sums over all rows in any map order; the breakdown has one line per resource, with its name, percentage and incident count, ordered by name |
| UptimeAggregates.ReportMatchesLogs | internal/service/report_service.go:208-227 | after a series of runs with one on every day, the totals the report computes from the stored rows are sums of direct recounts of the raw logs |
| DayWindows.ExactlyOneWindow | internal/service/statuspage_analytics.go:34-36 | every moment of the period lies in exactly one day |
| DayWindows.OverlapBounds | internal/service/statuspage_analytics.go:122-135 | an overlap is between zero and the length of the day |
| DayWindows.OverlapsAddUp | internal/service/statuspage_analytics.go:113-143 | daily overlaps add up to the overlap with the period |
| DayWindows.ClassifyDayIncidents | internal/service/statuspage_analytics.go:113-143 | the flags say whether some touching incident takes more than half, or at most half, of the day |
| DayWindows.ActivitiesInWindow | internal/service/statuspage_analytics.go:145-153 | the activities of the window in order |
| DayWindows.CalculateDayStatus | internal/service/statuspage_analytics.go:85-111 | the day's status from incidents and success rate |
| DayWindows.StatusMeaning | internal/service/statuspage_analytics.go:85-143 | down exactly when an incident is open for more than half the day or fewer than half of its checks succeeded; up exactly when none is open during it and at least 95 percent succeeded |
| DayWindows.KeptClassification | internal/service/statuspage_analytics.go:58-68 | the incident filter never changes the class of a day of the period |
| DayWindows.CalcUptimePercentage | internal/service/statuspage_analytics.go:70-82 | the share of successes, between 0 and 100, and 100 exactly when no activity failed |
| DayWindows.Calculate90DayData | internal/service/statuspage_analytics.go:22-45 | no data exactly for days before the resource existed; filtering first changes no other day, and the percentage is that of the activities since the start of the period |
| DayWindows.SortEventsDescending | internal/service/statuspage_analytics.go:302-310 | the in-place exchange sort: descending, and a permutation |
| PingLimiter.PingRateLimiter.Allow | internal/api/handler/ping_rate_limiter.go:29-46 | answer and new counters |
| PingLimiter.AllowedIff | internal/api/handler/ping_rate_limiter.go:33-45 | with a clock that does not run back a call is accepted exactly when fewer than max of its key were accepted in its aligned window |
| PingLimiter.NeighbouringWindows | internal/api/handler/ping_rate_limiter.go:33 | moments less than a period apart are in the same or neighbouring windows, before and after the epoch |
| PingLimiter.SlidingBound | internal/api/handler/ping_rate_limiter.go:29-46 | any half-open interval of one period accepts at most twice max per key |
| PingLimiter.KeysIndependent | internal/api/handler/ping_rate_limiter.go:34-44 | a key's counter is what its own calls alone produce |
| PingLimiter.TwiceTheLimitIsReached | internal/api/handler/ping_rate_limiter.go:33-38 | the factor two is attained for every limit and period |
| PingLimiter.ClockRunningBackForgets | internal/api/handler/ping_rate_limiter.go:35-38 | a clock running back forgets accepted calls |

## Left out

Assumptions that stand for code outside the model:

- Checks, ticks, calls and timer firings are atomic and read the clock once; the per-resource lock
  and the wheel's mutex justify most of this, but a tick in Go drops its lock between lookup and re-arm.
- The heartbeat detector and heartbeat recovery do not take the per-resource lock; runs here are serialized.
- Incident listings are newest first in creation order, as `ORDER BY started_at DESC` gives for
  distinct start times.
- The number of transitions is an arbitrary natural number or a failure; in `FlapRuns.dfy` it is the one
  counted from the run's own log, all of whose activities are stored. The hand-written runs in
  `Lifecycle.dfy` have counts below the default threshold.
- Transactions are atomic and the bootstrap migration is idempotent.

What the repository does and the model does not:

- HTTP handlers, configuration loading, authentication and the front end.
- Probes, SMTP and webhook transport; sending is a success or failure input, and partial delivery to
  several channels is not modelled.
- Notification events and event steps written inside `CreateIncident` and `ResolveIncident`, other than
  the down-alert time that reminders use; they are not claimed, so a retry pass can also deliver them.
- Messages, causes, diagnostics and ICMP enrichment.
- Listing and sorting migration files in `loadMigrations`; the theorems hold for any fixed list. The sort
  leaves the order of equal versions open.
- The drift check's file listing, which passes over `.up.sql` and `.down.sql` names, so files from 0014
  on are not compared.
- The regular expressions of the drift check's `scanFile`, `splitTopLevel` and line numbers; a file is
  its list of column definitions.
- Bytes: the scanners work on characters, which for the ASCII characters they look at is the same.
- Start-up and shutdown goroutines of the wheel, its notification queue, the Asynq variant.
- Deletion and automatic clean-up of components; repository failures in component alerts.
- Failures of the aggregator's repositories, which end a run early; calendar and time-zone arithmetic.
- Floating-point rounding: ratios and rates are exact. The order of report lines with equal names.
- Response-time summaries and human-readable durations of the status page.
