# monitoring-agent: a verified model of the agent's state machines

This project models the pure and near-pure parts of the monitoring agent in Dafny 4.11 and proves
what they promise over every input and every run. `dafny verify dfyconfig.toml` checks it.

- **Alerts** (`Alerts`, `AlertHistory`, `AlertManagers`, `AlertRuns`): a rule's Clear, Pending and
  Active states over measured, carried and unavailable readings; the manager that owns every rule's
  state and mints incident numbers. `AlertHistory` says what a rule's state is as a statement about
  its whole history of ticks, with no running state, and proves the incremental code computes it
  whatever the wall clock does. `AlertRuns` covers every interleaving of evaluations and rule
  replacements.
- **Timestamps** (`Calendar`, `Decimal`): `unix_to_iso8601`, against a closed form over the Gregorian
  calendar and a parser that reads its text back.
- **Sourcing** (`Capacity`, `Sourcing`): where each reading group comes from on a tick, what is
  carried for how long, and what is warned of.
- **The collector** (`Collector`, `EndToEnd`): publishing, recording and rebuilding; and the theorem
  that spans sourcing, the published snapshot and the alert rules on two clocks.
- **The id file** (`AgentIds`, `IdFile`): any number of agents creating one file through interleaved
  file-system steps, each of which may fail, with a crash allowed anywhere.
- **Mail** (`MailBatch`, `MailClient`, `Outbox`, `Seal`): the batch, when a report is due, the outbox and
  its delivery loop, the sealed layout and its armour.
- **Delivery** (`Push`): which of the collector's snapshots a push tick owes the hub, across panics,
  rebuilds, failed sends and reconnects.
- **Rates and cgroups** (`Rates`, `CgroupPath`, `Mountinfo`, `Text`): rates that survive resets, path
  algebra, the mountinfo escapes and the cpuset list.

Conventions. Instants on the monotonic clock are whole nanoseconds, wall-clock times whole seconds.
`f32` and `f64` values are reals, a non-finite one being absent. Machine integers are unbounded,
except where the parsers' 64-bit limits decide. I/O, clocks, randomness and the cipher enter as
parameters or as the outcome carried by an event. Objects whose methods update their fields are
classes; each method is tied to a function of the old state, and the properties are proved of runs
of those functions.

Where the code and its documentation differ:

- src/mail/batch.rs:106-108 notes the active alerts once each per report. A report never lists one
  twice (`MailBatch.NotedOnceEach`), but past 64 it need not list them all: one still active can be put
  out by a newer one (`MailBatch.ActiveIncidentCanLeave`). It misses none exactly when at most 64 distinct
  incidents were active since the last report (`MailBatch.ReportMissesNoneIff`).
- src/push/mod.rs:286-287 marks a snapshot sent. One that cannot be encoded is marked too.

Where it rests on a library: the kernel's memory figures are sysinfo's, which defines used as the
total less what is available (rfcs/0014-execution-environment.md:435-436). `Sourcing.SysinfoMemory`
says so, and is required only where a property speaks of a group read from the kernel.

## Model

| member | source | states |
|---|---|---|
| `Alerts.LargestUsage` | src/alerts.rs:366-369 | with no mount point a disk rule reads the fullest disk, never below 0 |
| `Alerts.MaxUsage` | src/alerts.rs:366-369 | the fold over an unordered map finds that value in any order |
| `Alerts.ReadValue` | src/alerts.rs:358-373 | each metric is read from its own field, a disk rule from its own mount or the fullest, a missing mount as 0 |
| `Alerts.RuleSeesItsMetricOnly` | src/alerts.rs:357-387 | a rule depends on its own metric and mount, and on the cores only behind an automatic load threshold |
| `Alerts.AutomaticThreshold` | src/alerts.rs:376-387 | a load rule at 0 is the rule naming the number of cores; every other rule is held to the threshold it names |
| `Alerts.IncidentSequence.Mint` | src/alerts.rs:131-139 | the next number of the run, counted from 1 |
| `Alerts.Advance` | src/alerts.rs:167-212 | the breach after one measured tick, minting a number exactly when an incident activates |
| `Alerts.RuleState.Measure` | src/alerts.rs:286-304 | a measured tick's new state, minted count and report, the last notification first moved back to a clock that stepped back |
| `Alerts.RuleState.TakeNotification` | src/alerts.rs:308-317 | due exactly when never notified or the cooldown is over, and then this tick becomes the last notification |
| `Alerts.RuleState.Tick` | src/alerts.rs:256-283 | a tick's whole effect on the rule and the count: measured, carried (stands, quiet) or unavailable (cleared, cooldown kept) |
| `AlertHistory.StateMatchesHistory` | src/alerts.rs:163-212 | for every history and any clock steps, the incremental breach is the one the history describes: run, least clock reading, first firing tick, last measured value |
| `AlertHistory.HistoryFixesState` | src/alerts.rs:163-212 | that description fits one breach only |
| `AlertHistory.ActiveIffFired` | src/alerts.rs:193-212 | an incident is active exactly when some tick of the current run was a duration past the run's least clock reading |
| `AlertHistory.LastMatchesHistory` | src/alerts.rs:286-317 | the stored last notification is the least measured clock reading since the last tick that notified, across incidents |
| `AlertHistory.NotifiesIff` | src/alerts.rs:286-317 | exactly when a tick notifies: measured, active, and never before or a cooldown past the least measured reading since the last notification |
| `AlertHistory.NotificationsApart` | src/alerts.rs:308-317 | on a clock that never steps back, any two notifications of a rule are a cooldown apart, across incidents, carried and unavailable ticks |
| `AlertHistory.QuietOnlyInsideCooldown` | src/alerts.rs:308-317 | and none is withheld longer |
| `AlertManagers.AlertManager.constructor` | src/alerts.rs:398-405 | a new manager: its rules, nothing active, no number minted |
| `AlertManagers.AlertManager.ReplaceRules` | src/alerts.rs:417-421 | new rules, every state and alert gone, the count kept |
| `AlertManagers.AlertManager.Entry` | src/alerts.rs:514 | a rule's state is created on its first tick and found again after |
| `AlertManagers.AlertManager.TickRule` | src/alerts.rs:514-522 | one rule's tick changes that rule's state and the count, and no other rule |
| `AlertManagers.AlertManager.Evaluate` | src/alerts.rs:503-526 | the whole new manager and the notified alerts, over a heap of rule states |
| `AlertManagers.EvaluateKeepsSound` | src/alerts.rs:503-526 | an evaluation keeps numbers apart and lists exactly the open incidents; each incident open after it was open before or is newly minted, and every number minted is open |
| `AlertManagers.StepTakesTurn` | src/alerts.rs:167-212 | a tick keeps an incident, closes it, or opens the next number, and reports exactly the open one |
| `AlertRuns.RunsAreSound` | src/alerts.rs:397-526 | what every step keeps, on every run of evaluations and replacements |
| `AlertRuns.RulesAreTheLastReplacements` | src/alerts.rs:417-421 | the rules in force on any run are those of the last replacement, else those it started with |
| `AlertRuns.OneIncidentPerNumber` | src/alerts.rs:124-139 | a number open at two points of a run is one rule of one rule set, with one activation time, open at every point between |
| `AlertRuns.MintedCountsActivations` | src/alerts.rs:131-139 | the numbers ever open are exactly 1 to the count: one activation each |
| `AlertRuns.ActiveIdsAreOpen` | src/alerts.rs:503-526 | the alerts listed as active are the open incidents, each id once |
| `AlertRuns.ActiveAlertsShowIncidents` | src/alerts.rs:215-231 | an alert is listed exactly when some rule's open incident has its number, activation time, last measured value and rule |
| `AlertRuns.ActiveIdsUnbroken` | src/alerts.rs:411-421 | an id listed at two points of a run is listed at every point between |
| `AlertRuns.RuleFollowsItsHistory` | src/alerts.rs:503-526 | inside any run of the manager each rule's state is the one its own ticks describe |
| `AlertRuns.RuleReportsByItsHistory` | src/alerts.rs:515-522 | and each report is the one its own ticks give |
| `AlertRuns.NotifiedInRuleOrder` | src/alerts.rs:515-522 | an evaluation returns the notified alerts in rule order, one for each enabled rule that notifies, and no other |
| `AlertRuns.NotifiedByRules` | src/alerts.rs:515-522 | an alert is among those returned exactly when an enabled rule notifies it |
| `AlertRuns.WireIdsNeverMeet` | src/alerts.rs:112-121 | ids as text differ whenever the run or the number does |
| `Calendar.YearOf` | src/alerts.rs:591-600 | the year walk ends inside a year, on the closed form's day |
| `Calendar.MonthOf` | src/alerts.rs:601-613 | the month walk always stops, inside a month, on the same day |
| `Calendar.UnixToStamp` | src/alerts.rs:585-614 | the fields are a real date and time that the closed form maps back to the same second |
| `Calendar.SecondsOrderStamps` | src/alerts.rs:585-614 | dates are ordered field by field exactly as their seconds, so the walk's answer is the only one and strictly increases |
| `Calendar.UnixToIso8601` | src/alerts.rs:615-619 | the text parses back to a real date of that very second |
| `Calendar.TextRoundTrip` | src/alerts.rs:615-619 | every timestamp's text reads back to its fields, years past 9999 included |
| `Calendar.TextOrdersSeconds` | src/alerts.rs:615-619 | up to the year 9999 later seconds have the later text |
| `Calendar.TextStopsSortingAfter9999` | src/alerts.rs:615-619 | one second later it does not: the text of 10000 sorts first |
| `Capacity.TightestIsLeast` | src/environment/cgroup.rs:463-472 | unbounded exactly when every limit is, else the least bounded one |
| `Capacity.MemoryCapacityIsLeast` | src/environment/cgroup.rs:476-481 | the least of the host amount and every bounded level |
| `Capacity.LevelOrderIsIrrelevant` | src/environment/cgroup.rs:463-481 | whatever order, and however often, the levels list the limits |
| `Capacity.CpuCapacityIsLeast` | src/environment/cgroup.rs:447-460 | the least of the host's CPUs, every bounded quota and the cpuset |
| `Sourcing.HistoryMatchesTicks` | src/environment/sourcing.rs:360-436 | a group's stored history is what its ticks so far say |
| `Sourcing.OriginByHistory` | src/environment/sourcing.rs:360-436 | kernel exactly until the first success, cgroup on a success, carried or unavailable by the failing streak; the value is the last success's |
| `Sourcing.CarriedIffWithinBound` | src/environment/sourcing.rs:402-436 | on the monotonic clock, carried exactly while at most 30 s past the streak's first failure |
| `Sourcing.WarningByHistory` | src/environment/sourcing.rs:360-436 | exactly which tick warns, and of what |
| `Sourcing.FallbackWarnsOnce` | src/environment/sourcing.rs:394-397 | the fallback to the kernel is warned of once in a group's life |
| `Sourcing.StreakWarnsOnce` | src/environment/sourcing.rs:402-420 | each failing streak warns that it carries on its first tick only, and at most once that it expired |
| `Sourcing.ChoiceByGroup` | src/environment/sourcing.rs:262-302 | a run of whole ticks is three independent runs, one for each group |
| `Sourcing.WarnedIff` | src/environment/sourcing.rs:281-291 | a tick warns of a group exactly when that group's own history does |
| `Sourcing.CpuUsageIsAShare` | src/environment/usage.rs:69-77 | a usage exists exactly past half a second with no counter going back, is used time over wall time times CPUs, and is held to 100 |
| `Sourcing.CgroupCpuIsAShare` | src/environment/sourcing.rs:318-332 | every cgroup CPU group of a run, carried ones included, shows the least of the host's CPUs, quotas and cpuset of its tick, and the CPU time used since the reading before as a percentage of that capacity |
| `Sourcing.AttemptsByFiles` | src/environment/sourcing.rs:264-315 | a tick attempts each group as its own files say: none offered, failed, no delta, or read |
| `Sourcing.FallbackWarnedIff` | src/environment/sourcing.rs:394-397 | a tick warns of a group's fallback to the kernel exactly when it is the first to offer the group a file and fails it: never on a host without that controller |
| `Sourcing.MemoryGroupMeans` | src/environment/sourcing.rs:333-345 | for every reading: the total is the least amount allowed; the working set is used, or all of it; the rest is available; what is not held is free; the limit is the tightest level's |
| `Sourcing.SwapGroupMeans` | src/environment/sourcing.rs:347-357 | the same of swap: what is held is used, or all of it, and the rest free |
| `Sourcing.CgroupMemoryAddsUp` | src/environment/sourcing.rs:335-345 | every cgroup memory group of a run, carried and expired ones included, adds up, over the least amount of the tick it was read on |
| `Sourcing.CgroupSwapAddsUp` | src/environment/sourcing.rs:348-357 | and every swap group |
| `Sourcing.UsedAndAvailableAddUp` | src/environment/sourcing.rs:48-57 | with the kernel column as sysinfo states it, used and available add up to the total on every tick of every run, whatever the origin |
| `Sourcing.FreeWithinAvailableIff` | rfcs/0014-execution-environment.md:435-440 | what is free is within what is available exactly unless no tick has yet read the cgroup and this tick's kernel figures say otherwise |
| `Sourcing.KernelFreeMayExceedAvailable` | rfcs/0014-execution-environment.md:435-440 | a host of 10, with 7 used and 3 available, yet 5 free |
| `Collector.BackgroundCollector.Record` | src/collectors/mod.rs:201-222 | a snapshot's readings are evaluated at its own time |
| `Collector.BackgroundCollector.constructor` | src/collectors/mod.rs:88-93 | the startup snapshot is published as number 0 and recorded |
| `Collector.BackgroundCollector.Publish` | src/collectors/mod.rs:193-198 | published under the next number, and recorded |
| `Collector.BackgroundCollector.Turn` | src/collectors/mod.rs:94-120 | one turn of the loop: a sample moves the history and publishes; an early read, a panic, a rebuild or a failed one leaves both |
| `Collector.RuleMeasuresItsShare` | src/collectors/mod.rs:225-258 | a memory or swap rule measures the used share of its own group's total, held at 100 past it and 0 of nothing |
| `EndToEnd.PublishedByTheSamples` | src/collectors/mod.rs:78-121 | on every run the history and the published groups are those of the published samples alone, numbered consecutively from 0 |
| `EndToEnd.ManagerByItsEvents` | src/collectors/mod.rs:201-222 | the collector's alert manager is a run of the alert manager |
| `EndToEnd.RulesAreTheLastGiven` | src/collectors/mod.rs:201-222 | the rules the collector evaluates are the last ones given, in whatever slot they came |
| `EndToEnd.PublishesUnlessBroken` | src/collectors/mod.rs:94-176 | the slot is broken exactly between a panic not rebuilt and the retry that rebuilds it, and a sample is published exactly when it is not |
| `EndToEnd.OriginIgnoresValues` | src/environment/sourcing.rs:360-436 | where a group comes from never depends on its values |
| `EndToEnd.ReadingByOrigin` | src/collectors/mod.rs:225-258 | a rule sees a carried group as carried, an unavailable one as unavailable, and measures only one that was read |
| `EndToEnd.NeverBackToTheKernel` | src/environment/sourcing.rs:192-194 | once a group was read from the cgroup no rule ever evaluates the kernel's value of it, on any run |
| `EndToEnd.OutageIsCarried` | src/environment/sourcing.rs:402-420 | every sample published in an outage of at most 30 monotonic seconds carries the group |
| `EndToEnd.CarriedRulesStandStill` | src/alerts.rs:273-276 | while a group is carried its rules keep incident, value, breach start and cooldown, and notify nothing |
| `EndToEnd.OutagePastTheBoundEndsIncidents` | src/alerts.rs:278-281 | the first sample past the bound clears every rule on the group, keeping its cooldown |
| `EndToEnd.LaterIncidentsAreLarger` | src/alerts.rs:131-139 | what a clear rule opens later is numbered past every earlier incident |
| `EndToEnd.OutageEndToEnd` | src/collectors/mod.rs:193-258 | all of it in one run: an incident survives the outage unchanged, ends with it, and its successor's number is strictly larger |
| `AgentIds.Utf8Concat` | src/push/identity.rs:229-232 | well-formed UTF-8 stays so when a line end is added |
| `AgentIds.AcceptedIdsAreStable` | src/push/identity.rs:43-56 | an accepted id is 1 to 255 bytes, and is accepted unchanged again |
| `AgentIds.AcceptedIff` | src/push/identity.rs:43-56 | a text gives an id exactly when it is that id between white space and keeps the rule: 1 to 255 bytes, no dot segment |
| `AgentIds.RefusedFor` | src/push/identity.rs:46-54 | which refusal is for what: white space alone, a dot segment, or more than 255 bytes between white space |
| `AgentIds.IdFileRoundTrip` | src/push/identity.rs:229-232 | the line written for an id reads back as that id |
| `AgentIds.IdFileParsesAs` | src/push/identity.rs:229-232 | which bytes give an id, which are not UTF-8, and which break a rule |
| `IdFile.StepKeepsSound` | src/push/identity.rs:253-301 | one step of one agent keeps every agent sound, and an id file once there stays as it is |
| `IdFile.RunsAreSound` | src/push/identity.rs:189-301 | and so under every interleaving, fault and crash |
| `IdFile.NeverTorn` | src/push/identity.rs:283-294 | the id file holds what it held at first, or one agent's whole line, and parses to that agent's id |
| `IdFile.NeverChanges` | src/push/identity.rs:251-263 | once there it never changes |
| `IdFile.SuccessIsTheFilesId` | src/push/identity.rs:266-273 | every agent that succeeds holds the id the file parses to, then and ever after |
| `IdFile.Agreement` | src/push/identity.rs:189-211 | any two agents that succeed hold one id |
| `IdFile.AtMostOneWrites` | src/push/identity.rs:266-270 | at most one agent reports it wrote the file, and none over one already there |
| `IdFile.NoTempLeftBehind` | src/push/identity.rs:265 | an agent that returned left no temp file, unless an unlink of its own failed |
| `IdFile.WrittenIffItsFile` | src/push/identity.rs:266-270 | an agent that returned says it wrote the file exactly when the file is its own |
| `IdFile.ExistingFileDecides` | src/push/identity.rs:189-225 | over a file already there an agent holds its id, is refused for what it holds, or for a failed read of its own |
| `IdFile.LeftAloneReturns` | src/push/identity.rs:189-301 | from any point of any run, an agent left alone with nothing failing returns within seven steps, its temp file gone, with an id unless a step of its own had failed: it waits for no other agent |
| `IdFile.FirstAloneWrites` | src/push/identity.rs:253-270 | the first agent there, left alone, writes its own id and says so |
| `IdFile.OnlyFaultsRefuse` | src/push/identity.rs:296-301 | with the file missing at first, no agent is refused over what the file holds |
| `IdFile.RefusedIffFaulted` | src/push/identity.rs:253-320 | with the file missing at first, an agent that returned was refused exactly when a step of its own failed, and for that failure: losing the race is no reason |
| `MailBatch.MailBatch.Offer` | src/mail/batch.rs:91-104 | kept exactly when a sample interval has passed, the oldest leaving past 60 |
| `MailBatch.MailBatch.NoteAlerts` | src/mail/batch.rs:108-121 | true exactly when some id is new to the batch; the noted list and active ids after |
| `MailBatch.MailBatch.Close` | src/mail/batch.rs:125-149 | the report and the emptied batch, or nothing when no sample was kept |
| `MailBatch.BatchHoldsTheLatest` | src/mail/batch.rs:91-104 | the batch is the latest 60 of all samples kept since the last report, in order |
| `MailBatch.KeptSamplesApart` | src/mail/batch.rs:91-97 | any two kept samples are a sample interval apart, across reports |
| `MailBatch.SkippedOnlyWithinInterval` | src/mail/batch.rs:91-97 | a sample turned away came within an interval of a kept one |
| `MailBatch.IntervalFitsIff` | src/mail/batch.rs:46-53 | an interval is accepted exactly when 60 of it cover the mail interval, within its range |
| `MailBatch.SpanKeepsAtMost60` | src/mail/batch.rs:36-54 | so a half-open span no longer than the mail interval keeps at most 60 samples |
| `MailBatch.SpanLosesNone` | src/mail/batch.rs:45-54 | and a batch whose offers since the last close span no more than that holds every sample kept, in order |
| `MailBatch.ReportsAreNumbered` | src/mail/batch.rs:125-149 | reports are numbered 1, 2, 3 and on, each with a sample |
| `MailBatch.FirstSeenIsActiveSince` | src/mail/batch.rs:111-119 | first-seen order lists exactly the ids active since the last report, each once |
| `MailBatch.NotedBelowCap` | src/mail/batch.rs:111-119 | with at most 64 of them the noted alerts are exactly those, in that order, each as first seen |
| `MailBatch.ReportMissesNoneIff` | src/mail/batch.rs:111-119 | a report misses no incident exactly when at most 64 distinct ones were active |
| `MailBatch.NotedOnceEach` | src/mail/batch.rs:106-119 | at any number of incidents a report lists none of them twice |
| `MailBatch.ActiveIncidentCanLeave` | src/mail/batch.rs:111-119 | three notes by which an incident still active leaves the noted 64, and comes back last |
| `MailBatch.ReportCarries` | src/mail/batch.rs:125-149 | a close reports exactly when a sample was kept, and the report carries the latest 60 kept since the last, no incident twice, and with at most 64 active exactly those, in first-seen order and as first seen |
| `MailBatch.ActiveIsLastNoted` | src/mail/batch.rs:109-110 | what the batch takes for active is what the last note listed, across reports |
| `MailBatch.NewAtMostOnce` | src/mail/batch.rs:109-110 | an unbroken incident is new to the batch at most once, across every report |
| `MailBatch.EachIncidentIsNewExactlyOnce` | src/mail/client.rs:267-273 | sampled at any points of any run of the alert manager, each incident sampled is new to the batch on exactly one note |
| `MailClient.IncidentPace.Allows` | src/mail/batch.rs:160-168 | allowed exactly a minute or more past the last allowed, which it then becomes |
| `MailClient.Client.Due` | src/mail/client.rs:278-289 | scheduled at or past the time, else an incident if new and paced; the state after |
| `MailClient.StateByHistory` | src/mail/client.rs:278-289 | the client's state is when it last reported for each reason |
| `MailClient.ReasonByHistory` | src/mail/client.rs:278-289 | a tick reports on schedule exactly an interval past the last scheduled report or the start, else for an incident exactly when it has a new one and none was reported within the minute |
| `MailClient.ReportsApart` | src/mail/client.rs:278-289 | scheduled reports are a mail interval apart, incident reports a minute |
| `MailClient.NothingWithheld` | src/mail/client.rs:278-289 | a tick that reports nothing had nothing due |
| `Outbox.Outbox.Push` | src/mail/outbox.rs:61-67 | queued last, the oldest dropped and counted past 288 |
| `Outbox.Outbox.After` | src/mail/outbox.rs:76-95 | the queue, count, backoff and wait after each way a send can go |
| `Outbox.Outbox.TakeDropped` | src/mail/outbox.rs:103-105 | the count so far, which starts again from 0 |
| `Outbox.Delivery.LogDropped` | src/mail/client.rs:248-263 | logs the count unless none was dropped or a line was written within the hour |
| `Outbox.Delivery.Take` | src/mail/client.rs:228-243 | one turn of the delivery loop, its send arm off while nothing is queued |
| `Outbox.MessagesAreConserved` | src/mail/outbox.rs:59-105 | on every run: at most 288 queued, the queue is the latest received, the rest sent in order or dropped, every drop named by one log line or pending |
| `Outbox.BackoffDoubles` | src/mail/outbox.rs:76-95 | whatever else comes in, the `k`-th temporary failure in a row waits exactly 30 s doubled `k - 1` times, at most the mail interval; any other outcome waits nothing |
| `Outbox.LogLinesApart` | src/mail/client.rs:248-263 | log lines are at least an hour apart |
| `Outbox.PendingOnlyInQuietHour` | src/mail/client.rs:246-263 | a drop not yet named came within an hour of a line |
| `Seal.Header` | src/mail/seal.rs:74-82 | magic, version, length byte and id, or too long past 255 bytes |
| `Seal.LayoutUnseals` | src/mail/seal.rs:85-103 | id, nonce and ciphertext are recovered from the sealed bytes |
| `Seal.UnsealedIsLayout` | src/mail/seal.rs:85-103 | and nothing else is read as a sealed report, so they are the only ones |
| `Seal.SealReport` | src/mail/seal.rs:85-103 | sealing fails only when the cipher does: no agent id is too long |
| `Seal.Base64RoundTrip` | src/mail/seal.rs:106-107 | base64 gives every byte string back |
| `Seal.AlphabetIsStandard` | src/mail/seal.rs:106-107 | the alphabet is that of section 4 of RFC 4648 |
| `Seal.EncodesBits` | src/mail/seal.rs:106-107 | three bytes are the four sextets of their 24 bits, most significant first |
| `Seal.EncodesLastByte` | src/mail/seal.rs:106-107 | one byte left is two sextets padded with zero bits, then `==` |
| `Seal.EncodesLastTwo` | src/mail/seal.rs:106-107 | two bytes left are three sextets, then `=` |
| `Seal.BodyLinesFit` | src/mail/seal.rs:109-112 | every body line but the last is 76 columns, none longer, none empty, none a marker |
| `Seal.ArmourRoundTrip` | src/mail/seal.rs:106-118 | the armoured text gives the sealed bytes back |
| `Push.SnapshotCursor.SendSnapshot` | src/push/mod.rs:288-309 | marked sent unless the send failed, an unencodable one included |
| `Push.PublishedIsTheLastSample` | src/collectors/mod.rs:88-121 | on every run of the collector, with push events anywhere between, the published snapshot is the last sample's, numbered by its place from 0 |
| `Push.PublishedAreConsecutive` | src/collectors/mod.rs:193-198 | a sample from a ready sampler publishes the next number; a panic, a rebuild, an early read, new rules or a push event publishes nothing |
| `Push.PublishedNeverRewinds` | src/collectors/mod.rs:193-198 | a sample once published keeps its number |
| `Push.RunsAreSound` | src/push/mod.rs:106-127 | nothing sent or being sent is newer than what is published, or sent already |
| `Push.TickSendsWhatIsOwed` | src/push/mod.rs:106-127 | an idle push tick sends the published snapshot exactly when it is at most 30 s old and was never marked sent, on any connection |
| `Push.SessionsLastUntilEnded` | src/push/mod.rs:168-246 | a session begins with a handshake made on a fresh snapshot, lasts to the first stale tick, failed send or hang-up, and a send within it to its end |
| `Push.MarkedStrictlyIncrease` | src/push/mod.rs:108-127 | over runs of the collector and the push client together, numbers marked sent strictly increase, across reconnects, panics and rebuilds |
| `Push.SentSnapshotsWereFresh` | src/push/mod.rs:108-115 | whatever is sent is one of the collector's samples under its own number, the last one when chosen, and read at most 30 s before |
| `Push.StreamState.Next` | src/snapshot.rs:151-163 | what a live stream emits and the mode it is left in |
| `Push.StreamSaysWhatItSees` | src/snapshot.rs:151-163 | a tick emits its snapshot exactly when that is at most 30 s old, the notice exactly on the first tick of each stale stretch, and nothing on the rest |
| `Rates.NoRatesUnlessFollowing` | src/applications/report.rs:273-293 | no rates on a first scrape, after an unreachable one, or when any of five meters read both times fell, the uptime included |
| `Rates.RatesMeasureIncreases` | src/applications/report.rs:251-344 | otherwise, over the meters the two scrapes read: each rate exists exactly when its own meter was read both times and some time passed, is not negative, and times the time is the increase, own requests taken out; the mean latency exists exactly when requests came, and times their number is the time they took |
| `Rates.FirstErrorsShow` | src/applications/report.rs:258-263 | the first server errors after an unpublished counter show as a rate |
| `Rates.RatesTelescope` | src/applications/report.rs:230-239 | over an uninterrupted stretch the server-error and GC rates account for the whole increase |
| `CgroupPath.ParsedIsCgroupPath` | src/environment/cgroup.rs:39-50 | a parsed path cannot climb: every segment is a plain name |
| `CgroupPath.DisplayRoundTrip` | src/environment/cgroup.rs:80-82 | what a path displays as parses back to it |
| `CgroupPath.RefusedIff` | src/environment/cgroup.rs:39-50 | a path is refused exactly when it is not absolute or some segment is a dot or two |
| `CgroupPath.ExtraSlashIsIgnored` | src/environment/cgroup.rs:39-50 | a slash more, between segments or at either end, changes nothing |
| `CgroupPath.DisplayIsCanonical` | src/environment/cgroup.rs:80-82 | a path is displayed with one slash before each segment, the root as `/` |
| `CgroupPath.MonitoredDirectoryIsItsPath` | src/environment/cgroup.rs:200-225 | the monitored path is the mount's root then the directory, holds the agent's cgroup, and holds PID 1's exactly when said |
| `CgroupPath.MonitoredIsRootOrOwn` | src/environment/cgroup.rs:200-225 | a private namespace's root is monitored whole, else the agent's own cgroup; and exactly why there is none |
| `CgroupPath.LevelsClimbToTheMount` | src/environment/cgroup.rs:158-173 | levels start at the directory, lose one segment each, stay under the mount point, and end there unless 32 come first |
| `Mountinfo.UnescapeMountinfo` | src/environment/cgroup.rs:424-443 | the loop ends and decodes each escape once, left to right |
| `Mountinfo.UnescapeInvertsKernel` | src/environment/cgroup.rs:423-443 | it inverts the kernel's escaping of every string |
| `Mountinfo.MalformedEscapesStay` | src/environment/cgroup.rs:435-438 | a backslash that starts no full escape stays |
| `Mountinfo.OctalEscapesDecode` | src/environment/cgroup.rs:427-438 | three octal digits are a byte up to 0377 and stay past it; a plus sign and two digits are one too |
| `Mountinfo.RangesMustAscend` | src/environment/cgroup.rs:348-352 | a range counts both its ends, wrapping to 0 when that is more than 64 bits hold; one written backwards is refused |
| `Mountinfo.CpusetRoundTrip` | src/environment/cgroup.rs:338-352 | a printed list of ascending disjoint ranges reads back as the number of CPUs it names, exactly unless that is 2^64 |
| `Mountinfo.BackwardsRangeRefusesList` | src/environment/cgroup.rs:338-352 | one range written backwards refuses the whole list, wherever it stands |
| `Mountinfo.WholeRangeIsRefused` | src/environment/cgroup.rs:348-352 | the list of every 64-bit number, whose count is one past the type, is refused |

## Left out

- HTTP, WebSocket, SMTP, TLS, DNS, `/proc` and sysinfo: calls with no semantics here; only their outcomes appear, as events.
- The cipher and the random sources: ciphertext is opaque bytes, temp names are unique by construction.
- Push.SessionsLastUntilEnded: takes the freshness check, the handshake and its authentication as one event; a hub that refuses either leaves no session.
- Scheduling and timers: ticks, publishes and sends are events in any order. The delivery loop restarts its sleep after each message it receives, so no bound on when a retry happens is claimed, only the wait it asks for.
- Display texts, alert messages, serialisation names and DTO copies: each is settled by one reading.
- Floating-point rounding and NaN beyond absence; the one-decimal rounding of a snapshot's CPU usage is not applied before the rules see it.
- Overflow checks: a cpuset's count wraps as in a build without them; one with them would panic on the list of all 2^64 numbers instead. Counters of incidents, reports and snapshots never reach their limit and are unbounded here.
- `str::trim` is modelled on ASCII white space only; the kernel's files hold no other.
- Collector.BackgroundCollector.Record: does not fill the history buffers behind the charts; nothing else modelled reads them.
- AlertRuns.ActiveAlertsShowIncidents: says nothing of an alert's message, and gives `fired_at` in seconds; `Calendar.TextRoundTrip` covers the text.
- The application rounds sent beside snapshots.
- The sources an id is first looked for in (machine id, host name): an agent starts with the id they gave it, which follows the id rule.
- The first read of `resolve_push_id` and the final one are single steps: a file once linked never changes, so a longer read sees the same bytes.
- Environment classification, configuration parsing, listen addresses and tokens: branch tables that would add easy members.
- The hub is not part of this model.
