# VoxGuard: verified models of its stateful services

Dafny 4.11 models of eight components of VoxGuard, the anti-call-masking
platform, with proofs about all their runs.  Each component compares some cheap
mutable state (a counter, a set with a time to live, a cache, two stores) with a
simple function of everything that has happened.  The layout is the same
throughout: a module of pure definitions that follow the code branch by branch,
a module of theorems about every run of them, and a module of classes whose
methods update fields in place as the code does, each proved equal to the
definitions.

| file | component |
|---|---|
| `CircuitBreaker.dfy` | the three-state breaker of the voice switch, with any number of overlapping calls |
| `ExpiringSets.dfy` | sets whose time to live every addition renews |
| `Detection.dfy` | masking detection: cache, call and alert tables, single operations and whole registrations |
| `AlertRaces.dfy` | what interleaved registrations can do to the alerts of one number |
| `RateCounters.dfy` | the in-memory and the cached calls-per-minute counter on one log |
| `Mnp.dfy` | number normalisation, carrier prefixes, and the three-level lookup of ported numbers |
| `Archival.dfy` | archiving, restoring and expiring rows across a hot table and an object store |
| `Registry.dfy` | the model registry, an index file and metadata files, with a crash before any write |
| `AtrsClient.dfy` | the retry policy towards the regulator's interface |
| `Basics.dfy` | optional values, and a little arithmetic of numbers and set sizes |

`dafny verify dfyconfig.toml` checks the whole project.

## How the code is read

- **Breaker.** A guarded call is two atomic events, because nothing suspends
  between the checks of `call` and the guarded function, nor in the handling of
  its completion.  An `End` may meet any state.  Thresholds may be any integer:
  a threshold below 1 acts as 1.  The clock does not go back.
- **Detection.** A key is absent from its deadline on.  Call and alert ids are the
  number of the registration, hence fresh.  Window, threshold and cooldown are
  at least 1.  In the sequential theorems a registration reads the clock once; in
  the interleaved ones each operation has its own reading.
- **Counters.** Times are nanoseconds; the cache sees whole seconds.
- **Number lookup.** The master dataset is fixed; L2 may fail on reading and on
  writing, the dataset on reading, and both caches may lose entries before any
  lookup.
- **Archival.** Compression and JSON are an invertible packing, SHA-256 a digest
  without collisions.  Each write may succeed, fail, or succeed with its answer
  lost.  Archive ids are fresh.  The database chooses among rows of equal date.
  Restored rows are inserted in one transaction, which the first failing
  insertion ends, as the database adapter does by default; its commit may fail
  too.  In one sweep an archive meets the same replies each time it is tried.
- **Registry.** Writing one file is atomic.  Removing a directory is not: its files
  go in either order, then the directory itself.  Model ids are not empty.
  Clients leave the status "champion" to promotions where a theorem says so.
- **Retries.** Times, token grants and replies of every attempt are arbitrary.

## Where the code falls short of what it says

Each of these is a theorem here, with the exact condition under which the code
does meet its description.

- `half_open_max_calls` is described as a maximum of concurrent calls, but each
  call that outlives the state it began in frees a slot it never took
  (`StragglerLetsTwoProbesPastACapOfOne`); whatever follows in the episode, the
  maximum holds exactly when none has completed in it or is still in flight
  (`CapHoldsExactlyWhateverFollows`).
- The detection window is described as sliding.  It is a burst: callers
  just inside a window of each other are all counted, however long the burst
  lasts (`BurstTheorem`, `SlowCallersRaiseAlert`).  It misses nothing
  (`NoMissedAttack`), and it is a sliding window exactly when every caller of the
  burst has called again within it (`WindowIsExactWhenRenewed`,
  `CountIsSlidingExactly`).
- `record_call` of the cache counts seconds, not calls; the ignored test in
  `services/management-api/mod.rs` expects calls (`SameSecondCountsOnce`).  It
  counts what the in-memory counter does exactly when no two calls of the last
  minute share a second and none falls in the second that began sixty seconds
  ago (`CountersCompared`).
- `cleanup` makes `record_call` miscount exactly when its window is shorter than a
  minute (`CleanupIsInvisibleExactly`), and it keeps every destination, so their
  count is a window's exactly when all have been called in it
  (`DestinationsAreRecentExactly`).
- A batch of lookups answers a default exactly where a single lookup in the place
  of the number's last element reports that the dataset cannot be read
  (`BulkHidesFailure`).
- Archiving selects at most `chunk_size` rows and deletes all: in every run the
  rows are conserved exactly when each deletion meets only rows that an archive
  holds (`ConservedExactly`).  One job on rows not archived before conserves them
  exactly when they are no more than `chunk_size` (`ConservedExactlyWithinChunk`,
  `TwoRowsChunkOfOne`); a row restored behind a job is lost when its archive is
  removed before the job deletes (`RestoredThenLost`).
- Expiry removes exactly the data that metadata name, so never those of an upload
  that died between its two objects (`OrphansStayExactly`), and it finds metadata
  only through data, so never those whose data went alone (`StrandedExactly`,
  `StrandedForever`).  The count of restored rows is exact only as
  `CountIsKeptExactly` says.
- A promotion that dies before its last write leads to two champion files
  (`TornThenAnother`, `TwoChampions`).  A promotion keeps at most one at every write
  exactly when there was at most one and no third model is marked
  (`PromotionKeepsOneAtEveryWriteExactly`).  One that fails has already unmarked the
  serving champion (`FailedPromotionUnseats`); the champion stays marked exactly as
  `EnthronedExactly` says.  Promoting a half-deleted model names a champion that is
  not served (`UnservedChampion`, `PromotionServesExactly`), and promoting the
  champion again records that it was replaced by itself (`PromoteDoes`).
- Two registrations of one number that overlap can both alert, and their alerts
  share calls (`OverlapAlertsTwice`); so can two that do not overlap when the first
  stops between its alert and its flags (`ExitSharesCalls`).  Two alerts share a
  call exactly when one registration read its calls while the other had read and
  not flagged one of them (`AlertsShareExactly`, `DisjointExactly`).  A check of
  the cooldown passes exactly when none was set within it (`PassesExactly`), and
  comes too early after an alert exactly when that alert's registration has not
  set its own (`WithinCooldownExactly`, `ChecksSpacedExactly`).

## Model

| member | source | states |
|---|---|---|
| `BreakerTheorems.CountersAreTraceQuantities` | services/voice-switch/circuit_breaker.py:131-193 | in every run of overlapping calls: CLOSED means the failure counter is the length of the trailing run of counted failures since CLOSED was entered and is below the threshold; outside CLOSED it equals the threshold; in HALF_OPEN the success counter is the successes of this episode, below its threshold |
| `BreakerTheorems.OpensExactlyOnThresholdFailure` | services/voice-switch/circuit_breaker.py:181-193 | a closed circuit opens if and only if the event is the failure completing an unbroken run of `failure_threshold` failures, and it never goes straight to HALF_OPEN |
| `BreakerTheorems.LeavesHalfOpenExactly` | services/voice-switch/circuit_breaker.py:147-179 | a half-open circuit closes if and only if its last required success arrives, and reopens if and only if a failure does |
| `BreakerTheorems.FlowConservation` | services/voice-switch/circuit_breaker.py:115-193 | transition counts balance: what entered a state and has not left it is there now, and total = successful + failed; resets included |
| `BreakerTheorems.MetricsCountTheLog` | services/voice-switch/circuit_breaker.py:143-169 | successes, failures and rejections in the metrics are the numbers of such events since the last reset |
| `BreakerTheorems.TransitionsCountTheLog` | services/voice-switch/circuit_breaker.py:115-138 | each of the four transition metrics is the number of such transitions since the last reset |
| `BreakerTheorems.ClosedIsClean` | services/voice-switch/circuit_breaker.py:131-138 | in CLOSED no success is remembered and no slot is held |
| `BreakerTheorems.HalfOpenAccounting` | services/voice-switch/circuit_breaker.py:254-291 | while HALF_OPEN the admission counter is the in-flight calls admitted in this episode minus the completions in it of calls admitted earlier, and never exceeds the cap |
| `BreakerTheorems.ProbesBounded` | services/voice-switch/circuit_breaker.py:254-291 | concurrent probes never exceed the cap by more than those stragglers |
| `BreakerTheorems.CapHoldsExactlyWithoutStragglers` | services/voice-switch/circuit_breaker.py:33-33 | the documented maximum of concurrent half-open calls holds for every continuation by further calls if and only if no call admitted before the episode has completed inside it |
| `BreakerTheorems.CapHoldsExactlyWhateverFollows` | services/voice-switch/circuit_breaker.py:33-33 | and for every continuation at all within the episode if and only if moreover no call admitted before it is still in flight |
| `BreakerTheorems.StragglerLetsTwoProbesPastACapOfOne` | services/voice-switch/circuit_breaker.py:289-291 | a concrete legal run in which a cap of one admits two concurrent probes |
| `BreakerTheorems.FailureTimeIsLatest` | services/voice-switch/circuit_breaker.py:165-171 | in every run the recorded failure time is the clock of the latest counted failure since the last reset, whatever the state it arrived in, and is unset if and only if there is none |
| `BreakerTheorems.OpenHasRecentFailure` | services/voice-switch/circuit_breaker.py:165-193 | OPEN always has a recorded failure time, no earlier than the event that opened the circuit |
| `BreakerTheorems.OpenLastsTimeout` | services/voice-switch/circuit_breaker.py:195-212 | a stay in OPEN that no reset ends lasts at least `timeout` and ends in HALF_OPEN |
| `BreakerTheorems.OpenEndsExactly` | services/voice-switch/circuit_breaker.py:195-212 | unless reset, OPEN goes to HALF_OPEN on a call that comes `timeout` after the latest failure of the log, and on nothing else; failures arriving in OPEN start the waiting again |
| `BreakerTheorems.OpenIsNeverStuck` | services/voice-switch/circuit_breaker.py:195-212 | in OPEN the log always has a latest failure, and a call moves OPEN on if and only if `timeout` has passed since it |
| `BreakerTheorems.AdmittedExactly` | services/voice-switch/circuit_breaker.py:229-264 | which calls proceed, said of the log: all in CLOSED; in HALF_OPEN those finding the in-flight probes less the stragglers below the cap; in OPEN those coming `timeout` after the latest failure |
| `BreakerTheorems.ProbeRate` | services/voice-switch/circuit_breaker.py:195-212 | with `PaidForAsProduct`: the number of times the circuit went half-open, times `timeout`, is at most the time since the start or the last reset |
| `BreakerTheorems.PaidForAsProduct` | services/voice-switch/circuit_breaker.py:195-212 | the same bound as a product |
| `VoiceSwitch.CircuitBreaker.TransitionTo` | services/voice-switch/circuit_breaker.py:115-138 | the transition of the specification, in place |
| `VoiceSwitch.CircuitBreaker.RecordSuccess` | services/voice-switch/circuit_breaker.py:140-163 | a success, in place |
| `VoiceSwitch.CircuitBreaker.RecordFailure` | services/voice-switch/circuit_breaker.py:165-193 | a failure, in place |
| `VoiceSwitch.CircuitBreaker.CheckAndTransitionFromOpen` | services/voice-switch/circuit_breaker.py:195-212 | the timed move out of OPEN, in place |
| `VoiceSwitch.CircuitBreaker.Admit` | services/voice-switch/circuit_breaker.py:229-264 | admission: exactly which calls proceed, which are rejected and with what hint |
| `VoiceSwitch.CircuitBreaker.BeginCall` | services/voice-switch/circuit_breaker.py:214-267 | the log grows by a begin, a call proceeds if and only if it is then in flight, and an open rejection's hint is the exact time left since the latest failure of the log |
| `VoiceSwitch.CircuitBreaker.Complete` | services/voice-switch/circuit_breaker.py:266-291 | the completion of the guarded function, unexpected exceptions included, in whatever state the breaker then is |
| `VoiceSwitch.CircuitBreaker.EndCall` | services/voice-switch/circuit_breaker.py:266-291 | a completion of a call in flight keeps the object equal to the state of its log |
| `VoiceSwitch.CircuitBreaker.ResetBreaker` | services/voice-switch/circuit_breaker.py:311-319 | a reset gives back the fresh state and stays within the log |
| `ExpiringSets.BurstTheorem` | services/detection-engine/src/adapters/dragonfly.rs:42-60 | after every add the SADD and EXPIRE set holds exactly the items of the longest suffix of the additions with all gaps shorter than the time to live, and expires one time to live after the last |
| `ExpiringSets.BurstIsUnique` | services/detection-engine/src/adapters/dragonfly.rs:42-60 | that suffix is determined by the log |
| `ExpiringSets.WindowIsHeld` | services/detection-engine/src/adapters/dragonfly.rs:42-84 | at any later time every item added less than the time to live ago is in the live set |
| `ExpiringSets.WindowIsExactWhenRenewed` | services/detection-engine/src/adapters/dragonfly.rs:42-84 | at any later time the live set is the true window if and only if nothing is live, or each item of the burst has been added again within the time to live |
| `ExpiringSets.WindowIsExact` | services/detection-engine/src/adapters/dragonfly.rs:42-84 | in particular, when the whole burst spans less than the time to live the live set is the true window |
| `ExpiringSets.DripIsCountedWhole` | services/detection-engine/src/adapters/dragonfly.rs:42-72 | any number of distinct items spaced just inside the time to live are all counted, though the true window holds two of them |
| `RegistrationSteps.ExecIsRegistered` | services/detection-engine/src/application/detection_service.rs:86-227 | ten single operations, each of which may be the last, complete any registration; uninterrupted they compose to one formula |
| `EvidenceProtocol.StepKeepsEvidence` | services/detection-engine/src/application/detection_service.rs:112-149 | each operation of any registration, each cleanup and each blacklisting keeps the evidence invariant, and never deletes or unflags a flagged call nor changes an alert |
| `EvidenceProtocol.EvidenceAlways` | services/detection-engine/src/application/detection_service.rs:166-216 | at every moment of any number of interleaved registrations, early exits and cleanups, each flagged call names a persisted alert whose call ids contain it |
| `EvidenceProtocol.FlaggedForever` | services/detection-engine/src/adapters/yugabyte.rs:296-320 | from any moment on to any later one, flagged calls stay stored and flagged and alerts stay as they were |
| `AlertRaces.AlertReadsExactly` | services/detection-engine/src/application/detection_service.rs:166-201 | the same for every alert of every interleaved run: it names the live callers when they were read, ends its window then, and lists exactly the calls of its number in that window that were stored and unflagged when they were read |
| `AlertRaces.FlaggedExactly` | services/detection-engine/src/adapters/yugabyte.rs:296-310 | in every reachable world a stored call is flagged if and only if an alert that has written its flags lists it |
| `AlertRaces.ReadMeetsExactly` | services/detection-engine/src/application/detection_service.rs:183-216 | in every reachable world: the calls a registration is about to read meet those of another alert or of a registration that has read if and only if that one is of the same number, has not flagged its calls, and one of them is still stored, unflagged and in the window |
| `AlertRaces.AlertsShareExactly` | services/detection-engine/src/application/detection_service.rs:183-216 | in every run, however registrations, early exits, cleanups and blacklistings interleave: two alerts share a call if and only if one registration read its calls at such a moment of the other |
| `AlertRaces.DisjointExactly` | services/detection-engine/src/application/detection_service.rs:183-216 | so the alerts of a run are pairwise disjoint if and only if no two of their registrations met in this way |
| `AlertRaces.DisjointWhenReadersApart` | services/detection-engine/src/application/detection_service.rs:183-216 | in particular when no two registrations of one number are ever between reading their calls and flagging them |
| `CooldownRaces.CooldownLiveExactly` | services/detection-engine/src/adapters/dragonfly.rs:86-107 | in every run the cooldown key of a number is live if and only if some registration of it set the cooldown less than a cooldown ago |
| `CooldownRaces.PassesExactly` | services/detection-engine/src/application/detection_service.rs:122-141 | so a registration that checks the cooldown goes on to alert if and only if none did, whatever others are about to do |
| `CooldownRaces.WithinCooldownExactly` | services/detection-engine/src/application/detection_service.rs:122-141 | a check passed after that of another alert of the number comes less than a cooldown after the end of that alert's window, or before it, if and only if that alert's registration has not set its cooldown and its window is still open or ended less than a cooldown ago |
| `CooldownRaces.ChecksSpacedExactly` | services/detection-engine/src/application/detection_service.rs:122-141 | so the checks of a run come a cooldown after the earlier alerts of their number if and only if none is passed at such a moment |
| `CooldownRaces.SpacedWhenChecksAre` | services/detection-engine/src/application/detection_service.rs:122-141 | and then the windows of one number's alerts end at least a cooldown apart |
| `CooldownRaces.SpacedWhenAlarmsApart` | services/detection-engine/src/application/detection_service.rs:122-141 | in particular when no two of its registrations are ever between checking the cooldown and setting it |
| `RaceRuns.OverlapAlertsTwice` | services/detection-engine/src/application/detection_service.rs:122-141 | for every threshold, a run in which two registrations of one number interleave: both report an alert at one time, and the alerts share a call |
| `RaceRuns.ExitSharesCalls` | services/detection-engine/src/application/detection_service.rs:201-216 | for every threshold, a run in which one registration stops between its alert and its flags, and the next, with nothing else under way, lists its call again |
| `DetectionTheorems.CacheRefinesHistory` | services/detection-engine/src/application/detection_service.rs:104-141 | for any sequential log the cache's window and cooldown of a number are functions of that number's own accepted calls |
| `DetectionTheorems.RepliesAreAFunctionOfHistory` | services/detection-engine/src/application/detection_service.rs:80-163 | every reply and its caller count depend on the called number's own history alone: processed below the threshold of distinct burst callers, else cooldown if it alerted less than the cooldown ago, else alert; a blacklisted source changes nothing |
| `DetectionTheorems.InlineAgrees` | services/detection-engine/src/main.rs:75-130 | on one log, as long as no call to the number was blocked, the inline handler counts what the service counts, and alerts if and only if the service alerts or is cooling down |
| `DetectionTheorems.InlineRefines` | services/detection-engine/src/main.rs:75-100 | the window the inline handler has built up for a number is the set of all calls to it, whatever came between |
| `DetectionTheorems.AlertsAreSpaced` | services/detection-engine/src/application/detection_service.rs:122-141 | successive alerts for one number are at least a cooldown apart |
| `DetectionTheorems.ServiceAlertRate` | services/detection-engine/src/application/detection_service.rs:122-141 | in any stretch of any log a number gets at most (elapsed time) / cooldown + 1 alert replies |
| `DetectionTheorems.NoMissedAttack` | services/detection-engine/src/application/detection_service.rs:104-121 | as many distinct callers as the threshold within the last window are never merely processed |
| `DetectionTheorems.SlowCallersRaiseAlert` | services/detection-engine/src/application/detection_service.rs:104-121 | the converse fails, for every threshold and window of at least 2: distinct callers no three of whom share a window do alert |
| `DetectionTheorems.CountIsSlidingExactly` | services/detection-engine/src/application/detection_service.rs:104-121 | the count is that of a sliding window if and only if each caller of the burst has called again within the window; and if and only if so does the service, for every threshold, process a call just when a sliding window would |
| `DetectionStores.ScoreIsShare` | services/detection-engine/src/application/detection_service.rs:178-181 | the score is the callers' share of the threshold, and 1.0 from the threshold on |
| `DetectionTheorems.CallersCoverWindow` | services/detection-engine/src/application/detection_service.rs:175-176 | the A-numbers read for an alert name every caller of the number strictly inside the window |
| `DetectionTheorems.RowIsLogged` | services/detection-engine/src/application/detection_service.rs:112-113 | every stored call is an accepted registration of the log, with its numbers and time |
| `DetectionTheorems.AlertsPartitionCalls` | services/detection-engine/src/application/detection_service.rs:175-216 | in sequential runs every alert lists its triggering call, has score 1.0, every call it lists is stored and flagged for it and no other, and the callers of those strictly inside its window are among its A-numbers |
| `DetectionTheorems.AlertsAreDisjoint` | services/detection-engine/src/application/detection_service.rs:183-216 | different alerts never share a call |
| `DetectionTables.BlockedExactly` | services/detection-engine/src/adapters/dragonfly.rs:109-136 | after any log an address is blocked if and only if its latest listing is permanent or has not run out |
| `DetectionTables.AlertExistsExactly` | services/detection-engine/src/application/detection_service.rs:122-149 | the alerts stored after any log are those of the registrations answered with one, and stay as they were raised |
| `DetectionTables.StoredExactly` | services/detection-engine/src/adapters/yugabyte.rs:312-320 | a call is stored if and only if it was accepted and no later cleanup found it before its cutoff and in no alert |
| `DetectionTables.FlaggedExactly` | services/detection-engine/src/adapters/yugabyte.rs:296-310 | a stored call is flagged if and only if an alert lists it, and names that alert |
| `DetectionTables.AlertHoldsExactly` | services/detection-engine/src/application/detection_service.rs:166-201 | every alert of every log, field by field: number and address of its registration, score 1.0, a window of the configured length ending at it, the callers of its number's burst, and exactly the accepted calls to the number in that closed window that were kept and in no earlier alert |
| `DetectionEngine.DragonflyCache.AddCallerToWindow` | services/detection-engine/src/adapters/dragonfly.rs:42-60 | SADD and EXPIRE in place |
| `DetectionEngine.DragonflyCache.GetDistinctCallers` | services/detection-engine/src/adapters/dragonfly.rs:74-84 | the live members, none once the deadline is reached |
| `DetectionEngine.DragonflyCache.GetDistinctCallerCount` | services/detection-engine/src/adapters/dragonfly.rs:62-72 | their number |
| `DetectionEngine.DragonflyCache.IsInCooldown` | services/detection-engine/src/adapters/dragonfly.rs:86-96 | whether the cooldown key is live |
| `DetectionEngine.DragonflyCache.PutCooldown` | services/detection-engine/src/adapters/dragonfly.rs:98-107 | the cooldown key with its deadline, in place |
| `DetectionEngine.DragonflyCache.IsIpBlacklisted` | services/detection-engine/src/adapters/dragonfly.rs:109-119 | whether the address is listed, for good or until a deadline |
| `DetectionEngine.DragonflyCache.BlacklistIp` | services/detection-engine/src/adapters/dragonfly.rs:121-136 | a listing with or without a deadline, in place |
| `DetectionEngine.YugabyteRepository.Save` | services/detection-engine/src/adapters/yugabyte.rs:138-170 | the upsert: a new row, or only flag and alert id of an old one |
| `DetectionEngine.YugabyteRepository.FindCallsInWindow` | services/detection-engine/src/adapters/yugabyte.rs:219-273 | exactly the stored, unflagged calls to the number from the start of the window to its end, each once, latest first |
| `DetectionEngine.YugabyteRepository.MarkAsFraud` | services/detection-engine/src/adapters/yugabyte.rs:296-310 | flags and alert ids of exactly the listed stored calls, and how many there were |
| `DetectionEngine.YugabyteRepository.DeleteOldCalls` | services/detection-engine/src/adapters/yugabyte.rs:312-320 | only unflagged calls before the cutoff go, and the count is how many went |
| `DetectionEngine.YugabyteRepository.SaveAlertRow` | services/detection-engine/src/adapters/yugabyte.rs:325-380 | the upsert: a new row, or only callers and calls of an old one |
| `DetectionEngine.DetectionService.RegisterCall` | services/detection-engine/src/application/detection_service.rs:80-163 | the stores and the reply after exactly the operations that succeeded, for a failure at any `?` |
| `DetectionEngine.DetectionService.StoreCall` | services/detection-engine/src/application/detection_service.rs:109-163 | the same from the caller count on |
| `DetectionEngine.DetectionService.CreateAlert` | services/detection-engine/src/application/detection_service.rs:166-189 | the same from the reading of the alert's contents on |
| `DetectionEngine.DetectionService.PersistAlert` | services/detection-engine/src/application/detection_service.rs:189-227 | the same for alert, flags and cooldown, in that order |
| `DetectionEngine.HandleEvent` | services/detection-engine/src/main.rs:75-130 | the window grows by the caller and the answer is alert if and only if the count reaches the threshold |
| `CallRateTheorems.TimestampsCountCalls` | services/management-api/lib.rs:77-132 | whatever cleanups ran, the timestamps kept after a cutoff are as many as the caller's logged calls after it |
| `CallRateTheorems.CleanupIsInvisible` | services/management-api/lib.rs:77-132 | with a window of at least a minute, `record_call` counts exactly the caller's logged calls of the last sixty seconds, itself included |
| `CallRateTheorems.CleanupIsInvisibleExactly` | services/management-api/lib.rs:125-132 | that holds in every run if and only if the window is at least a minute |
| `CallRateTheorems.ShortWindowMiscounts` | services/management-api/lib.rs:125-132 | for every shorter window, a run that counts one call too few |
| `CallRateTheorems.KeptExactly` | services/management-api/lib.rs:77-132 | for a window of any size, on any log: the timestamps kept for a caller are as many as its calls that no later call of its own, after a minute, and no cleanup, after the window, has dropped |
| `CallRateTheorems.EntriesExactly` | services/management-api/lib.rs:125-132 | a caller has an entry if and only if a timestamp of it is kept |
| `CallRateTheorems.DestinationsAreAllEver` | services/management-api/lib.rs:89-122 | the unique destinations are those of the whole log: no cleanup ever removes one |
| `CallRateTheorems.DestinationsAreRecentExactly` | services/management-api/lib.rs:117-132 | so the count is that of the destinations called after a cutoff if and only if every destination ever called has been called after it |
| `CallRateTheorems.ScoresFollowLog` | services/management-api/mod.rs:229-249 | the sorted set holds the seconds of the caller's calls after any cutoff still in range, and its time to live never shows |
| `CallRateTheorems.ScoresCountSeconds` | services/management-api/mod.rs:221-255 | the cache's count is the number of distinct seconds of the last sixty that hold a call, hence at most 60 |
| `CallRateTheorems.CacheCountsNoMore` | services/management-api/mod.rs:221-255 | on one log the cache never counts more than the in-memory window, and as much if and only if no two calls of the last minute share a second and none falls in the second that began sixty seconds ago |
| `CallRateTheorems.CountersCompared` | services/management-api/mod.rs:221-255 | the same for what the two `record_call`s return: below 2^32 calls a minute the cache's answer is never above the memory's, with equality under that condition; the memory's answer is the minute's calls modulo 2^32 |
| `CallRateTheorems.SameSecondCountsOnce` | services/management-api/mod.rs:233-234 | any number of calls in one second count as one, against the expectation in lines 428-441 of the same file |
| `RateCounters.SlidingWindow.RecordCall` | services/management-api/lib.rs:77-96 | timestamps, destinations and the count cast to 32 bits, in place |
| `RateCounters.SlidingWindow.GetUniqueDestinations` | services/management-api/lib.rs:117-122 | how many destinations are recorded |
| `RateCounters.SlidingWindow.CleanUp` | services/management-api/lib.rs:125-132 | old timestamps and emptied entries go, destinations stay |
| `RateCounters.CacheManager.RecordCall` | services/management-api/mod.rs:221-255 | the pipeline on the caller's two keys, all or nothing, no other key changed; a count if and only if the connection held throughout |
| `Numbering.CleanKeepsExactly` | services/management-api/mnp.rs:191-191 | cleaning leaves digits and plus signs only and changes nothing that has no others |
| `Numbering.NormalizeIsIdempotent` | services/management-api/mnp.rs:190-202 | normalisation is idempotent on all strings |
| `Numbering.FormsCoincide` | services/management-api/mnp.rs:190-202 | for every digit string the national, international and full forms normalise to one number |
| `Numbering.BareFormCoincidesExactly` | services/management-api/mnp.rs:200-202 | a bare digit string normalises to it too if and only if it begins with neither 0 nor 234 |
| `Numbering.OneCarrierServes` | services/management-api/lib.rs:145-164 | no number is served by two carriers' prefixes |
| `Numbering.OrderIsIrrelevant` | services/management-api/lib.rs:189-199 | any order of testing the tables finds a carrier if and only if it is in the order and serves the number |
| `Numbering.MobileHasOperator` | services/management-api/lib.rs:167-200 | a number is a Nigerian mobile number if and only if it has a default operator, and that operator serves it |
| `Numbering.NationalFormHasOperator` | services/management-api/lib.rs:167-200 | the national and the international form of a number have the same operator and mobile status |
| `MnpTheorems.HandlerCoversTables` | services/management-api/mnp.rs:209-229 | table by table, the prefixes written out in the handler are those of the library |
| `MnpTheorems.RouteOfPrefix` | services/management-api/mnp.rs:205-229 | so on the first seven characters of a number the handler finds a carrier if and only if the library's tables serve the number |
| `MnpTheorems.RoutingNamesOperator` | services/management-api/mnp.rs:205-240 | the handler, from its own prefixes, gives default routing if and only if the library names an operator for the normalised number, with that operator's name and routing number |
| `MnpTheorems.LookupIsTransparent` | services/management-api/mnp.rs:33-116 | from coherent caches, under any faults, an answer is what the master dataset or else the default says; an error only when the dataset is unreadable and no cache helps; caches stay coherent |
| `MnpTheorems.LookupAnswersFromFirst` | services/management-api/mnp.rs:43-116 | every answer comes from the first level that holds the number and can be read, with that level's record and name; what was found below L1 is then in L1, what was found below L2 also in L2 if that can be written, and nothing else changes |
| `MnpTheorems.LookupFillsL1` | services/management-api/mnp.rs:43-96 | after a hit, any form of the same number is answered from L1 with the same record |
| `MnpTheorems.LookupFillsL2` | services/management-api/mnp.rs:84-96 | after an answer from L3 the next lookup with L1 evicted is answered from L2, unless L2 cannot be read then or could not be written and had nothing |
| `MnpTheorems.BulkCounts` | services/management-api/mnp.rs:134-167 | a batch keeps the caches coherent and its four counters add up to its length, duplicates and failures included |
| `MnpTheorems.BulkCountsByLevel` | services/management-api/mnp.rs:138-166 | each counter is the number of elements that found their number first at its level, in the caches they met, and misses are the rest |
| `MnpTheorems.BulkWalksAsSingles` | services/management-api/mnp.rs:138-166 | a batch leaves the caches as single lookups of its elements, each in its place, would |
| `MnpTheorems.BulkAnswersExactlyTheRequest` | services/management-api/mnp.rs:134-167 | the result map has an entry for each number sent and no other |
| `MnpTheorems.BulkIsTransparent` | services/management-api/mnp.rs:134-167 | a number whose last element meets a readable dataset gets the dataset's or the default answer, whatever happens to the rest of the batch, however often it is repeated, and whatever the caches lose |
| `MnpTheorems.BulkAnswers` | services/management-api/mnp.rs:134-167 | in any batch, under any faults, each number gets the dataset's or the default answer, unless its last element met an unreadable dataset that no cache helped with, where it gets the default |
| `MnpTheorems.BulkAgreesWithSingle` | services/management-api/mnp.rs:118-186 | such a number gets from a batch what a single lookup gives, from any coherent caches and under any other faults |
| `MnpTheorems.BulkHidesFailure` | services/management-api/mnp.rs:156-165 | in any batch, under any faults, each number gets what a single lookup in the place of its last element would have given, and the default exactly where that lookup would have reported an error |
| `MnpTheorems.CachesStayCoherent` | services/management-api/mnp.rs:33-186 | over any run of lookups, batches and evictions both caches stay submaps of the dataset |
| `MnpTheorems.EveryRunIsTransparent` | services/management-api/mnp.rs:33-116 | so after any such run a lookup answers what the dataset or the default says |
| `MnpService.MnpHandlers.LookupMsisdn` | services/management-api/mnp.rs:33-116 | the three levels in their order, filling the caches in place |
| `MnpService.MnpHandlers.LookupNext` | services/management-api/mnp.rs:134-167 | one iteration of the batch loop, in place |
| `MnpService.MnpHandlers.LookupMnpBulk` | services/management-api/mnp.rs:118-186 | more than a thousand numbers are refused unchanged; otherwise caches and results are those of the specification, and each counter is the number of elements answered at its level |
| `ColdStorageTheorems.AnswerExists` | services/data-archival/archival_service.py:135-146 | the limited, ordered query always has an answer satisfying its specification |
| `ColdStorageTheorems.AnswerLeavesOut` | services/data-archival/archival_service.py:135-146 | any answer leaves out exactly max(0, n - limit) of the n rows before the cutoff |
| `ColdStorageTheorems.AnswerIsOldest` | services/data-archival/archival_service.py:135-146 | its rows are rows of the table before the cutoff, as they stand, oldest first; one is left out only when the limit is reached, and none left out is older |
| `ColdStorageTheorems.JobDoesExactly` | services/data-archival/archival_service.py:66-165 | a job stopped after any step, object by object: the data with its records, the metadata with its time, counts and digest, and the deletion of exactly the table's rows before the cutoff |
| `ColdStorageTheorems.AlteredIsRefused` | services/data-archival/archival_service.py:201-208 | an archive whose data object was replaced can be restored if and only if the replacement is the same |
| `ColdStorageTheorems.InsertAllKeeps` | services/data-archival/archival_service.py:226-255 | insertion with conflicts ignored leaves every present row as it is, adds exactly the missing keys, and only archived rows |
| `ColdStorageTheorems.InsertedAreTheAbsent` | services/data-archival/archival_service.py:242-255 | the number of rows added is the number of archived keys that were absent |
| `ColdStorageTheorems.CountIsKeptExactly` | services/data-archival/archival_service.py:242-255 | when insertions and the commit may fail, the count is of the missing rows before the first failure, and equals what is kept if and only if nothing fails or none was missing before it |
| `ColdStorageTheorems.RestoreIsIdempotent` | services/data-archival/archival_service.py:179-224 | restoring twice is restoring once, and no live row is overwritten |
| `ArchivalTheorems.InvStays` | services/data-archival/archival_service.py:66-120 | under the proviso below, each single write of jobs, restores, expiries and inserts keeps every row in a store, every written object in place, and every row a job will delete copied or held |
| `ArchivalTheorems.NoRowIsEverLost` | services/data-archival/archival_service.py:66-165 | at every write of every interleaved run, a row ever inserted is hot and unchanged, or in an archive a restore would accept, or was not live when an archive holding it was removed after its retention, nor restored since; provided each query meets at most `chunk_size` rows, no row is inserted behind a running job, and no archive is removed that a running job made, or that alone holds restored rows the job is about to delete |
| `ArchivalTheorems.ConservedExactly` | services/data-archival/archival_service.py:66-165 | in every run, with no proviso: the rows are conserved at every write if and only if every deletion meets only rows that some archive holds at that moment |
| `ArchivalTheorems.ArchivesTellTheirJobs` | services/data-archival/archival_service.py:82-103 | in every run each archive's metadata tell of the job that made it: its place, its record count and digest, when it ran, and that time plus the configured years of 365 days; and each data object holds that job's records |
| `ArchivalTheorems.NothingIsPurgedEarly` | services/data-archival/archival_service.py:326-347 | a row leaves the archive only after the configured years from the time the job that copied it ran, in every run |
| `ArchivalTheorems.RemovalIsInTime` | services/data-archival/archival_service.py:326-347 | the removal of any archive begins only after those years |
| `ArchivalTheorems.DeletionLosesExactly` | services/data-archival/archival_service.py:148-165 | without the proviso: a deletion loses exactly the rows before its cutoff that no archive holds at that moment, live rows restored from an archive now removed included |
| `ArchivalTheorems.RemovalBehindAJobLoses` | services/data-archival/archival_service.py:148-165 | so a live row before the cutoff of a job about to delete, held by one archive alone, is lost when that archive is removed first |
| `ArchivalRuns.RestoredThenLost` | services/data-archival/archival_service.py:148-224 | a run from empty stores, for every chunk size and retention, in which every action but one such removal keeps the proviso and a row that was live is in neither store at the end |
| `ArchivalTheorems.JobIsARun` | services/data-archival/archival_service.py:66-120 | the writes of a job stopped after any step are those of the protocol |
| `ArchivalTheorems.JobLosesExactly` | services/data-archival/archival_service.py:66-165 | an uninterrupted job loses exactly the rows before its cutoff that its query left out and no other archive holds when it starts |
| `ArchivalTheorems.ConservedExactlyWithinChunk` | services/data-archival/archival_service.py:135-165 | when no archive holds any of the n rows before the cutoff, a completed job leaves exactly max(0, n - chunk size) of them in neither store, and conserves the table if and only if n is at most the chunk size |
| `ArchivalTheorems.TwoRowsChunkOfOne` | services/data-archival/archival_service.py:135-165 | a concrete job that loses one of two rows |
| `ArchivalTheorems.UploadIsReadBack` | services/data-archival/storage_client.py:154-203 | what an upload wrote is found by its metadata, matches its digest and unpacks to the job's records, and every other archive reads as before |
| `ArchivalTheorems.ArchiveThenRestore` | services/data-archival/archival_service.py:66-224 | within the chunk size, archiving and then restoring gives back the table, row for row |
| `RetentionSweep.SweepTablesSpares` | services/data-archival/archival_service.py:326-347 | a sweep removes nothing of an archive within its retention, nor data whose metadata were never written, and leaves hot rows alone |
| `RetentionSweep.SweepRemovesExactly` | services/data-archival/archival_service.py:326-347 | over all tables: an archive's data go if and only if it is listed with readable metadata, is past its retention and the removal is not refused; its metadata if and only if moreover the first removal is confirmed and theirs is not refused |
| `RetentionSweep.OrphansStayExactly` | services/data-archival/archival_service.py:271-283 | a data object goes if and only if metadata name it and the sweep takes that archive's data; so data whose metadata were never written never go |
| `RetentionSweep.StrandedExactly` | services/data-archival/archival_service.py:257-283 | listings being of data objects, a sweep leaves an archive's metadata without data if and only if they were so before, or the archive is listed and past its retention and the first deletion's answer is lost or the second is refused |
| `RetentionSweep.StrandedForever` | services/data-archival/archival_service.py:257-283 | such metadata stay through any number of later sweeps and jobs: they are never listed again |
| `RetentionSweep.UnexpiredStayRestorable` | services/data-archival/archival_service.py:326-347 | whatever could be restored and has time to go can still be restored, with the same records |
| `RetentionSweep.RemovalStartsWithData` | services/data-archival/storage_client.py:247-266 | a removal cut short anywhere is one or two steps of the protocol, and once begun the archive cannot be restored |
| `RetentionSweep.CountIsWhatIsGone` | services/data-archival/archival_service.py:333-347 | over all tables, when no reply is lost and no listing repeats an archive, the count is by how many the metadata have shrunk |
| `RetentionSweep.TotalIsExact` | services/data-archival/archival_service.py:333-347 | which is the number of archives past their retention that were listed, readable and not refused |
| `DataArchival.StorageClient.UploadArchive` | services/data-archival/storage_client.py:94-152 | data first, metadata only when the data are confirmed; true if and only if both are |
| `DataArchival.StorageClient.DeleteArchive` | services/data-archival/storage_client.py:236-266 | data first, metadata only when that is confirmed; true if and only if both are |
| `DataArchival.ArchivalService.ArchiveTable` | services/data-archival/archival_service.py:49-124 | the stores after exactly the steps that took effect, for any fate of each write, and metadata reported only when all were confirmed |
| `DataArchival.ArchivalService.InsertRestoredRecords` | services/data-archival/archival_service.py:226-255 | rows and count for any failures among the insertions, each passed over, the first of which ends the transaction, and any fate of the commit; a count if and only if the commit is confirmed or there was nothing to insert |
| `DataArchival.ArchivalService.RestoreArchive` | services/data-archival/archival_service.py:179-224 | a result if and only if both objects are readable, the digest matches, the data unpack, and the commit is confirmed or the archive empty; the rows return if and only if no insertion fails and the commit takes effect, reported or not, and otherwise nothing changes |
| `DataArchival.ArchivalService.ListArchivesForTable` | services/data-archival/archival_service.py:257-283 | the metadata of the listed objects that have readable ones, in order |
| `DataArchival.ArchivalService.DeleteExpired` | services/data-archival/archival_service.py:338-344 | the inner loop of the sweep and its count, in place |
| `DataArchival.ArchivalService.DeleteExpiredArchives` | services/data-archival/archival_service.py:326-347 | the nested sweep and its count, in place |
| `RegistryTheorems.Midway` | services/ml-pipeline/model_registry.py:93-132 | after any number of an operation's writes the index names the old champion with all it had, or the promoted model, which is registered and has its metadata |
| `RegistryTheorems.NeverDangling` | services/ml-pipeline/model_registry.py:199-235 | the index's champion is in the index and has a metadata file, whatever operations ran and wherever the process died |
| `RegistryTheorems.ChampionRemains` | services/ml-pipeline/model_registry.py:237-251 | once the index names a champion it always names one |
| `RegistryTheorems.ChampionIsServed` | services/ml-pipeline/model_registry.py:237-251 | when each promotion is of a model whose path the registry knows, a champion named is a champion served, at every crash point |
| `RegistryTheorems.PromotionServesExactly` | services/ml-pipeline/model_registry.py:199-251 | after a promotion that succeeds `get_champion` answers if and only if the model's path was known before it |
| `RegistryTheorems.UnservedChampion` | services/ml-pipeline/model_registry.py:366-375 | a run in which it does not: a deletion dies after the model file, then the model is promoted |
| `RegistryTheorems.PromotionMoves` | services/ml-pipeline/model_registry.py:199-235 | a completed promotion takes the mark from the index's champion, gives it to the model, and touches no other mark |
| `RegistryTheorems.PromotionKeepsOneExactly` | services/ml-pipeline/model_registry.py:212-232 | it leaves at most one champion file if and only if no model other than the old and the new champion was marked |
| `RegistryTheorems.PromotionMarksAtEveryWrite` | services/ml-pipeline/model_registry.py:211-232 | after any number of a promotion's writes: the mark leaves the old champion with the first and reaches the new one with the first of its own, and no other mark changes |
| `RegistryTheorems.PromotionKeepsOneAtEveryWriteExactly` | services/ml-pipeline/model_registry.py:211-232 | wherever a promotion dies at most one file is marked if and only if that was so before it and, unless the model lacks its metadata, no third model is marked |
| `RegistryTheorems.EnthronedAtEveryWriteExactly` | services/ml-pipeline/model_registry.py:93-376 | after any number of any operation's writes the index's champion still carries the mark if and only if the operation has not yet given it another status and is not a promotion caught between archiving the old champion and naming the new one, or without the new one's metadata |
| `RegistryTheorems.EnthronedExactly` | services/ml-pipeline/model_registry.py:93-376 | in every run, crashes included, the index's champion carries the mark after every operation if and only if no operation took it in this way |
| `RegistryTheorems.FailedPromotionUnseats` | services/ml-pipeline/model_registry.py:211-225 | a promotion that returns false for want of metadata leaves the index naming a champion whose own file no longer says so |
| `RegistryTheorems.OneChampionAlways` | services/ml-pipeline/model_registry.py:93-235 | in every run without a torn promotion only the index's champion is marked, in files and index, and at every single write at most one metadata file says champion |
| `RegistryTheorems.TornThenAnother` | services/ml-pipeline/model_registry.py:225-232 | after a promotion torn between its metadata and its index write, completing one of any other model leaves both marked |
| `RegistryTheorems.TornThenAgain` | services/ml-pipeline/model_registry.py:225-232 | completing the same promotion instead repairs the registry |
| `RegistryTheorems.TwoChampions` | services/ml-pipeline/model_registry.py:225-232 | a concrete run ending with two champion files |
| `RegistryTheorems.UpdateDoes` | services/ml-pipeline/model_registry.py:173-197 | the registry after an update, exactly: the new metadata, their status in the index, and their deployment time unless there is none or an empty one; unchanged for an unknown model or one without directory |
| `RegistryTheorems.ArchiveDoes` | services/ml-pipeline/model_registry.py:333-347 | the registry after an archival, exactly: the status archived in file and index, everything else kept |
| `RegistryTheorems.PromoteDoes` | services/ml-pipeline/model_registry.py:199-235 | every file and entry after a promotion: the old champion is archived, names its replacement and keeps its deployment time; the new one is champion and deployed now; the rest of both and all other models are unchanged; a champion promoted again says it was replaced by itself |
| `RegistryTheorems.FailedPromotionDoes` | services/ml-pipeline/model_registry.py:211-225 | one that returns false for want of metadata has archived the old champion in the same way and changed nothing else |
| `RegistryTheorems.RegistrationDoes` | services/ml-pipeline/model_registry.py:93-132 | the registry after a registration, exactly, under a new name or a known one |
| `RegistryTheorems.DeletionDoes` | services/ml-pipeline/model_registry.py:349-376 | the registry after a deletion, exactly; unknown models and the champion are left alone |
| `RegistryTheorems.CompletedAgrees` | services/ml-pipeline/model_registry.py:93-376 | a completed operation leaves no disagreement of index and metadata that was not there before |
| `RegistryTheorems.CrashDisturbs` | services/ml-pipeline/model_registry.py:93-376 | a crash can leave only the models its operation was writing in disagreement |
| `RegistryTheorems.IndexAgrees` | services/ml-pipeline/model_registry.py:93-376 | without crashes index and metadata statuses agree after every operation, and cover the same models |
| `RegistryTheorems.StaysHousedExactly` | services/ml-pipeline/model_registry.py:366-373 | an operation leaves a model of the index without its directory if and only if it is a deletion that dies between removing the directory and saving the index |
| `RegistryTheorems.StaysWholeExactly` | services/ml-pipeline/model_registry.py:93-132 | at every write of every operation the models of the index keep their metadata and model files, except exactly while a deletion is torn, or when a registered file without suffix is copied under a name that is not looked for |
| `RegistryTheorems.UpdatesNeverRaise` | services/ml-pipeline/model_registry.py:183-189 | in a run without such a deletion every model of the index has the directory its metadata are written to |
| `ModelRegistries.ModelRegistry.SaveIndex` | services/ml-pipeline/model_registry.py:74-91 | one write of the index, or a restart from the saved one |
| `ModelRegistries.ModelRegistry.Touch` | services/ml-pipeline/model_registry.py:107-119 | one write below the model directories, or a restart |
| `ModelRegistries.ModelRegistry.RegisterModel` | services/ml-pipeline/model_registry.py:93-132 | the writes of a registration up to where the process dies |
| `ModelRegistries.ModelRegistry.UpdateMetadata` | services/ml-pipeline/model_registry.py:173-197 | file, then index, up to where the process dies; false for an unknown model, an exception when its directory is gone |
| `ModelRegistries.ModelRegistry.PromoteToChampion` | services/ml-pipeline/model_registry.py:199-235 | the writes of a promotion up to where the process dies; one that reports success is named by the index |
| `ModelRegistries.ModelRegistry.ArchiveOld` | services/ml-pipeline/model_registry.py:212-219 | its first half, the old champion's metadata |
| `ModelRegistries.ModelRegistry.Crown` | services/ml-pipeline/model_registry.py:221-235 | its second half, from the new champion's metadata on |
| `ModelRegistries.ModelRegistry.ArchiveModel` | services/ml-pipeline/model_registry.py:333-347 | the writes of an archival up to where the process dies |
| `ModelRegistries.ModelRegistry.DeleteModel` | services/ml-pipeline/model_registry.py:349-376 | the writes of a deletion in either order of the directory's files; the champion is refused |
| `ModelRegistries.ModelRegistry.RemoveTree` | services/ml-pipeline/model_registry.py:366-369 | the files in either order, then the directory, up to where the process dies |
| `ModelRegistries.ModelRegistry.GetModelPath` | services/ml-pipeline/model_registry.py:134-152 | found if and only if the model is in the index and has a model file |
| `ModelRegistries.ModelRegistry.FindChampion` | services/ml-pipeline/model_registry.py:237-251 | the index's champion if it has a path |
| `RetryTheorems.CallFrom` | services/ncc-integration/atrs_client.py:187-232 | from any retry count: how many attempts are left, and that every attempt but the last earned its retry while the last alone decides the result |
| `RetryTheorems.SleepFrom` | services/ncc-integration/atrs_client.py:224-230 | from any retry count: the seconds slept are the exact geometric sum, less the retry that a 401 gives at once |
| `RetryTheorems.RetriesAreBounded` | services/ncc-integration/atrs_client.py:187-232 | for every server: at most max(max_retries, 1) + 1 attempts, at most one retry for a 401, exactly 2^(n-1) - 1 seconds of backoff over n attempts (one less after a 401), never more than 2^max_retries - 1, and the last reply decides the result |
| `RetryTheorems.ResultIsOfLastReply` | services/ncc-integration/atrs_client.py:194-232 | for every server, reply by reply: an attempt is repeated if and only if it met a 401 as the first, or a transient failure before the retries ran out; otherwise the body, the rate limit with its reset, the authentication error or the client error with its retries is returned |
| `RetryTheorems.FailingServerExhausts` | services/ncc-integration/atrs_client.py:224-232 | a server that always fails meets the bounds exactly |
| `RetryTheorems.UnauthorizedFirstAddsOne` | services/ncc-integration/atrs_client.py:212-217 | a 401 first makes even a client without retries ask twice, without sleeping |
| `RetryTheorems.RepeatedWithFreshToken` | services/ncc-integration/atrs_client.py:156-160 | the request repeated after a 401 carries the token granted for it, or is not sent |
| `RetryTheorems.AttemptsCarryTokens` | services/ncc-integration/atrs_client.py:111-160 | every attempt carries exactly the token held then, if more than a minute is left to it, or else one granted for it, or is not sent |
| `RetryTheorems.SentTokenIsFresh` | services/ncc-integration/atrs_client.py:111-160 | so a token sent was granted in that turn, or has more than a minute left and was granted earlier in the call or held before it |
| `RetryTheorems.CallLeavesToken` | services/ncc-integration/atrs_client.py:212-218 | the client is left with the token of the last attempt; only a first one refused is dropped |
| `NccIntegration.AtrsClient.IsTokenExpired` | services/ncc-integration/atrs_client.py:111-117 | a token serves until a minute before its expiry |
| `NccIntegration.AtrsClient.RefreshToken` | services/ncc-integration/atrs_client.py:119-154 | a grant replaces token and expiry; a refusal or failure changes nothing and is reported |
| `NccIntegration.AtrsClient.Send` | services/ncc-integration/atrs_client.py:162-232 | the recursion, with token, attempts and sleeping updated in place |

## Left out

- Web interface, GraphQL, scripts, deployment orchestration, fraud analytics and model training: presentation, wiring or library behaviour.
- The gateway cache, pagination, blacklist management, traffic splitter and health checks: tallies and table lookups.
- Alert life cycle after creation (`services/detection-engine/src/application/alert_service.rs`): its transitions live in aggregates that are not part of this model.
- The breaker's decorator, registry and thread-level use: one event loop is modelled, in which the lock is never contended.
- VoiceSwitch.CircuitBreaker.BeginCall: does not model the fallback function's own result, nor the last success and failure times kept for display.
- DetectionEngine.DetectionService.RegisterCall: does not model the parsing of numbers and addresses, the switch information, nor the time-series store, whose failures the code ignores; it reads the clock once, while the protocol of `EvidenceProtocol` and `AlertRaces` has a reading for each operation.
- RateCounters.SlidingWindow.RecordCall: call durations, which it does not touch, are not modelled.
- MnpService.MnpHandlers.LookupMsisdn: latency and the time of last update are not modelled; two lookups do not interleave, and a record has the same form in both caches, although `get_mnp` in `services/management-api/mod.rs` returns a reduced one.
- DataArchival.ArchivalService.ListArchivesForTable: the listing is any sequence of object keys, so its limit of 1000 keys is covered, but nothing says that every expired archive is eventually listed.
- ArchivalTheorems.NoRowIsEverLost: rows are inserted once and not updated while hot.
- ModelRegistries.ModelRegistry.RegisterModel: version, score and path in the index entry never change and are not modelled; listing and comparing models only read.
- ModelRegistries.ModelRegistry.SaveIndex: a process that survives a failed write and goes on with its index in memory is not modelled; the model's process restarts.
- NccIntegration.AtrsClient.Send: request headers and bodies are not modelled.
- Eventual behaviour: all theorems are about what holds at every point of a run, not about what must happen in the end.
