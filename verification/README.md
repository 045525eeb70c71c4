# Verification of the sleepy sensor's protocols

A Dafny model of the stateful cores of a battery-powered temperature and humidity sensor: the resumable firmware
download over MQTT, the memory two processor cores share, the history ring, the calibration average, the transmit-power
trials, the persistent broker session and the restart supervisors; and of three of its host tools. What the firmware
changes in place is a class whose methods are proved against a specification; what the properties say is proved about
that specification as lemmas over every input, every interleaving or every run.

| file | what it models |
|---|---|
| `Words.dfy` | 32-bit unsigned arithmetic, written out |
| `OtaDownload.dfy` | the partial download as a value: chunks, flash, streaming hash, boot flip |
| `OtaUpdater.dfy` | the session task and the MQTT event task sharing that download; the reconnect loop |
| `OtaStager.dfy` | cutting an image into retained chunks, and the order in which a staging is published |
| `OtaManifest.dfy` | the manifest as printed by the stager and as read by the firmware |
| `LpCore.dfy`, `LpSensor.dfy`, `LpSchedule.dfy` | the low-power core's program: its stores, its measuring loops, its silence |
| `Seqlock.dfy` | the main core's snapshot of that memory, field by field |
| `Delivery.dfy` | acknowledgements from core to core; which snapshots are published |
| `Supervisor.dfy` | the main loop, the stall and the unconfirmed-image restarts |
| `StallTiming.dfy` | the times of both cores together: when a working LP core is taken for a stalled one |
| `HistoryRing.dfy` | the overwriting ring with wrapping counters, its replay, and the count of acknowledgements |
| `ColdCalibration.dfy` | the moving average whose length changes live |
| `TxPower.dfy` | the transmit-power trial and revert machine |
| `SessionFlag.dfy` | when a wake may go without a SUBSCRIBE |
| `Crc8.dfy` | the checksum of the sensor frames |
| `HaHistory.dfy`, `Regression.dfy` | reconstruction of a de-duplicated history export; the weighted fit |
| `BrokerLogDates.dfy` | dates for log lines that carry only a time of day |

`dafny verify dfyconfig.toml` checks everything.

## How it is modelled

* Two tasks or cores that share memory are steps. `OtaUpdater.EventTaskRuns` and `HistoryRing.HistoryLog.ProducerRuns`
  stand wherever the other side may run, and take any number of its steps. `LpCore.LpProgram` logs the memory after each
  of its stores, and `Seqlock` lets a reader load every field at any moment of that log. `Delivery`, `SessionFlag`,
  `TxPower` and `Supervisor` are state machines over arbitrary event sequences.
* Foreign calls (flash, hash, radio, MQTT client, timers, non-volatile storage) are parameters or arbitrary choices. The
  SHA-256 is an uninterpreted function. The streaming hash is sticky: once an update failed it never finishes.
* Counters are bounded and wrap explicitly; next to them the unbounded count is kept for the specification. Temperatures
  and humidities are reals, times are integers.
* MQTT is assumed to deliver in order on one connection (MQTT 3.1.1, section 4.6).
* What a broker sends on the chunk topics is a constant of `OtaUpdater.Updater`: anything at all; only the retained
  slices, over a link and flash that may fail; or each slice as it is subscribed, with nothing failing.
* The LP timer is assumed to start its interval when an invocation returns. Delays are counted as programmed; the
  duration of the bus transfers is not.

## What does not hold

Where the code departs from its documentation or from what one would expect, the model follows the code, and a lemma
says exactly when:

* A failing finalisation of a *resumed* download resets the attempt budget, because progress is computed after the
  discard: the same bad image can be fetched for ever (`OtaUpdater.BadImageNeverGivenUp`).
* The chunk numbered like the chunk count is accepted after the last one, at one particular length
  (`OtaDownload.SurplusChunkAccepted`); no subscription of a session asks for it.
* While stale chunks are cleared, the old manifest is retained without all of its chunks, exactly when the old image had
  more of them (`OtaStager.Broker.Stage`).
* A version that needs a JSON escape, or that reads like a manifest key, is not read back
  (`OtaManifest.ManifestRoundTrip`).
* If all ten attempts of a snapshot find the counter odd, nothing is copied and the caller's zeros stay
  (`Seqlock.GetState`). If some attempt copied and none was clean, the caller keeps the last copy, which can be torn,
  although a comment at `components/lp_sensor_core/lp_sensor_core.c:143-145` says it is not
  (`Seqlock.TornFallThrough`). While no protected field takes an earlier value again, it can be torn exactly if at
  least two protected fields changed between the two looks of the last attempt that copied (`Seqlock.TornIff`,
  `Seqlock.FallThroughTornIff`). The heartbeat in it is always one that the memory held (`Seqlock.HeartbeatAsItStood`).
* The snapshot published while the heater runs pairs a new heartbeat with the values and flag of the invocation before
  (`Delivery.HeaterSnapshot`). So values are published twice exactly if one wake reads an invocation finished and a
  later one the heater of the next, or if the next reading fails and its fault is published with the old values
  (`Delivery.ValuesTwiceIff`, `Delivery.ValuesTwiceHappens`, `Delivery.FaultRepeats`). And a heartbeat is published
  twice exactly if a wake read the heater running, the last one before the second publish fell into the window after
  that, and the second read the end (`Delivery.BeatTwiceIff`, `Delivery.BeatTwiceHappens`).
* A working LP core can be restarted for a stalled one. Told by the looks of the main core, a restart is the second of
  two timed-out ones either over a silence of two safeguard windows, or over looks that all read zeroes on a remembered
  zero (`Supervisor.StallAlarmIff`).
  * Over zeroes it happens under every setup: `main/sensorstask.cpp:270-275` promises no restart for a broken sensor,
    but one that never answers is never flagged, so only timeouts wake the main core, and two looks into the averaged
    reading restart it (`StallTiming.BrokenSensorAlarms`, with the shipped settings
    `StallTiming.ShippedBrokenSensorAlarms`).
  * Over a silence it happens exactly if the longest heater run, a poll and the averaged reading outlast two windows,
    although a comment at `main/sensorstask.cpp:161` rules heater runs out (`StallTiming.FalseAlarmIff`). With 20 s
    polls that is a promised gap below 160 s (`StallTiming.TwentySecondPolls`). With the shipped 300 s it does not
    happen: every such restart has read zeroes twice (`StallTiming.ShippedAlarmsAreZeroed`).
* The comment that the LP program reads each configuration field once per cycle
  (`components/lp_sensor_core/include/shared_layout.h:30-32`) does not hold for the heater's period and trigger and for
  the humidity offset. A period or trigger retuned between its two reads has an effect that neither value has exactly
  if it is switched off before it was due: the heater then runs unasked (`LpCore.PeriodSplitIff`,
  `LpCore.TriggerSplitIff`). The humidity judged and the one published agree exactly if the two reads of the offset do,
  or both are clamped at one end (`LpCore.OffsetSplitIff`).
* Acknowledgements are counted, not matched: a replayed batch is consumed by its own exactly if no other message was in
  flight when it was sent (`HistoryRing.OwnAckIff`).
* Every time the sample count is set, even to what it is, seven more calibrations can be rejected in a row
  (`ColdCalibration.RetunesStretchTheRun`).
* An out-of-range transmit power whose clamped value failed its trial goes on trial again when redelivered
  (`TxPower.OutOfRangeRejectRestarts`), and a revert during an update lowers the pinned power
  (`TxPower.RevertDuringUpdateLowersPower`).
* One lost CONNACK of a freshly created session leaves the flag set on an empty session until the broker forgets it or
  the device restarts (`SessionFlag.LostConnAckOrphans`, `SessionFlag.LostConnAckRun`, `SessionFlag.OrphanStays`).

## Model

| member | source | states |
|---|---|---|
| OtaDownload.HandleChunkKeeps | main/ota_updater.cpp:227-270 | any chunk message, however wrong or late, and any outcome of the flash and hash calls keep flash, hash and accepted chunks in agreement; progress only ever extends |
| OtaDownload.ChunkTakenIff | main/ota_updater.cpp:233-270 | exactly which messages extend a download, and by what; which are ignored; and that of the rest only a failing hash update after its flash write leaves a trace |
| OtaDownload.DeliveriesKeep | main/ota_updater.cpp:227-270 | the same over every sequence of deliveries |
| OtaDownload.BeginKeeps | main/ota_updater.cpp:392-434 | starting or resuming keeps the download consistent, and what is valid afterwards is of the session's image, so re-staging cannot mix two images |
| OtaDownload.ResumesIff | main/ota_updater.cpp:392-434 | whatever manifest was staged meanwhile, a session continues the kept download untouched exactly if it is of the same image; otherwise nothing fetched before is left, and it starts exactly if there is a slot of that size and the calls succeed |
| OtaDownload.DiscardForgets | main/ota_updater.cpp:274-284 | after a discard no delivery brings anything back, nothing is flipped to, and the next session starts at chunk 0 |
| OtaDownload.TotalIsCeiling | main/ota_updater.cpp:390 | the chunk count is the size over the chunk size rounded up, with no wrap for an image that fits a slot |
| OtaDownload.ExpectedInside | main/ota_updater.cpp:234-235 | inside the image the unsigned arithmetic gives the real remaining length, and positions add up |
| OtaDownload.ProgressCounter | main/ota_updater.cpp:259-260 | the bytes received are min(next chunk * chunk size, size), and equal the size exactly when the last chunk was counted |
| OtaDownload.SurplusChunkAccepted | main/ota_updater.cpp:234-262 | after the last chunk exactly one more is still accepted: the one numbered like the count, of one particular length |
| OtaDownload.NoSurplusFromSubscribed | main/ota_updater.cpp:466-516 | deliveries of chunk numbers inside the image never go past the count |
| OtaDownload.FlipIsVerified | main/ota_updater.cpp:530-552 | the boot partition is only pointed at contents that have the manifest's SHA-256, are the accepted chunks in order, and have the manifest's size |
| OtaDownload.BrokenNeverFlips | main/ota_updater.cpp:253-258 | once a hash update failed after its flash write, no later delivery makes the download pass |
| OtaDownload.HonestDeliveriesServe | main/ota_updater.cpp:243-260 | if deliveries carry the staged slices, in any order, number and timing, what is accepted is a prefix of the slices |
| OtaUpdater.Updater.UpdateDue | main/ota_updater.cpp:344-355 | a session that is due has budget left and a manifest whose chunk count is defined and fits 32 bits |
| OtaUpdater.Updater.HandleImageChunk | main/ota_updater.cpp:233-270 | the handler computes the specified step and announces exactly what it judged |
| OtaUpdater.Updater.FinishChunk | main/ota_updater.cpp:233-270 | under the mutex a held chunk makes the specified step, leaves the download consistent, and a counted one is announced |
| OtaUpdater.Updater.SetBit | main/ota_updater.cpp:262-269 | the bit of what was judged is set after the mutex is released, the other stays, and nothing announced before is lost |
| OtaUpdater.Updater.PickUp | main/ota_updater.cpp:230-231 | outside a session chunks and errors are dropped; in one a dead connection is latched together with the failure bit, and a message is held |
| OtaUpdater.Updater.EventTaskRuns | main/ota_updater.cpp:227-342 | however many steps the event task takes, the download stays consistent and every counted chunk is announced; slices in, a prefix of the slices is kept; nothing goes wrong by itself |
| OtaUpdater.Updater.WaitBits | main/ota_updater.cpp:494-496 | a wait returns what was announced and clears it; while a subscribed chunk of a prompt broker is outstanding it does not time out |
| OtaUpdater.Updater.BeginOrResume | main/ota_updater.cpp:392-434 | a session begins exactly as specified, on its own image |
| OtaUpdater.Updater.SubscribeUpTo | main/ota_updater.cpp:475-487 | subscriptions are made in order, each chunk once, while chunks arrive |
| OtaUpdater.Updater.PullTurn | main/ota_updater.cpp:493-525 | one turn keeps exactly [start, min(done + 2, total)) subscribed; a failure bit ends the session at once, blaming the connection exactly if it was lost; a timeout names a chunk that is subscribed; a turn without progress uses up a pending signal |
| OtaUpdater.Updater.Refill | main/ota_updater.cpp:511-525 | every completion since the last turn is counted, and the window refilled for each; an incomplete session past its time cap ends |
| OtaUpdater.Updater.Pull | main/ota_updater.cpp:466-526 | the loop terminates, and ends without a reason only when every chunk was counted, none of two completions behind one bit being lost; with a prompt broker it does end so |
| OtaUpdater.Updater.PullSession | main/ota_updater.cpp:445-528 | over a whole connection each chunk number is subscribed once, at most two beyond the counted ones; a prompt broker answering those subscriptions completes the download |
| OtaUpdater.CompleteDownload | main/ota_updater.cpp:529-552 | what finalising a complete download can conclude: digest and size, and that slices in are the slices put together |
| OtaUpdater.Updater.Finalise | main/ota_updater.cpp:531-552 | the boot partition is set to verified contents of the manifest's size, or left alone; either way the download is discarded; only a failing call or a wrong digest stops it |
| OtaUpdater.Updater.SettleAttempts | main/ota_updater.cpp:553-574 | the unsigned difference resets the budget whenever the counter differs from the session's start |
| OtaUpdater.Updater.RunSession | main/ota_updater.cpp:367-586 | a whole session: deferral changes nothing, the boot partition changes only by a verified flip, a broken one keeps its download, exactly when an attempt is spent, and that it blames the image exactly if it finalised and the connection only if it was lost; with slices as the only deliveries a reboot boots them put together, and with a prompt broker it reboots |
| OtaUpdater.Updater.OneMore | main/mqtt_sender.cpp:1288-1308 | the loop goes on exactly if the session lost its connection without booting, an update is still due afterwards (requested, a valid and different manifest, fewer than three attempts spent) and the finalisations followed through are not used up; it had then begun; chunks left, then attempts left, go down |
| OtaUpdater.Updater.RunOtaIfDue | main/mqtt_sender.cpp:1267-1308 | the reconnect loop ends, and only because no update is due, an attempt to connect fails, the last session boots the image or kept its connection, or one more finalisation failed than it is followed through; a due update whose first connection comes about gets a session; every session but the last was cut off by the loss of its connection |
| OtaUpdater.SessionsBounded | main/ota_updater.cpp:344-355 | while no session finalises, there are at most three for every chunk fetched, plus the budget |
| OtaUpdater.AttemptsAre | main/ota_updater.cpp:553-574 | the attempts spent are the sessions since the last one that was spared |
| OtaUpdater.BadImageNeverGivenUp | main/ota_updater.cpp:551-574 | alternating broken and failing resumed sessions never use the budget up |
| OtaStager.SliceAt | tools/ota_push.py:204 | how many slices there are, and which bytes each one is |
| OtaStager.SlicesMatchManifest | tools/ota_push.py:204-211 | the device computes the number of slices staged, and expects each at its length |
| OtaStager.FlatOfSlices | tools/ota_push.py:204 | the slices put together are the image |
| OtaStager.StagedImageFlips | main/ota_updater.cpp:530-552 | a complete download of staged slices holds the image and verifies |
| OtaStager.StagedSession | main/ota_updater.cpp:367-586 | end to end, from whatever earlier sessions left: a session fed only the staged slices, late, repeatedly or not at all, boots the image if it reboots; if each of its subscriptions is answered and nothing fails, it does |
| OtaStager.Broker.ClearStale | tools/ota_push.py:126-136 | surplus chunks go before the manifest; a retained manifest stays complete meanwhile exactly if none of its own chunks was surplus |
| OtaStager.Broker.PublishImage | tools/ota_push.py:218-223 | with chunks first and manifest last, no device finds a manifest without all its chunks |
| OtaStager.Broker.Stage | tools/ota_push.py:202-226 | every store a device can find during a staging is complete, exactly unless the previous image had more chunks; at the end it holds the image |
| OtaManifest.SearchStep | main/ota_updater.cpp:140-150 | searching a text cut at its quotes finds a key exactly where a part equals it |
| OtaManifest.SizeRoundTrip | main/ota_updater.cpp:165-172 | a printed number is read back exactly if it fits 32 bits |
| OtaManifest.NibbleIff | main/ota_updater.cpp:118-123 | a hex digit is read in either case, and nothing else is one |
| OtaManifest.HexRoundTrip | main/ota_updater.cpp:113-130 | a hex digest is read back |
| OtaManifest.FieldsRead | main/ota_updater.cpp:140-163 | what the extraction finds for each of the five fields, including a version that shadows a key |
| OtaManifest.EscapedNeverUnderstood | tools/ota_push.py:205-211 | a version that JSON has to escape never comes back |
| OtaManifest.ManifestRoundTrip | main/ota_updater.cpp:174-217 | the firmware reads the stager's five values back exactly when version, size and chunk size meet the stated condition |
| OtaManifest.StoredIsWellFormed | main/ota_updater.cpp:196-212 | whatever message arrives, a manifest that is taken in has usable sizes and a full digest |
| LpCore.LpProgram.ConsumeAck | components/lp_sensor_core/lp_core/main.cpp:248-253 | the acknowledgement block as its four stores, in order and outside the locked window; none without a new acknowledgement |
| LpCore.LpProgram.RunHeater | components/lp_sensor_core/lp_core/main.cpp:291-316 | the heater block publishes one stable snapshot in the middle, and what it is |
| LpCore.LpProgram.Process | components/lp_sensor_core/lp_core/main.cpp:269-343 | the branch of a successful reading makes the specified stores under the lock; what they are in numbers is `LpSchedule.ChangeStaysFlagged` |
| LpCore.LpProgram.Poll | components/lp_sensor_core/lp_core/main.cpp:241-358 | one invocation computes the memory that the run laws of `LpSchedule` are about, keeps the lock's discipline at every store, and shows a reader two reports, or three if the heater is on |
| LpCore.PeriodSplitIff | components/lp_sensor_core/lp_core/main.cpp:280-281 | a period retuned between its two reads: when the invocation does what neither period says, and that it then heats |
| LpCore.TriggerSplitIff | components/lp_sensor_core/lp_core/main.cpp:282-283 | the same of the humidity trigger |
| LpCore.OffsetSplitIff | components/lp_sensor_core/lp_core/main.cpp:278-322 | when the humidity that the trigger counts is the one published |
| LpSensor.MeasureAveraged | components/lp_sensor_core/lp_core/main.cpp:156-176 | the mean of the readings that succeeded, none exactly if all failed, and how long its delays are |
| LpSensor.AverageWithin | components/lp_sensor_core/lp_core/main.cpp:156-176 | the mean lies between the extreme readings |
| LpSensor.TotalOfBoth | components/lp_sensor_core/lp_core/main.cpp:159-170 | what is divided is the sum of the readings: the total of two parts is the sum of theirs, in both quantities |
| LpSensor.GoodOfBoth | components/lp_sensor_core/lp_core/main.cpp:161-170 | which readings are averaged: those of the parts that succeeded, in order, a failed one contributing nothing |
| LpSensor.Pulse | components/lp_sensor_core/lp_core/main.cpp:195-207 | pulsing stops at the first one that reaches the target, within the window |
| LpSensor.CoolDown | components/lp_sensor_core/lp_core/main.cpp:216-227 | cooling stops at the first reading at most 0.3 degrees above the baseline, or at the cap of 120 looks |
| LpSensor.LastGoodIs | components/lp_sensor_core/lp_core/main.cpp:213-237 | what a loop hands on is the newest measurement that succeeded |
| LpSensor.RunHeaterMaintenance | components/lp_sensor_core/lp_core/main.cpp:185-238 | skipped exactly if the baseline fails, passed exactly if an allowed pulse reaches the target; it hands on the last successful measurement of the run, and its delays add up to this time |
| LpSensor.RunIsDetermined | components/lp_sensor_core/lp_core/main.cpp:185-238 | the sensor's answers alone decide a run's result and its time |
| LpSensor.RunIsBounded | components/lp_sensor_core/lp_core/main.cpp:185-238 | no run takes longer than all pulses, all cooling looks and the settling |
| LpSensor.LongestIsAttained | components/lp_sensor_core/lp_core/main.cpp:185-238 | a sensor for which a run takes that long |
| LpSchedule.BudgetSpent | components/lp_sensor_core/lp_core/main.cpp:330-343 | over any run without a new acknowledgement, the budget counts exactly the unflagged polls |
| LpSchedule.StalenessBound | components/lp_sensor_core/lp_core/main.cpp:326-350 | from an acknowledgement on at most maxSkip polls go unflagged in all, then every poll is flagged |
| LpSchedule.FlaggedInTime | components/lp_sensor_core/lp_core/main.cpp:326-350 | among maxSkip + 1 polls from an acknowledgement on, one is flagged |
| LpSchedule.ChangeStaysFlagged | components/lp_sensor_core/lp_core/main.cpp:317-350 | over any run without a new acknowledgement: the value published is the reading (the clean one after maintenance) plus the offset, kept within the limits, and it is flagged exactly if the quiet polls used the budget up, or it lies at least a threshold above or below the acknowledged temperature or humidity |
| LpSchedule.FaultFlaggedOnce | components/lp_sensor_core/lp_core/main.cpp:345-350 | over any run a failed reading is flagged exactly if the reading before succeeded, and leaves values and heater as they were |
| LpSchedule.StatusCounts | components/lp_sensor_core/lp_core/main.cpp:262-264 | over any run the heartbeat counts the polls, and the failure count is how many of the last polls failed in a row |
| LpSchedule.HeaterRecord | components/lp_sensor_core/lp_core/main.cpp:291-316 | over any run the heater's record counts the completed maintenances and holds number, temperature rise and verdict of the latest; the heater is never left marked on |
| LpSchedule.HeaterEveryPeriod | components/lp_sensor_core/lp_core/main.cpp:277-316 | over any run the periodic self-test is on in exactly every period-th poll |
| LpSchedule.HeaterEveryTrigger | components/lp_sensor_core/lp_core/main.cpp:277-316 | while it stays humid the other heater is on in exactly every trigger-th poll |
| LpSchedule.GapKept | main/runtime_config.cpp:189-194 | the converted budget is the largest that keeps the promised gap |
| LpSchedule.SafeguardIsTwoPollsLater | main/sensorstask.h:172-175 | the safeguard is two polls past the longest silence, also after a live change exactly if the budget did not grow past the boot's |
| LpSchedule.MinutesKept | main/runtime_config.cpp:174-179 | the heater interval is the shortest in polls that is not below the configured minutes |
| Seqlock.CounterTracksBumps | components/lp_sensor_core/lp_core/main.cpp:257-352 | the wrapping counter counts the steps of any history of stores |
| Seqlock.CleanReadIsOnePoint | components/lp_sensor_core/lp_sensor_core.c:134-142 | a clean attempt copies every protected field as it stood at one even point, for every interleaving of loads and stores |
| Seqlock.GetState | components/lp_sensor_core/lp_sensor_core.c:126-146 | the retry loop succeeds exactly if an attempt is clean; otherwise it leaves the last copy made, and the output as it was if none was |
| Seqlock.TornIff | components/lp_sensor_core/lp_sensor_core.c:134-142 | while no protected field takes an earlier value again, some order of an attempt's loads gives a snapshot that the memory never held exactly if two protected fields changed between its looks at the counter |
| Seqlock.FallThroughTornIff | components/lp_sensor_core/lp_sensor_core.c:126-146 | the same of what a call that falls through leaves, told by its last attempt that copied |
| Seqlock.HeartbeatAsItStood | components/lp_sensor_core/lp_sensor_core.c:126-146 | the heartbeat left by a call that falls through is the caller's, if every attempt found the counter odd, or one that the memory held during the call |
| Seqlock.TornFallThrough | components/lp_sensor_core/lp_sensor_core.c:143-145 | ten attempts that leave a snapshot the memory never held |
| Seqlock.CleanReadIsStable | components/lp_sensor_core/lp_core/main.cpp:257-352 | a clean read in the course of an invocation is one of the stable reports it leaves |
| Seqlock.BaselineMayBeTorn | components/lp_sensor_core/lp_core/main.cpp:248-257 | the delivered baseline, stored before the window, can be torn in a clean read |
| Delivery.BaselineIsConfirmed | components/lp_sensor_core/lp_sensor_core.c:148-158 | in every interleaving each baseline component is zero or confirmed, and never older than the recorded counter |
| Delivery.QuietConsumptionIsNewest | components/lp_sensor_core/lp_core/main.cpp:248-253 | with no store in flight the baseline becomes the newest confirmed pair |
| Delivery.MixIsTemporary | components/lp_sensor_core/lp_core/main.cpp:248-253 | a mixed pair is always followed by another consumption |
| Delivery.SecondReadLosesAck | components/lp_sensor_core/lp_core/main.cpp:243-252 | recording a second read of the counter would lose an acknowledgement; recording the first does not |
| Delivery.PointsOfPoll | components/lp_sensor_core/lp_core/main.cpp:241-358 | the points looked at are those at which an invocation leaves the memory readable |
| Delivery.PublishedIff | main/sensorstask.cpp:121-150 | a read publishes exactly if it is clean, flagged, and not preceded by a clean one of the same invocation |
| Delivery.BeatTwiceIff | main/sensorstask.cpp:113-150 | exactly when one heartbeat is published twice |
| Delivery.BeatTwiceHappens | main/sensorstask.cpp:113-150 | a run from loading the program on in which it is |
| Delivery.ValuesTwiceIff | main/sensorstask.cpp:113-150 | exactly when two publishes carry the values of one reading |
| Delivery.ValuesTwiceHappens | main/sensorstask.cpp:113-150 | a run in which they do, over a running heater |
| Delivery.FaultRepeats | components/lp_sensor_core/lp_core/main.cpp:345-350 | a run in which they do, over a fault |
| Delivery.NeverTwice | main/sensorstask.cpp:143-150 | where no heater runs and no reading fails, neither is ever published twice |
| Delivery.HeaterSnapshot | components/lp_sensor_core/lp_core/main.cpp:291-316 | what a wake during a heater run publishes, and that the run's own flag is then not acted on |
| Supervisor.SensorsTask.Publish | main/sensorstask.cpp:230-265 | at most one of acknowledging and logging follows a publish, neither for an update-only cycle |
| Supervisor.SensorsTask.Service | main/sensorstask.cpp:100-289 | in the pass's own fields: exactly when a pass publishes live, publishes only for a pending update, acknowledges, logs, finds a stall, and counts as healthy |
| Supervisor.SensorsTask.Cycle | main/sensorstask.cpp:84-358 | one pass of the loop: the same effects, a download running at the check never counts against the image, and the state that the laws over runs are about |
| Supervisor.StallRebootIff | main/sensorstask.cpp:311-320 | a stall restart happens exactly at the second full-window timeout without advance, none having been seen in between |
| Supervisor.ConfirmedSurvives | main/sensorstask.cpp:311-340 | from the pass on that confirms an image it stays confirmed, and nothing but a stalled LP core restarts it, whatever else the passes are |
| Supervisor.UnconfirmedRebootIff | main/sensorstask.cpp:327-340 | an unconfirmed image is restarted exactly at the fifth cycle in a row that fails; which cycles do is `Supervisor.FailsIff` |
| Supervisor.FailsIff | main/sensorstask.cpp:282-340 | told by the passes alone: a cycle fails exactly if the image is still on trial, no download runs at the check, and the pass was not attached, found a stall, or published without a confirmation in time |
| Supervisor.ConfirmedAt | main/sensorstask.cpp:241-244 | the image is confirmed exactly by the boot's first confirmed publish, if its state can be read then |
| Supervisor.DownloadIsHealthy | main/sensorstask.cpp:282-289 | no run of passes that end with a download running gives an image up, and none restarts the chip at all while the download was running at their start too |
| Supervisor.OtaOnlyIff | main/sensorstask.cpp:143-180 | over any run, which passes publish the LP core's values and which only start a pending update: attached, no download, an update due, no fresh flag, and not a timed-out look without advance |
| Supervisor.ReasonIs | main/sensorstask.cpp:349-357 | the reason a pass finds is that of the wait before it, and at boot that of a wake |
| Supervisor.LiveIffPublishes | main/sensorstask.cpp:143-168 | a pass publishes live exactly if it is attached, no download runs and its snapshot is one that Delivery says is published |
| Supervisor.StallRestartLooks | main/sensorstask.cpp:113-320 | a stall restart happens exactly at the second of two timed-out looks, when all looks from the first on read what was remembered before it |
| Supervisor.StallAlarmIff | main/sensorstask.cpp:113-320 | with looks that read the heartbeat or zeroes, a restart happens exactly over a silence of two whole windows or over zeroed looks on a remembered zero |
| StallTiming.GapBound | components/lp_sensor_core/lp_core/main.cpp:257-316 | the longest time between two steps of the heartbeat |
| StallTiming.AlarmNeedsGap | main/sensorstask.cpp:311-357 | a restart over a working LP core is one of zeroed looks, or the setup's longest silence outlasts two windows |
| StallTiming.ZeroedTwice | main/sensorstask.cpp:113-165 | where the window outlasts the first poll, both stalls of a restart over zeroes read them from a working LP core |
| StallTiming.BrokenIsQuiet | components/lp_sensor_core/lp_core/main.cpp:345-350 | an LP core whose readings fail from the first on never flags |
| StallTiming.ZeroesAwaited | main/sensorstask.cpp:349-357 | the run of the broken sensor is one the code can have: every wait times out with no wake asked for, and every look follows within the attach time |
| StallTiming.BrokenSensorAlarms | main/sensorstask.cpp:270-275 | under every setup a sensor that never answers can have a working LP core restarted, over two zeroed looks |
| StallTiming.SlowHeater | components/lp_sensor_core/lp_core/main.cpp:277-316 | in the run of the slow heater the heater is reached from the zeroed memory at the beat where it is claimed to be |
| StallTiming.SlowIsUnflagged | components/lp_sensor_core/lp_core/main.cpp:326-350 | that run's last value is as good as delivered, so no wake ends the silence |
| StallTiming.SlowIsAwaited | main/sensorstask.cpp:349-357 | that run is one the code can have: every wait ends at the first wake asked for or at its timeout, and no wake is lost |
| StallTiming.FalseAlarmIff | main/sensorstask.cpp:159-167 | apart from zeroed looks, some run restarts the chip over a working LP core exactly if the longest silence of the setup outlasts two safeguard windows; with ordinary settings a run the code can have |
| StallTiming.RuntimeSettingsAreOrdinary | main/runtime_config.h:95-96 | with at most 16 samples, the most the runtime settings allow, all settings whose times fit 32 bits are ordinary |
| StallTiming.TwentySecondPolls | main/sensorstask.h:172-175 | apart from zeroed looks, with 20 s polls, two samples and a heater, exactly below a gap of 160 s |
| StallTiming.ShippedAlarmsAreZeroed | device_config.yaml:5-10 | with the shipped settings every restart over a working LP core has two stalls that both read zeroes on a remembered zero |
| StallTiming.ShippedBrokenSensorAlarms | device_config.yaml:5-10 | and such a restart there is, in a run the code can have |
| HistoryRing.RingIndexWraps | main/history_log.cpp:42-45 | the slot of a wrapped counter is the slot of the unbounded one |
| HistoryRing.CorrectedTailIsOldest | main/history_log.cpp:52-55 | the corrected wrapped tail is the oldest record not lost, and the wrapped difference the true count |
| HistoryRing.IntactExactlyUntilLapped | main/history_log.cpp:135-144 | a copied element has the readings of the record asked for exactly while the producer is within one capacity of it |
| HistoryRing.EntryFields | main/history_log.cpp:83-90 | an entry carries the record's temperature and humidity, and its age in whole seconds, 0 if it lies in the future |
| HistoryRing.HistoryLog.Append | main/history_log.cpp:94-105 | appending extends the log and keeps the newest records in the ring |
| HistoryRing.HistoryLog.HasPending | main/history_log.cpp:107-110 | pending exactly if the cursor is behind the log |
| HistoryRing.HistoryLog.PeekBatch | main/history_log.cpp:112-145 | a batch is the log from max(cursor, head - 8192) on, in order, across both wraps, while appends go on; skipped records are marked overwritten |
| HistoryRing.HistoryLog.Advance | main/history_log.cpp:147-150 | advancing confirms exactly that many records |
| HistoryRing.OwnAckIff | main/mqtt_sender.cpp:586-590 | the bit stands for the message just sent exactly if nothing else was in flight |
| HistoryRing.MqttCtx.Published | main/mqtt_sender.cpp:586-590 | the handler counts any acknowledgement and sets the bit as specified |
| HistoryRing.EachCountedOnce | main/mqtt_sender.cpp:586-590 | whatever is acknowledged in whatever order, each message is counted once, and the bit is set from the expected number on |
| HistoryRing.MqttCtx.SendAndWait | main/mqtt_sender.cpp:1130-1139 | with nothing else in flight the wait succeeds exactly if the broker acknowledged this message |
| HistoryRing.HistoryLog.ReplayBatch | main/mqtt_sender.cpp:1111-1147 | a batch is consumed exactly if the wait for it succeeds; with nothing else in flight that is its own acknowledgement |
| HistoryRing.HistoryLog.Replay | main/mqtt_sender.cpp:1103-1148 | batches go out until five were sent, nothing is pending or one was not acknowledged; every confirmed record was carried by a batch, which with nothing else in flight the broker acknowledged; each record is confirmed, overwritten or pending |
| HistoryRing.SeamIndex | main/history_log.cpp:132-143 | the two physical chunks visit the slots in order |
| ColdCalibration.MeanWithin | main/rtc_clock_fix.cpp:87-94 | the rounded mean never leaves the range of its values |
| ColdCalibration.MeanIsNearest | main/rtc_clock_fix.cpp:87-94 | the mean times the number of values is within half that number of their sum, halves going up; the sum is the one with `ColdCalibration.SumOfOne` and `ColdCalibration.SumOfBoth` |
| ColdCalibration.SumOfBoth | main/rtc_clock_fix.cpp:91-93 | the sum of a concatenation is the sum of the sums |
| ColdCalibration.FarOffIsTwoPercent | main/rtc_clock_fix.cpp:99-101 | the glitch check is a jump of more than two percent of the mean, up or down |
| ColdCalibration.ColdClock.UpdateMean | main/rtc_clock_fix.cpp:87-94 | the loop computes the mean of the newest min(count, samples) values: they exceed and miss it by the same, to within half a unit each; within 64 bits |
| ColdCalibration.ColdClock.AcceptCold | main/rtc_clock_fix.cpp:97-116 | accept, reject or restart, with every total kept: candidates are taken plus rejected |
| ColdCalibration.ColdClock.OnLightSleepExit | main/rtc_clock_fix.cpp:121-132 | which wakes yield a candidate, and what becomes of the history then |
| ColdCalibration.ColdClock.SetSamples | main/rtc_clock_fix.cpp:134-153 | a live change keeps the history, or empties it when it was off, and recomputes the mean |
| ColdCalibration.ColdClock.WrapCal | main/rtc_clock_fix.cpp:71-83 | the wrap answers with the mean of exactly the newest `samples` values, once there are as many, and else with the real call; each sleep is counted as what it was |
| ColdCalibration.WindowIsHistoryBelowWrap | main/rtc_clock_fix.cpp:47-51 | exactly when the wrapped count still gives the promised window |
| ColdCalibration.RetunesStretchTheRun | main/rtc_clock_fix.cpp:134-145 | setting the sample count k times lets 7 * (k + 1) candidates in a row be rejected, the most there can be |
| ColdCalibration.FarOffFits64 | main/rtc_clock_fix.cpp:100-101 | the glitch check's 64-bit products do not wrap |
| TxPower.TxPowerControl.ApplyReceived | main/runtime_config.cpp:426-440 | a received value starts a trial, is ignored or is echoed, as specified |
| TxPower.TxPowerControl.NoteFirstAttach | main/runtime_config.cpp:665-693 | the first attach drops a trial of an earlier boot |
| TxPower.TxPowerControl.NoteCycleResult | main/runtime_config.cpp:695-735 | an ok report makes the value on trial known-good and ends the trial; a failed one is counted, and the third rejects the value and restores known-good |
| TxPower.KnownGoodWasConfirmed | main/runtime_config.cpp:700-714 | after the first attach known-good is the value that was on trial at the latest ok report that found one, and the initial one if none did |
| TxPower.TrialEnds | main/runtime_config.cpp:426-440 | the fate of a trial told by the reports alone, while the broker redelivers its value: on trial until the third failed report rejects it, or an ok report before that makes it known-good |
| TxPower.NoTrialOutlivesThreeFailures | main/runtime_config.cpp:716-728 | the counter is the failures of this trial, and three end it |
| TxPower.ReceiveStartsTrialIff | main/runtime_config.cpp:426-440 | exactly which values go on trial |
| TxPower.RejectedNeverRestarts | main/runtime_config.cpp:430-435 | a rejected value never restarts its trial, however often it is redelivered |
| TxPower.OutOfRangeRejectRestarts | main/runtime_config.cpp:430-438 | it does exactly if it was out of range |
| TxPower.ActiveIsAccepted | main/runtime_config.cpp:489-498 | with working radio calls the active power is the accepted one, and known-good without a trial |
| TxPower.FirstAttachDropsOldTrial | main/runtime_config.cpp:665-693 | the state the first attach leaves |
| TxPower.PinHoldsUnlessTrialMoves | main/runtime_config.cpp:737-741 | exactly what moves the radio off the maximum during an update |
| TxPower.RevertDuringUpdateLowersPower | main/runtime_config.cpp:716-728 | a third failed report during an update lowers the power |
| TxPower.UnpinRestoresActive | main/runtime_config.cpp:743-747 | after the window the radio is at the accepted power, whatever happened inside |
| SessionFlag.PersistentSession.Connected | main/mqtt_sender.cpp:1395-1410 | the CONNACK clears the flag or keeps it, and decides about the SUBSCRIBE |
| SessionFlag.PersistentSession.StateAcked | main/mqtt_sender.cpp:1652-1657 | the flag is set only by an acknowledged state message after a granted subscription |
| SessionFlag.RunKeeps | main/mqtt_sender.cpp:739-763 | the invariant of device, broker and streams holds in every run |
| SessionFlag.DecisionIsSound | main/mqtt_sender.cpp:183-186 | a wake without a SUBSCRIBE has the retained set, and the broker holds the filters exactly if no fresh session was orphaned |
| SessionFlag.NothingOrphaned | main/mqtt_sender.cpp:1395-1401 | no session is orphaned if fresh CONNACKs get through |
| SessionFlag.OrphanStays | main/mqtt_sender.cpp:1400-1410 | an orphaned session is never subscribed until the broker forgets it or the device restarts |
| SessionFlag.OneGoodWakeSubscribes | main/mqtt_sender.cpp:1402-1410 | one undisturbed wake sets the flag |
| SessionFlag.LostConnAckOrphans | main/mqtt_sender.cpp:1400-1402 | from any state with the flag set and no session, one lost CONNACK leaves the flag on an empty session |
| SessionFlag.LostConnAckRun | main/mqtt_sender.cpp:1395-1410 | the whole run from the start in which the promise breaks: a good wake, a broker that forgets, a lost CONNACK |
| Crc8.ComputeSht4x | components/sht4x/sht4x.c:71-82 | the loop of the LP core and the SHT4x driver computes the specified checksum |
| Crc8.ComputeSht3x | components/sht3x/sht3x.c:104-121 | the differently written loop of the SHT3x driver computes the same |
| Crc8.FrameOk | components/lp_sensor_core/lp_core/main.cpp:134-137 | which six-byte frames are taken |
| Crc8.DatasheetCheckValue | docs/Datasheet_SHT3x_DIS.txt:2208-2217 | the check value given with the polynomial and the initial value: 0xBEEF gives 0x92 |
| Crc8.CrcLinear | components/lp_sensor_core/lp_core/main.cpp:97-106 | affine linearity over messages of any length |
| Crc8.ErrorSeenIff | components/lp_sensor_core/lp_core/main.cpp:136 | whether an error is noticed depends on the error pattern alone |
| Crc8.ResidueIsZero | components/lp_sensor_core/lp_core/main.cpp:97-106 | a message with its checksum has residue zero, and with no other byte |
| Crc8.OddErrorsDetected | components/lp_sensor_core/lp_core/main.cpp:97-106 | every error of an odd number of bits changes the checksum, so every single bit does |
| Crc8.OneByteErrorsDetected | components/lp_sensor_core/lp_core/main.cpp:97-106 | every error within one byte does too |
| HaHistory.CycleAnchors | tools/ha_history.py:239-265 | the clustering loop computes the anchors, and refuses exactly for no samples or a gap below one and a half epsilon |
| HaHistory.FillColumn | tools/ha_history.py:268-310 | each cell and the audit counts of a column |
| HaHistory.OneAnchorPerCycle | tools/ha_history.py:256-260 | sorted stamps of separated cycles give one anchor per cycle, no later than any of its stamps |
| HaHistory.CellIsPlanted | tools/ha_history.py:292-306 | one cell gives the published value back, unless its row is older than the cap, also for entities that are not anchored on |
| HaHistory.PlantedAnchors | tools/ha_history.py:239-260 | a de-duplicated export in which every cycle keeps a row has exactly one anchor per cycle |
| HaHistory.ReconstructPlanted | tools/ha_history.py:239-310 | the round trip: every published value comes back, held cells are the dropped rows, none is missing while no hold exceeds the cap; cycles one and a half epsilon apart beyond their spread are never refused |
| Regression.ExcessError | tools/ha_history.py:448-475 | how much worse than the fit any line is |
| Regression.FitIsOptimal | tools/ha_history.py:448-475 | the fit is the unique minimiser of the weighted squared error over all lines |
| Regression.LinearDataRecovered | tools/ha_history.py:448-475 | exactly linear data is recovered exactly |
| Regression.ScalingWeightsChangesNothing | tools/ha_history.py:451-452 | scaling all weights changes nothing |
| Regression.RefusedIff | tools/ha_history.py:466-474 | the two refusals, exactly: no weight, or a single time |
| BrokerLogDates.AnchorExact | tools/mqtt_broker_log.py:132-147 | a broker line dates itself rightly exactly if zone and lag together round to -11 to +12 hours |
| BrokerLogDates.RoundClose | tools/mqtt_broker_log.py:137 | the offset is the nearest whole hour, and the even one of two equally near |
| BrokerLogDates.WholeHourZone | tools/mqtt_broker_log.py:132-141 | whole-hour zones from -11 to +12 with less than half an hour of lag are in that range |
| BrokerLogDates.NextExact | tools/mqtt_broker_log.py:166-169 | walking forward is right exactly without a midnight in between, or across one within half a day |
| BrokerLogDates.PreviousExact | tools/mqtt_broker_log.py:153-158 | the same walking back |
| BrokerLogDates.BackDate | tools/mqtt_broker_log.py:148-161 | every line before the first anchor gets its instant |
| BrokerLogDates.ParseRaw | tools/mqtt_broker_log.py:110-174 | every line of a file gets the instant it was received at, in the order produced, or the tool gives up exactly when nothing anchors the dates |

## Left out

- OtaUpdater.Updater.RunSession: starts from a manifest that is well formed; a manifest deleted between the due check and the session's own copy (a division by a zero chunk size) is not modelled.
- OtaUpdater.Updater.RunOtaIfDue: the run is followed through any given number of failing finalisations, because their attempts are not counted reliably and the loop has no bound in them.
- OtaUpdater.Updater.PullSession: the radio's fast-poll window, the power pin around a session and the status messages are not part of the session model; the pin is in `TxPower`.
- OtaStager.Broker.Stage: chunk sizes below 1 or above the documented maximum, and images larger than a slot, are not staged here; all retained topics are assumed to be seen before clearing; the pre-chunking image topic is not modelled.
- OtaManifest.ManifestRoundTrip: sizes and chunk sizes are natural numbers; a version that is not valid UTF-8 stops the stager before this model.
- LpCore.LpProgram.Poll: real arithmetic instead of single-precision floats; each configuration field is an input of the invocation, read when it is used.
- LpSensor.RunHeaterMaintenance: the time of the bus transfers themselves is not counted, only the programmed delays, also of a measurement that fails before its delay.
- Seqlock.GetState: snapshots overtaken by 2^32 or more steps of the counter are excluded.
- LpSchedule.SafeguardIsTwoPollsLater: gaps and poll intervals whose sums exceed 32 bits are excluded; the firmware accepts gaps up to 21600 s.
- LpSchedule.MinutesKept: intervals whose seconds exceed 32 bits are excluded.
- Delivery.NeverTwice: reads are clean or find the counter odd ten times; the torn copies of `Seqlock.TornFallThrough` are not followed into the main loop.
- StallTiming.FalseAlarmIff: the settings stay as at boot, apart from thresholds and budget, and poll intervals whose microseconds exceed 32 bits (4295 s) are excluded; what a pass does besides looking and waiting takes no time in the two runs shown.
- StallTiming.TwentySecondPolls: the wait also passes through pdMS_TO_TICKS at 1000 Hz, a macro that is not part of this model; if it multiplies in 32 bits, waits above 4294 s wrap.
- Seqlock.TornIff: histories in which a protected field takes an earlier value again between the two looks, such as the heater flag over a whole heater run.
- HistoryRing.HistoryLog.Append: storing the record and moving the head are one step, so a record half written while the consumer copies it is not modelled.
- HistoryRing.MqttCtx.SendAndWait: which messages are still in flight when a replay begins depends on the MQTT client's outbox and is a parameter; the wait for the state message counts in the same way.
- Supervisor.SensorsTask.Cycle: battery readings, LED, the NAT64 refresh and the heater log line.
- SessionFlag.RunKeeps: losing its sessions ends the broker's connections with nothing left in flight; partial grants count as refusals; the retained set precedes the state PUBACK on the stream.
- TxPower.ActiveIsAccepted: the confirmed power across a restart is not modelled: it is stored as an 8-bit and read as a 32-bit value.
- HaHistory.ReconstructPlanted: times are whole microseconds and thresholds exact; the same entities anchor and are reconstructed.
- BrokerLogDates.ParseRaw: lines are given as matched by the tool's patterns; the regular expressions are not modelled.
- Radio, OpenThread, Wi-Fi, GPIO, ADC, FreeRTOS, flash and broker internals: abstract steps or arbitrary results.
- Home Assistant discovery payloads, topics, logging, LED and build scripts: formatting without state.
- The rest of the sensor and I2C drivers: vendored code over libraries that are not part of this model.
- Bootstrap confidence intervals and power-model constants: random resampling and calibrated numbers.
- The rest of the history tool (percentiles, gap histogram, constant and increment checks): sums and sorted look-ups over a finished table, with no state or protocol.
