# Verification of the Sungrow SH-T write layer

This Dafny project models the guarded write layer of `sungrow_inverter` and the machines
around it: the poll loop with its refresh stamps, the retrying link, the wrapper that
re-reads and plans once more, the coordinator and the energy counter filter.

The write layer moves the registers of a remote inverter from any state to a requested one
over a link that fails. It decides from a cache that its own writes do not update, skips
what already matches, and trusts nothing it did not read back. The model keeps that shape:

- `registers.dfy`, `device.dfy` — words, decoded values, and the world: wire registers,
  running state, cache, stamps, clock, and every request sent so far. Whatever the link and
  other tasks do is an argument (`Exchange` for a write, `ReadEnv` for a read, `CallEnv` and
  `RunEnv` for a call and a wrapped call), so a lemma over all arguments covers every
  failure pattern, every re-read between two steps and every delay.
- `poll.dfy`, `planner.dfy`, `execution.dfy`, `recovery.dfy` — what a poll, a plan, a call
  and a wrapped call do, as functions.
- `inverter.dfy`, `battery_control.dfy`, `runtime.dfy`, `coordinator.dfy`, `retry.dfy`,
  `total_sensor.dfy` — the objects, with their fields and loops, each method proved to
  compute its function.
- the other files — what the functions promise. `honesty.dfy` holds the cache invariant;
  `acceptance.dfy` what is accepted, over the options and the request alone; `guarantees.dfy`,
  `feed_in_calls.dfy` and `flag_calls.dfy` when a whole call returns and what it leaves;
  `reports.dfy` what it says about itself; `recovery_outcomes.dfy` when the wrapper plans again
  and when a stop succeeds; `publishing.dfy` and `showing.dfy` what the coordinator shows.

`dafny verify dfyconfig.toml` checks the project.

## What is assumed of the inverter and the link

- A component read is all-or-nothing, and its answer shows the registers at that moment.
- A write that fails may or may not have landed, whichever error comes out, and does not
  land later. An acknowledged write lands where a lemma says `Faithful`; the others hold
  for an inverter that acknowledges writes and ignores them.
- An inverter may keep feed-in watts and ratio in step (`mirrors`), rounding either way.
  A write that is retried is taken to round the same way each time.
- No other Modbus client writes; calls run to their end. Other tasks may re-read any
  component at every await.

## Where the code and its documentation differ

The model follows the code.

- **Stale watts** (`control.py:413-423`). The documentation gives the watts write the last
  word on a mirroring inverter. When the cached watts already equal the limit while the
  ratio disagrees, the ratio is written, the inverter moves the watts, and the watts step is
  skipped because the cache still matches: the limitation is enabled over the mirrored watts,
  and the call fails its verification. `TrappedStartFails` is a concrete start: 50 W asked,
  45 W left. `LimitReturnsExactlyOutsideTrap` gives the exact condition. Once a feed-in write
  has landed on a mirroring inverter its registers agree (`RunKeepsFeedIn`), so a limit of at
  most nominal power is caught only over registers that disagreed before that.
- **Limits above nominal power** pass when the ratings admit them (`control.py:435-441`). The
  implied ratio stops at 100 %, while the watts mirror to more. Registers that agree can then be
  caught too: `AboveNominalStartFails` asks for the 12000 W it already has and is left with
  10000 W. Also when the watts are not stale, the watts write moves the aligned ratio beyond its
  target, and a call that returned verified may fail when repeated (`RepeatAboveNominalFails`).
  `LimitHoldsAboveNominal` and `Settles` give the exact conditions.
- **full == fence** is accepted (`control.py:167`), and self-consumption, no-charge and
  no-discharge then classify as hold: `ClassifierUndoesPlanner`, `AllSkipMeansMode`.
- **full == 655350** is accepted, but its word is the sentinel: an `apply` that restores a
  limit can never confirm it (`SentinelRestoreNeverReturns`).
- **Forced power above 65535** passes the power check when `full` allows it and is refused
  by the field's validator after the limits were already written, and a fence that is not a
  non-negative multiple of ten is refused the same way. `Attainable` says exactly
  which requests return over which registers (`AnsweredApplyReturnsIff`).
- **A skipped poll after failed ones** shows the last report again (`coordinator.py:88-90`),
  with components those polls could not read: `SkipAfterFailedPolls`.
- **verify=False** neither re-reads nor forgets what it wrote. The cache invariant is about
  verified calls; `unverified.dfy` says exactly when an unverified one leaves it intact.

## Model

| member | source | states |
|---|---|---|
| Registers.DecodeThenEncode | packages/sungrow-sht-modbus/src/sungrow_inverter/fields.py:14-90 | Reading any word and writing the value back puts the same word on the wire, except for words that decode to nothing and ratios above 100 %, which the validator refuses |
| Registers.EncodeThenDecode | packages/sungrow-sht-modbus/src/sungrow_inverter/components/settings.py:66-72 | A written value reads back as itself exactly when it is not the limit value 655350 W (its word is the sentinel) and not the write-only start/stop command |
| Registers.SameOnWireIsSameWord | packages/sungrow-sht-modbus/src/sungrow_inverter/control.py:117-127 | The skip test is exact: a decoded word matches a target iff writing the target would leave the register word unchanged and the word decodes to something |
| Inverters.SungrowInverter.PollInto | packages/sungrow-sht-modbus/src/sungrow_inverter/inverter.py:272-305 | The poll loop computes the poll function: device, report, raised error and remaining answers, for every sequence of answers |
| Inverters.SungrowInverter.AsyncRefresh | packages/sungrow-sht-modbus/src/sungrow_inverter/inverter.py:345-360 | Names that are not polled are refused before anything is read; otherwise the device and report are those the poll function gives |
| Inverters.SungrowInverter.AsyncUpdate | packages/sungrow-sht-modbus/src/sungrow_inverter/inverter.py:331-343 | Polling the realtime list and then the slow list into one report is one poll of the concatenation, also when the first list raises |
| Inverters.SungrowInverter.LastRefresh | packages/sungrow-sht-modbus/src/sungrow_inverter/inverter.py:380-382 | The stamp of the component, or nothing exactly when it has none |
| Inverters.SungrowInverter.InvalidateAll | packages/sungrow-sht-modbus/src/sungrow_inverter/inverter.py:384-389 | Removes the stamps of exactly the named components and touches nothing else of the device |
| PollProperties.PollAppend | packages/sungrow-sht-modbus/src/sungrow_inverter/inverter.py:331-343 | For every start and every answers, polling A then B into one report equals polling A + B |
| PollProperties.RaisesExactly | packages/sungrow-sht-modbus/src/sungrow_inverter/inverter.py:284-289 | A poll raises iff some read finds the connection lost, or the first read of a still empty report times out |
| PollProperties.UpdatedIsAnswered | packages/sungrow-sht-modbus/src/sungrow_inverter/inverter.py:280-294 | A returned report lists as updated exactly the answered names, in poll order |
| PollProperties.FailedIsUnanswered | packages/sungrow-sht-modbus/src/sungrow_inverter/inverter.py:286-291 | A returned report lists as failed exactly the unanswered names, each with its own error |
| PollProperties.ReportPartitionsNames | packages/sungrow-sht-modbus/src/sungrow_inverter/inverter.py:280-305 | On return, updated and failed partition distinct names |
| PollProperties.StampsMoveWithUpdated | packages/sungrow-sht-modbus/src/sungrow_inverter/inverter.py:292-294 | A poll, raising or not, stamps what it lists as updated at a time within the poll, whoever else reads meanwhile, and leaves the stamp of everything else that no other task re-reads |
| PollProperties.FirstReadWins | packages/sungrow-sht-modbus/src/sungrow_inverter/inverter.py:295-304 | Each collected raw word is the one of the first answered read that covers its address |
| PollProperties.PollOutcomeIsSound | packages/sungrow-sht-modbus/src/sungrow_inverter/inverter.py:272-305 | What a poll of distinct names hands to a coordinator never lists a component both as read and as failed, also when it raises |
| BatteryControls.BatteryControl.RefreshStale | packages/sungrow-sht-modbus/src/sungrow_inverter/control.py:284-299 | Re-reads exactly the components without a recent stamp, and succeeds iff there were none or all of them were answered |
| BatteryControls.BatteryControl.WriteOne | packages/sungrow-sht-modbus/src/sungrow_inverter/control.py:331-348 | One write: acknowledged, refused or unanswered, with the matching report entry and error; an acknowledged EMS write moves the grace clock |
| BatteryControls.BatteryControl.WriteSteps | packages/sungrow-sht-modbus/src/sungrow_inverter/control.py:323-348 | The step loop computes the step function over any plan and any answers: skipped, written, and where it stopped |
| BatteryControls.BatteryControl.FirstMismatch | packages/sungrow-sht-modbus/src/sungrow_inverter/control.py:363-371 | Finds the first planned register whose re-read value misses its last target |
| BatteryControls.BatteryControl.Verify | packages/sungrow-sht-modbus/src/sungrow_inverter/control.py:349-373 | Settle, read back every touched component, compare with the last targets; any failure forgets the touched stamps |
| BatteryControls.BatteryControl.ExecutePlan | packages/sungrow-sht-modbus/src/sungrow_inverter/control.py:305-373 | Steps and read-back together, with the touched stamps dropped on every error |
| BatteryControls.BatteryControl.Guarded | packages/sungrow-sht-modbus/src/sungrow_inverter/control.py:389-392 | Lock, freshness check, plan, execute: device, grace clock and outcome equal the call function; the lock is free again however it ends |
| BatteryControls.BatteryControl.Apply | packages/sungrow-sht-modbus/src/sungrow_inverter/control.py:377-392 | The same for a battery mode |
| BatteryControls.BatteryControl.SetExportLimit | packages/sungrow-sht-modbus/src/sungrow_inverter/control.py:397-470 | The same for the feed-in limitation |
| BatteryControls.BatteryControl.SetPvLimitation | packages/sungrow-sht-modbus/src/sungrow_inverter/control.py:485-492 | The same for the PV limitation |
| BatteryControls.BatteryControl.SendStartStop | packages/sungrow-sht-modbus/src/sungrow_inverter/control.py:508-525 | One write of the command register, never read back, with its three outcomes; the record shows the polled running state as previous |
| Acceptance.PlanAcceptsIff | packages/sungrow-sht-modbus/src/sungrow_inverter/control.py:159-190 | A battery mode is accepted iff it is one of the six, battery_max_power_w is known, a multiple of ten and fence <= full <= 655350, and a forced mode has 0 <= power <= full; whatever is cached. Anything else is refused with its own error |
| Acceptance.ExportPlanAcceptsIff | packages/sungrow-sht-modbus/src/sungrow_inverter/control.py:430-483 | A limit is accepted iff it is at least the rated minimum, or zero, and at most the rated maximum, or nominal power, or 65535; lifting the limitation always is. Anything else is out of range |
| Acceptance.RefusedIffNotAdmitted | packages/sungrow-sht-modbus/src/sungrow_inverter/control.py:389-392 | A whole call that is not admitted ends in that refusal, or in the failed freshness read before it, with nothing sent and no register moved; an admitted one is never refused for its range |
| Reports.CallTellsItsPlan | packages/sungrow-sht-modbus/src/sungrow_inverter/control.py:320-348 | However a guarded call ends, its report interleaves the writes and skips of its plan in plan order, up to the step it stopped at, all of it if it returned or failed at the read-back; the field of the error is that step, and only an unanswered one is uncertain |
| Reports.CallEndsByReply | packages/sungrow-sht-modbus/src/sungrow_inverter/control.py:332-344 | It returns, or gets to the read-back, only if every request was acknowledged; it is refused only by an exception and uncertain only after a timeout or a lost connection, of its last request |
| Reports.CallRecordsCached | packages/sungrow-sht-modbus/src/sungrow_inverter/control.py:345-347 | With nothing it touches re-read during its writes, every record shows as previous the field the call planned on |
| Reports.WriteMovesGrace | packages/sungrow-sht-modbus/src/sungrow_inverter/control.py:346-348 | An acknowledged EMS write sets the grace clock to the moment of its answer; nothing else moves it |
| Reports.RunMovesGrace | packages/sungrow-sht-modbus/src/sungrow_inverter/control.py:346-348 | Over any run, verified or not: the grace clock has moved iff an EMS mode write was acknowledged meanwhile, and then shows a moment of the run |
| Freshness.PlansOnRecent | packages/sungrow-sht-modbus/src/sungrow_inverter/control.py:284-299 | A guarded call never plans on anything older than its own maximum age, or the configured one, counted from when it got the lock; it re-reads nothing that is not older, and reads nothing at all if nothing is |
| Freshness.PolledState | packages/sungrow-sht-modbus/src/sungrow_inverter/control.py:556-564 | The running state the classifier looks at is that of the last poll that read the flows; a poll that reads none leaves it |
| Honesty.RunKeepsCacheHonest | packages/sungrow-sht-modbus/src/sungrow_inverter/control.py:305-373 | Over any run of polls and verified calls, with any read or write failing and any re-reads in between: whenever the lock is free, every stamped guarded component has a cache equal to its decoded registers |
| Honesty.PerformKeepsHonest | packages/sungrow-sht-modbus/src/sungrow_inverter/control.py:313-318 | One verified call keeps every honest component honest, however it ends |
| Honesty.EnsureFreshEffect | packages/sungrow-sht-modbus/src/sungrow_inverter/control.py:284-299 | The freshness check changes no register, and after it succeeds every named component has a stamp |
| Honesty.MismatchFindsAny | packages/sungrow-sht-modbus/src/sungrow_inverter/control.py:365-371 | The scan of the read-back finds no mismatch iff every last target is satisfied |
| Honesty.ReadBackConfirms | packages/sungrow-sht-modbus/src/sungrow_inverter/control.py:349-373 | Registers that meet the plan are confirmed by any answered read-back |
| Honesty.AnsweredExecutionReturnsIff | packages/sungrow-sht-modbus/src/sungrow_inverter/control.py:305-373 | Over fresh caches and with the read-back answered, a verified execution returns iff its step loop completed over met targets; completed over unmet ones it fails its verification |
| Honesty.TouchedInPlanOrder | packages/sungrow-sht-modbus/src/sungrow_inverter/control.py:312 | The read-back asks for each touched component once, in the order the plan first touches them |
| Honesty.FailedVerificationIsTrue | packages/sungrow-sht-modbus/src/sungrow_inverter/control.py:363-371 | A call that fails its verification names a planned register that does miss its last target |
| Honesty.VerifiedMeansMet | packages/sungrow-sht-modbus/src/sungrow_inverter/control.py:349-373 | A call that returns verified leaves registers that satisfy the last target of every planned register; no assumption on the cache, nor that acknowledged writes landed |
| Honesty.WriteFreeMeansMet | packages/sungrow-sht-modbus/src/sungrow_inverter/control.py:320-330 | A call that returns having written nothing found every target met, with nothing sent and nothing moved, if the caches it names were honest |
| Honesty.NormalReturnMeetsTargets | packages/sungrow-sht-modbus/src/sungrow_inverter/control.py:377-392 | At any point of a verified run, a verified call that returns leaves its targets met, and is marked verified iff it wrote something |
| BatterySafety.FencesNeverRise | packages/sungrow-sht-modbus/src/sungrow_inverter/control.py:241-247 | For any plan of distinct registers and any answers, a truthfully cached fenced limit never ends above where it started |
| BatterySafety.FencedLimitNeverRises | packages/sungrow-sht-modbus/src/sungrow_inverter/control.py:221-253 | At every prefix of a fencing plan, with any failures, a fenced limit is at or below its start word |
| BatterySafety.SkippingIsHarmless | packages/sungrow-sht-modbus/src/sungrow_inverter/control.py:324-348 | Writing only what differs, against a cache writes do not update or that is re-read between any two steps, leaves each register as writing every step in order would, or at a fence it already met |
| BatterySafety.BatteryPlanRepeats | packages/sungrow-sht-modbus/src/sungrow_inverter/control.py:205-220 | The only register a battery plan writes twice is the command, and only as STOP before a reversal |
| BatterySafety.BatteryPlanEndsAsWritten | packages/sungrow-sht-modbus/src/sungrow_inverter/control.py:205-253 | The refinement above for every battery plan and every register |
| ForcedDirection.ForcedPlanSafe | packages/sungrow-sht-modbus/src/sungrow_inverter/control.py:205-220 | A forced plan cut anywhere: a forcing inverter runs its untouched pair, or exactly the requested command and power |
| ForcedDirection.NoPrefixForcesTheWrongPair | packages/sungrow-sht-modbus/src/sungrow_inverter/control.py:179-239 | The same for every desired mode, every prefix, every failure, landed or not: the old direction never runs at the new magnitude |
| ModeOrder.LeavingChangesModeFirst | packages/sungrow-sht-modbus/src/sungrow_inverter/control.py:186-204 | Leaving a forced mode for self-consumption, at every prefix with any failure: a limit has changed only if the register already selects self-consumption |
| ModeOrder.ModeChangesLast | packages/sungrow-sht-modbus/src/sungrow_inverter/control.py:182-190 | Every other plan, at every prefix with any failure: the EMS word has changed only if both limits, and for a forced mode power and command, are already in place |
| ModeOrder.LimitsMoveInOrder | packages/sungrow-sht-modbus/src/sungrow_inverter/control.py:191-238 | Every plan, cut anywhere and whatever fails: the limit it writes second has changed only if the first one is in place; a mode that fences one limit restores the other one first |
| Classifier.AppliedCompletes | packages/sungrow-sht-modbus/src/sungrow_inverter/control.py:191-239 | Whatever was skipped, a completed plan leaves in each planned register its last target, or a value its fence accepts |
| Classifier.FencingCompleted | packages/sungrow-sht-modbus/src/sungrow_inverter/control.py:221-238 | A completed fencing plan has fenced limits at or below the fence, the other limit at full, and self-consumption selected |
| Classifier.ClassifierUndoesPlanner | packages/sungrow-sht-modbus/src/sungrow_inverter/control.py:529-577 | After a completed, re-read plan the classified mode is the requested one iff it is forced, or no forced running state disputes it outside the grace period and (but for hold) fence < full < 655350; for hold the read-back has to tell, that is, fence below 655350 or both limits readable before |
| Classifier.InconsistentIffAtOdds | packages/sungrow-sht-modbus/src/sungrow_inverter/control.py:529-577 | INCONSISTENT is reported iff compulsory mode has no command, or self-consumption is cached while the running state is a forced one with no EMS write acknowledged within the grace period, or while a limit is unreadable; nothing is reported iff no EMS mode is known |
| Classifier.SelfConsumptionModes | packages/sungrow-sht-modbus/src/sungrow_inverter/control.py:566-577 | Each mode self-consumption stands for is reported iff nothing disputes it and exactly its limits are at or below the fence, the others readable above it |
| Classifier.AgreedMode | packages/sungrow-sht-modbus/src/sungrow_inverter/control.py:556-577 | The classification of any cache a plan would leave alone, case by case, including the full == fence collapse into hold |
| Classifier.AllSkipMeansMode | packages/sungrow-sht-modbus/src/sungrow_inverter/control.py:268-280 | An all-skip plan means the mode is already the requested one, iff it is forced, hold, or fence < full; forced modes also hold the power |
| Classifier.RepeatedPlanIsAllSkip | packages/sungrow-sht-modbus/src/sungrow_inverter/control.py:255-280 | Over registers that meet the plan, freshly cached, the same plan is all-skip iff the mode is forced or no forced running state disputes it outside the grace period |
| Repetition.ApplyLeavesFresh | packages/sungrow-sht-modbus/src/sungrow_inverter/control.py:377-392 | A verified apply that returned leaves its targets met and both components freshly cached |
| Repetition.RepeatedApplyIsSilent | packages/sungrow-sht-modbus/src/sungrow_inverter/control.py:255-280 | After an apply that returned, whatever is polled meanwhile, repeating it sends nothing and returns iff the mode is forced or the running state it then finds is no forced one, or still within the grace period; otherwise it requests self-consumption again |
| Repetition.DoubtedIsSent | packages/sungrow-sht-modbus/src/sungrow_inverter/control.py:255-266 | For any steps with one EMS step, whatever else they write: if the settings do not add up at the start and nothing the classifier looks at is re-read meanwhile, the loop raises or the EMS mode is requested |
| Repetition.DoubtedApplySendsMode | packages/sungrow-sht-modbus/src/sungrow_inverter/control.py:323-330 | A whole acceptable apply, for any mode, that plans while the settings do not add up, with nothing the classifier looks at re-read during its writes, raises or requests the EMS mode of what is wanted; if it returned, it did |
| Repetition.DisputedModeIsWritten | packages/sungrow-sht-modbus/src/sungrow_inverter/control.py:255-266 | In particular a self-consumption word cached under a forced running state, with no EMS write acknowledged within the grace period, is written again by every such apply that returns |
| Traffic.CallReportsItsTraffic | packages/sungrow-sht-modbus/src/sungrow_inverter/control.py:320-348 | However a call ends, the writes it reports, returned or carried by the error, are exactly the acknowledged requests of that call, in order, and it sent requests for its own registers only |
| Traffic.CommandTraffic | packages/sungrow-sht-modbus/src/sungrow_inverter/control.py:508-525 | Start and stop send exactly one request |
| ExportLimiting.ImpliedNear | packages/sungrow-sht-modbus/src/sungrow_inverter/control.py:439 | The implied ratio is the nearest whole number of tenths, at most 100 %, ties broken either way |
| ExportLimiting.CapsNeverExceed | packages/sungrow-sht-modbus/src/sungrow_inverter/control.py:407-457 | At every prefix, mirroring or not, from any cache and any answers, with nominal >= 2000: neither cap exceeds the larger of its start and the limit plus nominal/1000 |
| ExportLimiting.ConsistentAvoidsTrap | packages/sungrow-sht-modbus/src/sungrow_inverter/control.py:413-423 | Feed-in registers that agree up to rounding spring the stale-watts case only for a limit above nominal power, over a ratio above 100.1 %; up to nominal never |
| ExportLimiting.EnableMeansLimited | packages/sungrow-sht-modbus/src/sungrow_inverter/control.py:407-457 | At every prefix with any failure, outside the stale-watts case, for any limit: if the limitation went from off to on, watts equal the limit and the ratio, if it was readable, is within a tenth of the implied one or, for a limit above nominal on a mirroring inverter, mirrors that limit |
| ExportLimiting.LimitIsMet | packages/sungrow-sht-modbus/src/sungrow_inverter/control.py:435-457 | Outside the stale-watts case, after all writes were answered, mirroring with either rounding or not, whatever is re-read meanwhile: the registers meet the targets of the plan iff the ratio settles. Up to nominal it always does; above nominal, on a mirroring inverter whose ratio had to be aligned, iff the limit mirrors to at most 100.1 % |
| ExportLimiting.LimitCallVerifies | packages/sungrow-sht-modbus/src/sungrow_inverter/control.py:349-373 | So, outside that case, the call with its read-back answered returns iff the ratio settles |
| ExportLimiting.RepeatedLimitIsSilent | packages/sungrow-sht-modbus/src/sungrow_inverter/control.py:435-457 | And repeating the plan on a re-read cache skips everything iff the ratio the call left is not away from the implied one; up to nominal it never is |
| StaleWatts.TrapMisplacesWatts | packages/sungrow-sht-modbus/src/sungrow_inverter/control.py:417-423 | In the stale-watts case, its writes landed and nothing it touches re-read meanwhile, a mirroring inverter has its limitation enabled over the watts the ratio write mirrored |
| StaleWatts.WattsHoldExactlyOutsideTrap | packages/sungrow-sht-modbus/src/sungrow_inverter/control.py:413-423 | Under the same conditions the watts register ends at the limit iff the start was not the stale-watts case or the ratio happens to mirror back |
| StaleWatts.MetExactlyOutsideTrap | packages/sungrow-sht-modbus/src/sungrow_inverter/control.py:363-371 | And the registers meet the targets of the plan iff the same holds and the ratio settles |
| StaleWatts.LimitHoldsAboveNominal | packages/sungrow-sht-modbus/src/sungrow_inverter/control.py:435-448 | Spelled out for limits above nominal on a mirroring inverter: iff no ratio had to be aligned, or the watts were not the limit already and mirror to at most 100.1 % |
| StaleWatts.LimitReturnsExactlyOutsideTrap | packages/sungrow-sht-modbus/src/sungrow_inverter/control.py:349-373 | And, the read-back answered, the call returns iff both hold, and otherwise fails its verification |
| StaleWatts.TrappedStartFails | packages/sungrow-sht-modbus/src/sungrow_inverter/control.py:413-423 | One such start: a 15 kW inverter at 50 W and 100 %, asked for 50 W, is left limited to 45 W with either rounding, and the call fails |
| StaleWatts.AboveNominalStartFails | packages/sungrow-sht-modbus/src/sungrow_inverter/control.py:435-448 | One above nominal, from registers that agree: a 10 kW inverter rated for 15 kW, at 12000 W and 120 %, asked for 12000 W, is left limited to 10000 W and the call fails |
| FeedInCalls.FeedInWriteMakesConsistent | packages/sungrow-sht-modbus/src/sungrow_inverter/control.py:413-421 | On a mirroring inverter of 1000 to 65535 W any landed watts write, and any landed ratio write of at most 100 %, makes the two registers agree up to rounding |
| FeedInCalls.RunKeepsFeedIn | packages/sungrow-sht-modbus/src/sungrow_inverter/control.py:413-421 | So over any run, verified or not, those registers agree or are the ones the run started with |
| FeedInCalls.RunAvoidsTrap | packages/sungrow-sht-modbus/src/sungrow_inverter/control.py:417-423 | A run that starts with agreeing registers, or on an inverter that does not mirror, comes to the stale-watts case only for a limit above nominal, over a ratio above 100.1 % |
| FeedInCalls.CallEnablesOverTheLimit | packages/sungrow-sht-modbus/src/sungrow_inverter/control.py:407-412 | One set_export_limit outside the stale-watts case, however it ends and for any limit, switches the limitation on only over that limit |
| Guarantees.ApplyNeverForcesTheWrongPair | packages/sungrow-sht-modbus/src/sungrow_inverter/control.py:179-190 | At any point of a verified run, one apply, however it ends, leaves a forcing inverter with its old pair untouched or exactly the requested one |
| Guarantees.ApplyNeverRaisesAFence | packages/sungrow-sht-modbus/src/sungrow_inverter/control.py:221-238 | At any point of a verified run, one fencing apply, however it ends, raises no limit it fences |
| Guarantees.LimitExportNeverExceedsCaps | packages/sungrow-sht-modbus/src/sungrow_inverter/control.py:424-470 | One set_export_limit, from any cache and however it ends, keeps both caps below their bounds |
| FeedInCalls.LimitExportEnablesOverTheLimit | packages/sungrow-sht-modbus/src/sungrow_inverter/control.py:407-412 | The same at any point of a verified run whose feed-in registers agreed when it started, or on an inverter that does not mirror; a limit above nominal has to avoid the stale-watts case |
| FeedInCalls.AnsweredLimitReturnsIff | packages/sungrow-sht-modbus/src/sungrow_inverter/control.py:424-470 | At any point of a verified run, on a link that answers everything and outside the stale-watts case, a verified set_export_limit returns iff the limit is in the rated or nominal range and fits the register and the ratio settles, which up to nominal it always does |
| FeedInCalls.UndisturbedLimitReturnsIff | packages/sungrow-sht-modbus/src/sungrow_inverter/control.py:424-470 | With nothing it touches re-read meanwhile the stale-watts case is included: it returns iff the limit is in range and fits, the start was not that case or the ratio happens to mirror back, and the ratio settles |
| FeedInCalls.ReturnedLimitIsInEffect | packages/sungrow-sht-modbus/src/sungrow_inverter/control.py:397-470 | At any point of a verified run, whatever fails: a verified set_export_limit that returned was in range and leaves the watts and the enable as asked |
| FlagCalls.AnsweredLiftReturns | packages/sungrow-sht-modbus/src/sungrow_inverter/control.py:427-429 | Lifting the limitation, on a link that answers everything, returns and has moved the enable register only |
| FlagCalls.AnsweredPvReturns | packages/sungrow-sht-modbus/src/sungrow_inverter/control.py:485-492 | set_pv_limitation, on a link that answers everything, returns and has moved its own register only, to its flag |
| FlagCalls.ReturnedPvIsInEffect | packages/sungrow-sht-modbus/src/sungrow_inverter/control.py:485-492 | Whatever fails, a verified one that returned left its flag in the register |
| FeedInCalls.LimitCallSilentIffThere | packages/sungrow-sht-modbus/src/sungrow_inverter/control.py:424-470 | At any point, a set_export_limit or a lift that gets to plan sends nothing iff the registers already are what it asks for, and then it returns |
| FeedInCalls.RepeatedLimitCallIsSilent | packages/sungrow-sht-modbus/src/sungrow_inverter/control.py:435-457 | After a set_export_limit that returned, whatever is polled meanwhile, the same call sends nothing iff the ratio left is not away from the implied one, which up to nominal it never is; silent, it returns |
| FeedInCalls.RepeatAboveNominalFails | packages/sungrow-sht-modbus/src/sungrow_inverter/control.py:435-457 | Above nominal the repetition can fail: on that 10 kW inverter, at 10000 W and 100 %, a verified call for 12000 W returns, and the same call again fails and leaves 10000 W |
| Guarantees.AnsweredApplyReturnsIff | packages/sungrow-sht-modbus/src/sungrow_inverter/control.py:377-392 | At any point of a verified run, on a link that answers everything, a verified apply returns iff its request is acceptable, written over the options and the request; a forced power is at most 65535; and each limit target can be written and read back or is a fence the register is already under |
| Guarantees.ReturnedApplyIsInEffect | packages/sungrow-sht-modbus/src/sungrow_inverter/control.py:377-392 | At any point of a verified run, whatever fails: a verified apply that returned was acceptable and leaves the mode in effect word by word: EMS code, command code, power, limits |
| Guarantees.ForcedPlanCompletesIffPowerFits | packages/sungrow-sht-modbus/src/sungrow_inverter/control.py:173-177 | With every write acknowledged, a forced plan completes iff its power is at most 65535 |
| Guarantees.SentinelRestoreNeverReturns | packages/sungrow-sht-modbus/src/sungrow_inverter/control.py:167-170 | With full at the accepted maximum 655350, a verified apply that restores a limit never returns normally |
| Unverified.UnverifiedApplyHonestIff | packages/sungrow-sht-modbus/src/sungrow_inverter/control.py:349-373 | An unverified apply that returned, its writes landed and nothing it touches re-read meanwhile, leaves the cache honest iff every planned register already held its target or a value its fence accepts |
| Unverified.UnverifiedLimitHonestIff | packages/sungrow-sht-modbus/src/sungrow_inverter/control.py:349-373 | The same for set_export_limit: iff watts, enable and ratio already were what it asks for |
| Unverified.UnverifiedPvHonestIff | packages/sungrow-sht-modbus/src/sungrow_inverter/control.py:349-373 | The same for set_pv_limitation: iff the register already held the flag |
| Runtimes.SungrowRuntime.AsyncRunCall | custom_components/sungrow/control.py:60-116 | Device, outcome and every coordinator update of a wrapped call equal the wrapper function, for every failure of both attempts |
| Runtimes.SungrowRuntime.PublishError | custom_components/sungrow/control.py:119-135 | Snapshot after a failed verification, re-read after any other error that carries a report, nothing otherwise |
| Runtimes.SungrowRuntime.RereadAndPublish | custom_components/sungrow/control.py:138-154 | Re-reads and publishes a snapshot of what answered and a failure mark for what did not; true iff all of it answered |
| Runtimes.SungrowRuntime.InvokeAgain | custom_components/sungrow/control.py:87-98 | The second attempt and its merged report |
| Runtimes.SungrowRuntime.PublishReturn | custom_components/sungrow/control.py:110-116 | Publishes a verified report as a snapshot, and re-reads an unverified one |
| Runtimes.SungrowRuntime.AsyncStopInverter | custom_components/sungrow/control.py:216-239 | Restore, then stop only if the restore returned; the two reports joined |
| Recovery.CallStaysIn | custom_components/sungrow/control.py:157-162 | Reports and errors of a guarded call name components the call names, so re-reads stay within them |
| Recovery.FailedCallDrops | packages/sungrow-sht-modbus/src/sungrow_inverter/control.py:313-318 | An error that carries a report has dropped the stamp of every component the call names |
| RecoveryProperties.RunEffect | custom_components/sungrow/control.py:77-116 | A run is one attempt that returned, one that failed, or two attempts with only reads between and after, the second one after an error that leaves things open and a re-read that succeeded; what it plans on is honest whatever the first one found |
| RecoveryOutcomes.UnsettledIsPlannedAgain | custom_components/sungrow/control.py:77-98 | If the first attempt ends without an answer to a write, or to its read-back, and every component its error names is read again, the run answers as the second attempt: its error, or the writes of both, verified iff the second was verified or wrote nothing |
| RecoveryOutcomes.SettledIsFinal | custom_components/sungrow/control.py:77-109 | Every other run answers as its only attempt did and sends nothing after it |
| RecoveryOutcomes.LostAnswerIsRecovered | custom_components/sungrow/control.py:72-76 | So an apply that lost an answer, from any cache, with its re-read and second attempt answered, returns iff the mode is attainable over the registers the first attempt left, and then it is verified and in effect |
| RecoveryOutcomes.RefusedRunSendsNothing | custom_components/sungrow/control.py:105-109 | A refused request is refused through the wrapper too, with nothing sent |
| RecoveryProperties.SecondStartIsHonest | custom_components/sungrow/control.py:80-88 | Every component the second plan names is unstamped or was re-read after the first attempt failed |
| RecoveryProperties.PublishesOnlyWhatIsHeld | custom_components/sungrow/control.py:65-69 | Every snapshot pushed in any run shows cached fields equal to the decoded registers at that moment |
| Publishing.WrappedCallKeepsShownHeld | custom_components/sungrow/control.py:60-116 | Device, wrapper and coordinator together: if everything guarded that the coordinator shows as updated is cached as the registers are, it still is after any wrapped call, verified or not, however both attempts fail, also if acknowledged writes did not land |
| Publishing.RunKeepsShownHeld | custom_components/sungrow/coordinator.py:87-179 | The same over any run of wrapped calls, scheduled polls that return, fail or are skipped, and re-reads by others |
| Showing.VerifiedRunIsShown | custom_components/sungrow/control.py:110-113 | A wrapped call that returned verified, in one attempt or two, and wrote something makes the coordinator show every component it guards as updated and none as failed |
| Showing.FailedVerificationIsShown | custom_components/sungrow/control.py:127-130 | One that ends in a failed verification does the same |
| Showing.FailedRunIsShown | custom_components/sungrow/control.py:131-154 | One whose only attempt failed otherwise, with a report, has each component its error names shown by the answer of the re-read: as updated, or as failed with that error |
| Showing.UnverifiedRunIsShown | custom_components/sungrow/control.py:114-116 | An unverified call that returned and wrote something has all it guards re-read and shown so |
| Showing.WriteFreeRunIsQuiet | custom_components/sungrow/control.py:110 | One that wrote nothing publishes nothing and reads nothing more |
| RecoveryProperties.RunVerifiedMeansMet | custom_components/sungrow/control.py:92-98 | A wrapped call reports verified only if the registers meet the targets of its last plan; no assumption on the cache, nor that acknowledged writes landed |
| RecoveryProperties.RecoveryAmongOthersMeansMet | custom_components/sungrow/control.py:87-98 | The same if polls and verified calls of others run before the second attempt; its snapshots stay truthful too |
| RecoveryProperties.RunReportsItsTraffic | custom_components/sungrow/control.py:92-98 | The writes a wrapped call returns are exactly the acknowledged writes of all its attempts, in order |
| RecoveryProperties.NeverTripsAssertion | custom_components/sungrow/control.py:79-83 | The assertion that the first error carries a report is never tripped |
| RecoveryProperties.StopOnlyWhenRestored | custom_components/sungrow/control.py:219-230 | Under every failure pattern the stop command is sent at most once, and only while the registers hold self-consumption and both limits at full |
| RecoveryOutcomes.StopReturnsIff | custom_components/sungrow/control.py:216-239 | The stop returns iff the stop request was sent and acknowledged; its report lists exactly what was acknowledged of both calls, in order, nothing as uncertain, and is verified iff the restore had something to send |
| RecoveryOutcomes.StopAnswers | custom_components/sungrow/control.py:216-239 | Its answer part by part: the error of the restore; or that the stop request was refused or unanswered; or the report of both, headed as a stop, with the time, skips and verification of the restore |
| RecoveryOutcomes.CommandAnswers | packages/sungrow-sht-modbus/src/sungrow_inverter/control.py:508-525 | Start and stop end by the answer to their one request, and record the polled running state as previous |
| RecoveryOutcomes.CommandLands | packages/sungrow-sht-modbus/src/sungrow_inverter/control.py:494-506 | A command that landed is its own code in its register, and nothing else moved |
| Retry.RetryingUnit.Call | packages/sungrow-sht-modbus/src/sungrow_inverter/retry.py:77-98 | Ends at the first success, the first failure the policy does not retry, or the last attempt, and yields that answer; adds one retry per repeated try and sleeps the delays of those tries |
| Retry.EndsOnce | packages/sungrow-sht-modbus/src/sungrow_inverter/retry.py:81-97 | There is only one try at which a request can end |
| Retry.DelaysAddUp | packages/sungrow-sht-modbus/src/sungrow_inverter/retry.py:34-36 | The waits after the first k failed tries add up to base_delay * (2^k - 1) |
| Retry.RetriedWriteIsIdempotent | packages/sungrow-sht-modbus/src/sungrow_inverter/retry.py:122-136 | However often a write is re-issued, the registers, mirrored ones included, end as if it had landed once, by the last landed try, or never |
| Retry.RetriedWriteIsOneExchange | packages/sungrow-sht-modbus/src/sungrow_inverter/retry.py:47-53 | A retried write, with re-reads between its tries, is one exchange of the link the write layer assumes, caches and stamps included, if a mirroring inverter rounds the repeated value one way |
| Retry.RetriedWriteLeaves | packages/sungrow-sht-modbus/src/sungrow_inverter/retry.py:122-128 | Success leaves the new value, any failure the old or the new one |
| Retry.RetryingUnit.WriteRegister | packages/sungrow-sht-modbus/src/sungrow_inverter/retry.py:122-128 | A register write through the wrapper: the answer of the loop, and the exchange it amounts to |
| Coordinators.SungrowCoordinator.Update | custom_components/sungrow/coordinator.py:87-126 | One scheduled update: skipped, report published, failed, and the timeout counter with its link drop |
| Coordinators.SungrowCoordinator.ApplySnapshot | custom_components/sungrow/coordinator.py:146-165 | Snapshot: named components join what was shown after a success and leave the failed ones |
| Coordinators.SungrowCoordinator.MarkFailed | custom_components/sungrow/coordinator.py:167-179 | Failure mark: named components leave the updated ones and fail with the error |
| Coordinators.RunShowsRecentReads | custom_components/sungrow/coordinator.py:146-179 | Over any run of polls, snapshots and marks in which no skipped poll directly follows a failed one: updated and failed are disjoint, and what is shown as updated after a success was read more recently than it failed |
| Coordinators.LastWordIsShown | custom_components/sungrow/coordinator.py:120-179 | Over any run: if one happening says a component was read, or failed and why, and nothing after it says anything about it, the run ends showing exactly that |
| Coordinators.TimeIsLastRead | custom_components/sungrow/coordinator.py:146-179 | The report shown is as old as the last poll that read something or the last snapshot; failure marks, failed and skipped polls leave its time alone |
| Coordinators.SkipAfterFailedPolls | custom_components/sungrow/coordinator.py:88-90 | Any stretch of polls that fail outright, followed by a skipped one, shows recent reads iff nothing the last report lists was silent in the stretch and has not answered since |
| Coordinators.DropsCountStretches | custom_components/sungrow/coordinator.py:97-113 | Link drops are the sum over stretches of link failures divided by three, the counter is the remainder, and other errors neither count nor reset |
| Coordinators.NoDropsUncounted | custom_components/sungrow/coordinator.py:99-109 | A coordinator that does not count drops no link |
| TotalSensors.TotalSensor.ProcessData | custom_components/sungrow/sensor.py:648-663 | One update keeps the value, or moves it, as the filter function says |
| TotalSensors.DropsAreResets | custom_components/sungrow/sensor.py:655-662 | In any run every published drop is of more than one percent |
| TotalSensors.MovesExactly | custom_components/sungrow/sensor.py:648-663 | Anywhere in a run the counter moves to its reading iff it has a value, its components refreshed and it is no dip of at most one percent; a larger drop is always published |
| TotalSensors.ResetStartsOver | custom_components/sungrow/sensor.py:655-662 | After such a drop, whatever came before, the published value is the running maximum of what follows |
| TotalSensors.PublishesRunningMaximum | custom_components/sungrow/sensor.py:648-663 | If every effective reading is at least 99 % of the largest so far, the published value is the running maximum |
| TotalSensors.LargestIsMaximum | custom_components/sungrow/sensor.py:648-663 | The reference: it bounds every effective reading and is the start value or one of them |

## Left out

- The `modbus_connection` framework: block planning, partial component reads and the range tables with their narrow-range fallback. Reads are all-or-nothing.
- Setup: probing, optional components, how the poll lists come about, and the model table.
- Raw register writes by number, select and switch entities, which drop no stamp and are not part of the cache invariant.
- Other control calls between the restore and the stop, or during the re-read of a wrapped call, what they publish, and cancellation part-way.
- Listeners, log messages and log-transition state (`_failed`, `_inconsistent`), the active-power-limit warning, and turning control errors into service errors.
- `async_start_inverter` and the realtime refresh after a start or stop: they send nothing.
- `max_age_s`, the battery power derivation behind `full` and the option defaults: they are parameters.
- Floating point: the feed-in ratio is a whole number of tenths with ties broken either way, so the tolerance of 0.15 is one tenth; delays and counter readings are reals.
- Coordinators.SungrowCoordinator.ApplySnapshot: the updated components are a set, not a sorted list, because only membership is used.
- Coordinators.SungrowCoordinator.Update: the base class is modelled by its data and its success flag; scheduling, first refresh and set-up errors are not part of this model.
- TotalSensors.TotalSensor.ProcessData: a restored value or reading that is not a number is not modelled, because counters are numeric.
- Config flow, diagnostics, translations, entity descriptions, alarm and model tables, scripts: no protocol in them.
