# The condition engine, block sorter, health cache and FSM edge, verified

This project models the parts of the program whose guarantees span many calls
and unbounded runs, and proves them for every input and every run.

* **Conditions.** One timed machine with four states (inactive,
  pending_activation, active, pending_deactivation), three one-shot timers, a
  latch, an inhibit gate, a cooldown window, a retentive accumulator and an
  invert flag (`machine.dfy`, `machine_runs.dfy`, `late_callbacks.dfy`,
  `late_cooldown.dfy`, `machine_outputs.dfy`, `iec_timers.dfy`). Four front
  ends drive it: a debounced timer, a hysteresis threshold, a plain, rollover or
  sliding-window counter, and an edge-driven flipflop.
* **The block sorter** (`graph.dfy`, `sorter.dfy`) and the auth declarations
  and policies that rely on its order (`auth_*.dfy`).
* **Two concurrent protocols**: the single-flight health cache with pushed
  corrections (`health*.dfy`) and the compare-and-swap edge that turns a
  reactive boolean into FSM events (`fsm_edge.dfy`).

## How it is built

Each stateful object of the program is a class that updates its fields in
place. Every method states its whole new state as a pure function of the old
one. The same functions are the steps of a transition system, and the theorems
are about all runs of that system. The condition objects and the health readers
each have a method `Perform` that executes any step of a run on the object, so a
fact proved of runs is a fact about the object.

* **Time.** A clock advance is a step like any other. In an ordinary run due
  timers may fire arbitrarily late and callers may overtake them; the
  invariants, cooldown separation and replay hold in all of these. A *prompt*
  run lets no deadline pass. In a *late* run (`late_callbacks.dfy`) a timer
  stopped after its deadline may run its callback anyway, as `time.AfterFunc`
  allows, and so may a timer whose field another callback emptied without
  stopping it; a timer stopped before its deadline never runs.
* **Atomicity.** One call of a front end is one step, except in
  `concurrent_feeds.dfy`, where deciding under the lock and telling the machine
  afterwards are separate. In the health cache one critical section is one step,
  so a read is several: arriving at the gate, asking, completing or waiting,
  being handed the report, copying it, and dating the copy.
* **Sharing.** Reports are numbered, so a correction is seen by every reader
  that still holds the report, as with the shared slice.
* **Notifications** are recorded in the order the lock was held.

## Where the code and its prose differ

The model follows the code.

* Debounce is documented to restart when the input flips
  (`conditions/common.go:103-107`). It restarts on every submission of an
  uncommitted value, so a repeated value can postpone its own commit for ever
  (`RepeatsPostponeCommit`; when it is committed: `CommitsStableEdges`). The
  threshold front end restarts on a change only.
* The counter's prose says the count stops at the preset
  (`conditions/counter.go:344`). `applyDelta` clamps at 0 and nowhere else, and
  `Reset` restores `initial` unclamped (`OvershootsPreset`; when it does stop:
  `DeltaStopsIff`, `CountIsWalk`). It also says the output stays active until
  `reset()`. With a latch it does (`OutputStaysUpUntilReset`); without one a
  decrement can lower it (`FallsWithoutReset`; exactly when: `OutputFallsIff`,
  `OutputFollowsCount`).
* Ids of earlier auth declarations are meant to be distinct
  (`config/authblock.go:96-103`). They hold a byte offset and no file, so two
  files can collide (`CollidingIdsMisorder`); the exact condition is
  `EarlierDeclarationArc`.
* That goroutines seeing the expression go true together make one event
  (`config/fsm.go:694-697`) holds of claims as long as nothing is refused
  (`ClaimsAreSeparated`); a refusal's late rollback can split one rise in two, as
  the code admits (`RefusalMisplacesAnEdge`). Even with no refusals events can be
  enqueued back to back (`BackToBackEvents`). When the next event is sure to need
  a fresh rise: `NextEventNeedsFalse`.
* A reader that gives up is meant to report the last known results
  (`config/health.go:503-506`). With nothing cached it reports only that the
  process is ready, and so passes (`GivingUpCanHideAFailure`,
  `GivingUpPassesIff`).
* Cooldown separation needs `Stop` to be effective for the cooldown timer:
  callbacks look only at the current state (`LateCallbackBreaksCooldown`; the
  exact condition on the state after the fall: `LateCooldownSeparation`).
* The window is meant to hold what happened within it
  (`conditions/counter.go:173-176`). The clock is read before the lock is taken,
  so callers can enter their events out of order and pruning then keeps an
  expired one (`OvertakenReading`; exactly when: `DropIsFilterIff`,
  `StaysAscendingIff`). With readings in order, however old, the window is exact
  (`InOrderReadingsRefine`).
* Every submit is meant to reach the machine (`conditions/timer.go:141-145`).
  With a second caller between decision and delivery one can be lost
  (`LostSubmit`; exactly when: `SubmitSettlesIff`).

## Model

| member | source | states |
|---|---|---|
| `MachineRuns.RunKeepsInv` | conditions/state.go:117-493 | For every behaviour and every interleaving of operations, clock advances and (possibly late) firings: each state has exactly its timers, latched iff active under a latch, unlatched active means input asserted, the accumulator lives only in a pending episode, and the cooldown timer is armed for exactly `cooldownUntil` |
| `MachineRuns.NoLostActivation` | conditions/state.go:155-223 | In every reachable state, inactive with the input asserted means inhibited or a cooldown timer armed for the end of the quiet period; pending activation means not inhibited and, while asserted, a live activation timer |
| `MachineRuns.GateReleaseRetries` | conditions/state.go:372-461 | The end of the cooldown, or of the inhibition, moves a waiting machine out of inactive |
| `MachineRuns.CooldownSeparation` | conditions/state.go:266-278 | Between any natural fall of the output and any later rise at least `cooldown` passes, with clears, inhibit changes, input edges and timers in between |
| `MachineRuns.ActiveHasTimeout` | conditions/state.go:280-286 | With a timeout and no latch, active means input asserted and a live timer due exactly `timeout` after active was entered |
| `MachineRuns.TimeoutBound` | conditions/state.go:340-360 | With prompt timers no stay in active is longer than `timeout` |
| `MachineRuns.TimeoutConsumesAssertion` | conditions/state.go:349-354 | After a timeout the input reads false, so the next assertion is a fresh edge and starts a new activation |
| `MachineRuns.RetentiveAccounting` | conditions/state.go:228-262 | In every run the accumulator plus the running tick equals the asserted time of the pending episode counted from the run alone, the live deadline is the remaining time away, and the accumulator is zero in every other state |
| `MachineRuns.ActivationWaits` | conditions/state.go:206-250 | No activation after boot comes before the asserted time reaches `activate_after`; with prompt timers it comes exactly then |
| `MachineRuns.PromptIsOnTime` | conditions/state.go:228-250 | In a prompt run no deadline is ever passed and a paused accumulator is never already full |
| `MachineRuns.StepNotifies` | conditions/state.go:137-151 | Every operation and callback notifies exactly when the inverted output changes, with the old and the new output |
| `MachineRuns.WatcherReplay` | conditions/state.go:402-408 | Over every run the notifications, in the order the lock was held, chain, always change, and fold from the boot output to the current output, inverted or not |
| `MachineOutputs.BootsAsConfigured` | conditions/state.go:117-133 | A machine boots up iff it is configured to, its input and latch to match, silently |
| `MachineOutputs.GateFromHistory` | conditions/state.go:442-447 | In every run the machine is inhibited iff the last inhibit call said so |
| `MachineOutputs.OutputRisesIff` | conditions/state.go:155-223 | In every run a step raises a lowered output iff, from the state before: an assertion or the end of a gate finds every gate open and no delay, a resumed accumulator is full, or the activation timer is due |
| `MachineOutputs.InhibitionHolds` | conditions/state.go:206-209 | While the last inhibit call said so, no step but its release raises a lowered output |
| `MachineOutputs.OutputFallsIff` | conditions/state.go:178-200 | In every run a step lowers a raised output iff it is a clear, an input falling in active with no latch and no delay, the end of the deactivation delay, or a timeout that is due |
| `MachineOutputs.QuietFromHistory` | conditions/state.go:266-278 | In every run the quiet period ends exactly `cooldown` after the last natural fall, its timer is set for exactly then, and nothing else moves it |
| `MachineOutputs.DeactivationIsDue` | conditions/state.go:186-192 | Whatever else is configured, a pending deactivation is due exactly `deactivate_after` after it began |
| `MachineOutputs.InputFollowsHistory` | conditions/state.go:137-151 | In every run the input is the last one set, unless a clear or a timeout that lowered the output has withdrawn it |
| `LateCallbacks.LateWatcherReplay` | conditions/state.go:308-408 | The same when callbacks of stopped timers still run |
| `LateCallbacks.LatchHolds` | conditions/state.go:254-286 | With a latch, even if callbacks of stopped timers still run: active iff latched, pending deactivation is unreachable, and only a clear lowers the output |
| `LateCooldown.LateCooldownSeparation` | conditions/state.go:266-278 | When callbacks of stopped timers still run, over every continuation with no step excluded: the output can rise within `cooldown` of a natural fall iff the state the fall leaves holds a stray cooldown callback that can end the window in time for an activation (no delay, a delay short enough, or a stray activation callback) |
| `LateCooldown.LateCallbackBreaksCooldown` | conditions/state.go:372-375 | A concrete run in which such a stray callback ends a fresh quiet period at once: the output falls and rises at the same instant under a cooldown of 10 |
| `IecTimers.TonRefinement` | conditions/state.go:206-223 | With only `activate_after`, for every input history, the output of a settled machine is true iff the input has been asserted without interruption for at least `activate_after` (TON) |
| `IecTimers.TofRefinement` | conditions/state.go:178-200 | With only `deactivate_after`, for every input history, it is true iff the input is asserted or was less than `deactivate_after` ago (TOF) |
| `StateMachines.StateMachine.constructor` | conditions/state.go:97-102 | A new object is the new machine value |
| `StateMachines.StateMachine.Bootstrap` | conditions/state.go:117-133 | The object performs exactly the boot step all runs start from |
| `StateMachines.StateMachine.SetRawInput` | conditions/state.go:137-151 | The in-place update equals the input step of the run model, notification included |
| `StateMachines.StateMachine.OnInputChangeLocked` | conditions/state.go:155-200 | Equals the four-state decision on an input edge |
| `StateMachines.StateMachine.TryActivateLocked` | conditions/state.go:206-223 | Equals the gated activation attempt |
| `StateMachines.StateMachine.PauseRetentiveLocked` | conditions/state.go:228-237 | Equals the pause that banks the running tick |
| `StateMachines.StateMachine.ResumeRetentiveLocked` | conditions/state.go:242-250 | Equals the resumption for the remaining time |
| `StateMachines.StateMachine.BecomeActiveLocked` | conditions/state.go:254-262 | Equals the entry to active |
| `StateMachines.StateMachine.BecomeInactiveLocked` | conditions/state.go:266-278 | Equals the exit that opens the cooldown window |
| `StateMachines.StateMachine.RestartTimeoutLocked` | conditions/state.go:280-286 | Equals the timeout restart |
| `StateMachines.StateMachine.OnActivateTimer` | conditions/state.go:308-322 | Equals the activation callback |
| `StateMachines.StateMachine.OnDeactivateTimer` | conditions/state.go:324-338 | Equals the deactivation callback |
| `StateMachines.StateMachine.OnTimeoutTimer` | conditions/state.go:340-360 | Equals the timeout callback |
| `StateMachines.StateMachine.OnCooldownTimer` | conditions/state.go:372-387 | Equals the cooldown callback |
| `StateMachines.StateMachine.SetInhibited` | conditions/state.go:442-467 | Equals the inhibit step |
| `StateMachines.StateMachine.Clear` | conditions/state.go:472-493 | Equals the clear step |
| `StateMachines.StateMachine.RunTimer` | conditions/state.go:40-56 | A timer that is due runs its callback once; one that is not does nothing |
| `StateMachines.StateMachine.Perform` | conditions/state.go:117-493 | Every step of the run model, time and timers included, performed on the object gives exactly the next state of the run |
| `StateMachines.StateMachine.Output` | conditions/state.go:412-420 | Returns the output the replay and refinement results speak of, and changes nothing |
| `StateMachines.StateMachine.CancelPendingLocked` | conditions/state.go:288-293 | Stops and forgets the pending timer |
| `StateMachines.StateMachine.CancelTimeoutLocked` | conditions/state.go:295-300 | Stops and forgets the timeout timer |
| `StateMachines.StateMachine.OutputLocked` | conditions/state.go:393-400 | The output before inversion: up while active or pending deactivation |
| `StateMachines.StateMachine.NotifyAll` | conditions/state.go:402-408 | Appends the inverted old and new output to what watchers heard |
| `Counters.UnitRollover` | conditions/counter.go:111-143 | With 0 <= initial < preset and p = preset - initial, n unit increments leave the count at initial + n mod p after exactly n div p rise/fall pulses |
| `Counters.PulsesNeedCounts` | conditions/counter.go:129-142 | For any non-negative deltas watchers see whole pulses only, at most one per call, and pulses times p plus the count above initial is at most what was added |
| `Counters.LatchedCountingIsSilent` | conditions/counter.go:129-142 | Counting and rolling over under an engaged latch emits no edge |
| `Counters.LatchedRunIsSilent` | conditions/counter.go:111-143 | Until a reset, no sequence of counts, reads, expiries, timers and inhibit changes makes a latched counter notify |
| `LateCounters.LateLatchedRunIsSilent` | conditions/counter.go:111-143 | The same when callbacks of stopped timers, the counter's own expiry included, still run: from any reachable latched state watchers hear nothing until a reset |
| `LateCounters.LabelsDrive` | conditions/counter.go:111-227 | Each counter operation is exactly a run of its machine, strays included |
| `CounterSaturation.OvershootsPreset` | conditions/counter.go:117-120 | A concrete count that does not stop at the preset: 5 towards 3 leaves 5 |
| `CounterOutput.FallsWithoutReset` | conditions/counter.go:121-127 | Without a latch or a delay, a concrete run in which the output rises at the preset and falls with no reset |
| `CounterSaturation.DeltaStopsIff` | conditions/counter.go:111-132 | Without window and rollover a call leaves the count within a non-negative preset iff the sum is, at 0 iff the sum is not positive, and feeds exactly the verdict on the new count |
| `CounterSaturation.CountIsWalk` | conditions/counter.go:72-143 | In every run the count is the walk over the deltas since the last reset that each step pushes back to 0; it is negative iff a reset restored a negative initial count and nothing was counted since |
| `CounterSaturation.RolloverCall` | conditions/counter.go:129-142 | A rolling call, counting up or down, that reaches the preset leaves the initial count and tells the machine to rise and, unless the initial count reaches the preset too, to fall; one that does not leaves the clamped sum and the input low |
| `CounterSaturation.RollingRun` | conditions/counter.go:111-143 | In every run of a rolling counter, in either direction, the count is back at the initial one whenever the clamped sum reached the preset, and the input follows it |
| `CounterSaturation.ResetIsComplete` | conditions/counter.go:72-82 | A reset restores the initial count, forgets the window and its timer, and leaves the machine down, unlatched, its input withdrawn and its quiet period alone |
| `CounterSaturation.WalkIsGreatest` | conditions/counter.go:117-120 | That walk in closed form: the greatest of the sum from the start and the sums of what follows each delta |
| `CounterSaturation.InputFollowsCount` | conditions/counter.go:111-132 | In every run the input is asserted only while the count satisfies the preset and something was counted since the last reset; without a timeout, exactly then |
| `CounterSaturation.InputStaysUpUntilReset` | conditions/counter.go:111-132 | An up-counter that has reached its preset keeps its input asserted through any further counting up until a reset, if no timeout is configured |
| `CounterOutput.OutputFollowsCount` | conditions/counter.go:111-132 | In every run of a counter without window and rollover, a call that finds the output up leaves the machine active iff there is a latch or the new count satisfies the preset |
| `CounterOutput.OutputFallsIff` | conditions/counter.go:72-143 | In every run the output falls on an operation iff it is a reset or, with no latch, a call that takes the count off the preset with no `deactivate_after`, the end of that delay, or a timeout that is due; decided from the state before |
| `CounterOutput.OutputStaysUpUntilReset` | conditions/counter.go:111-132 | With a latch the output stays up through anything until a reset; without one it does so while the count only goes up, the input is asserted and no timeout is configured |
| `ConcurrentFeeds.SettlesIff` | conditions/counter.go:121-132 | When callers tell the machine after releasing their lock, every order of arrival leaves it with v iff all values in flight are v, or none is and it has v |
| `ConcurrentFeeds.DecideSettlesIff` | conditions/counter.go:111-132 | The machine is sure to end up with the verdict a caller reaches on the count iff every value other callers have in flight is that verdict |
| `ConcurrentFeeds.InOrderAgrees` | conditions/counter.go:111-132 | Callers that reach the machine in the order they counted leave it with the verdict on the count whenever none is on its way |
| `ConcurrentFeeds.OvertakingDisagrees` | conditions/counter.go:121-132 | A concrete overtaking after which the input stays asserted with the count at 0 |
| `ConcurrentFeeds.AloneIsSequential` | conditions/counter.go:111-132 | A call nobody overtakes is the counting step |
| `ConcurrentFeeds.SubmitSettlesIff` | conditions/timer.go:139-160 | Without a debounce the machine is sure to end up with a submitted value iff every value other callers have in flight is the same |
| `ConcurrentFeeds.LostSubmit` | conditions/timer.go:146-160 | A submit of true in flight makes a submit of false tell the machine nothing; the true then arrives last although nobody overtook |
| `ConcurrentFeeds.AloneSubmits` | conditions/timer.go:139-160 | A submission nobody overtakes is the submission step |
| `SlidingWindow.DropIsFilter` | conditions/counter.go:177-195 | Dropping the expired prefix of a time-ordered FIFO equals filtering it by age |
| `SlidingWindow.WindowTellsVerdict` | conditions/counter.go:151-236 | In every run a count, and an expiry that is due, leave the input asserted iff the log holds at least `preset` events within the window, and the timer set for exactly when the oldest of them expires |
| `StaleClock.DropIsFilterIff` | conditions/counter.go:177-195 | For any FIFO, in order or not, dropping the expired prefix filters by age iff no expired event stands behind a live one |
| `StaleClock.AlwaysFiltersIff` | conditions/counter.go:177-195 | That holds for every age iff the readings in the FIFO ascend |
| `StaleClock.StaysAscendingIff` | conditions/counter.go:151-171 | A count with a clock reading taken before the lock keeps the FIFO ascending iff its reading is no older than the newest event left |
| `StaleClock.InOrderReadingsRefine` | conditions/counter.go:151-227 | In every run whose readings reach the lock in order, however old they are, a look finds exactly the events of the log, dated by their readings, that are young enough and not removed |
| `StaleClock.OvershootsByAge` | conditions/counter.go:200-213 | The expiry timer comes later than the head's expiry by exactly the age of the reading |
| `StaleClock.OvertakenReading` | conditions/counter.go:151-171 | A concrete overtaking after which a read counts an event the window should have dropped |
| `StaleClock.CurrentReading` | conditions/counter.go:151-227 | With a current reading these are the windowed steps of every other result |
| `SlidingWindow.AlivePopped` | conditions/counter.go:151-171 | Removing k events takes exactly the k oldest that still count |
| `SlidingWindow.RunTracks` | conditions/counter.go:151-227 | In every run the FIFO and count track the whole event log, the expiry timer is due by head + window, and an input the count no longer justifies has an expiry due |
| `SlidingWindow.WindowRefinement` | conditions/counter.go:60-67 | After any history, reading the count yields exactly the events of the whole log younger than the window and not removed, and their number |
| `SlidingWindow.WindowDrains` | conditions/counter.go:200-227 | A counter left alone for a window, its expiry timer not overdue, is empty and, with preset > 0, has fed the machine false |
| `CounterConditions.CounterCondition.ApplyDelta` | conditions/counter.go:111-143 | The object performs exactly the counting step of the run model, on its own fields and its machine |
| `CounterConditions.CounterCondition.ApplyWindowedDelta` | conditions/counter.go:151-171 | The windowed step, in place |
| `CounterConditions.CounterCondition.PruneLocked` | conditions/counter.go:177-195 | The pruning loop removes exactly the expired prefix |
| `CounterConditions.CounterCondition.ArmExpiryLocked` | conditions/counter.go:200-213 | Arms the timer for the head, never in the past, or disarms it |
| `CounterConditions.CounterCondition.OnWindowExpire` | conditions/counter.go:219-227 | The expiry callback, in place |
| `CounterConditions.CounterCondition.Count` | conditions/counter.go:60-67 | Returns the count after pruning |
| `CounterConditions.CounterCondition.Reset` | conditions/counter.go:72-82 | Restores the initial count and clears FIFO, timer and machine |
| `CounterConditions.CounterCondition.Start` | conditions/counter.go:238-253 | Boots the machine and applies a zero delta |
| `CounterConditions.CounterCondition.Perform` | conditions/counter.go:60-253 | Every step of the run model performed on the object gives exactly the next state of the run |
| `CounterConditions.CounterCondition.Increment` | conditions/counter.go:99-109 | Counting through the public call is the counting step |
| `Timers.DebounceArmed` | conditions/timer.go:139-176 | In every run the debounce timer is armed iff the submitted value differs from the committed one, and is due one interval after the last submission |
| `Timers.CommitsStableEdges` | conditions/timer.go:180-191 | In every run the debounce timer commits an edge iff the last value submitted differs from the committed one and has stood for the whole interval; the machine is then told that value |
| `Timers.SubmitsReachMachine` | conditions/timer.go:139-176 | Without a debounce the machine holds v after every submit of v, even after a timeout silently reset it |
| `Timers.ToggleFlipsMachineInput` | conditions/timer.go:120-133 | A toggle flips the input the machine actually holds |
| `Timers.RepeatsPostponeCommit` | conditions/timer.go:150-176 | Re-submitting the same value faster than the interval postpones the commit for ever |
| `Timers.MachineIsTold` | conditions/timer.go:139-191 | Without a timeout the machine holds, in every run, the last value set or, with a debounce, the last that had stood for the interval when the timer ran |
| `Timers.ToggleSubmitsOpposite` | conditions/timer.go:120-133 | A toggle is a submission of the opposite of what the machine holds, debounced or not |
| `Timers.ClearReasserts` | conditions/timer.go:59-84 | A clear drops what is pending and leaves the machine asserted iff the declared input is |
| `TimerConditions.TimerCondition.SubmitInput` | conditions/timer.go:139-176 | The object performs exactly the submission step |
| `TimerConditions.TimerCondition.OnDebounceFire` | conditions/timer.go:180-191 | The commit step, in place |
| `TimerConditions.TimerCondition.Toggle` | conditions/timer.go:120-133 | The toggle step, in place |
| `TimerConditions.TimerCondition.Clear` | conditions/timer.go:59-84 | The clear step, in place |
| `TimerConditions.TimerCondition.Start` | conditions/timer.go:196-219 | The start step, in place |
| `TimerConditions.TimerCondition.Perform` | conditions/timer.go:59-191 | Every step of the run model performed on the object gives exactly the next state of the run; a toggle is refused iff the input is declared |
| `TimerConditions.TimerCondition.Set` | conditions/timer.go:94-107 | Refused iff an input expression is bound; otherwise the submission step |
| `Thresholds.LastOutsideDecides` | conditions/threshold.go:121-147 | Over any samples the derived value is decided by the last one outside the deadband, and is the starting value if there is none |
| `Thresholds.FlipsNeedVariation` | conditions/threshold.go:121-147 | k flips from a false start force the samples to vary by at least k - 1 band widths in all |
| `Thresholds.LowMirrorsHigh` | conditions/threshold.go:121-147 | The low form derives what the high form does on negated samples and thresholds |
| `Thresholds.RunDerives` | conditions/threshold.go:106-117 | In every run the condition derives exactly the hysteresis of the samples since the last clear |
| `Thresholds.CommitsStableValues` | conditions/threshold.go:151-189 | The debounce timer is armed iff derived and committed differ, and commits the derived value iff it has stood for the whole interval |
| `Thresholds.MachineIsTold` | conditions/threshold.go:151-176 | Without a timeout the machine holds the committed value in every run; without a debounce either, the hysteresis of the samples since the last clear |
| `Thresholds.FlipsReachMachine` | conditions/threshold.go:158-160 | Without a debounce a sample that flips the derived value reaches the machine at once, even after a timeout withdrew the input |
| `Thresholds.ClearResamples` | conditions/threshold.go:67-101 | A clear takes the declared input afresh and leaves the machine with whether it lies beyond the activation threshold, nothing pending |
| `Thresholds.CommittedFromHistory` | conditions/threshold.go:151-189 | With a debounce the committed value changes only when the timer runs once the derived value has stood for the interval, and on a clear |
| `ThresholdConditions.ThresholdCondition.SubmitValue` | conditions/threshold.go:106-117 | The object performs exactly the sampling step |
| `ThresholdConditions.ThresholdCondition.SubmitDerived` | conditions/threshold.go:151-176 | The debounced submission, in place |
| `ThresholdConditions.ThresholdCondition.OnDebounceFire` | conditions/threshold.go:178-189 | The commit step, in place |
| `ThresholdConditions.ThresholdCondition.Clear` | conditions/threshold.go:67-101 | The clear step, in place |
| `ThresholdConditions.ThresholdCondition.DeriveLocked` | conditions/threshold.go:121-147 | The branches compute the hysteresis decision the laws above are about |
| `ThresholdConditions.ThresholdCondition.Perform` | conditions/threshold.go:67-189 | Every step of the run model performed on the object gives exactly the next state of the run |
| `ThresholdConditions.ThresholdCondition.Start` | conditions/threshold.go:191-214 | The start step, in place |
| `Flipflops.WireDispatch` | conditions/flipflop.go:306-318 | Re-evaluating a wire only when its source notifies gives the edge and baseline that re-evaluating it always would |
| `Flipflops.GateDispatch` | conditions/flipflop.go:216-258 | The cached gate level gives the window and sampling decision that re-evaluating the gate would |
| `Flipflops.DispatchRefinesReference` | conditions/flipflop.go:198-301 | In every run in which only the notifying source has changed, the desired output equals that of re-evaluating every wire against its whole history, and is the machine's raw input |
| `FlipflopLaws.ReferenceIsLawful` | conditions/flipflop.go:216-301 | Told from levels alone: set and reset edges together give the dominant value, one alone its own, a toggle edge the opposite of the sampled value, none the sampled value, each through an open gate only; for rising, falling and both edges, high, low and edge gates |
| `FlipflopLaws.FlipflopIsLawful` | conditions/flipflop.go:198-301 | In every run in which only the notifying source has changed, the flipflop obeys those laws and drives its machine accordingly |
| `FlipflopLaws.CommandsAreLawful` | conditions/flipflop.go:148-184 | Set, toggle and clear leave the flipflop and its machine at the value, its opposite and false; nothing else moves it |
| `FlipflopLaws.StartsAsConfigured` | conditions/flipflop.go:356-385 | A flipflop starts as configured and silently: what its wires show at the start is no edge |
| `Flipflops.ClosedGateHolds` | conditions/flipflop.go:278-285 | A notification that finds the gate closed leaves the output alone |
| `Flipflops.DesiredIsInput` | conditions/flipflop.go:186-209 | In every run, whatever the notifications, the desired output equals the machine's raw input |
| `Flipflops.ClosedEdgeNeverDrives` | conditions/flipflop.go:278-301 | An edge a flipflop saw while its gate was closed never drives it later: through any operations, until the event wires change again, its output goes on as if they were not there, whatever the gate does |
| `Flipflops.ClosedEdgeIsGone` | conditions/flipflop.go:278-301 | The same of the reference run, for all notifications |
| `FlipflopConditions.FlipflopCondition.Start` | conditions/flipflop.go:356-385 | Establishes every baseline and the gate level without firing an edge |
| `FlipflopConditions.FlipflopCondition.OnSourceChanged` | conditions/flipflop.go:198-209 | The object performs exactly the notification step |
| `FlipflopConditions.FlipflopCondition.RecomputeLocked` | conditions/flipflop.go:216-301 | Computes the resolved output and leaves the model's baselines behind |
| `FlipflopConditions.FlipflopCondition.Toggle` | conditions/flipflop.go:166-174 | The toggle step, in place |
| `FlipflopConditions.FlipflopCondition.Clear` | conditions/flipflop.go:179-184 | The clear step, in place |
| `FlipflopConditions.FlipflopCondition.Perform` | conditions/flipflop.go:148-301 | Every step of the run model, time and timers included, performed on the object gives exactly the next state of the run |
| `FlipflopConditions.FlipflopCondition.Set` | conditions/flipflop.go:148-162 | The set step, in place |
| `FlipflopConditions.FlipflopCondition.ReconcileDesiredLocked` | conditions/flipflop.go:189-193 | Adopts the input the machine actually holds |
| `BlockSorter.SortBlocksByDependencies` | config/dep.go:161-268 | Reports identifier errors, then dependency errors, then a cycle, each exactly when there is one (self-references included); otherwise returns the lexicographically least topological order by source position, then the blocks that take no part |
| `BlockSorter.Kahn` | config/dep.go:222-254 | The ready-list loop over in-degree counters and multi-edges produces the greedy order and stops only when nothing is ready |
| `BlockSorter.Collect` | config/dep.go:170-191 | Splits blocks into participants and others and indexes ids, the last block carrying an id winning |
| `BlockSorter.Connect` | config/dep.go:197-216 | The loops fill in-degree counters and adjacency lists that describe exactly the arcs of the references, with multiplicity, and reports dependency errors iff a block has one |
| `DependencyGraph.GreedyDecides` | config/dep.go:222-264 | A stuck greedy order is complete iff the graph is acyclic, and then it is the least topological order |
| `DependencyGraph.StuckIsCyclic` | config/dep.go:256-264 | If nodes are left over and none is ready, there is a cycle |
| `DependencyGraph.LeastIsUnique` | config/dep.go:222-254 | There is only one least topological order |
| `BlockSorter.EachBlockHasItsPlace` | config/dep.go:174-191 | A block takes part iff its type has a handler that names it; those that do, and those that do not, keep their order |
| `BlockSorter.ErrorsComeFromBlocks` | config/dep.go:202-220 | Sorting stops on dependencies iff those of some block that takes part could not be told |
| `BlockSorter.LeastOrderIsUnique` | config/dep.go:161-268 | The result is determined by the input |
| `BlockSorter.OrderedInputIsUnchanged` | config/dep.go:161-268 | An input already in dependency order keeps it, and comes back unchanged if its other blocks are last |
| `BlockSorter.SortingPermutes` | config/dep.go:161-268 | No block is lost, added or repeated |
| `BlockSorter.ArcMeansReference` | config/dep.go:202-216 | One entry depends on another iff one of its references resolves to it |
| `AuthBinding.ProcessingSucceeds` | config/authblock.go:135-224 | Processing declarations in any order succeeds iff each is sound and no name has two enabled ones; then each name is bound to its enabled declaration if there is one, and disabled otherwise |
| `AuthBinding.BindingIgnoresOrder` | config/authblock.go:200-224 | Any reordering of the declarations succeeds too and ends in the same bindings |
| `AuthBinding.ReservedNamesHold` | config/authblock.go:236-246 | The built-in names keep their meaning whatever is declared |
| `AuthBinding.Namespace.Process` | config/authblock.go:135-180 | The object performs exactly the processing step of one declaration, and remembers the declaration iff it was enabled and succeeded |
| `AuthBinding.Namespace.Bind` | config/authblock.go:217-224 | Binds the name and remembers the declaration |
| `AuthBinding.Namespace.BindDisabled` | config/authblock.go:209-214 | Binds the disabled mechanism only where nothing real is bound, and leaves the remembered declarations alone |
| `AuthBinding.Namespace.EnabledDeclaration` | config/authblock.go:200-205 | Finds the declaration remembered for a name iff the name is bound to a real mechanism |
| `AuthOrdering.EarlierDeclarationArc` | config/authblock.go:104-133 | The last declaration of a name waits for an earlier one iff no later block takes the earlier one's id |
| `AuthOrdering.ReferenceArc` | config/authblock.go:104-111 | A block that references a name waits for its last declaration iff no later block takes that declaration's id |
| `AuthOrdering.IdsAreDistinctWithinAFile` | config/authblock.go:128-133 | Two declarations go by the same id iff they share both name and offset |
| `AuthOrdering.DeclarationsComeFirst` | config/authblock.go:104-126 | A block referencing a name comes after a declaration of it in every topological order, if no later block takes that declaration's id or the last one's; other blocks may share ids |
| `AuthOrdering.CollidingIdsMisorder` | config/authblock.go:128-133 | Ids built from the offset alone collide across files: two earlier declarations at the same offset of two files put a reference before one of them |
| `AuthReferences.ReferenceSeesFinalBinding` | config/authblock.go:96-126 | If the declarations of a name keep their ids, a referencing block processed in sorted order finds the binding the name ends up with: the enabled declaration if there is one, the disabled mechanism otherwise |
| `AuthReferences.BindingIsFinal` | config/authblock.go:200-224 | Declarations of other names leave a binding alone |
| `AuthPolicies.ResolveAuth` | config/auth.go:222-295 | Inherits iff absent; rejects iff not a reference or list of references, or anonymous is not last; otherwise the remaining authenticators and all names in order, and anonymous access iff none remains or it was named |
| `AuthPolicies.SwitchingOffKeepsEnforcing` | config/auth.go:268-290 | Switching off any of a list's mechanisms adds no authenticator and opens the route iff the list names `auth.anonymous` or nothing in it enforces any more |
| `AuthPolicies.OrderIsKept` | config/auth.go:266-284 | What remains is tried in the order written, and the names are all those written, in order |
| `ReactiveEdge.Trigger.OnValue` | config/fsm.go:689-722 | One callback run alone stores, claims, enqueues and rolls back as the interleaved steps do; it fires iff the edge was free and the mailbox took the event |
| `ReactiveEdge.EventsAreBounded` | config/fsm.go:687-722 | In every interleaving, refusals and rollbacks included, accepted events (with claims still open or turned away) number at most one plus the false evaluations stored |
| `ReactiveEdge.ClaimsAreSeparated` | config/fsm.go:698-719 | In every interleaving a false evaluation or the rollback of a refusal lies between any two claims of the edge; with no refusals, a false evaluation |
| `ReactiveEdge.RefusalMisplacesAnEdge` | config/fsm.go:714-719 | A concrete run in which a late rollback lets two claims, and two accepted events, follow each other with no false evaluation between |
| `ReactiveEdge.FlagFromHistory` | config/fsm.go:698-719 | In every interleaving the flag is up iff an evaluation found the expression true after the last false evaluation or rollback |
| `ReactiveEdge.ClaimsAreConserved` | config/fsm.go:702-719 | Every claim is in flight, accepted, turned away, or refused and rolled back |
| `ReactiveEdge.BackToBackEvents` | config/fsm.go:702-706 | The events themselves may still be enqueued with no false store between them, because a claim may reach the mailbox late |
| `ReactiveEdge.NextEventNeedsFalse` | config/fsm.go:698-719 | In any state, refusals past, pending or to come included, every further event needs a further false evaluation iff no claim is in flight, no rollback is pending and the flag is up |
| `HealthRuns.RunKeeps` | config/health.go:489-547 | In every interleaving: the cached report exists and carries its completion time, a call in flight has exactly one evaluating reader and no result yet, no two readers hand out the same call, and whoever waits for a call will be handed a report no older than its own arrival |
| `HealthRuns.SingleFlight` | config/health.go:498-512 | At most one evaluation runs, and a call is in flight exactly while one does |
| `HealthRuns.ReportsAreFresh` | config/health.go:489-547 | A reader served from the cache gets a report completed less than the cache lifetime before it arrived, or later; one that evaluated or waited, and every forced one, a report completed no earlier than it arrived |
| `HealthTruth.EvaluationSaysWhatItFound` | config/health.go:562-607 | An evaluation publishes for each contributor, in order, its component, probe and answer, as of now, caches it and ends the flight |
| `HealthTruth.AnswersAreTruthful` | config/health.go:371-402 | In every run a reader served some evaluation's report passes iff every contributor to its probe was ready in that evaluation and has not pushed a failure into the report since |
| `HealthTruth.EntriesFromHistory` | config/health.go:263-271 | A report's entries stay as computed, except not ready where the component pushed a failure while the report was cached |
| `HealthTruth.AnswerLists` | config/health.go:391-397 | An answer lists the process and then the probe's entries, all of them, in order of registration |
| `HealthTruth.CacheIsUsedIff` | config/health.go:489-514 | In every run a reader is served from the cache iff it does not force and a report younger than five seconds is cached; else it joins the evaluation some reader runs, or runs one |
| `HealthTruth.CacheFromHistory` | config/health.go:526-529 | The cached report is the last one completed, unless a recovery has been pushed since |
| `HealthTruth.WaitersShareTheReport` | config/health.go:498-507 | The reader that ran an evaluation and everyone waiting for it are served its report, whenever they wake |
| `HealthTruth.VerdictsAreRecorded` | config/health.go:301-323 | A push records its verdict, an evaluation those of all contributors, a reader those it copied, and nothing else records any |
| `HealthTruth.OthersAreUndisturbed` | config/health.go:484-510 | A reader moves by its own steps alone, whoever else gives up or evaluates, and is gone once it has returned |
| `HealthClaims.ReportsOnlyWorsen` | config/health.go:263-271 | A report once computed only ever loses ready entries |
| `HealthClaims.PushedFailureIsBelieved` | config/health.go:243-272 | After a component reports its own failure and until an evaluation completes, a reader that takes the cached report never shows it ready, however late it copies it and whatever happens meanwhile |
| `HealthClaims.SinceOpensTheRun` | config/health.go:301-307 | A component is dated iff a verdict was recorded for it, and its date is that of the verdict opening its current run of equal verdicts |
| `HealthClaims.LifecycleFromHistory` | config/health.go:328-356 | Draining iff a drain ever began, otherwise serving iff booted |
| `HealthClaims.GateDecides` | config/health.go:371-402 | A reader is answered by the gate iff the process was not booted, or was draining and readiness was asked for; the process entry is ready iff it is not, and a gated answer always fails, so readiness never passes for a reader arriving after a drain began |
| `HealthClaims.GivingUpPassesIff` | config/health.go:498-507 | A waiting reader that gives up passes iff nothing is cached or the cached report passes its probe |
| `HealthClaims.GivingUpCanHideAFailure` | config/health.go:503-506 | A concrete run in which such a reader passes readiness although the only component has reported its own failure |
| `HealthState.Health.NoteSinceLocked` | config/health.go:301-307 | The dating step, in place; returns the date the component now holds |
| `HealthState.Health.Report` | config/health.go:243-272 | The push step, in place |
| `HealthState.Health.Correct` | config/health.go:266-271 | The loop over the shared report marks exactly the component's entries |
| `HealthState.Health.Date` | config/health.go:316-323 | Dates every entry in order and returns the date each was given |
| `HealthState.DatesAreOnRecord` | config/health.go:316-323 | The date an entry is given is the one on record for its verdict once it has been noted |
| `HealthState.Health.SetBooted` | config/health.go:328-337 | The boot step, in place |
| `HealthState.Health.BeginDrain` | config/health.go:346-356 | The drain step, in place |
| `HealthState.Health.ProcessStatus` | config/health.go:461-481 | The gate's verdict; a gate that decides alone always fails |
| `HealthState.Health.EnterEvaluate` | config/health.go:489-514 | Serves, joins or begins an evaluation as the system step does |
| `HealthState.Health.FinishEvaluate` | config/health.go:526-538 | Publishes, dates and ends the flight as the system step does |
| `HealthState.Health.Register` | config/health.go:214-233 | Appends one contributor and changes nothing else |
| `HealthState.Health.HandOut` | config/health.go:541-542 | Publishes the report to those waiting for the call |
| `HealthState.Health.LastResults` | config/health.go:549-553 | The cached report a reader that gives up falls back to |
| `HealthState.Probing.Perform` | config/health.go:243-553 | Every step of the system, performed on the aggregator and its readers, gives exactly the next state of the run and keeps the invariant |
| `HealthState.Health.Filter` | config/health.go:389-397 | The loop copies out exactly the probe's entries behind the process entry |

## Left out

- HCL decoding, schema metadata and diagnostics: parsing plumbing; what it rejects is stated as `Accepted`, `Ordered` or a wiring.
- Expression evaluation: wires and inputs arrive as booleans or non-boolean, samples as reals; evaluation errors are not modelled. NaN and floating-point rounding are not modelled.
- Integer width: counts and instants are mathematical integers; int64 overflow is not modelled. A zero `time.Time` is an absent value.
- Contexts, tracing, loggers, lifecycle hooks and HTTP rendering: input and output.
- Delivery order of notifications: they are sent after the lock is released, so two watchers' callbacks may overtake each other; the model records lock order.
- Interleavings inside one front-end call, beyond plain counters and undebounced timers: windowed and rollover counting, resets, thresholds and flipflops are one step per call, machine included.
- Late callbacks and the exact activation delay, debounce and window drain: those guarantees need an effective `Stop`.
- SlidingWindow.WindowDrains: takes each call's clock reading to be current; a stale one delays the expiry timer as `StaleClock.OvershootsByAge` says.
- MachineRuns.TimeoutBound: needs prompt timers; a late timeout lengthens a stay in active by its lateness.
- Flipflops.DispatchRefinesReference: assumes that between notifications only the notifying source's wires changed, which is what the cached levels rely on, and a behaviour without a timeout, which a flipflop cannot be given.
- AuthOrdering.DeclarationsComeFirst: needs the two declarations to keep their ids; `CollidingIdsMisorder` shows why.
- HealthClaims.PushedFailureIsBelieved: speaks of the entries behind the built-in `process` entry, and of readers that take the cached report, not of one handed the result of an evaluation begun before the push.
- ReactiveEdge.Trigger.OnValue: the class is one callback without interference; interleavings are covered by the step system.
- Health transition logging, the `sys.ready` watchable and reason strings: derived output; `sys.ready` may still turn true while draining through a liveness read.
- Contributor probing itself (timeouts, panics, parallelism): an evaluation's outcome is an arbitrary boolean per contributor. Contributors are registered before the first read.
- `SortAttributesByDependencies` and reference extraction from expressions: they rest on libraries that are not part of this model.
- The comparison sort used by the sorter is the library's; the model orders by insertion and states the same result.
- The bus, async queues, FSM instances, plugins, git fetch, TLS, metrics and commands: wrappers and input/output.
