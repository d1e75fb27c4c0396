# Slow-motion trigger controller

A model of the slow-motion controller of the Domino Unity project,
`Assets/scripts/SlowMoTrigger.cs`. A trigger zone watches for the ball. When
the ball enters, the controller ramps the process-wide time scale down to a
slow-motion factor over 0.1 unscaled seconds, holds it there for a
wall-clock duration, hands the return to normal speed to the per-frame
update (which raises the scale at a bounded rate), and refuses new entries
until a cooldown has passed. Whenever the time scale is written, the physics
step is written as `0.02 * timeScale`. Disabling the component restores
normal time.

Files:

- `mathf.dfy` (module `Mathf`): the engine helpers the controller calls:
  `Clamp01`, `Lerp` and `MoveTowards`.
- `slowmo.dfy` (module `SlowMo`): the configuration, the state, the events,
  and the handlers `OnTriggerEnter`, `Update` and `OnDisable`. The
  `SlowMoSequence` coroutine is an explicit phase machine with one step per
  suspension point.
- `slowmo_props.dfy` (module `SlowMoProperties`): the state invariant and
  the properties proved about event sequences.

Modelling choices:

- The engine globals `Time.timeScale` and `Time.fixedDeltaTime` are fields
  of `State`, next to the two flags `isSlowMo` and `onCooldown`.
- The coroutine's position is a `Phase`:
  - `Idle`: no sequence is running.
  - `RampDown(elapsed, startScale)`: suspended in the ramp loop.
  - `Hold(remaining)`: waiting out the slow-motion duration.
  - `Cooldown(remaining)`: waiting out the cooldown.
  The two waits count down in unscaled seconds.
- The host delivers three kinds of `Event`:
  - `Trigger(body, frameDt)`: a body enters the zone during a frame whose
    unscaled delta is `frameDt`.
  - `Tick(dt)`: the end of a frame. It runs `Update` and then resumes the
    coroutine once, both seeing the same unscaled delta. This is the
    engine's order of `Update` and coroutine resumption.
  - `Disable`: the game object is deactivated or the component destroyed.
    Both stop the component's coroutines in the engine.
- An accepted trigger runs the coroutine at once, up to its first
  `yield return null`. That raises both flags, records the start scale, and
  performs the first ramp step.
- A realtime wait begins counting on the frame after it is issued. It ends
  on the first frame whose delta uses up what remains.
- `Disable` cancels the sequence: the phase goes back to `Idle`. Later
  events are handled as if the component had been re-enabled at once, so
  `Update` keeps running after a `Disable`.
- A missing ball reference is `Config.ball == None`. Bodies are identified
  by a natural number.
- Floats are exact reals; the model has no rounding.
- `Lerp` is a plain definition. Its properties are the lemmas
  `LerpWithinEnds` and `LerpMonotone`, and the position of the scale on the
  ramp is the invariant `OnRampCurve`, kept apart from the main invariant
  `Inv`.

## Model

| member | source | states |
|---|---|---|
| Mathf.Clamp01 | Assets/scripts/SlowMoTrigger.cs:77 | the clamp inside the interpolation: the parameter lands in [0, 1], unchanged inside it, 0 below and 1 above |
| Mathf.LerpWithinEnds | Assets/scripts/SlowMoTrigger.cs:76-77 | the interpolated scale lies between the start scale and the target; a parameter at or past 1 yields the target exactly, and one at or below 0 yields the start |
| Mathf.LerpMonotone | Assets/scripts/SlowMoTrigger.cs:75-77 | a larger interpolation parameter gives a value between the smaller parameter's value and the target, so growing elapsed time never moves the ramp back |
| Mathf.MoveTowards | Assets/scripts/SlowMoTrigger.cs:47-49 | with a non-negative step the result stays between current and target and moves at most the step; it either reaches the target or moves by exactly the step |
| SlowMo.OnTriggerEnter | Assets/scripts/SlowMoTrigger.cs:54-79 | an entry during cooldown or slow motion, or by a body other than the assigned ball, changes nothing; otherwise both flags go up, the ramp starts from the current scale, and the first written scale lies between start and target with the physics step tied to it |
| SlowMo.Update | Assets/scripts/SlowMoTrigger.cs:42-52 | no write while in slow motion or at normal speed; otherwise, for a non-negative recovery speed, the scale never decreases, never exceeds 1, rises by at most `recoverySpeed * dt`, either reaches 1 or rises by exactly that, and the physics step follows it; the flags and the coroutine are untouched |
| SlowMo.RampFraction | Assets/scripts/SlowMoTrigger.cs:69-76 | the interpolation parameter `elapsed / rampDuration` is at least 1 exactly when 0.1 s have elapsed, and at most 0 exactly when none has |
| SlowMo.SetScale | Assets/scripts/SlowMoTrigger.cs:77-78 | the paired write used at lines 47-50, 77-78 and 82-83: the time scale is set and the physics step becomes `0.02` times it; flags and coroutine are untouched |
| SlowMo.RampStep | Assets/scripts/SlowMoTrigger.cs:73-79 | one ramp pass adds the frame delta to the elapsed time and sets the scale to the interpolation from start to target at elapsed / 0.1, so it lies between them and reaches the target once 0.1 s have elapsed; the physics step is tied |
| SlowMo.RampLoop | Assets/scripts/SlowMoTrigger.cs:73-88 | while under 0.1 s the loop runs one more pass, interpolating at the new elapsed time; once past it, the scale is snapped to exactly the slow-motion factor, and the hold wait starts; either way the physics step is tied to the scale |
| SlowMo.HoldWait | Assets/scripts/SlowMoTrigger.cs:88-95 | the hold writes no time fields; when the realtime wait runs out slow motion ends and the cooldown wait starts at once, otherwise only the countdown advances |
| SlowMo.CooldownWait | Assets/scripts/SlowMoTrigger.cs:95-96 | the cooldown writes no time fields; when it runs out the gate re-opens and the sequence ends, otherwise only the countdown advances |
| SlowMo.Resume | Assets/scripts/SlowMoTrigger.cs:63-97 | only the ramp phase of the coroutine writes the time fields; with no sequence running a resumption changes nothing |
| SlowMo.OnDisable | Assets/scripts/SlowMoTrigger.cs:100-106 | from any state: normal scale, 0.02 physics step, both flags down, sequence cancelled |
| SlowMo.Frame | Assets/scripts/SlowMoTrigger.cs:42-97 | a frame runs the recovery driver before resuming the coroutine: it never raises either flag, and during the hold (including the frame that ends it) it leaves the scale alone, so recovery starts on the following frame |
| SlowMo.Step | Assets/scripts/SlowMoTrigger.cs:42-106 | of the three events only a zone entry can start slow motion, and a disable always lands in the start-up state |
| SlowMo.Run | Assets/scripts/SlowMoTrigger.cs:42-106 | events delivered in order; with no zone entry among them, a controller out of slow motion stays out of it |
| SlowMoProperties.StepPreservesInv | Assets/scripts/SlowMoTrigger.cs:39-106 | every event keeps the invariant: `isSlowMo` implies `onCooldown`, the physics step is `0.02 * timeScale`, the scale stays in (0, 1] and between the ramp's start and target while ramping, and during the hold the scale is exactly the slow-motion factor |
| SlowMoProperties.RunPreservesInv | Assets/scripts/SlowMoTrigger.cs:39-106 | any sequence of events keeps that invariant |
| SlowMoProperties.ReachableStatesAreSafe | Assets/scripts/SlowMoTrigger.cs:50 | every state reachable from start-up has `isSlowMo ==> onCooldown`, `fixedDeltaTime == 0.02 * timeScale`, a scale in (0, 1], and the exact slow-motion factor during the hold |
| SlowMoProperties.NoReentryWhileCoolingDown | Assets/scripts/SlowMoTrigger.cs:57 | while the cooldown flag is up, any number of zone entries leaves the state unchanged |
| SlowMoProperties.SecondTriggerInFrameRejected | Assets/scripts/SlowMoTrigger.cs:60-66 | an accepted entry changes the state, and a second entry in the same frame, by any body, is then ignored, because the flags rise before the first yield |
| SlowMoProperties.SingleWriterPerFrame | Assets/scripts/SlowMoTrigger.cs:45-79 | within a frame the recovery driver and the coroutine never both write the scale, and the coroutine writes only while `isSlowMo` holds |
| SlowMoProperties.RampEndsExactlyAtTarget | Assets/scripts/SlowMoTrigger.cs:82-83 | the frame that hands the ramp over to the hold leaves the scale at exactly the slow-motion factor, with physics step `0.02 * slowMoScale` |
| SlowMoProperties.StepPreservesRampCurve | Assets/scripts/SlowMoTrigger.cs:73-79 | every event keeps the ramp on its curve: while ramping, the scale is the interpolation from the start scale to the target at the elapsed unscaled time over 0.1 s |
| SlowMoProperties.RunPreservesRampCurve | Assets/scripts/SlowMoTrigger.cs:73-79 | any sequence of events keeps the ramp on that curve |
| SlowMoProperties.ReachableRampFollowsClock | Assets/scripts/SlowMoTrigger.cs:71-79 | from start-up, whatever events arrive, a ramp in progress has exactly the scale its elapsed unscaled time calls for |
| SlowMoProperties.RampNeverBacktracks | Assets/scripts/SlowMoTrigger.cs:73-83 | each frame of the ramp leaves the scale between its previous value and the slow-motion factor |
| SlowMoProperties.RampCountsWallClock | Assets/scripts/SlowMoTrigger.cs:69-79 | while the elapsed time plus the frames' total stays under 0.1 s, the coroutine is still ramping from the same start scale, with both flags up and the elapsed time advanced by exactly that total |
| SlowMoProperties.RampScaleFollowsClock | Assets/scripts/SlowMoTrigger.cs:75-77 | after such frames the scale is the interpolation for the elapsed time plus their total |
| SlowMoProperties.RampExpires | Assets/scripts/SlowMoTrigger.cs:73-88 | once frames have taken the elapsed time to 0.1 s, the next frame leaves the ramp |
| SlowMoProperties.RunConcat | Assets/scripts/SlowMoTrigger.cs:42-106 | running two event sequences back to back equals running their concatenation |
| SlowMoProperties.RecoveryFrameIsFrame | Assets/scripts/SlowMoTrigger.cs:42-52 | after slow motion has ended, a frame is just the recovery driver followed by the cooldown countdown; the state stays in recovery and the scale does not fall |
| SlowMoProperties.RunRecoveryIsRun | Assets/scripts/SlowMoTrigger.cs:42-52 | after slow motion has ended, any run of frames equals the recovery-only reference run |
| SlowMoProperties.RecoveryProgress | Assets/scripts/SlowMoTrigger.cs:45-49 | over frames after slow motion, the scale either is back at 1 or has risen by at least `recoverySpeed` times the total unscaled time |
| SlowMoProperties.RecoveryCompletes | Assets/scripts/SlowMoTrigger.cs:45-49 | frames totalling at least `(1 - timeScale) / recoverySpeed` unscaled seconds after slow motion ends bring the scale back to exactly 1 |
| SlowMoProperties.AfterSlowMoStaysOver | Assets/scripts/SlowMoTrigger.cs:45-49 | once slow motion has ended, frames alone never restart it, and the scale stays in (0, 1] |
| SlowMoProperties.HoldCountsWallClock | Assets/scripts/SlowMoTrigger.cs:88 | while the total unscaled time stays under what remains of the hold, frames only advance the countdown by exactly that total: the hold writes nothing |
| SlowMoProperties.HoldExpires | Assets/scripts/SlowMoTrigger.cs:88-91 | frames totalling at least the rest of the hold end slow motion |
| SlowMoProperties.CooldownFrame | Assets/scripts/SlowMoTrigger.cs:94-95 | a frame shorter than the remaining cooldown only counts it down, keeping the invariant |
| SlowMoProperties.CooldownCountsWallClock | Assets/scripts/SlowMoTrigger.cs:94-96 | frames totalling less than the remaining cooldown keep the cooldown flag up and reduce the countdown by exactly their total, and any zone entry then is ignored: the gate stays shut for the whole cooldown |
| SlowMoProperties.CooldownExpires | Assets/scripts/SlowMoTrigger.cs:94-96 | frames totalling at least the remaining cooldown leave the controller idle with both flags down, so the gate accepts the ball again |
| SlowMoProperties.TicksKeepIdle | Assets/scripts/SlowMoTrigger.cs:42-61 | without a zone entry, an idle controller stays idle with both flags down |
| SlowMoProperties.DisableIdempotent | Assets/scripts/SlowMoTrigger.cs:100-106 | disabling twice is the same as disabling once |
| SlowMoProperties.DisableResetsToInitial | Assets/scripts/SlowMoTrigger.cs:100-106 | disabling from any two states gives the same state, the start-up state |
| SlowMoProperties.DefaultScenario | Assets/scripts/SlowMoTrigger.cs:26-36 | with the default settings (0.15, 2.5 s, 5, 4 s): after an entry and two 0.05 s frames the ramp has reached 0.15 and the hold begins; a re-entry during the hold is ignored; a 2.5 s frame ends the hold; two 0.1 s frames recover the scale to 1; a 3.8 s frame ends the cooldown, and the next entry behaves like the first |

## Left out

- `OnDrawGizmos` (lines 109-119): editor-only drawing; it does not affect time or the flags.
- The two `Debug.Log` calls (lines 85 and 92): console output only.
- The camera and parallax scripts of the project are not part of this model; neither writes the time scale.
- The engine's scheduler, physics stepping, collider geometry and the delivery of trigger callbacks are not modelled. Entries arrive as events carrying the frame delta.
- `WaitForSecondsRealtime` is a wall-clock countdown advanced by frame deltas. Its exact expiry frame in the engine is not modelled beyond "the first frame whose delta uses up the remainder".
- Single-precision rounding: all arithmetic is over exact reals.
- The engine's own clamping of values written to `Time.timeScale` and `Time.fixedDeltaTime` is not modelled. The invariant shows the controller keeps the scale in (0, 1] anyway.
- Disabling only the component (`enabled = false`) while its game object stays active is not modelled. In the engine that stops `Update` but not the coroutine. A disable during the ramp is then undone: lines 77 and 82 lower the time scale again after the reset at line 102, and nothing recovers it. After a re-enable, the old coroutine's line 96 can clear `_onCooldown` while a new sequence holds `_isSlowMo`. `Disable` models deactivating the game object or destroying the component, which do stop the coroutine. `SlowMoProperties.ReachableStatesAreSafe` and `SlowMoProperties.DisableResetsToInitial` hold only for that case.
- After a `Disable`, the model keeps running `Update` on later frames, as if the component were re-enabled at once; in the engine a disabled component's `Update` does not run until it is enabled again.
- `SlowMo.Initial` takes the project's fixed timestep before the first write to be 0.02 s, the value the code restores at line 103; the project settings are not part of this model.
- Rejecting a misconfiguration: the code does not validate its settings. The properties assume `ValidConfig`, a slow-motion factor in (0, 1] and a non-negative recovery speed; the inspector range [0.01, 0.5] lies inside that.
- SlowMoProperties.RecoveryCompletes: states the recovery bound as `recoverySpeed * total >= 1 - timeScale`. This is the division-free form of `total >= (1 - timeScale) / recoverySpeed` and also covers a speed of zero.
