/**
 Properties of the slow-motion controller over whole runs: the invariant
 every reachable state keeps, the single-writer discipline on the time
 scale, the gate against re-entry, wall-clock timing of the waits, bounded
 recovery, and the teardown reset.
 */
module SlowMoProperties {
  import opened Mathf
  import opened SlowMo

  /**
   The controller invariant. The physics step is tied to the time scale,
   the scale stays in (0, 1], and the two flags agree with the suspended
   phase of the coroutine: raised together for the ramp and the hold,
   only the cooldown flag during the cooldown, neither when idle. The hold
   keeps the scale pinned at the slow-motion factor. (Where exactly on the
   ramp the scale is, is the separate invariant `OnRampCurve`, which keeps
   the interpolation out of every proof that does not need it.)
   */
  ghost predicate Inv(c: Config, s: State) {
    && s.fixedDeltaTime == PhysicsStep(s.timeScale)
    && 0.0 < s.timeScale <= NormalScale
    && match s.phase
       case Idle => !s.isSlowMo && !s.onCooldown
       case RampDown(elapsed, startScale) =>
         && s.isSlowMo && s.onCooldown
         && elapsed >= 0.0
         && 0.0 < startScale <= NormalScale
         && Between(startScale, c.slowMoScale, s.timeScale)
       case Hold(_) => s.isSlowMo && s.onCooldown && s.timeScale == c.slowMoScale
       case Cooldown(_) => !s.isSlowMo && s.onCooldown
  }

  lemma InitialSatisfiesInv(c: Config)
    ensures Inv(c, Initial)
  {
  }

  /** Every event keeps the invariant. */
  lemma StepPreservesInv(c: Config, s: State, e: Event)
    requires ValidConfig(c) && Inv(c, s)
    ensures Inv(c, Step(c, s, e))
  {
    match e
    case Trigger(body, frameDt) =>
    case Tick(dt) =>
      var u := Update(c, s, dt);
      assert Inv(c, u);
    case Disable =>
  }

  lemma {:induction false} RunPreservesInv(c: Config, s: State, events: seq<Event>)
    requires ValidConfig(c) && Inv(c, s)
    ensures Inv(c, Run(c, s, events))
    decreases |events|
  {
    if events != [] {
      StepPreservesInv(c, s, events[0]);
      RunPreservesInv(c, Step(c, s, events[0]), events[1..]);
    }
  }

  /**
   Whatever events arrive from process start: slow motion never runs
   without the cooldown flag, the physics step equals 0.02 times the
   time scale, the scale stays in (0, 1], and during the hold it is exactly
   the slow-motion factor.
   */
  lemma ReachableStatesAreSafe(c: Config, events: seq<Event>)
    requires ValidConfig(c)
    ensures var s := Run(c, Initial, events);
      && (s.isSlowMo ==> s.onCooldown)
      && s.fixedDeltaTime == PhysicsStep(s.timeScale)
      && 0.0 < s.timeScale <= NormalScale
      && (s.phase.Hold? ==> s.timeScale == c.slowMoScale)
  {
    InitialSatisfiesInv(c);
    RunPreservesInv(c, Initial, events);
  }

  // ---------------------------------------------------------------------------
  // The eligibility gate

  predicate IsTrigger(e: Event) {
    e.Trigger?
  }

  /**
   Any number of zone entries arriving while the controller is active or
   cooling down start nothing and change nothing.
   */
  lemma {:induction false} NoReentryWhileCoolingDown(c: Config, s: State, events: seq<Event>)
    requires s.onCooldown
    requires forall i :: 0 <= i < |events| ==> IsTrigger(events[i])
    ensures Run(c, s, events) == s
    decreases |events|
  {
    if events != [] {
      assert IsTrigger(events[0]);
      assert Step(c, s, events[0]) == s;
      NoReentryWhileCoolingDown(c, s, events[1..]);
    }
  }

  /**
   A second entry in the same frame as an accepted one, by any body, is
   rejected: the flags are up before the coroutine first yields.
   */
  lemma SecondTriggerInFrameRejected(c: Config, s: State, first: Body, second: Body, frameDt: Delta)
    requires !s.onCooldown && !s.isSlowMo
    requires c.ball.None? || first == c.ball.value
    ensures var r := OnTriggerEnter(c, s, first, frameDt);
      r != s && OnTriggerEnter(c, r, second, frameDt) == r
  {
  }

  // ---------------------------------------------------------------------------
  // Single writer of the time scale

  /**
   Within one frame the recovery driver and the coroutine never both write
   the time scale, and the coroutine writes it only while `isSlowMo` holds.
   */
  lemma SingleWriterPerFrame(c: Config, s: State, dt: Delta)
    requires Inv(c, s)
    ensures var u := Update(c, s, dt);
      var r := Resume(c, u, dt);
      && (r.timeScale != u.timeScale ==> u.isSlowMo)
      && (u.timeScale == s.timeScale || r.timeScale == u.timeScale)
  {
  }

  /**
   The frame in which the ramp hands over to the hold leaves the time scale
   at exactly the slow-motion factor, whatever the ramp's last interpolated
   value was.
   */
  lemma RampEndsExactlyAtTarget(c: Config, s: State, dt: Delta)
    requires Inv(c, s) && s.phase.RampDown?
    requires Frame(c, s, dt).phase.Hold?
    ensures Frame(c, s, dt).timeScale == c.slowMoScale
    ensures Frame(c, s, dt).fixedDeltaTime == PhysicsStep(c.slowMoScale)
  {
  }

  /**
   The ramp never backs away from its target: each frame of the ramp leaves
   the scale between where it was and the slow-motion factor.
   */
  lemma RampNeverBacktracks(c: Config, s: State, dt: Delta)
    requires Inv(c, s) && OnRampCurve(c, s) && s.phase.RampDown?
    ensures Between(s.timeScale, c.slowMoScale, Frame(c, s, dt).timeScale)
  {
    var e := s.phase.elapsed;
    LerpMonotone(s.phase.startScale, c.slowMoScale, RampFraction(e), RampFraction(e + dt));
  }

  /**
   The ramp follows the clock: during the ramp the scale is exactly the
   interpolation from the start scale to the slow-motion factor at the
   elapsed unscaled time, as a fraction of the ramp length.
   */
  ghost predicate OnRampCurve(c: Config, s: State) {
    s.phase.RampDown? ==>
      s.timeScale == Lerp(s.phase.startScale, c.slowMoScale, RampFraction(s.phase.elapsed))
  }

  /** Every event keeps the scale on the ramp curve. */
  lemma StepPreservesRampCurve(c: Config, s: State, e: Event)
    requires Inv(c, s) && OnRampCurve(c, s)
    ensures OnRampCurve(c, Step(c, s, e))
  {
  }

  lemma {:induction false} RunPreservesRampCurve(c: Config, s: State, events: seq<Event>)
    requires ValidConfig(c) && Inv(c, s) && OnRampCurve(c, s)
    ensures OnRampCurve(c, Run(c, s, events))
    decreases |events|
  {
    if events != [] {
      StepPreservesInv(c, s, events[0]);
      StepPreservesRampCurve(c, s, events[0]);
      RunPreservesRampCurve(c, Step(c, s, events[0]), events[1..]);
    }
  }

  /**
   From start-up, whatever events arrive, a ramp in progress has the scale
   its elapsed unscaled time calls for: a controller that jumped straight to
   the slow-motion factor would break this.
   */
  lemma ReachableRampFollowsClock(c: Config, events: seq<Event>)
    requires ValidConfig(c)
    ensures var s := Run(c, Initial, events);
      s.phase.RampDown? ==>
        s.timeScale == Lerp(s.phase.startScale, c.slowMoScale, RampFraction(s.phase.elapsed))
  {
    InitialSatisfiesInv(c);
    RunPreservesRampCurve(c, Initial, events);
  }

  // ---------------------------------------------------------------------------
  // Runs of plain frames

  function Ticks(dts: seq<Delta>): (r: seq<Event>)
    ensures |r| == |dts|
    ensures forall i :: 0 <= i < |dts| ==> r[i] == Tick(dts[i])
  {
    seq(|dts|, i requires 0 <= i < |dts| => Tick(dts[i]))
  }

  /** Total unscaled time of a run of frames. */
  function Sum(dts: seq<Delta>): real
    decreases |dts|
  {
    if dts == [] then 0.0 else dts[0] + Sum(dts[1..])
  }

  lemma {:induction false} SumNonNegative(dts: seq<Delta>)
    ensures Sum(dts) >= 0.0
    decreases |dts|
  {
    if dts != [] {
      SumNonNegative(dts[1..]);
    }
  }

  /** Running a non-empty run of frames is one frame, then the rest. */
  lemma RunTicksUnfold(c: Config, s: State, dts: seq<Delta>)
    requires dts != []
    ensures Run(c, s, Ticks(dts)) == Run(c, Frame(c, s, dts[0]), Ticks(dts[1..]))
  {
    assert Ticks(dts)[1..] == Ticks(dts[1..]);
  }

  lemma TicksAppend(dts: seq<Delta>, h: Delta)
    ensures Ticks(dts + [h]) == Ticks(dts) + [Tick(h)]
  {
  }

  /** Running two event sequences back to back is running their concatenation. */
  lemma {:induction false} RunConcat(c: Config, s: State, a: seq<Event>, b: seq<Event>)
    ensures Run(c, s, a + b) == Run(c, Run(c, s, a), b)
    decreases |a|
  {
    if a == [] {
      assert a + b == b;
    } else {
      assert (a + b)[0] == a[0];
      assert (a + b)[1..] == a[1..] + b;
      RunConcat(c, Step(c, s, a[0]), a[1..], b);
    }
  }

  // ---------------------------------------------------------------------------
  // Timing of the ramp

  /** A frame in the middle of the ramp runs one more pass and keeps the invariant. */
  lemma RampFrame(c: Config, s: State, dt: Delta)
    requires ValidConfig(c) && Inv(c, s) && s.phase.RampDown? && s.phase.elapsed < RampDuration
    ensures Inv(c, Frame(c, s, dt))
    ensures Frame(c, s, dt).phase == RampDown(s.phase.elapsed + dt, s.phase.startScale)
  {
    StepPreservesInv(c, s, Tick(dt));
  }

  /**
   The ramp is measured in unscaled time: while the elapsed time plus the
   frames' total stays under a tenth of a second, the coroutine is still
   ramping, from the same start scale, with exactly that elapsed time.
   */
  lemma {:induction false} RampCountsWallClock(c: Config, s: State, dts: seq<Delta>)
    requires ValidConfig(c) && Inv(c, s) && s.phase.RampDown?
    requires s.phase.elapsed + Sum(dts) < RampDuration
    ensures var r := Run(c, s, Ticks(dts));
      && r.isSlowMo && r.onCooldown
      && r.phase == RampDown(s.phase.elapsed + Sum(dts), s.phase.startScale)
    decreases |dts|
  {
    if dts != [] {
      SumNonNegative(dts[1..]);
      var s1 := Frame(c, s, dts[0]);
      RampFrame(c, s, dts[0]);
      RunTicksUnfold(c, s, dts);
      RampCountsWallClock(c, s1, dts[1..]);
    }
  }

  /**
   Consequently the scale after such frames is the interpolation for the
   elapsed time plus their total.
   */
  lemma {:induction false} RampScaleFollowsClock(c: Config, s: State, dts: seq<Delta>)
    requires ValidConfig(c) && Inv(c, s) && OnRampCurve(c, s) && s.phase.RampDown?
    requires s.phase.elapsed + Sum(dts) < RampDuration
    ensures Run(c, s, Ticks(dts)).timeScale ==
              Lerp(s.phase.startScale, c.slowMoScale, RampFraction(s.phase.elapsed + Sum(dts)))
  {
    var r := Run(c, s, Ticks(dts));
    RampCountsWallClock(c, s, dts);
    RunPreservesRampCurve(c, s, Ticks(dts));
    assert r.phase.startScale == s.phase.startScale;
    assert r.phase.elapsed == s.phase.elapsed + Sum(dts);
  }

  /** Once the coroutine has left the ramp, frames never bring it back. */
  lemma {:induction false} TicksNeverReturnToRamp(c: Config, s: State, dts: seq<Delta>)
    requires !s.phase.RampDown?
    ensures !Run(c, s, Ticks(dts)).phase.RampDown?
    decreases |dts|
  {
    if dts != [] {
      RunTicksUnfold(c, s, dts);
      TicksNeverReturnToRamp(c, Frame(c, s, dts[0]), dts[1..]);
    }
  }

  /**
   The ramp ends on time: once frames have taken the elapsed time to a tenth
   of a second, the next frame leaves the ramp (and by
   `RampEndsExactlyAtTarget`, that frame snaps the scale to the target).
   */
  lemma {:induction false} RampExpires(c: Config, s: State, dts: seq<Delta>, h: Delta)
    requires ValidConfig(c) && Inv(c, s) && s.phase.RampDown?
    requires RampDuration <= s.phase.elapsed + Sum(dts)
    ensures !Run(c, s, Ticks(dts + [h])).phase.RampDown?
    decreases |dts|
  {
    TicksAppend(dts, h);
    RunConcat(c, s, Ticks(dts), [Tick(h)]);
    if dts == [] {
      assert Run(c, s, [Tick(h)]) == Frame(c, s, h);
    } else {
      var s1 := Frame(c, s, dts[0]);
      RunTicksUnfold(c, s, dts);
      if s.phase.elapsed >= RampDuration {
        TicksNeverReturnToRamp(c, s1, dts[1..] + [h]);
        RunTicksUnfold(c, s, dts + [h]);
        assert (dts + [h])[1..] == dts[1..] + [h];
      } else {
        RampFrame(c, s, dts[0]);
        RampExpires(c, s1, dts[1..], h);
        TicksAppend(dts[1..], h);
        RunConcat(c, s1, Ticks(dts[1..]), [Tick(h)]);
      }
    }
  }

  /**
   The states in which the recovery driver owns the time scale: slow motion
   is over, the coroutine is cooling down or finished, and the scale is at
   most normal.
   */
  predicate Recovering(c: Config, s: State) {
    && ValidConfig(c)
    && !s.isSlowMo
    && s.timeScale <= NormalScale
    && (s.phase.Idle? || s.phase.Cooldown?)
  }

  lemma InvAfterSlowMoIsRecovering(c: Config, s: State)
    requires ValidConfig(c) && Inv(c, s) && !s.isSlowMo
    ensures Recovering(c, s)
  {
  }

  /** Recovery allowance of a run of frames: `recoverySpeed * dt`, frame by frame. */
  function Allowance(k: real, dts: seq<Delta>): real
    decreases |dts|
  {
    if dts == [] then 0.0 else k * dts[0] + Allowance(k, dts[1..])
  }

  lemma {:induction false} AllowanceNonNegative(k: real, dts: seq<Delta>)
    requires k >= 0.0
    ensures Allowance(k, dts) >= 0.0
    decreases |dts|
  {
    if dts != [] {
      AllowanceNonNegative(k, dts[1..]);
      assert k * dts[0] >= 0.0;
    }
  }

  /** The allowance of a run is the speed times the run's total unscaled time. */
  lemma {:induction false} AllowanceIsScaledSum(k: real, dts: seq<Delta>)
    ensures Allowance(k, dts) == k * Sum(dts)
    decreases |dts|
  {
    if dts != [] {
      AllowanceIsScaledSum(k, dts[1..]);
      assert k * Sum(dts) == k * dts[0] + k * Sum(dts[1..]);
    }
  }

  /**
   A frame after slow motion, described without the sequencer's ramp and
   hold: the recovery driver, then the cooldown countdown if one is running.
   */
  function RecoveryFrame(c: Config, s: State, dt: Delta): State {
    var u := Update(c, s, dt);
    if u.phase.Cooldown? then CooldownWait(u, u.phase.remaining, dt) else u
  }

  function RunRecovery(c: Config, s: State, dts: seq<Delta>): State
    decreases |dts|
  {
    if dts == [] then s else RunRecovery(c, RecoveryFrame(c, s, dts[0]), dts[1..])
  }

  /**
   After slow motion a frame is exactly the recovery frame; it stays in the
   recovering states, and the scale rises by `recoverySpeed * dt` or reaches
   normal.
   */
  lemma RecoveryFrameIsFrame(c: Config, s: State, dt: Delta)
    requires Recovering(c, s)
    ensures RecoveryFrame(c, s, dt) == Frame(c, s, dt)
    ensures var r := RecoveryFrame(c, s, dt);
      && Recovering(c, r)
      && (r.timeScale == NormalScale || r.timeScale >= s.timeScale + c.recoverySpeed * dt)
  {
  }

  lemma {:induction false} RunRecoveryIsRun(c: Config, s: State, dts: seq<Delta>)
    requires Recovering(c, s)
    ensures Run(c, s, Ticks(dts)) == RunRecovery(c, s, dts)
    decreases |dts|
  {
    if dts != [] {
      RecoveryFrameIsFrame(c, s, dts[0]);
      RunTicksUnfold(c, s, dts);
      RunRecoveryIsRun(c, RecoveryFrame(c, s, dts[0]), dts[1..]);
    }
  }

  /** Slow motion does not restart by itself while only frames pass. */
  lemma {:induction false} StaysRecovering(c: Config, s: State, dts: seq<Delta>)
    requires Recovering(c, s)
    ensures Recovering(c, RunRecovery(c, s, dts))
    decreases |dts|
  {
    if dts != [] {
      RecoveryFrameIsFrame(c, s, dts[0]);
      StaysRecovering(c, RecoveryFrame(c, s, dts[0]), dts[1..]);
    }
  }

  /**
   Once slow motion has ended, a run of frames raises the time scale by
   its recovery allowance, or brings it back to normal.
   */
  lemma {:induction false} RecoveryProgress(c: Config, s: State, dts: seq<Delta>)
    requires Recovering(c, s)
    ensures var r := RunRecovery(c, s, dts);
      r.timeScale == NormalScale || r.timeScale >= s.timeScale + Allowance(c.recoverySpeed, dts)
    decreases |dts|
  {
    if dts != [] {
      var s1 := RecoveryFrame(c, s, dts[0]);
      RecoveryFrameIsFrame(c, s, dts[0]);
      RecoveryProgress(c, s1, dts[1..]);
      StaysRecovering(c, s1, dts[1..]);
      AllowanceNonNegative(c.recoverySpeed, dts[1..]);
    }
  }

  /**
   Bounded recovery: frames totalling at least `(1 - timeScale) / recoverySpeed`
   unscaled seconds after slow motion ends (stated without the division:
   `recoverySpeed` times the total covers the distance to normal) bring the
   time scale back to exactly normal, whatever the individual frame lengths.
   */
  lemma {:induction false} RecoveryCompletes(c: Config, s: State, dts: seq<Delta>)
    requires ValidConfig(c) && Inv(c, s) && !s.isSlowMo
    requires c.recoverySpeed * Sum(dts) >= NormalScale - s.timeScale
    ensures Run(c, s, Ticks(dts)).timeScale == NormalScale
  {
    AllowanceIsScaledSum(c.recoverySpeed, dts);
    InvAfterSlowMoIsRecovering(c, s);
    RunRecoveryIsRun(c, s, dts);
    RecoveryReachesNormal(c, s, dts);
  }

  /** Frames whose recovery allowance covers the distance to normal restore normal speed. */
  lemma RecoveryReachesNormal(c: Config, s: State, dts: seq<Delta>)
    requires Recovering(c, s)
    requires Allowance(c.recoverySpeed, dts) >= NormalScale - s.timeScale
    ensures RunRecovery(c, s, dts).timeScale == NormalScale
  {
    StaysRecovering(c, s, dts);
    RecoveryProgress(c, s, dts);
  }

  /** A run of frames after slow motion never restarts it and never leaves (0, 1]. */
  lemma AfterSlowMoStaysOver(c: Config, s: State, dts: seq<Delta>)
    requires ValidConfig(c) && Inv(c, s) && !s.isSlowMo
    ensures var r := Run(c, s, Ticks(dts));
      !r.isSlowMo && 0.0 < r.timeScale <= NormalScale
  {
    InvAfterSlowMoIsRecovering(c, s);
    RunRecoveryIsRun(c, s, dts);
    StaysRecovering(c, s, dts);
    RunPreservesInv(c, s, Ticks(dts));
  }

  /**
   The hold is measured in unscaled time: frames totalling less than the
   remaining hold leave everything as it was, with the countdown reduced by
   exactly their total.
   */
  lemma {:induction false} HoldCountsWallClock(c: Config, s: State, dts: seq<Delta>)
    requires s.isSlowMo && s.phase.Hold?
    requires Sum(dts) < s.phase.remaining
    ensures Run(c, s, Ticks(dts)) == s.(phase := Hold(s.phase.remaining - Sum(dts)))
    decreases |dts|
  {
    if dts != [] {
      SumNonNegative(dts[1..]);
      var s1 := Frame(c, s, dts[0]);
      assert s1 == s.(phase := Hold(s.phase.remaining - dts[0]));
      RunTicksUnfold(c, s, dts);
      HoldCountsWallClock(c, s1, dts[1..]);
    }
  }

  /**
   Frames totalling at least the remaining hold end slow motion, and it
   stays ended for the rest of the run.
   */
  lemma {:induction false} HoldExpires(c: Config, s: State, dts: seq<Delta>)
    requires ValidConfig(c) && Inv(c, s) && s.phase.Hold?
    requires dts != [] && s.phase.remaining <= Sum(dts)
    ensures !Run(c, s, Ticks(dts)).isSlowMo
    decreases |dts|
  {
    var s1 := Frame(c, s, dts[0]);
    StepPreservesInv(c, s, Tick(dts[0]));
    RunTicksUnfold(c, s, dts);
    if s.phase.remaining <= dts[0] {
      AfterSlowMoStaysOver(c, s1, dts[1..]);
    } else {
      HoldExpires(c, s1, dts[1..]);
    }
  }

  /** An idle controller stays idle, with both flags down, through any run of frames. */
  lemma {:induction false} TicksKeepIdle(c: Config, s: State, dts: seq<Delta>)
    requires s.phase.Idle? && !s.isSlowMo && !s.onCooldown
    ensures var r := Run(c, s, Ticks(dts));
      r.phase.Idle? && !r.isSlowMo && !r.onCooldown
    decreases |dts|
  {
    if dts != [] {
      RunTicksUnfold(c, s, dts);
      TicksKeepIdle(c, Frame(c, s, dts[0]), dts[1..]);
    }
  }

  /** A frame that does not finish the cooldown keeps the invariant and counts the cooldown down. */
  lemma CooldownFrame(c: Config, s: State, dt: Delta)
    requires ValidConfig(c) && Inv(c, s) && s.phase.Cooldown? && s.phase.remaining > dt
    ensures Inv(c, Frame(c, s, dt))
    ensures Frame(c, s, dt).phase == Cooldown(s.phase.remaining - dt)
  {
    var u := Update(c, s, dt);
    assert Inv(c, u);
  }

  /**
   The cooldown is measured in unscaled time and keeps the gate shut
   throughout: frames totalling less than the remaining cooldown leave the
   cooldown flag up, reduce the countdown by exactly their total, and any
   zone entry at that point is ignored.
   */
  lemma {:induction false} CooldownCountsWallClock(c: Config, s: State, dts: seq<Delta>)
    requires ValidConfig(c) && Inv(c, s) && s.phase.Cooldown?
    requires Sum(dts) < s.phase.remaining
    ensures var r := Run(c, s, Ticks(dts));
      && Inv(c, r) && r.onCooldown
      && r.phase == Cooldown(s.phase.remaining - Sum(dts))
      && forall b: Body, dt: Delta :: OnTriggerEnter(c, r, b, dt) == r
    decreases |dts|
  {
    if dts != [] {
      SumNonNegative(dts[1..]);
      CooldownFrame(c, s, dts[0]);
      RunTicksUnfold(c, s, dts);
      CooldownCountsWallClock(c, Frame(c, s, dts[0]), dts[1..]);
    }
  }

  /**
   Frames totalling at least the remaining cooldown re-arm the gate: the
   controller is idle with both flags down, which is exactly when
   `OnTriggerEnter` accepts the ball again.
   */
  lemma {:induction false} CooldownExpires(c: Config, s: State, dts: seq<Delta>)
    requires ValidConfig(c) && Inv(c, s) && s.phase.Cooldown?
    requires dts != [] && s.phase.remaining <= Sum(dts)
    ensures var r := Run(c, s, Ticks(dts));
      r.phase.Idle? && !r.isSlowMo && !r.onCooldown
    decreases |dts|
  {
    var s1 := Frame(c, s, dts[0]);
    RunTicksUnfold(c, s, dts);
    if s.phase.remaining <= dts[0] {
      TicksKeepIdle(c, s1, dts[1..]);
    } else {
      CooldownFrame(c, s, dts[0]);
      CooldownExpires(c, s1, dts[1..]);
    }
  }

  // ---------------------------------------------------------------------------
  // Teardown

  /** Teardown applied twice is teardown applied once. */
  lemma DisableIdempotent(s: State)
    ensures OnDisable(OnDisable(s)) == OnDisable(s)
  {
  }

  /** Teardown forgets everything: from any two states it yields the same state, the initial one. */
  lemma DisableResetsToInitial(s: State, t: State)
    ensures OnDisable(s) == OnDisable(t) == Initial
  {
  }

  // ---------------------------------------------------------------------------
  // A worked run with the inspector defaults

  /**
   Default settings, with frames of 0.05 s: the ball enters, the ramp
   reaches 0.15 after 0.1 s and snaps into the hold; a second entry during
   the hold is ignored; after the 2.5 s hold, two frames of 0.1 s recover
   the scale to 1; the 4 s cooldown then re-arms the gate, and a new entry
   starts exactly as the first did.
   */
  lemma DefaultScenario()
    ensures var c := Config(Some(7), 0.15, 2.5, 5.0, 4.0);
      var s1 := Run(c, Initial, [Trigger(7, 0.05), Tick(0.05), Tick(0.05)]);
      var s2 := Run(c, s1, [Trigger(7, 0.05), Tick(2.5)]);
      var s3 := Run(c, s2, [Tick(0.1), Tick(0.1)]);
      var s4 := Run(c, s3, [Tick(3.8)]);
      && s1 == State(true, true, 0.15, 0.003, Hold(2.5))
      && s2 == State(false, true, 0.15, 0.003, Cooldown(4.0))
      && s3 == State(false, true, 1.0, 0.02, Cooldown(3.8))
      && s4 == Initial
      && Step(c, s4, Trigger(7, 0.05)) == Step(c, Initial, Trigger(7, 0.05))
  {
    var c := Config(Some(7), 0.15, 2.5, 5.0, 4.0);
    var a := Step(c, Initial, Trigger(7, 0.05));
    assert a == State(true, true, 0.575, 0.0115, RampDown(0.05, 1.0));
    var b := Step(c, a, Tick(0.05));
    assert b == State(true, true, 0.15, 0.003, RampDown(0.1, 1.0));
    var s1 := Step(c, b, Tick(0.05));
    assert s1 == State(true, true, 0.15, 0.003, Hold(2.5));
    assert Run(c, Initial, [Trigger(7, 0.05), Tick(0.05), Tick(0.05)]) == s1;
    var s2 := Step(c, s1, Tick(2.5));
    assert s2 == State(false, true, 0.15, 0.003, Cooldown(4.0));
    assert Run(c, s1, [Trigger(7, 0.05), Tick(2.5)]) == s2;
    var d := Step(c, s2, Tick(0.1));
    assert d == State(false, true, 0.65, 0.013, Cooldown(3.9));
    var s3 := Step(c, d, Tick(0.1));
    assert s3 == State(false, true, 1.0, 0.02, Cooldown(3.8));
    assert Run(c, s2, [Tick(0.1), Tick(0.1)]) == s3;
    assert Run(c, s3, [Tick(3.8)]) == Initial;
  }
}
