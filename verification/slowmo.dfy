/**
 The slow-motion controller: a trigger zone that, when the ball enters it,
 drives the process-wide time scale down to a slow-motion factor, holds it
 for a wall-clock duration, hands the recovery back to the per-frame update,
 and re-arms after a cooldown.

 The engine's globals `Time.timeScale` and `Time.fixedDeltaTime` are fields
 of the state record. The sequencing coroutine is an explicit `Phase` with a
 wall-clock countdown, advanced one resumption per frame.
 */
module SlowMo {
  import opened Mathf

  /** Length of the fast ramp into slow motion, in unscaled seconds. */
  const RampDuration: real := 0.1

  /**
   How far along the ramp an elapsed unscaled time is, as a fraction of the
   ramp length: at least 1 exactly when the ramp length has elapsed, and at
   most 0 exactly when no time has. (The ramp length is written out as a
   literal here so that the division stays linear.)
   */
  function RampFraction(elapsed: real): (t: real)
    ensures t >= 1.0 <==> elapsed >= RampDuration
    ensures t <= 0.0 <==> elapsed <= 0.0
  {
    elapsed / 0.1
  }

  /** The neutral time scale. */
  const NormalScale: real := 1.0

  /**
   The fixed physics step that goes with a time scale: 0.02 seconds per step
   at normal speed, shrinking in proportion to the scale.
   */
  function PhysicsStep(scale: real): real {
    0.02 * scale
  }

  /** An unscaled frame delta as the engine reports it: never negative. */
  type Delta = x: real | 0.0 <= x

  /** Identity of a physics body entering the zone. */
  type Body = nat

  datatype Option<T> = None | Some(value: T)

  /** The controller's inspector fields; `ball == None` means no ball assigned. */
  datatype Config = Config(
    ball: Option<Body>,
    slowMoScale: real,
    slowMoDuration: real,
    recoverySpeed: real,
    cooldown: real)

  /**
   The settings under which the controller keeps the time scale inside
   (0, 1]. The inspector range of the slow-motion factor, [0.01, 0.5], lies
   inside this; the durations may be anything.
   */
  predicate ValidConfig(c: Config) {
    0.0 < c.slowMoScale <= 1.0 && c.recoverySpeed >= 0.0
  }

  /** Where the sequencing coroutine is suspended, if it is running at all. */
  datatype Phase =
    | Idle
      /** Stepping the ramp; `elapsed` unscaled seconds so far, from `startScale`. */
    | RampDown(elapsed: real, startScale: real)
      /** Waiting out the slow-motion duration; `remaining` wall-clock seconds. */
    | Hold(remaining: real)
      /** Waiting out the cooldown; `remaining` wall-clock seconds. */
    | Cooldown(remaining: real)

  datatype State = State(
    isSlowMo: bool,
    onCooldown: bool,
    timeScale: real,
    fixedDeltaTime: real,
    phase: Phase)

  /**
   What the host feeds the controller: a body entering the zone during a
   frame whose unscaled delta is `frameDt`, the end of a frame of `dt`
   unscaled seconds, or the component being disabled.
   */
  datatype Event =
    | Trigger(body: Body, frameDt: Delta)
    | Tick(dt: Delta)
    | Disable

  /** The state at process start: normal speed, no sequence running. */
  const Initial: State := State(false, false, NormalScale, PhysicsStep(NormalScale), Idle)

  /** Writes the time scale together with the physics step that follows it. */
  function SetScale(s: State, scale: real): (r: State)
    ensures r.timeScale == scale && r.fixedDeltaTime == PhysicsStep(scale)
    ensures r.isSlowMo == s.isSlowMo && r.onCooldown == s.onCooldown && r.phase == s.phase
  {
    s.(timeScale := scale, fixedDeltaTime := PhysicsStep(scale))
  }

  /**
   One pass of the ramp loop body: advance the elapsed time by the frame's
   unscaled delta and interpolate from the start scale toward the target.
   The scale written is the one the elapsed time calls for, a tenth of a
   second being the whole way.
   */
  function RampStep(c: Config, s: State, startScale: real, elapsed: real, dt: Delta): (r: State)
    ensures r.phase == RampDown(elapsed + dt, startScale)
    ensures r.timeScale == Lerp(startScale, c.slowMoScale, RampFraction(r.phase.elapsed))
    ensures Between(startScale, c.slowMoScale, r.timeScale)
    ensures elapsed + dt >= RampDuration ==> r.timeScale == c.slowMoScale
    ensures r.fixedDeltaTime == PhysicsStep(r.timeScale)
    ensures r.isSlowMo == s.isSlowMo && r.onCooldown == s.onCooldown
  {
    var e := elapsed + dt;
    LerpWithinEnds(startScale, c.slowMoScale, RampFraction(e));
    SetScale(s, Lerp(startScale, c.slowMoScale, RampFraction(e))).(phase := RampDown(e, startScale))
  }

  /**
   The zone-entry handler. A body entering while a sequence is active or
   cooling down, or a body other than the assigned ball, is ignored with
   no change at all. Otherwise the sequence starts: both flags are raised
   before the coroutine first yields, and the first ramp step runs at once
   with the current frame's delta.
   */
  function OnTriggerEnter(c: Config, s: State, body: Body, frameDt: Delta): (r: State)
    ensures s.onCooldown || s.isSlowMo ==> r == s
    ensures c.ball.Some? && body != c.ball.value ==> r == s
    ensures !s.onCooldown && !s.isSlowMo && (c.ball.None? || body == c.ball.value) ==>
              && r.isSlowMo && r.onCooldown
              && r.phase == RampDown(frameDt, s.timeScale)
              && Between(s.timeScale, c.slowMoScale, r.timeScale)
              && r.fixedDeltaTime == PhysicsStep(r.timeScale)
  {
    if s.onCooldown || s.isSlowMo then s
    else if c.ball.Some? && body != c.ball.value then s
    else RampStep(c, s.(isSlowMo := true, onCooldown := true, phase := RampDown(0.0, s.timeScale)),
                  s.timeScale, 0.0, frameDt)
  }

  /**
   The per-frame recovery driver. It writes only when slow motion is over
   and the scale is below normal; then the scale rises toward normal by at
   most `recoverySpeed * dt`, never past normal, and either reaches normal
   or rises by exactly that amount. Nothing but the two time fields changes.
   */
  function Update(c: Config, s: State, dt: Delta): (r: State)
    ensures s.isSlowMo || s.timeScale >= NormalScale ==> r == s
    ensures r.isSlowMo == s.isSlowMo && r.onCooldown == s.onCooldown && r.phase == s.phase
    ensures r.timeScale != s.timeScale ==> r.fixedDeltaTime == PhysicsStep(r.timeScale)
    ensures !s.isSlowMo && s.timeScale < NormalScale && c.recoverySpeed >= 0.0 ==>
              && s.timeScale <= r.timeScale <= NormalScale
              && r.timeScale - s.timeScale <= c.recoverySpeed * dt
              && (r.timeScale == NormalScale || r.timeScale - s.timeScale == c.recoverySpeed * dt)
              && r.fixedDeltaTime == PhysicsStep(r.timeScale)
  {
    if !s.isSlowMo && s.timeScale < NormalScale then
      SetScale(s, MoveTowards(s.timeScale, NormalScale, c.recoverySpeed * dt))
    else s
  }

  /**
   The ramp loop, resumed after a `yield return null`: while the elapsed
   time is below the ramp length it runs one more pass; otherwise it leaves
   the loop, snaps the scale exactly to the slow-motion factor (dropping
   whatever the interpolation left) and starts the hold wait.
   */
  function RampLoop(c: Config, s: State, elapsed: real, startScale: real, dt: Delta): (r: State)
    ensures elapsed >= RampDuration ==>
              && r.timeScale == c.slowMoScale && r.fixedDeltaTime == PhysicsStep(c.slowMoScale)
              && r.phase == Hold(c.slowMoDuration)
    ensures elapsed < RampDuration ==>
              && r.phase == RampDown(elapsed + dt, startScale)
              && r.timeScale == Lerp(startScale, c.slowMoScale, RampFraction(elapsed + dt))
    ensures Between(startScale, c.slowMoScale, r.timeScale)
    ensures r.fixedDeltaTime == PhysicsStep(r.timeScale)
    ensures r.isSlowMo == s.isSlowMo && r.onCooldown == s.onCooldown
  {
    if elapsed < RampDuration then RampStep(c, s, startScale, elapsed, dt)
    else SetScale(s, c.slowMoScale).(phase := Hold(c.slowMoDuration))
  }

  /**
   The hold wait, measured in unscaled time. When it expires slow motion
   ends (the scale is left to the recovery driver) and the cooldown wait
   starts with no yield in between.
   */
  function HoldWait(c: Config, s: State, remaining: real, dt: Delta): (r: State)
    ensures r.timeScale == s.timeScale && r.fixedDeltaTime == s.fixedDeltaTime
    ensures r.onCooldown == s.onCooldown
    ensures remaining <= dt ==> !r.isSlowMo && r.phase == Cooldown(c.cooldown)
    ensures remaining > dt ==> r == s.(phase := Hold(remaining - dt))
  {
    if remaining - dt <= 0.0 then s.(isSlowMo := false, phase := Cooldown(c.cooldown))
    else s.(phase := Hold(remaining - dt))
  }

  /** The cooldown wait, measured in unscaled time; its expiry re-arms the gate. */
  function CooldownWait(s: State, remaining: real, dt: Delta): (r: State)
    ensures r.timeScale == s.timeScale && r.fixedDeltaTime == s.fixedDeltaTime
    ensures r.isSlowMo == s.isSlowMo
    ensures remaining <= dt ==> !r.onCooldown && r.phase == Idle
    ensures remaining > dt ==> r == s.(phase := Cooldown(remaining - dt))
  {
    if remaining - dt <= 0.0 then s.(onCooldown := false, phase := Idle)
    else s.(phase := Cooldown(remaining - dt))
  }

  /**
   One resumption of the sequencing coroutine at the end of a frame, from
   wherever it is suspended. Only the ramp writes the time fields.
   */
  function Resume(c: Config, s: State, dt: Delta): (r: State)
    ensures !s.phase.RampDown? ==> r.timeScale == s.timeScale && r.fixedDeltaTime == s.fixedDeltaTime
    ensures s.phase.Idle? ==> r == s
  {
    match s.phase
    case Idle => s
    case RampDown(elapsed, startScale) => RampLoop(c, s, elapsed, startScale, dt)
    case Hold(remaining) => HoldWait(c, s, remaining, dt)
    case Cooldown(remaining) => CooldownWait(s, remaining, dt)
  }

  /**
   The teardown safety net: normal speed, base physics step, both flags
   down and the sequence cancelled, whatever state it is applied to.
   */
  function OnDisable(s: State): (r: State)
    ensures r.timeScale == NormalScale && r.fixedDeltaTime == PhysicsStep(NormalScale)
    ensures !r.isSlowMo && !r.onCooldown && r.phase == Idle
  {
    State(false, false, NormalScale, PhysicsStep(NormalScale), Idle)
  }

  /**
   A frame: the recovery driver runs first, then the coroutine resumes. A
   frame never raises either flag. Because the driver runs before the
   resumption, it still sees `isSlowMo` in the frame whose resumption ends
   the hold, so recovery starts one frame later.
   */
  function Frame(c: Config, s: State, dt: Delta): (r: State)
    ensures r.isSlowMo ==> s.isSlowMo
    ensures r.onCooldown ==> s.onCooldown
    ensures s.isSlowMo && s.phase.Hold? ==> r.timeScale == s.timeScale
  {
    Resume(c, Update(c, s, dt), dt)
  }

  /** One event. Only a zone entry can start slow motion; a disable always lands in the start-up state. */
  function Step(c: Config, s: State, e: Event): (r: State)
    ensures r.isSlowMo && !s.isSlowMo ==> e.Trigger?
    ensures e.Disable? ==> r == Initial
  {
    match e
    case Trigger(body, frameDt) => OnTriggerEnter(c, s, body, frameDt)
    case Tick(dt) => Frame(c, s, dt)
    case Disable => OnDisable(s)
  }

  /**
   Feeds a sequence of events to the controller, first to last. With no
   zone entry among them, a controller out of slow motion stays out of it.
   */
  function Run(c: Config, s: State, events: seq<Event>): (r: State)
    ensures (forall i :: 0 <= i < |events| ==> !events[i].Trigger?) && !s.isSlowMo ==> !r.isSlowMo
    decreases |events|
  {
    if events == [] then s else Run(c, Step(c, s, events[0]), events[1..])
  }
}
