/**
  The fixed-step movement of the basic platformer body: a ground check, then a
  horizontal step and a vertical step, each behind its own enable flag.

  The rigid body is reduced to its velocity and drag. Physics queries become
  inputs: the overlap count of the ground box, the camera-relative input
  direction, the two jump buttons, gravity and the fixed time step.
 */
module Platformer {
  import opened Vectors

  /**
    Tuning values. `jumpImpulse` stands for the upward speed the jump adds, which
    the controller derives from gravity and the jump height with a square root.
   */
  datatype Settings = Settings(
    speed: real,
    groundFriction: real,
    jumpImpulse: real,
    fallMultiplier: real,
    lowJumpMultiplier: real)

  datatype Controller = Controller(
    horizontalEnabled: bool,
    verticalEnabled: bool,
    isGrounded: bool,
    groundCheckOverride: bool,
    velocity: Vec3,
    drag: real)

  /**
    What one physics step observes: the camera's axes and the last stick reading,
    from which the step derives its move direction. The controller reads the jump
    button through two different paths: the engine's legacy button for the
    impulse, and its own input service for the low-jump test.
   */
  datatype StepInput = StepInput(
    groundOverlaps: nat,
    camRight: Vec3,
    camForward: Vec3,
    stickX: real,
    stickY: real,
    legacyJumpHeld: bool,
    jumpHeld: bool,
    gravityY: real,
    dt: real)

  /** Both movement steps start enabled. */
  function NewController(velocity: Vec3): (c: Controller)
    ensures c.horizontalEnabled && c.verticalEnabled
    ensures !c.isGrounded && !c.groundCheckOverride
    ensures c.velocity == velocity
  {
    Controller(true, true, false, false, velocity, 0.0)
  }

  /**
    The camera-relative move direction: the stick's x along the camera's right,
    its y along the camera's forward, flattened onto the ground plane.
   */
  function InputDirection(camRight: Vec3, camForward: Vec3, stickX: real, stickY: real): (d: Vec3)
    ensures d.y == 0.0
    ensures d.x == camRight.x * stickX + camForward.x * stickY
    ensures d.z == camRight.z * stickX + camForward.z * stickY
  {
    var raw := Add(Scale(camRight, stickX), Scale(camForward, stickY));
    raw.(y := 0.0)
  }

  function SetHorizontalMovement(c: Controller, enabled: bool): (r: Controller)
    ensures r.horizontalEnabled == enabled
    ensures r.(horizontalEnabled := c.horizontalEnabled) == c
  {
    c.(horizontalEnabled := enabled)
  }

  function SetVerticalMovement(c: Controller, enabled: bool): (r: Controller)
    ensures r.verticalEnabled == enabled
    ensures r.(verticalEnabled := c.verticalEnabled) == c
  {
    c.(verticalEnabled := enabled)
  }

  /** The body counts as grounded when the ground box overlaps anything, or when forced. */
  function CheckGround(c: Controller, groundOverlaps: nat): (r: Controller)
    ensures r.isGrounded <==> groundOverlaps > 0 || c.groundCheckOverride
    ensures r.(isGrounded := c.isGrounded) == c
  {
    c.(isGrounded := groundOverlaps > 0 || c.groundCheckOverride)
  }

  /**
    The engine's `ClampMagnitude`: a vector longer than `maxLength` is rescaled to
    that length, anything else is returned as is. The length comes from the
    geometry oracle; a zero length is only possible for an inexact oracle.
   */
  function ClampMagnitude(geo: Geometry, v: Vec3, maxLength: real): (r: Vec3)
    ensures SqMagnitude(v) <= maxLength * maxLength ==> r == v
    ensures SqMagnitude(v) > maxLength * maxLength && geo.magnitude(v) != 0.0 ==>
              r == Scale(v, maxLength / geo.magnitude(v))
  {
    if SqMagnitude(v) > maxLength * maxLength then
      var m := geo.magnitude(v);
      if m != 0.0 then Scale(v, maxLength / m) else v
    else v
  }

  /** With an exact length, a clamped vector is no longer than `maxLength`. */
  lemma ClampMagnitudeBound(geo: Geometry, v: Vec3, maxLength: real)
    requires ExactMagnitude(geo) && maxLength >= 0.0
    ensures SqMagnitude(ClampMagnitude(geo, v, maxLength)) <= maxLength * maxLength
  {
    if SqMagnitude(v) > maxLength * maxLength {
      var m := geo.magnitude(v);
      assert m * m == SqMagnitude(v);
      assert m != 0.0;
      var k := maxLength / m;
      ScaleSqMagnitude(v, k);
      assert k * m == maxLength;
      assert k * k * (m * m) == (k * m) * (k * m);
    }
  }

  /**
    The horizontal step: drag is the ground friction on the ground and zero in the
    air; the move direction times `speed` is added to the velocity, the result is
    clamped to `speed`, and the clamped x and z are kept with the pushed y. The
    vertical speed is therefore kept exactly when the direction is flat.
   */
  function HorizontalStep(c: Controller, s: Settings, geo: Geometry, moveDirection: Vec3): (r: Controller)
    ensures r.drag == (if c.isGrounded then s.groundFriction else 0.0)
    ensures r.velocity.y == c.velocity.y + moveDirection.y * s.speed
    ensures r.(velocity := c.velocity, drag := c.drag) == c
  {
    var pushed := Add(c.velocity, Scale(moveDirection, s.speed));
    var clamped := ClampMagnitude(geo, pushed, s.speed);
    c.(drag := if c.isGrounded then s.groundFriction else 0.0,
       velocity := Vec3(clamped.x, pushed.y, clamped.z))
  }

  /** The step's move direction, read from the camera and the stick. */
  function MoveDirection(input: StepInput): Vec3 {
    InputDirection(input.camRight, input.camForward, input.stickX, input.stickY)
  }

  /** After the horizontal step the speed along the ground is at most `speed`. */
  lemma HorizontalStepBoundsSpeed(c: Controller, s: Settings, geo: Geometry, moveDirection: Vec3)
    requires ExactMagnitude(geo) && s.speed >= 0.0
    ensures HorizontalSqMagnitude(HorizontalStep(c, s, geo, moveDirection).velocity) <= s.speed * s.speed
  {
    var pushed := Add(c.velocity, Scale(moveDirection, s.speed));
    var clamped := ClampMagnitude(geo, pushed, s.speed);
    ClampMagnitudeBound(geo, pushed, s.speed);
    SqMagnitudeNonNegative(clamped);
  }

  /**
    When the pushed velocity is within `speed`, nothing is clamped: the horizontal
    velocity gains exactly the move direction times `speed`.
   */
  lemma HorizontalStepUnclampedWithinSpeed(c: Controller, s: Settings, geo: Geometry, moveDirection: Vec3)
    requires SqMagnitude(Add(c.velocity, Scale(moveDirection, s.speed))) <= s.speed * s.speed
    ensures var r := HorizontalStep(c, s, geo, moveDirection);
            r.velocity.x == c.velocity.x + moveDirection.x * s.speed &&
            r.velocity.z == c.velocity.z + moveDirection.z * s.speed
  {
  }

  /** The upward speed added this step: the impulse, when grounded with the legacy jump held. */
  function JumpImpulse(c: Controller, s: Settings, input: StepInput): (j: real)
    ensures j != 0.0 ==> c.isGrounded && input.legacyJumpHeld
    ensures c.isGrounded && input.legacyJumpHeld ==> j == s.jumpImpulse
  {
    if c.isGrounded && input.legacyJumpHeld then s.jumpImpulse else 0.0
  }

  /**
    The vertical step: first the jump impulse, then at most one shaping term read
    off the resulting vertical speed: the fall term while falling, or the low-jump
    term while rising without the jump button held.
   */
  function VerticalStep(c: Controller, s: Settings, input: StepInput): (r: Controller)
    ensures r.velocity.x == c.velocity.x && r.velocity.z == c.velocity.z
    ensures r.(velocity := c.velocity) == c
    ensures var vy := c.velocity.y + JumpImpulse(c, s, input);
            var fall := input.gravityY * (s.fallMultiplier - 1.0) * input.dt;
            var low := input.gravityY * (s.lowJumpMultiplier - 1.0) * input.dt;
            r.velocity.y == vy || r.velocity.y == vy + fall || r.velocity.y == vy + low
  {
    var v1 := Add(c.velocity, Scale(Up, JumpImpulse(c, s, input)));
    var v2 :=
      if v1.y < 0.0 then
        Add(v1, Scale(Up, input.gravityY * (s.fallMultiplier - 1.0) * input.dt))
      else if v1.y > 0.0 && !input.jumpHeld then
        Add(v1, Scale(Up, input.gravityY * (s.lowJumpMultiplier - 1.0) * input.dt))
      else
        v1;
    c.(velocity := v2)
  }

  /**
    Which shaping term applies: the fall term exactly when falling after the
    impulse, the low-jump term exactly when rising without the jump button, and
    none when the vertical speed is zero or rising with the button held.
   */
  lemma VerticalStepShaping(c: Controller, s: Settings, input: StepInput)
    ensures var vy := c.velocity.y + JumpImpulse(c, s, input);
            var r := VerticalStep(c, s, input).velocity.y;
            (vy < 0.0 ==> r == vy + input.gravityY * (s.fallMultiplier - 1.0) * input.dt) &&
            (vy > 0.0 && !input.jumpHeld ==> r == vy + input.gravityY * (s.lowJumpMultiplier - 1.0) * input.dt) &&
            (vy == 0.0 || (vy > 0.0 && input.jumpHeld) ==> r == vy)
  {
  }

  /**
    With gravity pointing down, multipliers of at least one and a non-negative
    step, the shaping never pushes the body up: only the jump impulse can, and
    only on the ground with the legacy jump held.
   */
  lemma OnlyTheJumpRaisesVerticalSpeed(c: Controller, s: Settings, input: StepInput)
    requires input.gravityY <= 0.0 && input.dt >= 0.0
    requires s.fallMultiplier >= 1.0 && s.lowJumpMultiplier >= 1.0
    ensures var r := VerticalStep(c, s, input).velocity.y;
            r <= c.velocity.y + JumpImpulse(c, s, input) &&
            (r > c.velocity.y ==> c.isGrounded && input.legacyJumpHeld)
  {
    var vy := c.velocity.y + JumpImpulse(c, s, input);
    VerticalStepShaping(c, s, input);
    var fall := input.gravityY * (s.fallMultiplier - 1.0) * input.dt;
    var low := input.gravityY * (s.lowJumpMultiplier - 1.0) * input.dt;
    assert (s.fallMultiplier - 1.0) * input.dt >= 0.0;
    assert (s.lowJumpMultiplier - 1.0) * input.dt >= 0.0;
    assert fall <= 0.0 && low <= 0.0;
  }

  /**
    One physics step: the ground check always runs first; the horizontal and the
    vertical steps run only while enabled, in that order. The horizontal step is
    given the camera-relative direction, which is flat, so it never changes the
    vertical speed.
   */
  function FixedUpdate(c: Controller, s: Settings, geo: Geometry, input: StepInput): (r: Controller)
    ensures r.isGrounded <==> input.groundOverlaps > 0 || c.groundCheckOverride
    ensures r.horizontalEnabled == c.horizontalEnabled && r.verticalEnabled == c.verticalEnabled
    ensures r.groundCheckOverride == c.groundCheckOverride
    ensures !c.horizontalEnabled ==>
              r.drag == c.drag && r.velocity.x == c.velocity.x && r.velocity.z == c.velocity.z
    ensures c.horizontalEnabled ==> r.drag == (if r.isGrounded then s.groundFriction else 0.0)
    ensures !c.verticalEnabled ==> r.velocity.y == c.velocity.y
    ensures !c.horizontalEnabled && !c.verticalEnabled ==> r == c.(isGrounded := r.isGrounded)
  {
    var g := CheckGround(c, input.groundOverlaps);
    var h := if g.horizontalEnabled then HorizontalStep(g, s, geo, MoveDirection(input)) else g;
    if h.verticalEnabled then VerticalStep(h, s, input) else h
  }

  /** With the horizontal step enabled, a whole physics step keeps the ground speed within `speed`. */
  lemma FixedUpdateBoundsGroundSpeed(c: Controller, s: Settings, geo: Geometry, input: StepInput)
    requires c.horizontalEnabled && ExactMagnitude(geo) && s.speed >= 0.0
    ensures HorizontalSqMagnitude(FixedUpdate(c, s, geo, input).velocity) <= s.speed * s.speed
  {
    var g := CheckGround(c, input.groundOverlaps);
    HorizontalStepBoundsSpeed(g, s, geo, MoveDirection(input));
  }

  /**
    Turning both steps off through the setters freezes the body: a later physics
    step refreshes the ground flag and nothing else.
   */
  lemma DisabledMovementFreezesBody(c: Controller, s: Settings, geo: Geometry, input: StepInput)
    ensures var d := SetVerticalMovement(SetHorizontalMovement(c, false), false);
            var r := FixedUpdate(d, s, geo, input);
            r.velocity == c.velocity && r.drag == c.drag
  {
  }
}
