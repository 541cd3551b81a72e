/**
  The skater's locomotion: a primary state machine (idle, moving, grinding, wall
  running) and a sub state machine (walking, skating, boosting), stepped one after
  the other on every tick.

  Each handler is a pure function from what it reads to the next-state requests it
  makes, in the order it makes them. The machine executor is not part of this
  model; `PrimaryStep` and `SubStep` fix the behaviour assumed of it:
    - the requests of one handler run are collected and the last one wins;
    - the transition happens after the handler has finished: the old state's exit
      hook runs, then the new state's enter hook, then the state changes;
    - the primary machine steps first, and the sub machine then sees its new state.
  Vector maths in the handlers (steering, clamping, the wall-jump force) is left to
  the engine: it reaches the model only through the speed and vertical velocity
  that the state tests read.
 */
module Locomotion {
  import P = Platformer

  datatype PlayerState = Idle | Moving | Grinding | WallRunning
  datatype SubPlayerState = Walking | Skating | Boosting

  datatype SkateSettings = SkateSettings(
    baseMovementSpeed: real,
    skateMovementSpeed: real,
    boostMovementSpeed: real,
    skateGrindSpeed: real,
    boostGrindSpeed: real,
    baseWallRunSpeed: real,
    boostWallRunSpeed: real,
    wallRunDurationInSeconds: real)

  /** The parts of the platformer body that the hooks switch: its flags, its tuning and gravity. */
  datatype Motor = Motor(body: P.Controller, tuning: P.Settings, gravityEnabled: bool)

  /** The skater between ticks; `leftWall` and `rightWall` are the wall sensors. */
  datatype Skater = Skater(
    state: PlayerState,
    sub: SubPlayerState,
    isSkating: bool,
    wallRunTimer: real,
    leftWall: bool,
    rightWall: bool,
    motor: Motor)

  /**
    What the handlers observe on one tick. `speed` is the body's speed as an exit
    test reads it: the wall-run exit reads it after that handler has set the
    velocity, and the grinding exit reads it when jump is held, when that handler
    sets no velocity. `railFound` is the registry query's answer.
   */
  datatype TickInput = TickInput(
    speed: real,
    verticalVelocity: real,
    grounded: bool,
    railFound: bool,
    jumpHeld: bool,
    boostHeld: bool,
    dt: real)

  /** Which hooks the sub machine runs for skating: the registration as written, or the evident intent. */
  datatype Registration = AsRegistered | Intended

  /** The skater at start-up: idle and walking, not skating. */
  function NewSkater(motor: Motor): (s: Skater)
    ensures s.state == Idle && s.sub == Walking && !s.isSkating
    ensures !s.leftWall && !s.rightWall && s.motor == motor
  {
    Skater(Idle, Walking, false, 0.0, false, false, motor)
  }

  /** A wall counts as detected while either side's flag is set. */
  function HasDetectedAWall(s: Skater): (b: bool)
    ensures !b <==> !s.leftWall && !s.rightWall
  {
    s.leftWall || s.rightWall
  }

  // ---------------------------------------------------------------------------
  // Wall sensors and the skate toggle
  // ---------------------------------------------------------------------------

  /**
    The per-physics-step wall detection: the right ray is cast first, and the left
    ray only when the right one misses.
   */
  function DetectWalls(s: Skater, rightHit: bool, leftHit: bool): (r: Skater)
    ensures r.rightWall == rightHit
    ensures !rightHit ==> r.leftWall == leftHit
    ensures rightHit ==> r.leftWall == s.leftWall
    ensures r.(leftWall := s.leftWall, rightWall := s.rightWall) == s
  {
    var r := s.(rightWall := rightHit);
    if !rightHit then r.(leftWall := leftHit) else r
  }

  datatype WallSide = LeftWall | RightWall

  /** The hit that wall running follows: the left one whenever the left flag is set. */
  function WallRunHitSide(s: Skater): (side: WallSide)
    ensures side == LeftWall <==> s.leftWall
    ensures side == RightWall <==> !s.leftWall
  {
    if s.leftWall then LeftWall else RightWall
  }

  /**
    A left wall once seen stays "seen" while the right ray keeps hitting, and wall
    running then follows the stale left hit although the right ray hit this step.
   */
  lemma StaleLeftWallWins(s: Skater, leftHit: bool)
    requires s.leftWall
    ensures var r := DetectWalls(s, true, leftHit);
            r.rightWall && r.leftWall && WallRunHitSide(r) == LeftWall
  {
  }

  /** Only two misses in a row clear the sensors; a right hit alone never clears the left flag. */
  lemma DetectWallsClearsOnlyOnMiss(s: Skater, rightHit: bool, leftHit: bool)
    ensures !HasDetectedAWall(DetectWalls(s, rightHit, leftHit)) <==> !rightHit && !leftHit
  {
  }

  /** The skate action flips skating on and off; when the action is not bound it never fires. */
  function ToggleSkate(s: Skater, actionBound: bool): (r: Skater)
    ensures actionBound ==> r.isSkating == !s.isSkating
    ensures !actionBound ==> r == s
    ensures r.(isSkating := s.isSkating) == s
  {
    if actionBound then s.(isSkating := !s.isSkating) else s
  }

  lemma ToggleSkateTwiceRestores(s: Skater, actionBound: bool)
    ensures ToggleSkate(ToggleSkate(s, actionBound), actionBound) == s
  {
  }

  // ---------------------------------------------------------------------------
  // Enter and exit hooks
  // ---------------------------------------------------------------------------

  datatype Hook =
    | NoHook
    | WallRunEnter | WallRunExit
    | SkateEnter | SkateExit
    | BoostEnter | BoostExit
    | GrindEnter | GrindExit

  /** The enter and exit hook registered for one state. */
  datatype HookPair = HookPair(enter: Hook, exit: Hook)

  /** The primary registrations: only grinding and wall running have hooks, each its own enter and exit. */
  function PrimaryHooks(st: PlayerState): (h: HookPair)
    ensures st == Idle || st == Moving ==> h == HookPair(NoHook, NoHook)
    ensures h.enter == GrindEnter <==> st == Grinding
    ensures h.exit == GrindExit <==> st == Grinding
    ensures h.enter == WallRunEnter <==> st == WallRunning
    ensures h.exit == WallRunExit <==> st == WallRunning
  {
    match st
    case Idle => HookPair(NoHook, NoHook)
    case Moving => HookPair(NoHook, NoHook)
    case Grinding => HookPair(GrindEnter, GrindExit)
    case WallRunning => HookPair(WallRunEnter, WallRunExit)
  }

  /**
    The sub-state hooks. As registered, skating gets the skate-exit hook in the
    enter slot and the skate-enter hook in the exit slot; the intended table has
    each in its own slot. Boosting's pair is in order in both.
   */
  function SubHooks(reg: Registration, st: SubPlayerState): (h: HookPair)
    ensures st == Walking ==> h == HookPair(NoHook, NoHook)
    ensures st == Boosting ==> h == HookPair(BoostEnter, BoostExit)
    ensures reg == Intended ==> (h.enter == SkateEnter <==> st == Skating) && (h.exit == SkateExit <==> st == Skating)
    ensures reg == AsRegistered ==> (h.enter == SkateExit <==> st == Skating) && (h.exit == SkateEnter <==> st == Skating)
  {
    match st
    case Walking => HookPair(NoHook, NoHook)
    case Skating =>
      if reg == AsRegistered then HookPair(SkateExit, SkateEnter) else HookPair(SkateEnter, SkateExit)
    case Boosting => HookPair(BoostEnter, BoostExit)
  }

  /** The boost speed for the primary state: the grind or wall-run boost, or the movement boost. */
  function BoostSpeed(st: PlayerState, cfg: SkateSettings): (speed: real)
    ensures st == Grinding ==> speed == cfg.boostGrindSpeed
    ensures st == WallRunning ==> speed == cfg.boostWallRunSpeed
    ensures st == Idle || st == Moving ==> speed == cfg.boostMovementSpeed
  {
    if st == Grinding then cfg.boostGrindSpeed
    else if st == WallRunning then cfg.boostWallRunSpeed
    else cfg.boostMovementSpeed
  }

  /** The speed after a boost ends, for the primary state. */
  function PostBoostSpeed(st: PlayerState, cfg: SkateSettings): (speed: real)
    ensures st == Grinding ==> speed == cfg.skateGrindSpeed
    ensures st == WallRunning ==> speed == cfg.baseWallRunSpeed
    ensures st == Idle || st == Moving ==> speed == cfg.skateMovementSpeed
  {
    if st == Grinding then cfg.skateGrindSpeed
    else if st == WallRunning then cfg.baseWallRunSpeed
    else cfg.skateMovementSpeed
  }

  function WithSpeed(m: Motor, speed: real): Motor {
    m.(tuning := m.tuning.(speed := speed))
  }

  function WithSpeedAndFriction(m: Motor, speed: real, friction: real): Motor {
    m.(tuning := m.tuning.(speed := speed, groundFriction := friction))
  }

  /**
    One hook's effect. Hooks change only the motor, except that the wall-run enter
    hook also refills the wall-run timer. The boost hooks read the primary state
    at the time they run.
   */
  function ApplyHook(h: Hook, s: Skater, cfg: SkateSettings): (r: Skater)
    ensures r.state == s.state && r.sub == s.sub && r.isSkating == s.isSkating
    ensures r.leftWall == s.leftWall && r.rightWall == s.rightWall
    ensures r.wallRunTimer == (if h == WallRunEnter then cfg.wallRunDurationInSeconds else s.wallRunTimer)
    ensures h == NoHook ==> r == s
  {
    var m := s.motor;
    match h
    case NoHook => s
    case WallRunEnter =>
      var b := P.SetVerticalMovement(P.SetHorizontalMovement(m.body, false), false);
      s.(wallRunTimer := cfg.wallRunDurationInSeconds, motor := m.(body := b, gravityEnabled := false))
    case WallRunExit =>
      var b := P.SetVerticalMovement(P.SetHorizontalMovement(m.body, true), true);
      s.(motor := m.(body := b, gravityEnabled := true))
    case SkateEnter => s.(motor := WithSpeedAndFriction(m, cfg.skateMovementSpeed, 3.0))
    case SkateExit => s.(motor := WithSpeedAndFriction(m, cfg.baseMovementSpeed, 5.0))
    case BoostEnter => s.(motor := WithSpeed(m, BoostSpeed(s.state, cfg)))
    case BoostExit => s.(motor := WithSpeed(m, PostBoostSpeed(s.state, cfg)))
    case GrindEnter =>
      var b := P.SetHorizontalMovement(m.body, false).(groundCheckOverride := true);
      s.(motor := m.(body := b, gravityEnabled := false))
    case GrindExit =>
      var b := P.SetHorizontalMovement(m.body, true).(groundCheckOverride := false);
      s.(motor := m.(body := b, gravityEnabled := true))
  }

  /** The body moves freely: both steps on, gravity on, no forced ground contact. */
  predicate FreeMovement(m: Motor) {
    m.body.horizontalEnabled && m.body.verticalEnabled && m.gravityEnabled && !m.body.groundCheckOverride
  }

  /**
    Grinding's hooks undo each other: entering turns the ground override on and
    horizontal movement and gravity off, leaving vertical movement alone; leaving
    reverses all three, so a free body is restored exactly.
   */
  lemma GrindHooksRoundTrip(s: Skater, cfg: SkateSettings)
    requires FreeMovement(s.motor)
    ensures var g := ApplyHook(GrindEnter, s, cfg);
            g.motor.body.groundCheckOverride && !g.motor.body.horizontalEnabled && !g.motor.gravityEnabled &&
            g.motor.body.verticalEnabled && g.motor.tuning == s.motor.tuning &&
            ApplyHook(GrindExit, g, cfg) == s
  {
  }

  /**
    Wall running's hooks undo each other on the body: entering turns horizontal
    and vertical movement and gravity off and refills the timer; leaving turns all
    three back on.
   */
  lemma WallRunHooksRoundTrip(s: Skater, cfg: SkateSettings)
    requires FreeMovement(s.motor)
    ensures var w := ApplyHook(WallRunEnter, s, cfg);
            !w.motor.body.horizontalEnabled && !w.motor.body.verticalEnabled && !w.motor.gravityEnabled &&
            w.wallRunTimer == cfg.wallRunDurationInSeconds &&
            ApplyHook(WallRunExit, w, cfg).motor == s.motor
  {
  }

  // ---------------------------------------------------------------------------
  // Primary handlers
  // ---------------------------------------------------------------------------

  /** Skating can start or stop only on the ground and off a rail. */
  function CanSkate(st: PlayerState, grounded: bool): (b: bool)
    ensures !grounded ==> !b
    ensures st == Grinding ==> !b
    ensures grounded && st != Grinding ==> b
  {
    st != Grinding && grounded
  }

  /** Where grinding and wall running end up: moving if the body still moves, else idle. */
  function ExitState(speed: real): (st: PlayerState)
    ensures st == Moving || st == Idle
  {
    if speed > 0.001 then Moving else Idle
  }

  /** The registry is asked for a rail only while airborne and falling (the test short-circuits). */
  function QueriesRail(input: TickInput): (b: bool)
    ensures b ==> !input.grounded && input.verticalVelocity < 0.0
    ensures input.grounded || input.verticalVelocity >= 0.0 ==> !b
  {
    !input.grounded && input.verticalVelocity < 0.0
  }

  /** A landing needs the body airborne and falling, and the registry to report a rail. */
  function HasLandedOnARail(input: TickInput): (b: bool)
    ensures b ==> !input.grounded && input.verticalVelocity < 0.0 && input.railFound
    ensures !input.grounded && input.verticalVelocity < 0.0 && input.railFound ==> b
  {
    QueriesRail(input) && input.railFound
  }

  /** One run of a primary handler: its requests in order, and the wall-run timer it leaves. */
  datatype HandlerResult = HandlerResult(requests: seq<PlayerState>, wallRunTimer: real)

  /** The idle handler: a single request for Moving once the body moves faster than 0.0001. */
  function HandleIdle(s: Skater, input: TickInput): (r: HandlerResult)
    ensures r.requests == [] || r.requests == [Moving]
    ensures r.requests != [] <==> input.speed > 0.0001
    ensures r.wallRunTimer == s.wallRunTimer
  {
    HandlerResult(if input.speed > 0.0001 then [Moving] else [], s.wallRunTimer)
  }

  /**
    The moving handler: a wall-run request, then an idle request, then a grinding
    request, each under its own test. Its "not wall running" test reads the
    primary state, which is Moving while this handler runs, so it always holds.
    The timer is refilled while grounded.
   */
  function HandleMovement(s: Skater, input: TickInput, cfg: SkateSettings): (r: HandlerResult)
    ensures |r.requests| <= 3 && Moving !in r.requests
    ensures WallRunning in r.requests <==>
              HasDetectedAWall(s) && !input.grounded && s.sub != Walking && s.wallRunTimer > 0.0
    ensures Idle in r.requests <==> input.speed < 0.001 && s.state != WallRunning
    ensures Grinding in r.requests <==> HasLandedOnARail(input) && s.sub != Walking && s.state != WallRunning
    ensures Grinding in r.requests ==> r.requests[|r.requests| - 1] == Grinding
    ensures r.wallRunTimer == (if input.grounded then cfg.wallRunDurationInSeconds else s.wallRunTimer)
  {
    var isNotWalking := s.sub != Walking;
    var isNotWallRunning := s.state != WallRunning;
    var wall := if HasDetectedAWall(s) && !input.grounded && isNotWalking && s.wallRunTimer > 0.0
                then [WallRunning] else [];
    var idle := if input.speed < 0.001 && isNotWallRunning then [Idle] else [];
    var grind := if HasLandedOnARail(input) && isNotWalking && isNotWallRunning then [Grinding] else [];
    HandlerResult(wall + idle + grind,
                  if input.grounded then cfg.wallRunDurationInSeconds else s.wallRunTimer)
  }

  /**
    The grinding handler: without jump, the body is set to the rail's unit forward
    direction times the motor speed, so the exit test reads the motor speed's size.
   */
  function HandleGrindingOnRail(s: Skater, input: TickInput): (r: HandlerResult)
    ensures r.requests == [] || r.requests == [Moving] || r.requests == [Idle]
    ensures r.requests != [] <==> input.jumpHeld || !input.railFound
    ensures input.jumpHeld ==> r.requests == [ExitState(input.speed)]
    ensures !input.jumpHeld && !input.railFound ==>
              r.requests == [ExitState(if s.motor.tuning.speed < 0.0 then -s.motor.tuning.speed else s.motor.tuning.speed)]
    ensures !input.jumpHeld && !input.railFound && s.motor.tuning.speed == 0.0 ==> r.requests == [Idle]
    ensures r.wallRunTimer == s.wallRunTimer
  {
    var speed := if input.jumpHeld then input.speed
                 else if s.motor.tuning.speed < 0.0 then -s.motor.tuning.speed
                 else s.motor.tuning.speed;
    HandlerResult(if input.jumpHeld || !input.railFound then [ExitState(speed)] else [], s.wallRunTimer)
  }

  /** The wall-run handler: an exit request when the wall is gone, on landing, or out of time; the timer always runs down. */
  function HandleWallRunning(s: Skater, input: TickInput): (r: HandlerResult)
    ensures r.requests == [] || r.requests == [Moving] || r.requests == [Idle]
    ensures r.requests != [] <==> !HasDetectedAWall(s) || input.grounded || s.wallRunTimer <= 0.0
    ensures r.requests == [Moving] <==> r.requests != [] && input.speed > 0.001
    ensures r.wallRunTimer == s.wallRunTimer - input.dt
  {
    var leaves := !HasDetectedAWall(s) || input.grounded || s.wallRunTimer <= 0.0;
    HandlerResult(if leaves then [ExitState(input.speed)] else [], s.wallRunTimer - input.dt)
  }

  /** The handler registered for the current primary state. No handler ever asks for its own state. */
  function PrimaryHandler(s: Skater, input: TickInput, cfg: SkateSettings): (r: HandlerResult)
    ensures forall k :: 0 <= k < |r.requests| ==> r.requests[k] != s.state
  {
    match s.state
    case Idle => HandleIdle(s, input)
    case Moving => HandleMovement(s, input, cfg)
    case Grinding => HandleGrindingOnRail(s, input)
    case WallRunning => HandleWallRunning(s, input)
  }

  /** The executor's choice among a handler run's requests: the last one, or no change. */
  function LastRequest<T>(requests: seq<T>, current: T): (next: T)
    ensures requests == [] ==> next == current
    ensures requests != [] ==> next == requests[|requests| - 1]
    ensures next == current || next in requests
  {
    if requests == [] then current else requests[|requests| - 1]
  }

  /** A transition: the old state's exit hook, then the new state's enter hook. */
  function RunHooks(s: Skater, from: HookPair, to: HookPair, cfg: SkateSettings): (r: Skater)
    ensures r.state == s.state && r.sub == s.sub && r.isSkating == s.isSkating
    ensures r.leftWall == s.leftWall && r.rightWall == s.rightWall
    ensures r.wallRunTimer ==
              (if to.enter == WallRunEnter || from.exit == WallRunEnter then cfg.wallRunDurationInSeconds
               else s.wallRunTimer)
    ensures from.exit == NoHook && to.enter == NoHook ==> r == s
  {
    ApplyHook(to.enter, ApplyHook(from.exit, s, cfg), cfg)
  }

  /** The primary machine's step: run the handler, then switch state if it asked to. */
  function PrimaryStep(s: Skater, input: TickInput, cfg: SkateSettings): (r: Skater)
    ensures r.sub == s.sub && r.isSkating == s.isSkating
    ensures r.leftWall == s.leftWall && r.rightWall == s.rightWall
    ensures r.state == s.state ==> r.motor == s.motor
  {
    var h := PrimaryHandler(s, input, cfg);
    var s1 := s.(wallRunTimer := h.wallRunTimer);
    var next := LastRequest(h.requests, s.state);
    if next == s.state then s1
    else RunHooks(s1, PrimaryHooks(s.state), PrimaryHooks(next), cfg).(state := next)
  }

  // ---------------------------------------------------------------------------
  // Sub handlers
  // ---------------------------------------------------------------------------

  /** The sub handlers read the primary state and the skate flag as the primary step left them. */
  function HandleWalking(s: Skater, input: TickInput): (r: seq<SubPlayerState>)
    ensures r == [] || r == [Skating]
    ensures r == [Skating] <==> s.isSkating && input.grounded && s.state != Grinding
  {
    if s.isSkating && CanSkate(s.state, input.grounded) then [Skating] else []
  }

  /** Stopping skating ends the handler run before the boost button is read. */
  function HandleSkating(s: Skater, input: TickInput): (r: seq<SubPlayerState>)
    ensures r == [] || r == [Walking] || r == [Boosting]
    ensures r == [Walking] <==> !s.isSkating && input.grounded && s.state != Grinding
    ensures r == [Boosting] <==> input.boostHeld && (s.isSkating || !input.grounded || s.state == Grinding)
  {
    if !s.isSkating && CanSkate(s.state, input.grounded) then [Walking]
    else if input.boostHeld then [Boosting]
    else []
  }

  /** The boost handler: back to skating once the boost button is released. */
  function HandleBoosting(input: TickInput): (r: seq<SubPlayerState>)
    ensures r == [] || r == [Skating]
    ensures r == [Skating] <==> !input.boostHeld
  {
    if !input.boostHeld then [Skating] else []
  }

  function SubHandler(s: Skater, input: TickInput): (requests: seq<SubPlayerState>)
    ensures |requests| <= 1
    ensures forall k :: 0 <= k < |requests| ==> requests[k] != s.sub
  {
    match s.sub
    case Walking => HandleWalking(s, input)
    case Skating => HandleSkating(s, input)
    case Boosting => HandleBoosting(input)
  }

  function SubStep(s: Skater, input: TickInput, cfg: SkateSettings, reg: Registration): (r: Skater)
    ensures r.state == s.state && r.isSkating == s.isSkating && r.wallRunTimer == s.wallRunTimer
    ensures r.sub == s.sub ==> r == s
  {
    var next := LastRequest(SubHandler(s, input), s.sub);
    if next == s.sub then s
    else RunHooks(s, SubHooks(reg, s.sub), SubHooks(reg, next), cfg).(sub := next)
  }

  /** One tick of the update loop: the primary machine, then the sub machine. */
  function Tick(s: Skater, input: TickInput, cfg: SkateSettings, reg: Registration): (r: Skater)
    ensures r.state == PrimaryStep(s, input, cfg).state
    ensures r.isSkating == s.isSkating
    ensures r.leftWall == s.leftWall && r.rightWall == s.rightWall
  {
    SubStep(PrimaryStep(s, input, cfg), input, cfg, reg)
  }

  // ---------------------------------------------------------------------------
  // Primary transitions
  // ---------------------------------------------------------------------------

  /** Idle moves on exactly when the body moves faster than 0.0001, and only to Moving. */
  lemma IdleTransitions(s: Skater, input: TickInput, cfg: SkateSettings)
    requires s.state == Idle
    ensures var r := PrimaryStep(s, input, cfg);
            (r.state == Idle || r.state == Moving) &&
            (r.state == Moving <==> input.speed > 0.0001) &&
            r.wallRunTimer == s.wallRunTimer && r.motor == s.motor
  {
  }

  /**
    Which of the moving handler's requests wins: a landing on a rail beats
    stopping, which beats a wall. Written as a priority, it states what the
    last-wins rule makes of the request order.
   */
  function MovingPriority(s: Skater, input: TickInput): (st: PlayerState)
    ensures st == Grinding ==> QueriesRail(input) && input.railFound && s.sub != Walking
    ensures st == WallRunning ==> !input.grounded && s.wallRunTimer > 0.0 && input.speed >= 0.001
    ensures st == Moving ==> input.speed >= 0.001
    ensures s.sub == Walking ==> st == Idle || st == Moving
  {
    if HasLandedOnARail(input) && s.sub != Walking then Grinding
    else if input.speed < 0.001 then Idle
    else if HasDetectedAWall(s) && !input.grounded && s.sub != Walking && s.wallRunTimer > 0.0 then WallRunning
    else Moving
  }

  /**
    From Moving: the next state is the highest-priority request, the rail is asked
    for only when airborne and falling, grounded ticks refill the wall-run timer,
    and a walking skater can only stop.
   */
  lemma MovingTransitions(s: Skater, input: TickInput, cfg: SkateSettings)
    requires s.state == Moving
    ensures var r := PrimaryStep(s, input, cfg);
            r.state == MovingPriority(s, input) &&
            (r.state == Grinding ==> QueriesRail(input) && input.railFound) &&
            (input.grounded ==> r.wallRunTimer == cfg.wallRunDurationInSeconds) &&
            (!input.grounded && r.state != WallRunning ==> r.wallRunTimer == s.wallRunTimer) &&
            (s.sub == Walking ==> r.state == Moving || r.state == Idle)
  {
    var h := HandleMovement(s, input, cfg);
    var rs := h.requests;
    if HasLandedOnARail(input) && s.sub != Walking {
      assert rs[|rs| - 1] == Grinding;
    } else if input.speed < 0.001 {
      assert rs[|rs| - 1] == Idle;
    }
  }

  /** Moving asks for a wall run exactly when a wall is seen in the air, on skates, with time left. */
  lemma MovingRequestsWallRunIff(s: Skater, input: TickInput, cfg: SkateSettings)
    requires s.state == Moving
    ensures WallRunning in HandleMovement(s, input, cfg).requests <==>
            HasDetectedAWall(s) && !input.grounded && s.sub != Walking && s.wallRunTimer > 0.0
  {
  }

  /** Moving asks for grinding exactly when it lands on a rail on skates. */
  lemma MovingRequestsGrindingIff(s: Skater, input: TickInput, cfg: SkateSettings)
    requires s.state == Moving
    ensures Grinding in HandleMovement(s, input, cfg).requests <==>
            !input.grounded && input.verticalVelocity < 0.0 && input.railFound && s.sub != Walking
  {
  }

  /**
    Grinding ends exactly when jump is held or the rail query fails. It then goes to
    Moving or Idle according to the speed, and the grinding exit hook frees the body.
   */
  lemma GrindingTransitions(s: Skater, input: TickInput, cfg: SkateSettings)
    requires s.state == Grinding
    ensures var r := PrimaryStep(s, input, cfg);
            (r.state != Grinding <==> input.jumpHeld || !input.railFound) &&
            (r.state != Grinding ==> r.state == Moving || r.state == Idle) &&
            (input.jumpHeld ==> r.state == ExitState(input.speed)) &&
            (!input.jumpHeld && !input.railFound ==>
               r.state == ExitState(if s.motor.tuning.speed < 0.0 then -s.motor.tuning.speed else s.motor.tuning.speed)) &&
            (r.state != Grinding ==>
               r.motor.body.horizontalEnabled && r.motor.gravityEnabled && !r.motor.body.groundCheckOverride)
  {
  }

  /**
    Wall running ends exactly when the wall is gone, the body lands or the time is
    up; the timer loses one step every wall-running tick, and the wall-run exit hook
    turns movement and gravity back on.
   */
  lemma WallRunningTransitions(s: Skater, input: TickInput, cfg: SkateSettings)
    requires s.state == WallRunning
    ensures var r := PrimaryStep(s, input, cfg);
            (r.state != WallRunning <==> !HasDetectedAWall(s) || input.grounded || s.wallRunTimer <= 0.0) &&
            (r.state != WallRunning ==> r.state == ExitState(input.speed)) &&
            r.wallRunTimer == s.wallRunTimer - input.dt &&
            (r.state != WallRunning ==>
               r.motor.body.horizontalEnabled && r.motor.body.verticalEnabled && r.motor.gravityEnabled)
  {
  }

  /** Entering a wall run refills the timer to the full duration before the next tick counts it down. */
  lemma WallRunEntryRefillsTimer(s: Skater, input: TickInput, cfg: SkateSettings)
    requires s.state == Moving && PrimaryStep(s, input, cfg).state == WallRunning
    ensures PrimaryStep(s, input, cfg).wallRunTimer == cfg.wallRunDurationInSeconds
    ensures !input.grounded && s.wallRunTimer > 0.0
  {
    MovingTransitions(s, input, cfg);
  }

  /** Grinding and wall running are entered only from Moving. */
  lemma GrindAndWallRunOnlyFromMoving(s: Skater, input: TickInput, cfg: SkateSettings)
    requires s.state != Moving
    ensures var r := PrimaryStep(s, input, cfg);
            r.state == s.state || r.state == Moving || r.state == Idle
  {
  }

  // ---------------------------------------------------------------------------
  // Sub transitions
  // ---------------------------------------------------------------------------

  /** Walking starts skating exactly when the skate flag is on and skating is possible. */
  lemma WalkingToSkatingIff(s: Skater, input: TickInput, cfg: SkateSettings, reg: Registration)
    requires s.sub == Walking
    ensures var r := SubStep(s, input, cfg, reg);
            (r.sub == Walking || r.sub == Skating) &&
            (r.sub == Skating <==> s.isSkating && CanSkate(s.state, input.grounded))
  {
  }

  /**
    Skating stops exactly when the skate flag is off and stopping is possible, and
    then the boost button is not read; otherwise a held boost starts boosting.
   */
  lemma SkatingTransitions(s: Skater, input: TickInput, cfg: SkateSettings, reg: Registration)
    requires s.sub == Skating
    ensures var r := SubStep(s, input, cfg, reg);
            (r.sub == Walking <==> !s.isSkating && CanSkate(s.state, input.grounded)) &&
            (r.sub == Boosting <==> !(!s.isSkating && CanSkate(s.state, input.grounded)) && input.boostHeld)
  {
  }

  /** Boosting is left exactly when boost is released, and only back to skating. */
  lemma BoostingTransitions(s: Skater, input: TickInput, cfg: SkateSettings, reg: Registration)
    requires s.sub == Boosting
    ensures var r := SubStep(s, input, cfg, reg);
            (r.sub == Boosting || r.sub == Skating) &&
            (r.sub == Skating <==> !input.boostHeld)
  {
  }

  /** Boosting is entered only from skating with boost held; walking and boosting never switch directly. */
  lemma NoWalkingBoostingEdge(s: Skater, input: TickInput, cfg: SkateSettings, reg: Registration)
    ensures var r := SubStep(s, input, cfg, reg);
            (r.sub == Boosting && s.sub != Boosting ==> s.sub == Skating && input.boostHeld) &&
            (s.sub == Walking ==> r.sub != Boosting) &&
            (s.sub == Boosting ==> r.sub != Walking)
  {
  }

  /** On a rail or in the air the skate flag has no effect: walking stays walking. */
  lemma NoSkateSwitchWhileGrindingOrAirborne(s: Skater, input: TickInput, cfg: SkateSettings, reg: Registration)
    requires !CanSkate(s.state, input.grounded)
    ensures var r := SubStep(s, input, cfg, reg);
            (s.sub == Walking ==> r.sub == Walking) &&
            (s.sub == Skating ==> r.sub != Walking)
  {
  }

  /**
    The sub machine steps after the primary one: a boost that starts on the tick a
    grind starts already gets the grind boost speed.
   */
  lemma BoostSpeedFollowsNewPrimaryState(s: Skater, input: TickInput, cfg: SkateSettings, reg: Registration)
    requires s.sub == Skating && input.boostHeld
    ensures var p := PrimaryStep(s, input, cfg);
            var r := Tick(s, input, cfg, reg);
            (!(!s.isSkating && CanSkate(p.state, input.grounded)) ==>
               r.sub == Boosting && r.motor.tuning.speed == BoostSpeed(p.state, cfg)) &&
            (p.state == Grinding ==> r.sub == Boosting && r.motor.tuning.speed == cfg.boostGrindSpeed)
  {
    var p := PrimaryStep(s, input, cfg);
    assert p.sub == Skating;
  }

  /**
    The boost hooks by primary state: entering picks the grind, wall-run or movement
    boost speed, and leaving picks the skate grind, base wall-run or skating speed.
   */
  lemma BoostHookSpeeds(s: Skater, cfg: SkateSettings)
    ensures var e := ApplyHook(BoostEnter, s, cfg).motor.tuning.speed;
            var x := ApplyHook(BoostExit, s, cfg).motor.tuning.speed;
            (s.state == Grinding ==> e == cfg.boostGrindSpeed && x == cfg.skateGrindSpeed) &&
            (s.state == WallRunning ==> e == cfg.boostWallRunSpeed && x == cfg.baseWallRunSpeed) &&
            (s.state == Idle || s.state == Moving ==> e == cfg.boostMovementSpeed && x == cfg.skateMovementSpeed)
  {
  }

  /**
    Releasing boost goes back to skating, and skating's enter hook runs after the
    boost exit hook, so the post-boost speed never survives the transition: as
    registered the skater is left with the walking speed and friction, with the
    intended registration with the skating speed and friction, whatever the
    primary state.
   */
  lemma BoostReleaseSpeed(s: Skater, input: TickInput, cfg: SkateSettings)
    requires s.sub == Boosting && !input.boostHeld
    ensures var r := SubStep(s, input, cfg, AsRegistered);
            r.sub == Skating && r.motor.tuning.speed == cfg.baseMovementSpeed && r.motor.tuning.groundFriction == 5.0
    ensures var r := SubStep(s, input, cfg, Intended);
            r.sub == Skating && r.motor.tuning.speed == cfg.skateMovementSpeed && r.motor.tuning.groundFriction == 3.0
  {
  }

  // ---------------------------------------------------------------------------
  // The skating hooks
  // ---------------------------------------------------------------------------

  /**
    As registered, starting to skate runs the skate-exit hook: the walking speed
    and friction 5.0; stopping runs the skate-enter hook: the skating speed and
    friction 3.0, which the walking skater keeps.
   */
  lemma SkatingHooksAsRegistered(s: Skater, input: TickInput, cfg: SkateSettings)
    requires CanSkate(s.state, input.grounded)
    ensures s.sub == Walking && s.isSkating ==>
              var r := SubStep(s, input, cfg, AsRegistered);
              r.sub == Skating && r.motor.tuning.speed == cfg.baseMovementSpeed && r.motor.tuning.groundFriction == 5.0
    ensures s.sub == Skating && !s.isSkating ==>
              var r := SubStep(s, input, cfg, AsRegistered);
              r.sub == Walking && r.motor.tuning.speed == cfg.skateMovementSpeed && r.motor.tuning.groundFriction == 3.0
  {
  }

  /** With each hook in its own slot, skating runs at the skating speed and walking returns to the walking speed. */
  lemma SkatingHooksIntended(s: Skater, input: TickInput, cfg: SkateSettings)
    requires CanSkate(s.state, input.grounded)
    ensures s.sub == Walking && s.isSkating ==>
              var r := SubStep(s, input, cfg, Intended);
              r.sub == Skating && r.motor.tuning.speed == cfg.skateMovementSpeed && r.motor.tuning.groundFriction == 3.0
    ensures s.sub == Skating && !s.isSkating ==>
              var r := SubStep(s, input, cfg, Intended);
              r.sub == Walking && r.motor.tuning.speed == cfg.baseMovementSpeed && r.motor.tuning.groundFriction == 5.0
  {
  }

  /**
    A walk-skate-walk round trip through the sub machine, toggling the skate flag
    in between. As registered, the skater walks on at the skating speed afterwards.
   */
  lemma SkateRoundTripAsRegistered(s: Skater, input: TickInput, cfg: SkateSettings)
    requires s.sub == Walking && s.isSkating && CanSkate(s.state, input.grounded)
    ensures var k := SubStep(s, input, cfg, AsRegistered);
            var w := SubStep(ToggleSkate(k, true), input, cfg, AsRegistered);
            w.sub == Walking && w.motor.tuning.speed == cfg.skateMovementSpeed
  {
  }

  /** With the intended registration the same round trip restores the walking speed and friction. */
  lemma SkateRoundTripIntended(s: Skater, input: TickInput, cfg: SkateSettings)
    requires s.sub == Walking && s.isSkating && CanSkate(s.state, input.grounded)
    ensures var k := SubStep(s, input, cfg, Intended);
            var w := SubStep(ToggleSkate(k, true), input, cfg, Intended);
            w.sub == Walking && w.motor.tuning.speed == cfg.baseMovementSpeed &&
            w.motor.tuning.groundFriction == 5.0
  {
  }
}
