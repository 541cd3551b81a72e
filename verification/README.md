# Skater movement core, modelled in Dafny

This project models the sequential logic of a Unity skating game's player and
rail code. It proves properties about that model. There are four parts:

- **`BezierPath`** (`path.dfy`): the editable cubic Bezier `Path` behind a spline
  object.
  - Its point list holds anchors at the indices divisible by three, with two
    control points between neighbouring anchors.
  - It has a closed flag. On a closed path, indices wrap through `LoopIndex`, a
    remainder that truncates toward zero as C# does.
  - It has an auto-tangent flag that re-derives control points.
  - Operations: construction, the auto-tangent setter, add, split, delete, move,
    toggle-closed, segment read-out, and every auto-tangent helper.
  - Each operation is a pure function on an immutable path. Normalisation and
    length come from a `Geometry` value, so every index and anchor property holds
    whatever those functions compute.
- **`Platformer`** (`platformer.dfy`): the basic platformer body's fixed step.
  - The ground check, then the horizontal step and the vertical step, each behind
    its own enable flag.
  - The drag, the speed clamp, the jump impulse and the fall / low-jump shaping.
- **`Locomotion`** (`locomotion.dfy`): the skater's two state machines.
  - The primary machine: idle, moving, grinding, wall running.
  - The sub machine: walking, skating, boosting.
  - Their handlers, their enter and exit hooks, the wall sensors and the skate
    toggle.
  - The machine executor is not part of the source, so the model fixes what is
    assumed of it:
    - the last request of a handler run wins;
    - a transition runs the old state's exit hook, then the new state's enter hook.
  - Each tick steps the primary machine and then the sub machine, which sees the
    new primary state, as the update loop does. Both run on one shared tick input.
  - The sub-state hook table comes in two forms: `AsRegistered` (the source's
    registration) and `Intended`.
- **`Rails`** (`rails.dfy`): the rail's box, the rail's nearest-point state, and
  the registry's rail query.
  - Boxes are centre and half-size.
  - `Contains` and `Intersects` are closed-interval tests. This is an assumption
    about the engine's semantics.
  - The query is a loop over the registry. It is checked against a recursive
    reference, `FirstClose`.
  - The two registry classes in the source have the same registry and query
    logic. The model covers both; only one of them has `ManualReset`.

`vectors.dfy` holds the shared vector arithmetic over exact reals, the
`Geometry` oracle, and the `Result` / `Option` types.

## Model

| member | source | states |
|---|---|---|
| BezierPath.LoopIndex | Assets/Scripts/Gameplay/Interactables/SplineController.cs:247-250 | the wrapped index lies in [0, n) for every i ≥ −n. It is i+n below 0, i itself in range, and i−n one length above |
| BezierPath.Slot | Assets/Scripts/Gameplay/Interactables/SplineController.cs:186-186 | a control-point write lands on a valid list index, or is skipped (−1) when the index is out of range on an open path |
| BezierPath.CsRem | Assets/Scripts/Gameplay/Interactables/SplineController.cs:247-250 | C#'s `%` takes the sign of the dividend: the result is in [0, b) for a ≥ 0 and in (−b, 0] for a < 0 |
| BezierPath.NumSegments | Assets/Scripts/Gameplay/Interactables/SplineController.cs:36-37 | on a valid path, count/3 is k with 3k points and k ≥ 2 when closed, and 3k+1 points and k ≥ 1 when open |
| BezierPath.NewPath | Assets/Scripts/Gameplay/Interactables/SplineController.cs:21-31 | a new path is valid, open, auto-tangent off, 4 points and one segment. Its anchors are at centre ± forward, and each control is the midpoint between the centre and its anchor |
| BezierPath.GetPointsInSegment | Assets/Scripts/Gameplay/Interactables/SplineController.cs:106-114 | segment i yields points 3i..3i+2 and then 3i+3. For a closed path's last segment the fourth point is point 0 |
| BezierPath.ControlSlotsAreNotAnchors | Assets/Scripts/Gameplay/Interactables/SplineController.cs:227-234 | the wrapped write targets next to an anchor are never an anchor index, on open and closed paths |
| BezierPath.LoopIndexOfAnchor | Assets/Scripts/Gameplay/Interactables/SplineController.cs:184-189 | wrapping an anchor index lands on an anchor index |
| BezierPath.AnchorsPreservedTrans | Assets/Scripts/Gameplay/Interactables/SplineController.cs:182-203 | keeping anchors composes across successive auto-tangent passes |
| BezierPath.ControlPlacement | Assets/Scripts/Gameplay/Interactables/SplineController.cs:205-223 | the distance to the previous anchor is used only when one exists or the path is closed, and is 0 for the first anchor of an open path. The negated distance to the "next" anchor is always used, because that guard always holds |
| BezierPath.ControlDistancesSigned | Assets/Scripts/Gameplay/Interactables/SplineController.cs:211-223 | with an exact length, the control before an anchor gets a non-negative distance and the one after a non-positive one |
| BezierPath.AutoSetAnchorControlPoints | Assets/Scripts/Gameplay/Interactables/SplineController.cs:205-235 | one anchor's pass keeps the anchor and writes at most the two wrapped control slots next to it, each only when in range or closed |
| BezierPath.AutoSetAnchorKeepsAnchors | Assets/Scripts/Gameplay/Interactables/SplineController.cs:205-235 | on a well-formed list, one anchor's pass moves no anchor |
| BezierPath.AutoSetStartAndEndControls | Assets/Scripts/Gameplay/Interactables/SplineController.cs:238-245 | closed paths are untouched; open paths change at most points 1 and n−2. Point 1 becomes the midpoint of point 0 and the OLD point 2. Point n−2 becomes the midpoint of its final neighbours. So with five or more points point 1 is also the midpoint of its final neighbours, and with four points (one segment) it is not, because the second write moves point 2 |
| BezierPath.StartAndEndKeepsAnchors | Assets/Scripts/Gameplay/Interactables/SplineController.cs:238-245 | the end-control pass moves no anchor |
| BezierPath.AutoSetIfPresent | Assets/Scripts/Gameplay/Interactables/SplineController.cs:184-190 | one guarded iteration of the affected-anchors loop keeps the length |
| BezierPath.AutoSetIfPresentKeepsAnchors | Assets/Scripts/Gameplay/Interactables/SplineController.cs:184-190 | one guarded iteration at an anchor index moves no anchor |
| BezierPath.AutoSetAllAffectedControlPoints | Assets/Scripts/Gameplay/Interactables/SplineController.cs:182-193 | the passes at u−3, u and u+3, then the end controls, keep the length |
| BezierPath.AllAffectedKeepsAnchors | Assets/Scripts/Gameplay/Interactables/SplineController.cs:182-193 | re-deriving around an anchor moves no anchor |
| BezierPath.AutoSetAnchorsFrom | Assets/Scripts/Gameplay/Interactables/SplineController.cs:197-200 | the loop over every third index from i keeps the length, and keeps all anchors when started on an anchor |
| BezierPath.AutoSetAllControlPoints | Assets/Scripts/Gameplay/Interactables/SplineController.cs:195-203 | re-deriving every control keeps the length and every anchor |
| BezierPath.SetAutoSetControlPoints | Assets/Scripts/Gameplay/Interactables/SplineController.cs:38-52 | setting the current value changes nothing; turning it off keeps the points. Any setting keeps validity, the flags and the anchors |
| BezierPath.AppendSegmentPoints | Assets/Scripts/Gameplay/Interactables/SplineController.cs:61-63 | the old list stays a prefix. The three new points are the reflection of the second-last point, the midpoint of that point and the anchor, then the anchor |
| BezierPath.AddSegment | Assets/Scripts/Gameplay/Interactables/SplineController.cs:59-70 | adding keeps the path valid and open, adds 3 points and one segment. With auto-tangent off it appends exactly those three points |
| BezierPath.AddSegmentKeepsAnchors | Assets/Scripts/Gameplay/Interactables/SplineController.cs:59-70 | in either mode the last point is the new anchor and the old anchors stay put |
| BezierPath.InsertSegmentPoints | Assets/Scripts/Gameplay/Interactables/SplineController.cs:73 | inserting three points at k keeps the prefix and shifts the suffix by 3, with the anchor in the middle |
| BezierPath.SplitSegment | Assets/Scripts/Gameplay/Interactables/SplineController.cs:71-82 | splitting keeps the path valid and its flags, and adds 3 points and one segment |
| BezierPath.SplitSegmentKeepsAnchors | Assets/Scripts/Gameplay/Interactables/SplineController.cs:71-82 | the new anchor sits at 3s+3, earlier anchors stay put and later anchors move up by 3, in either mode |
| BezierPath.InsertedAnchorsShift | Assets/Scripts/Gameplay/Interactables/SplineController.cs:73 | after an insertion at k ≡ 2 (mod 3), any anchor-keeping pass leaves the old anchors at j or j+3 |
| BezierPath.SplitSegmentKeepsOrder | Assets/Scripts/Gameplay/Interactables/SplineController.cs:71-82 | with auto-tangent off, the old points keep their order around the three inserted at 3s+2 |
| BezierPath.HasSegmentToSpare | Assets/Scripts/Gameplay/Interactables/SplineController.cs:86 | on a valid path, a spare segment means at least 7 points (9 when closed); without one the path is a single open segment or a closed pair |
| BezierPath.DeleteSegment | Assets/Scripts/Gameplay/Interactables/SplineController.cs:84-105 | nothing changes without a segment to spare, nor at anchor 0 of an open path. It fails exactly when the removed range leaves the list. Otherwise it drops the three points around the index (a closed path's anchor 0 first carries its control over), with one segment fewer and the path valid |
| BezierPath.DeleteSegmentFailsOnlyAtOpenEnd | Assets/Scripts/Gameplay/Interactables/SplineController.cs:84-105 | among anchor indices, deletion fails exactly at the last anchor of an open path with more than one segment |
| BezierPath.DeleteInnerAnchor | Assets/Scripts/Gameplay/Interactables/SplineController.cs:100-103 | an inner anchor with a segment to spare removes exactly the three points centred on it |
| BezierPath.DeleteSegmentFixed | Assets/Scripts/Gameplay/Interactables/SplineController.cs:84-105 | with the end-anchor branch un-nested, every anchor with a segment to spare removes one segment: the first, the last, or the one at the inner anchor |
| BezierPath.PairedControl | Assets/Scripts/Gameplay/Interactables/SplineController.cs:141-142 | the paired control is another control point with the same owning anchor |
| BezierPath.OwningAnchor | Assets/Scripts/Gameplay/Interactables/SplineController.cs:141-143 | a control's anchor is an anchor index adjacent to it |
| BezierPath.MovePoint | Assets/Scripts/Gameplay/Interactables/SplineController.cs:116-155 | moving any point keeps the path valid, its flags and its length |
| BezierPath.MovePointAnchorDragsNeighbours | Assets/Scripts/Gameplay/Interactables/SplineController.cs:127-138 | with auto off, a moved anchor lands on pos. Its in-range or wrapped neighbours shift by the same delta, and nothing else changes |
| BezierPath.MovePointControlMovesOnlyItsPair | Assets/Scripts/Gameplay/Interactables/SplineController.cs:139-152 | with auto off, a moved control lands on pos, and only its wrapped paired control may also change; no anchor moves. When the pair exists, it is placed at the shared anchor plus the normalised (anchor − pos) times the old anchor-to-pair length: on the far side of the anchor from pos |
| BezierPath.MovePointPairKeepsDistance | Assets/Scripts/Gameplay/Interactables/SplineController.cs:146-149 | with exact lengths and unit directions, the re-placed paired control is exactly as far from the shared anchor as before, whenever pos is not on the anchor |
| BezierPath.MovePointAutoKeepsOtherAnchors | Assets/Scripts/Gameplay/Interactables/SplineController.cs:121-124 | with auto on, a moved anchor lands on pos and every other anchor stays put |
| BezierPath.AutoSetAtOneOverwritesFirst | Assets/Scripts/Gameplay/Interactables/SplineController.cs:205-235 | treating index 1 of an open list as an anchor overwrites point 0 with point 1 |
| BezierPath.MovePointAutoDragsFirstAnchor | Assets/Scripts/Gameplay/Interactables/SplineController.cs:116-124 | as written, dragging control 1 of an open auto-tangent path moves anchor 0 onto the dragged position |
| BezierPath.MovePointKeepsOtherAnchors | Assets/Scripts/Gameplay/Interactables/SplineController.cs:116-155 | except for auto-mode controls, a move lands on pos and no other anchor moves |
| BezierPath.MovePointGuarded | Assets/Scripts/Gameplay/Interactables/SplineController.cs:116-155 | with auto-mode control drags ignored, no move changes any other anchor |
| BezierPath.ToggleClosed | Assets/Scripts/Gameplay/Interactables/SplineController.cs:157-180 | closing adds 2 points and a segment, and opening removes 2 points and a segment. With auto off, closing appends the two reflections and opening drops the last two points |
| BezierPath.ToggleClosedKeepsAnchors | Assets/Scripts/Gameplay/Interactables/SplineController.cs:157-180 | in either mode, toggling moves none of the anchors both versions have |
| BezierPath.ToggleClosedTwiceRestores | Assets/Scripts/Gameplay/Interactables/SplineController.cs:157-180 | closing then re-opening an open path with auto off restores it exactly |
| BezierPath.ToggleClosedTwiceKeepsAnchors | Assets/Scripts/Gameplay/Interactables/SplineController.cs:157-180 | in either mode, closing then re-opening gives an open path with the same anchors |
| BezierPath.SplitThenDeleteRestores | Assets/Scripts/Gameplay/Interactables/SplineController.cs:71-105 | with auto off, deleting the anchor a split inserted gives back the original path |
| BezierPath.RemoveThreeUndoesInsert | Assets/Scripts/Gameplay/Interactables/SplineController.cs:73 | cutting three points out at k undoes inserting three at k |
| BezierPath.AddThenDeleteRestoresCount | Assets/Scripts/Gameplay/Interactables/SplineController.cs:59-105 | after an add, deleting any inner anchor restores the segment count |
| BezierPath.AddThenDeleteLastFails | Assets/Scripts/Gameplay/Interactables/SplineController.cs:84-105 | as written, deleting the anchor just appended to an open path fails |
| BezierPath.AddThenDeleteLastRestores | Assets/Scripts/Gameplay/Interactables/SplineController.cs:59-105 | with the corrected deletion and auto off, deleting the anchor just appended gives back the original path |
| Platformer.NewController | Assets/Scripts/Gameplay/Player/BasicPlatformerController.cs:13-14 | both movement steps start enabled, with no forced ground contact |
| Platformer.InputDirection | Assets/Scripts/Gameplay/Player/BasicPlatformerController.cs:39-48 | the move direction is flat (y = 0) and combines the camera axes weighted by the stick |
| Platformer.SetHorizontalMovement | Assets/Scripts/Gameplay/Player/BasicPlatformerController.cs:53-54 | sets its own flag and changes nothing else |
| Platformer.SetVerticalMovement | Assets/Scripts/Gameplay/Player/BasicPlatformerController.cs:55-56 | sets its own flag and changes nothing else |
| Platformer.CheckGround | Assets/Scripts/Gameplay/Player/BasicPlatformerController.cs:108-112 | grounded exactly when the box overlaps something or the override is on; nothing else changes |
| Platformer.ClampMagnitudeBound | Assets/Scripts/Gameplay/Player/BasicPlatformerController.cs:87 | with an exact length, a clamped vector is no longer than the bound |
| Platformer.ClampMagnitude | Assets/Scripts/Gameplay/Player/BasicPlatformerController.cs:87 | a vector within the bound comes back unchanged; a longer one with a non-zero length is rescaled by bound / length |
| Platformer.HorizontalStep | Assets/Scripts/Gameplay/Player/BasicPlatformerController.cs:83-89 | drag is the friction on the ground and 0 in the air. The vertical speed after the step is the old one plus the direction's y times `speed`, so it is kept exactly for a flat direction; only velocity and drag change |
| Platformer.HorizontalStepBoundsSpeed | Assets/Scripts/Gameplay/Player/BasicPlatformerController.cs:86-88 | after the step the ground speed is at most `speed` |
| Platformer.HorizontalStepUnclampedWithinSpeed | Assets/Scripts/Gameplay/Player/BasicPlatformerController.cs:86-88 | when the pushed velocity is within `speed`, exactly the input times `speed` is added |
| Platformer.VerticalStep | Assets/Scripts/Gameplay/Player/BasicPlatformerController.cs:91-106 | only the vertical velocity changes, by the impulse plus at most one shaping term |
| Platformer.JumpImpulse | Assets/Scripts/Gameplay/Player/BasicPlatformerController.cs:93-96 | the impulse is added only on the ground with the legacy jump button held, and then it is the full jump speed |
| Platformer.VerticalStepShaping | Assets/Scripts/Gameplay/Player/BasicPlatformerController.cs:98-105 | the fall term applies exactly when falling after the impulse, and the low-jump term exactly when rising without jump; otherwise neither applies |
| Platformer.OnlyTheJumpRaisesVerticalSpeed | Assets/Scripts/Gameplay/Player/BasicPlatformerController.cs:91-106 | with downward gravity and multipliers ≥ 1, vertical speed rises only through the grounded jump |
| Platformer.FixedUpdate | Assets/Scripts/Gameplay/Player/BasicPlatformerController.cs:73-80 | the ground check always runs. The horizontal step gets the camera-relative direction, which is flat, so a disabled vertical step leaves the vertical speed alone even with the horizontal step on. A disabled step leaves its part of the velocity (and the drag) alone, and flags are unchanged |
| Platformer.FixedUpdateBoundsGroundSpeed | Assets/Scripts/Gameplay/Player/BasicPlatformerController.cs:73-89 | with the horizontal step on, a whole step keeps the ground speed within `speed` |
| Platformer.DisabledMovementFreezesBody | Assets/Scripts/Gameplay/Player/BasicPlatformerController.cs:53-80 | after turning both steps off, a physics step keeps velocity and drag |
| Locomotion.ExitState | Assets/Scripts/Gameplay/Player/Skate/SkateController.cs:239-239 | leaving a grind or a wall run always goes to Moving or Idle, and never back to a special state |
| Locomotion.CanSkate | Assets/Scripts/Gameplay/Player/Skate/SkateController.cs:316-324 | skating can switch exactly when grounded and not grinding |
| Locomotion.QueriesRail | Assets/Scripts/Gameplay/Player/Skate/SkateController.cs:372-374 | the registry is asked only when airborne and falling: a grounded or non-falling body never reaches the query |
| Locomotion.HasLandedOnARail | Assets/Scripts/Gameplay/Player/Skate/SkateController.cs:369-375 | a landing needs the body airborne and falling and a rail reported by the registry, and these three are enough |
| Locomotion.HandleIdle | Assets/Scripts/Gameplay/Player/Skate/SkateController.cs:377-385 | at most one request, for Moving, exactly when the speed is above 0.0001; the timer is untouched |
| Locomotion.HandleMovement | Assets/Scripts/Gameplay/Player/Skate/SkateController.cs:277-313 | never requests Moving; each of WallRunning, Idle and Grinding is requested exactly under its own test; a grind request comes last; the timer is refilled exactly when grounded |
| Locomotion.HandleGrindingOnRail | Assets/Scripts/Gameplay/Player/Skate/SkateController.cs:248-274 | at most one request, for Moving or Idle, exactly on jump or a failed rail query. On jump the exit reads the body speed; without jump it reads the size of the motor speed, so a zero motor speed exits to Idle |
| Locomotion.HandleWallRunning | Assets/Scripts/Gameplay/Player/Skate/SkateController.cs:237-243 | at most one request, for Moving or Idle, exactly when the wall is lost, on landing, or out of time. It is Moving exactly above 0.001, and the timer always drops by dt |
| Locomotion.NewSkater | Assets/Scripts/Gameplay/Player/Skate/SkateController.cs:66-67 | the machines start idle and walking |
| Locomotion.HasDetectedAWall | Assets/Scripts/Gameplay/Player/Skate/SkateController.cs:33-34 | no wall is detected exactly when both side flags are clear |
| Locomotion.DetectWalls | Assets/Scripts/Gameplay/Player/Skate/SkateController.cs:406-413 | the right flag is this step's right hit. The left flag is this step's left hit only when the right ray missed, and otherwise keeps its old value |
| Locomotion.WallRunHitSide | Assets/Scripts/Gameplay/Player/Skate/SkateController.cs:207 | wall running follows the left hit exactly when the left flag is set, and the right hit otherwise |
| Locomotion.StaleLeftWallWins | Assets/Scripts/Gameplay/Player/Skate/SkateController.cs:207 | after a right hit, a stale left flag still steers the wall run to the left hit |
| Locomotion.DetectWallsClearsOnlyOnMiss | Assets/Scripts/Gameplay/Player/Skate/SkateController.cs:406-413 | no wall is detected exactly when both rays missed this step |
| Locomotion.ToggleSkate | Assets/Scripts/Gameplay/Player/Skate/SkateController.cs:92-102 | the bound action flips the skate flag; an unbound action changes nothing |
| Locomotion.ToggleSkateTwiceRestores | Assets/Scripts/Gameplay/Player/Skate/SkateController.cs:97-101 | toggling twice restores the skater |
| Locomotion.ApplyHook | Assets/Scripts/Gameplay/Player/Skate/SkateController.cs:122-201 | hooks touch only the body, except that the wall-run enter hook refills the timer |
| Locomotion.PrimaryHooks | Assets/Scripts/Gameplay/Player/Skate/SkateController.cs:115-119 | idle and moving have no hooks; grinding and wall running each have their own enter and exit hook, and no other state has them |
| Locomotion.SubHooks | Assets/Scripts/Gameplay/Player/Skate/SkateController.cs:104-109 | walking has no hooks and boosting has its own pair. As registered, skating has the skate-exit hook in its enter slot and the skate-enter hook in its exit slot; in the intended table each hook is in its own slot |
| Locomotion.BoostSpeed | Assets/Scripts/Gameplay/Player/Skate/SkateController.cs:160-169 | the boost speed is the grind boost while grinding, the wall-run boost while wall running, and the movement boost otherwise |
| Locomotion.PostBoostSpeed | Assets/Scripts/Gameplay/Player/Skate/SkateController.cs:171-182 | after a boost the speed is the skate grind speed while grinding, the base wall-run speed while wall running, and the skate movement speed otherwise |
| Locomotion.GrindHooksRoundTrip | Assets/Scripts/Gameplay/Player/Skate/SkateController.cs:185-201 | grinding enter turns the override on and horizontal movement and gravity off, and exit restores a free body exactly |
| Locomotion.WallRunHooksRoundTrip | Assets/Scripts/Gameplay/Player/Skate/SkateController.cs:122-140 | wall-run enter turns both movements and gravity off and refills the timer, and exit restores the body |
| Locomotion.BoostHookSpeeds | Assets/Scripts/Gameplay/Player/Skate/SkateController.cs:160-183 | boost enter and exit pick the grind, wall-run or movement speeds by the primary state |
| Locomotion.PrimaryHandler | Assets/Scripts/Gameplay/Player/Skate/SkateController.cs:114-120 | no primary handler ever requests its own state |
| Locomotion.LastRequest | Assets/Scripts/Gameplay/Player/Skate/SkateController.cs:286-305 | the chosen state is the last request, or the current state when there is none |
| Locomotion.RunHooks | Assets/Scripts/Gameplay/Player/Skate/SkateController.cs:104-120 | a transition runs the old state's exit hook and the new state's enter hook. States, skate flag and walls stay, the timer is refilled exactly when a wall-run enter hook runs, and no hooks mean no change |
| Locomotion.PrimaryStep | Assets/Scripts/Gameplay/Player/Skate/SkateController.cs:88 | the primary step leaves the sub state and sensors alone, and leaves the body alone when the state stays |
| Locomotion.SubHandler | Assets/Scripts/Gameplay/Player/Skate/SkateController.cs:104-110 | a sub handler makes at most one request and never requests its own state |
| Locomotion.HandleWalking | Assets/Scripts/Gameplay/Player/Skate/SkateController.cs:359-367 | requests Skating exactly when skating is on, grounded and not grinding; nothing else |
| Locomotion.HandleSkating | Assets/Scripts/Gameplay/Player/Skate/SkateController.cs:340-357 | requests Walking exactly when skating is off and switching is allowed; otherwise Boosting exactly when boost is held |
| Locomotion.HandleBoosting | Assets/Scripts/Gameplay/Player/Skate/SkateController.cs:326-338 | requests Skating exactly when boost is released; nothing else |
| Locomotion.SubStep | Assets/Scripts/Gameplay/Player/Skate/SkateController.cs:89 | the sub step leaves the primary state and timer alone, and changes nothing when the sub state stays |
| Locomotion.Tick | Assets/Scripts/Gameplay/Player/Skate/SkateController.cs:84-91 | a tick ends in the primary step's state and never changes the skate flag or sensors |
| Locomotion.IdleTransitions | Assets/Scripts/Gameplay/Player/Skate/SkateController.cs:377-385 | Idle goes to Moving exactly when speed > 0.0001, and nowhere else |
| Locomotion.MovingPriority | Assets/Scripts/Gameplay/Player/Skate/SkateController.cs:286-305 | the reference for the moving handler's winner: a grind only when airborne, falling, on a reported rail and not walking; a wall run only airborne with time left and moving; a walker only stops or keeps moving |
| Locomotion.MovingTransitions | Assets/Scripts/Gameplay/Player/Skate/SkateController.cs:277-313 | under last-wins, grinding beats idle, which beats wall running. A grind follows a real rail query; grounded ticks refill the timer; a walker can only stop |
| Locomotion.MovingRequestsWallRunIff | Assets/Scripts/Gameplay/Player/Skate/SkateController.cs:283-289 | Moving asks for a wall run exactly when wall ∧ airborne ∧ not walking ∧ timer > 0 |
| Locomotion.MovingRequestsGrindingIff | Assets/Scripts/Gameplay/Player/Skate/SkateController.cs:300-305 | Moving asks to grind exactly when airborne, falling, a rail is found and not walking |
| Locomotion.GrindingTransitions | Assets/Scripts/Gameplay/Player/Skate/SkateController.cs:248-274 | grinding ends exactly on jump or a failed query, with the body freed. On jump the target is Moving if the body speed is above 0.001 and Idle otherwise; without jump the same test reads the size of the motor speed, the speed the rail set the body to |
| Locomotion.WallRunningTransitions | Assets/Scripts/Gameplay/Player/Skate/SkateController.cs:203-246 | a wall run ends exactly when the wall is lost, the body lands or time is up, going to Moving/Idle by speed. The timer drops by dt every tick |
| Locomotion.WallRunEntryRefillsTimer | Assets/Scripts/Gameplay/Player/Skate/SkateController.cs:131-140 | entering a wall run sets the timer to the full duration, and only happens airborne with time left |
| Locomotion.GrindAndWallRunOnlyFromMoving | Assets/Scripts/Gameplay/Player/Skate/SkateController.cs:203-274 | outside Moving, the primary state can only stay or fall back to Moving or Idle |
| Locomotion.WalkingToSkatingIff | Assets/Scripts/Gameplay/Player/Skate/SkateController.cs:359-367 | Walking goes to Skating exactly when the skate flag is on and CanSkate holds |
| Locomotion.SkatingTransitions | Assets/Scripts/Gameplay/Player/Skate/SkateController.cs:340-357 | Skating goes to Walking exactly when ¬flag ∧ CanSkate, and otherwise to Boosting exactly when boost is held |
| Locomotion.BoostingTransitions | Assets/Scripts/Gameplay/Player/Skate/SkateController.cs:326-338 | Boosting goes back to Skating exactly when boost is released |
| Locomotion.NoWalkingBoostingEdge | Assets/Scripts/Gameplay/Player/Skate/SkateController.cs:326-367 | Boosting is entered only from Skating with boost held, and there is no Walking↔Boosting edge |
| Locomotion.NoSkateSwitchWhileGrindingOrAirborne | Assets/Scripts/Gameplay/Player/Skate/SkateController.cs:316-324 | without CanSkate, walking stays walking and skating never turns to walking |
| Locomotion.BoostSpeedFollowsNewPrimaryState | Assets/Scripts/Gameplay/Player/Skate/SkateController.cs:84-91 | a boost started on the tick a grind starts gets the grind boost speed |
| Locomotion.BoostReleaseSpeed | Assets/Scripts/Gameplay/Player/Skate/SkateController.cs:107-108 | on boost release, skating's enter hook runs after the boost exit hook. The post-boost speed is overwritten: by the walking tuning as registered, by the skating tuning when intended |
| Locomotion.SkatingHooksAsRegistered | Assets/Scripts/Gameplay/Player/Skate/SkateController.cs:107 | as registered, starting to skate sets the walking speed and friction 5.0; stopping sets the skating speed and friction 3.0 |
| Locomotion.SkatingHooksIntended | Assets/Scripts/Gameplay/Player/Skate/SkateController.cs:144-158 | with the intended registration, skating runs at the skating tuning and walking returns to the walking tuning |
| Locomotion.SkateRoundTripAsRegistered | Assets/Scripts/Gameplay/Player/Skate/SkateController.cs:104-110 | as registered, a walk→skate→walk round trip leaves the walker at the skating speed |
| Locomotion.SkateRoundTripIntended | Assets/Scripts/Gameplay/Player/Skate/SkateController.cs:144-158 | with the intended registration the round trip restores the walking speed and friction |
| Rails.WithSize | Assets/Scripts/Gameplay/Interactables/RailController.cs:38 | assigning a size keeps the centre and yields exactly that size |
| Rails.Contains | Assets/Scripts/Gameplay/Interactables/RailController.cs:84-88 | the closed per-axis test; only a box with no negative half-size contains a point |
| Rails.Intersects | Assets/Scripts/Gameplay/Interactables/RailController.cs:90-94 | a box meets itself exactly when it is well sized, and two boxes that share any point intersect |
| Rails.IntersectsIffCommonPoint | Assets/Scripts/Gameplay/Interactables/RailController.cs:90-94 | two well-sized boxes intersect exactly when some point lies in both |
| Rails.IntersectsSymmetric | Assets/Scripts/Gameplay/Interactables/RailController.cs:90-94 | intersection does not depend on argument order |
| Rails.ContainsIsPointIntersection | Assets/Scripts/Gameplay/Interactables/RailController.cs:84-94 | containment is intersection with a zero-size box |
| Rails.NearestPointOnRail | Assets/Scripts/Gameplay/Interactables/RailController.cs:21-22 | the world nearest point minus the rail's position is the stored local point |
| Rails.RailBounds | Assets/Scripts/Gameplay/Interactables/RailController.cs:33-42 | size = spline size + offset, and the x/z centre is moved by the position. The box's bottom is at the spline's mid-height and it reaches up by its full height |
| Rails.RailContains | Assets/Scripts/Gameplay/Interactables/RailController.cs:84-88 | the rail answers with its own moved box, which is well sized whenever it contains a point |
| Rails.RailIntersects | Assets/Scripts/Gameplay/Interactables/RailController.cs:90-94 | the rail asks its own box about the other box, and the answer is the same as the other box asking |
| Rails.RailContainsIff | Assets/Scripts/Gameplay/Interactables/RailController.cs:84-88 | a point is in the rail box exactly when it lies in the grown, moved, lifted interval on each axis |
| Rails.UpdateController | Assets/Scripts/Gameplay/Interactables/RailController.cs:72-82 | the search runs at player − rail position, and only distance, nearest point and progress change |
| Rails.UpdateControllerFramesAgree | Assets/Scripts/Gameplay/Interactables/RailController.cs:21-22 | a player standing on the spline finds the world nearest point at their own position |
| Rails.UpdateControllerIdempotent | Assets/Scripts/Gameplay/Interactables/RailController.cs:72-82 | refreshing twice from one position equals refreshing once |
| Rails.IsCloseToRailSquared | Assets/Scripts/Gameplay/Interactables/Service/RailService.cs:59-65 | with an exact length, the range test is distance² ≤ range² |
| Rails.NewRegistry | Assets/Scripts/Gameplay/Interactables/Service/RailService.cs:29-32 | a new registry is empty |
| Rails.ManualReset | Assets/Scripts/Gameplay/Interactables/Service/RailService.cs:21-26 | the reset empties an existing instance and leaves a missing one missing |
| Rails.RegisterRail | Assets/Scripts/Gameplay/Interactables/Service/RailService.cs:33-36 | registration fails exactly on a known identity; otherwise it appends and keeps identities unique |
| Rails.RegisterThenRegisteredAgainFails | Assets/Scripts/Gameplay/Interactables/RailService.cs:25-28 | a registered rail is found by identity, and registering it again fails |
| Rails.IsCloseToRail | Assets/Scripts/Gameplay/Interactables/Service/RailService.cs:59-65 | the bound is inclusive: a player exactly at the detection range is close; with an exact length a negative range admits nobody |
| Rails.FirstClose | Assets/Scripts/Gameplay/Interactables/Service/RailService.cs:42-45 | the reference index is the first rail whose refreshed range test passes, or none when no rail passes |
| Rails.TryGetClosestIntersectingRail | Assets/Scripts/Gameplay/Interactables/Service/RailService.cs:39-57 | the first in-range rail decides: found iff its box meets the hitbox, and target iff found. Rails up to it are refreshed and later ones untouched; no rail in range gives false |

## Left out

- `Path.EvaluateDelta` always throws "not implemented" and has no behaviour to model.
- Unity's `float` arithmetic is replaced by exact reals. Rounding in midpoints and reflections is not modelled.
- `normalized` and `magnitude` are the fields of a `Geometry` value, with no properties assumed. The clamp and range lemmas assume an exact length. `BezierPath.MovePointPairKeepsDistance` also assumes that `normalized` returns a unit vector for a non-zero vector.
- The engine's `ClampMagnitude` divides by the length. Its zero-length case is modelled as returning the vector unchanged, which only an inexact length can reach.
- The jump impulse is `Settings.jumpImpulse`, a parameter. The source derives it with a square root of gravity and jump height, which has no exact real counterpart.
- `Platformer.NewController` starts the drag at 0. The rigid body's initial drag is engine state outside the source.
- Physics queries become inputs: the ground overlap count, the camera's axes and the last stick reading, the two wall raycast hits, the rail query's answer, and the speed and vertical velocity that the handlers read. Steering, `Cross`, `LookRotation`, the wall-jump force and the rail alignment are engine geometry.
- The state machine executor (`StateMachine`) is not part of the source. The model's last-wins rule and exit-then-enter order are assumptions about it. The primary-then-sub order is the update loop's (SkateController.cs:84-91). The model also runs both machines' handlers in one tick on one shared `TickInput`, although in the source the two nested coroutines can finish on different physics steps.
- `SetGravity` is not in the platformer controller shown. The model records gravity as a flag beside the body.
- `wallRunDurationInSeconds` and `wallRunJumpHeight` are read by the skate controller but missing from the settings file shown. The duration is a setting here; the jump height only feeds the wall-jump force, which is engine geometry.
- The grinding handler's exit test reads the speed it has just set. Without jump, that speed is the size of the motor speed, assuming the rail's forward direction has unit length. With jump it is the input speed.
- `Locomotion.HandleMovement`: the rail query's side effect of choosing `currentRail` is not modelled; only its answer is.
- Rail alignment, position snapping and debug drawing in the handlers are visual.
- The input service, the debug services, the camera, the player registry, the editor UI and the respawn command are plumbing.
- The older `Player/SkateController.cs` and its settings are an inconsistent earlier variant and are not modelled.
- The spline library's nearest-point search, tangent and up vector are a function each `Rail` carries.
- `Rails.TryGetClosestIntersectingRail`: a dictionary's value order is taken to be insertion order, which holds for a dictionary that has never had a removal.
- Rail boxes use closed intervals for `Contains` and `Intersects`. This is an assumption about the engine's semantics.
- `Rails.IntersectsIffCommonPoint` requires non-negative half-sizes. The engine's boxes computed from geometry have them.
- `BezierPath.DeleteSegment` accepts any index on a valid path. An index whose removed range leaves the list is an `Err`, as `RemoveRange` throws. The editor only ever passes anchor indices.
- `BezierPath.AutoSetAnchorControlPoints` models the "has next neighbour" test as written: `anchorIndex + 3 >= 0`, which always holds. The last anchor of an open path therefore wraps to point 2 as its next neighbour. The effect is only on the control geometry, which stays abstract.

## Findings

| source | as written | input that shows it | evidently intended | confidence | as-written member | corrected member |
|---|---|---|---|---|---|---|
| Assets/Scripts/Gameplay/Interactables/SplineController.cs:116-124 | In auto-tangent mode, `MovePoint` calls `AutoSetAllAffectedControlPoints(i)` for a control index too, treating the control as an anchor. | An open auto-tangent path: drag control 1 to `pos`. The pass at index 1 writes its "previous control" slot, which is anchor 0, so anchor 0 jumps to `pos`. | Moving a control point in auto-tangent mode should leave the anchors alone. | not executed | BezierPath.MovePointAutoDragsFirstAnchor | BezierPath.MovePointGuarded |
| Assets/Scripts/Gameplay/Interactables/SplineController.cs:88-98 | The last-anchor branch is nested under `anchorIndex == 0`. On an open path, anchor 0 does nothing, and the last anchor reaches `RemoveRange(anchorIndex - 1, 3)`, which runs one past the end and throws. | An open path with two segments (7 points): delete anchor 6. An open path with two segments: delete anchor 0, which does nothing. | Anchor 0 removes the first segment, and the last anchor of an open path removes the last segment with `RemoveRange(anchorIndex - 2, 3)`. | not executed | BezierPath.AddThenDeleteLastFails | BezierPath.AddThenDeleteLastRestores |
| Assets/Scripts/Gameplay/Player/Skate/SkateController.cs:107 | Skating is registered with `OnSkateExit` as its enter hook and `OnSkateEnter` as its exit hook, in the opposite order to the other registrations (lines 108, 118, 119). | Walk, toggle skating on (skating starts at the walking speed and friction 5.0), toggle it off: the walker keeps the skating speed and friction 3.0. | Skating's enter hook sets the skating tuning and its exit hook restores the walking tuning. | not executed | Locomotion.SkateRoundTripAsRegistered | Locomotion.SkateRoundTripIntended |
