/**
  Rails: the axis-aligned box around a rail, the rail's nearest-point state, and
  the registry that the skater asks for a rail to land on.

  A box is stored as centre and half-size, as the engine stores it; `Contains` and
  `Intersects` are closed-interval tests on every axis. The spline library's
  nearest-point search is a function each rail carries, and vector lengths come
  from a `Geometry`.
 */
module Rails {
  import opened Vectors
  import opened Results

  // ---------------------------------------------------------------------------
  // Boxes
  // ---------------------------------------------------------------------------

  datatype Bounds = Bounds(center: Vec3, extents: Vec3)

  function Size(b: Bounds): Vec3 {
    Scale(b.extents, 2.0)
  }

  function Min(b: Bounds): Vec3 {
    Sub(b.center, b.extents)
  }

  function Max(b: Bounds): Vec3 {
    Add(b.center, b.extents)
  }

  /** Assigning a size keeps the centre and sets the half-size. */
  function WithSize(b: Bounds, size: Vec3): (r: Bounds)
    ensures Size(r) == size && r.center == b.center
  {
    b.(extents := Scale(size, 0.5))
  }

  /** A closed box test; only a box with non-negative extents can contain a point. */
  function Contains(b: Bounds, p: Vec3): (c: bool)
    ensures c ==> WellSized(b)
  {
    Min(b).x <= p.x <= Max(b).x &&
    Min(b).y <= p.y <= Max(b).y &&
    Min(b).z <= p.z <= Max(b).z
  }

  /** The engine's closed box overlap test, axis by axis. A box meets itself exactly when it is well sized. */
  function Intersects(a: Bounds, b: Bounds): (i: bool)
    ensures a == b ==> (i <==> WellSized(a))
    ensures forall p :: Contains(a, p) && Contains(b, p) ==> i
  {
    Min(a).x <= Max(b).x && Max(a).x >= Min(b).x &&
    Min(a).y <= Max(b).y && Max(a).y >= Min(b).y &&
    Min(a).z <= Max(b).z && Max(a).z >= Min(b).z
  }

  function MaxReal(a: real, b: real): real {
    if a >= b then a else b
  }

  /** The lowest corner that two boxes share, when they share any point. */
  function OverlapCorner(a: Bounds, b: Bounds): Vec3 {
    Vec3(MaxReal(Min(a).x, Min(b).x), MaxReal(Min(a).y, Min(b).y), MaxReal(Min(a).z, Min(b).z))
  }

  /** A box whose half-size is nowhere negative, as every box the engine computes from geometry. */
  predicate WellSized(b: Bounds) {
    b.extents.x >= 0.0 && b.extents.y >= 0.0 && b.extents.z >= 0.0
  }

  /** Two boxes intersect exactly when some point lies in both; the overlap corner is such a point. */
  lemma IntersectsIffCommonPoint(a: Bounds, b: Bounds)
    requires WellSized(a) && WellSized(b)
    ensures Intersects(a, b) <==> Contains(a, OverlapCorner(a, b)) && Contains(b, OverlapCorner(a, b))
    ensures forall p :: Contains(a, p) && Contains(b, p) ==> Intersects(a, b)
  {
  }

  lemma IntersectsSymmetric(a: Bounds, b: Bounds)
    ensures Intersects(a, b) <==> Intersects(b, a)
  {
  }

  /** A point is contained exactly when its zero-size box intersects. */
  lemma ContainsIsPointIntersection(b: Bounds, p: Vec3)
    ensures Contains(b, p) <==> Intersects(b, Bounds(p, Zero))
  {
  }

  // ---------------------------------------------------------------------------
  // One rail
  // ---------------------------------------------------------------------------

  /** The spline library's nearest-point answer in the rail's local frame. */
  datatype SplineHit = SplineHit(point: Vec3, progress: real, distance: real)

  /**
    A rail: its identity, world position, the spline's own bounds, the configured
    size offset, the spline's nearest-point search, and the last search result.
   */
  datatype Rail = Rail(
    id: int,
    position: Vec3,
    splineBounds: Bounds,
    boundsSizeOffset: Vec3,
    nearest: Vec3 -> SplineHit,
    nearestLocal: Vec3,
    railProgress: real,
    distanceFromRail: real)

  /** The nearest point in world space: the stored local point moved by the rail's position. */
  function NearestPointOnRail(r: Rail): (p: Vec3)
    ensures Sub(p, r.position) == r.nearestLocal
  {
    Add(r.nearestLocal, r.position)
  }

  /**
    The rail's box: the spline's box grown by the size offset, moved by the rail's
    position, and lifted by its new half-height, so that it starts at the spline's
    mid-height and reaches up by its full height.
   */
  function RailBounds(r: Rail): (b: Bounds)
    ensures Size(b) == Add(Size(r.splineBounds), r.boundsSizeOffset)
    ensures b.center.x == r.splineBounds.center.x + r.position.x
    ensures b.center.z == r.splineBounds.center.z + r.position.z
    ensures Min(b).y == r.splineBounds.center.y + r.position.y
    ensures Max(b).y == Min(b).y + Size(b).y
  {
    var sized := WithSize(r.splineBounds, Add(Size(r.splineBounds), r.boundsSizeOffset));
    sized.(center := Add(sized.center, Add(r.position, Scale(Up, sized.extents.y))))
  }

  function RailContains(r: Rail, p: Vec3): (c: bool)
    ensures c ==> WellSized(RailBounds(r))
  {
    Contains(RailBounds(r), p)
  }

  /** The query asks the rail about the hitbox; the answer does not depend on which box asks. */
  function RailIntersects(r: Rail, b: Bounds): (c: bool)
    ensures c <==> Intersects(b, RailBounds(r))
  {
    Intersects(RailBounds(r), b)
  }

  /** A point lies in a rail's box exactly when it is within the spline box's reach, grown and lifted. */
  lemma RailContainsIff(r: Rail, p: Vec3)
    ensures var s := Add(Size(r.splineBounds), r.boundsSizeOffset);
            var c := r.splineBounds.center;
            RailContains(r, p) <==>
              c.x + r.position.x - s.x / 2.0 <= p.x <= c.x + r.position.x + s.x / 2.0 &&
              c.y + r.position.y <= p.y <= c.y + r.position.y + s.y &&
              c.z + r.position.z - s.z / 2.0 <= p.z <= c.z + r.position.z + s.z / 2.0
  {
    var b := RailBounds(r);
    var s := Add(Size(r.splineBounds), r.boundsSizeOffset);
    assert b.extents == Scale(s, 0.5);
  }

  /**
    The nearest-point search, run with the player's position relative to the rail.
    Only the distance, the nearest point and the progress change.
   */
  function UpdateController(r: Rail, playerPosition: Vec3): (u: Rail)
    ensures u.(nearestLocal := r.nearestLocal, railProgress := r.railProgress, distanceFromRail := r.distanceFromRail) == r
    ensures var hit := r.nearest(Sub(playerPosition, r.position));
            u.nearestLocal == hit.point && u.railProgress == hit.progress && u.distanceFromRail == hit.distance
  {
    var hit := r.nearest(Sub(playerPosition, r.position));
    r.(nearestLocal := hit.point, railProgress := hit.progress, distanceFromRail := hit.distance)
  }

  /**
    The frames line up: when the search answers a point on the spline with that
    point itself, a player standing there finds the nearest point right under them.
   */
  lemma UpdateControllerFramesAgree(r: Rail, playerPosition: Vec3)
    requires r.nearest(Sub(playerPosition, r.position)).point == Sub(playerPosition, r.position)
    ensures NearestPointOnRail(UpdateController(r, playerPosition)) == playerPosition
  {
  }

  /** Updating twice from the same position is the same as updating once. */
  lemma UpdateControllerIdempotent(r: Rail, playerPosition: Vec3)
    ensures UpdateController(UpdateController(r, playerPosition), playerPosition) == UpdateController(r, playerPosition)
  {
  }

  // ---------------------------------------------------------------------------
  // The registry
  // ---------------------------------------------------------------------------

  /** What the query reads off the skater: its position, its hitbox and its detection range. */
  datatype Player = Player(position: Vec3, hitbox: Bounds, railDetectionRange: real)

  /** The range test: the distance to the rail's nearest point is at most the detection range. */
  function IsCloseToRail(geo: Geometry, r: Rail, player: Player): (b: bool)
    ensures geo.magnitude(Sub(player.position, NearestPointOnRail(r))) == player.railDetectionRange ==> b
    ensures player.railDetectionRange < 0.0 && ExactMagnitude(geo) ==> !b
  {
    geo.magnitude(Sub(player.position, NearestPointOnRail(r))) <= player.railDetectionRange
  }

  /** With an exact length the range test compares squared lengths; the bound itself counts as in range. */
  lemma IsCloseToRailSquared(geo: Geometry, r: Rail, player: Player)
    requires ExactMagnitude(geo) && player.railDetectionRange >= 0.0
    ensures var d := Sub(player.position, NearestPointOnRail(r));
            IsCloseToRail(geo, r, player) <==>
              SqMagnitude(d) <= player.railDetectionRange * player.railDetectionRange
  {
    var d := Sub(player.position, NearestPointOnRail(r));
    var m := geo.magnitude(d);
    assert m >= 0.0 && m * m == SqMagnitude(d);
    SquareMonotone(m, player.railDetectionRange);
  }

  /** On non-negative reals, comparing squares is comparing the numbers. */
  lemma SquareMonotone(m: real, t: real)
    requires m >= 0.0 && t >= 0.0
    ensures m <= t <==> m * m <= t * t
  {
    assert m * m - t * t == (m - t) * (m + t);
    if m > t {
      ProductPositive(m - t, m + t);
    } else {
      ProductNonNegative(t - m, m + t);
      assert t * t - m * m == (t - m) * (m + t);
    }
  }

  lemma ProductPositive(a: real, b: real)
    requires a > 0.0 && b > 0.0
    ensures a * b > 0.0
  {
  }

  lemma ProductNonNegative(a: real, b: real)
    requires a >= 0.0 && b >= 0.0
    ensures a * b >= 0.0
  {
  }

  /** The rails in registration order, keyed by identity. */
  datatype Registry = Registry(rails: seq<Rail>)

  /** Identities are unique: the dictionary rejects a second entry for a key. */
  predicate UniqueIds(reg: Registry) {
    forall i, j :: 0 <= i < j < |reg.rails| ==> reg.rails[i].id != reg.rails[j].id
  }

  function NewRegistry(): (reg: Registry)
    ensures reg.rails == [] && UniqueIds(reg)
  {
    Registry([])
  }

  /** The reset hook empties the registry of the current instance, if there is one. */
  function ManualReset(instance: Option<Registry>): (r: Option<Registry>)
    ensures instance.None? <==> r.None?
    ensures r.Some? ==> r.value.rails == []
  {
    if instance.Some? then Some(NewRegistry()) else None
  }

  predicate IsRegistered(reg: Registry, id: int) {
    exists i :: 0 <= i < |reg.rails| && reg.rails[i].id == id
  }

  datatype RegistryError = DuplicateKey

  /** Adds a rail after the others; a second rail with the same identity is an error. */
  function RegisterRail(reg: Registry, rail: Rail): (r: Result<Registry, RegistryError>)
    ensures r.Err? <==> IsRegistered(reg, rail.id)
    ensures r.Ok? ==> r.value.rails == reg.rails + [rail]
    ensures UniqueIds(reg) && r.Ok? ==> UniqueIds(r.value)
  {
    if exists i :: 0 <= i < |reg.rails| && reg.rails[i].id == rail.id then Err(DuplicateKey)
    else Ok(Registry(reg.rails + [rail]))
  }

  /** A registered rail can be found again by its identity; registering it again fails. */
  lemma RegisterThenRegisteredAgainFails(reg: Registry, rail: Rail)
    requires RegisterRail(reg, rail).Ok?
    ensures IsRegistered(RegisterRail(reg, rail).value, rail.id)
    ensures RegisterRail(RegisterRail(reg, rail).value, rail) == Err(DuplicateKey)
  {
    var r := RegisterRail(reg, rail).value;
    assert r.rails[|reg.rails|] == rail;
  }

  /**
    The reference answer: the index of the first rail whose range test passes once
    its nearest point has been refreshed for this player.
   */
  function FirstClose(geo: Geometry, rails: seq<Rail>, player: Player): (k: Option<nat>)
    ensures k.Some? ==> k.value < |rails| && IsCloseToRail(geo, UpdateController(rails[k.value], player.position), player)
    ensures k.Some? ==> forall j :: 0 <= j < k.value ==> !IsCloseToRail(geo, UpdateController(rails[j], player.position), player)
    ensures k.None? ==> forall j :: 0 <= j < |rails| ==> !IsCloseToRail(geo, UpdateController(rails[j], player.position), player)
  {
    if rails == [] then None
    else if IsCloseToRail(geo, UpdateController(rails[0], player.position), player) then Some(0)
    else
      match FirstClose(geo, rails[1..], player)
      case None => None
      case Some(j) => Some(j + 1)
  }

  /** The first `n` rails of `after` are those of `before`, refreshed for the player. */
  ghost predicate RefreshedUpTo(before: seq<Rail>, after: seq<Rail>, n: int, player: Player)
    requires 0 <= n <= |before| == |after|
  {
    forall j :: 0 <= j < n ==> after[j] == UpdateController(before[j], player.position)
  }

  /** The rails of `after` from index `n` on are untouched. */
  ghost predicate UntouchedFrom(before: seq<Rail>, after: seq<Rail>, n: int)
    requires 0 <= n <= |before| == |after|
  {
    forall j :: n <= j < |before| ==> after[j] == before[j]
  }

  /** The query's answer: whether a rail was found, the rail, and the registry with the visited rails refreshed. */
  datatype QueryResult = QueryResult(found: bool, targetRail: Option<Rail>, registry: Registry)

  /**
    The rail query. Rails are visited in order and each visited rail first
    refreshes its nearest point; the first rail in range decides: it is the answer
    if its box meets the player's hitbox, and otherwise there is no answer. Rails
    after it are not visited. The target is null whenever nothing is found.
   */
  method TryGetClosestIntersectingRail(geo: Geometry, reg: Registry, player: Player) returns (q: QueryResult)
    ensures |q.registry.rails| == |reg.rails|
    ensures q.found <==> q.targetRail.Some?
    ensures FirstClose(geo, reg.rails, player).None? ==>
              !q.found && RefreshedUpTo(reg.rails, q.registry.rails, |reg.rails|, player)
    ensures FirstClose(geo, reg.rails, player).Some? ==>
              var k := FirstClose(geo, reg.rails, player).value;
              var hit := UpdateController(reg.rails[k], player.position);
              (q.found <==> RailIntersects(hit, player.hitbox)) &&
              (q.found ==> q.targetRail == Some(hit)) &&
              RefreshedUpTo(reg.rails, q.registry.rails, k + 1, player) &&
              UntouchedFrom(reg.rails, q.registry.rails, k + 1)
  {
    var rails := reg.rails;
    var i := 0;
    while i < |rails|
      invariant 0 <= i <= |rails| && |rails| == |reg.rails|
      invariant RefreshedUpTo(reg.rails, rails, i, player) && UntouchedFrom(reg.rails, rails, i)
      invariant forall j :: 0 <= j < i ==> !IsCloseToRail(geo, rails[j], player)
    {
      var rail := UpdateController(rails[i], player.position);
      rails := rails[i := rail];
      if IsCloseToRail(geo, rail, player) {
        if RailIntersects(rail, player.hitbox) {
          return QueryResult(true, Some(rail), Registry(rails));
        }
        return QueryResult(false, None, Registry(rails));
      }
      i := i + 1;
    }
    return QueryResult(false, None, Registry(rails));
  }
}
