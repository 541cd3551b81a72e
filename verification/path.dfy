/**
  The editable cubic Bezier path behind a spline object.

  The point list interleaves anchors and control points: anchors sit at the indices
  divisible by three, and between two neighbouring anchors there are two control
  points. An open path of k segments holds 3k+1 points; a closed path of k segments
  holds 3k points and its last segment wraps back to point 0. All indices that may
  leave the list are wrapped through `LoopIndex`.

  Every operation is a pure function from the old path to the new one. The
  operations that re-derive control points in auto-tangent mode take a
  `Geometry`, so the results hold whatever `normalized` and `magnitude` compute.
 */
module BezierPath {
  import opened Vectors
  import opened Results

  datatype Path = Path(points: seq<Vec3>, isClosed: bool, autoSet: bool, origin: Vec3)

  /** The `ArgumentException` that `List.RemoveRange` throws when the range runs past the list's end. */
  datatype PathError = InvalidRange

  // ---------------------------------------------------------------------------
  // Index arithmetic
  // ---------------------------------------------------------------------------

  /** C#'s integer remainder, which truncates toward zero: its sign follows `a`. */
  function CsRem(a: int, b: int): (r: int)
    requires b > 0
    ensures 0 <= a ==> 0 <= r < b
    ensures a < 0 ==> -b < r <= 0
  {
    if a >= 0 then a % b else -((-a) % b)
  }

  /** A non-zero multiple of a positive `n` is at least `n` away from zero. */
  lemma MultipleBounds(d: int, n: int)
    requires n > 0
    ensures d >= 1 ==> d * n >= n
    ensures d <= -1 ==> d * n <= -n
  {
  }

  /** Euclidean division is determined by any quotient/remainder split of `x`. */
  lemma ModUnique(x: int, n: int, q: int, r: int)
    requires n > 0 && 0 <= r < n && x == q * n + r
    ensures x % n == r && x / n == q
  {
    var q' := x / n;
    assert (q' - q) * n == r - x % n;
    MultipleBounds(q' - q, n);
  }

  /** `(i + n) % n` with C#'s remainder: wraps an index one list-length either way. */
  function LoopIndex(n: int, i: int): (r: int)
    requires n > 0
    ensures -n <= i ==> 0 <= r < n
    ensures -n <= i < 0 ==> r == i + n
    ensures 0 <= i < n ==> r == i
    ensures n <= i < 2 * n ==> r == i - n
  {
    var r := CsRem(i + n, n);
    assert -n <= i < 0 ==> r == i + n by {
      if -n <= i < 0 { ModUnique(i + n, n, 0, i + n); }
    }
    assert 0 <= i < n ==> r == i by {
      if 0 <= i < n { ModUnique(i + n, n, 1, i); }
    }
    assert n <= i < 2 * n ==> r == i - n by {
      if n <= i < 2 * n { ModUnique(i + n, n, 2, i - n); }
    }
    r
  }

  /** The count invariant: 3k+1 points when open, 3k points when closed. */
  predicate CountShape(n: int, closed: bool) {
    if closed then n % 3 == 0 else n % 3 == 1
  }

  predicate WellFormed(pts: seq<Vec3>, closed: bool) {
    |pts| >= 4 && CountShape(|pts|, closed)
  }

  predicate Valid(p: Path) {
    WellFormed(p.points, p.isClosed)
  }

  /** Three more points keep the shape of the count and add one segment. */
  lemma CountPlusThree(x: int)
    requires x >= 0
    ensures (x + 3) % 3 == x % 3 && (x + 3) / 3 == x / 3 + 1
  {
    ModUnique(x, 3, x / 3, x % 3);
    ModUnique(x + 3, 3, x / 3 + 1, x % 3);
  }

  /** Closing an open path adds two points, giving a closed count with one more segment. */
  lemma CountPlusTwo(x: int)
    requires x >= 0 && x % 3 == 1
    ensures (x + 2) % 3 == 0 && (x + 2) / 3 == x / 3 + 1
  {
    ModUnique(x, 3, x / 3, 1);
    ModUnique(x + 2, 3, x / 3 + 1, 0);
  }

  function NumSegments(p: Path): (k: nat)
    ensures Valid(p) && p.isClosed ==> |p.points| == 3 * k && k >= 2
    ensures Valid(p) && !p.isClosed ==> |p.points| == 3 * k + 1 && k >= 1
  {
    |p.points| / 3
  }

  /**
    The list index that a write to control slot `c` lands on, or -1 when the write is
    skipped: every such write in the source is guarded by "in range, or the path is
    closed" and wraps its index through `LoopIndex`.
   */
  function Slot(n: int, closed: bool, c: int): (j: int)
    requires n > 0
    ensures -1 <= j < n || !(-n <= c)
  {
    if (0 <= c < n) || closed then LoopIndex(n, c) else -1
  }

  /** The anchors of two equally long point lists agree. */
  predicate AnchorsPreserved(before: seq<Vec3>, after: seq<Vec3>) {
    |before| == |after| &&
    forall j :: 0 <= j < |before| && j % 3 == 0 ==> after[j] == before[j]
  }

  /** Two equally long point lists differ at most at indices `s1` and `s2`. */
  predicate ChangedAtMost(before: seq<Vec3>, after: seq<Vec3>, s1: int, s2: int) {
    |before| == |after| &&
    forall j :: 0 <= j < |before| && j != s1 && j != s2 ==> after[j] == before[j]
  }

  lemma AnchorsPreservedRefl(pts: seq<Vec3>)
    ensures AnchorsPreserved(pts, pts)
  {
  }

  lemma AnchorsPreservedTrans(a: seq<Vec3>, b: seq<Vec3>, c: seq<Vec3>)
    requires AnchorsPreserved(a, b) && AnchorsPreserved(b, c)
    ensures AnchorsPreserved(a, c)
  {
  }

  /** Writing the control slots next to an anchor never lands on an anchor. */
  lemma ControlSlotsAreNotAnchors(n: int, closed: bool, a: int, j: int)
    requires n >= 4 && CountShape(n, closed)
    requires 0 <= a < n && a % 3 == 0
    requires 0 <= j < n && j % 3 == 0
    ensures j != Slot(n, closed, a - 1) && j != Slot(n, closed, a + 1)
  {
    var m := a / 3;
    assert a == 3 * m;
    if a == 0 {
      if closed { ModUnique(n - 1, 3, n / 3 - 1, 2); }
    } else {
      ModUnique(a - 1, 3, m - 1, 2);
    }
    if a + 1 < n {
      ModUnique(a + 1, 3, m, 1);
    } else if closed {
      ModUnique(a, 3, n / 3 - 1, 2);
    }
  }

  /** Wrapping an anchor index of a well-formed list gives an anchor index. */
  lemma LoopIndexOfAnchor(n: int, closed: bool, c: int)
    requires n >= 4 && CountShape(n, closed)
    requires -n <= c < 2 * n && c % 3 == 0 && ((0 <= c < n) || closed)
    ensures LoopIndex(n, c) % 3 == 0
  {
    var m := c / 3;
    assert c == 3 * m;
    if c < 0 {
      ModUnique(c + n, 3, m + n / 3, 0);
    } else if c >= n {
      ModUnique(c - n, 3, m - n / 3, 0);
    }
  }

  // ---------------------------------------------------------------------------
  // Construction and queries
  // ---------------------------------------------------------------------------

  /**
    The default path around `center`: one open segment along the z axis, each
    control point halfway between the centre and its anchor, auto-tangent off.
   */
  function NewPath(center: Vec3): (p: Path)
    ensures Valid(p) && !p.isClosed && !p.autoSet
    ensures |p.points| == 4 && NumSegments(p) == 1
    ensures p.origin == center
    ensures p.points[0] == Add(center, Forward) && p.points[3] == Add(center, Back)
    ensures p.points[1] == Midpoint(center, p.points[0])
    ensures p.points[2] == Midpoint(center, p.points[3])
  {
    Path([Add(center, Forward),
          Add(Add(center, Forward), Scale(Back, 0.5)),
          Add(Add(center, Back), Scale(Forward, 0.5)),
          Add(center, Back)],
         false, false, center)
  }

  /**
    The four points of segment `i`. Every read is in range, and the last segment of
    a closed path ends at point 0.
   */
  function GetPointsInSegment(p: Path, i: int): (r: seq<Vec3>)
    requires Valid(p) && 0 <= i < NumSegments(p)
    ensures |r| == 4
    ensures r[0] == p.points[3 * i] && r[1] == p.points[3 * i + 1] && r[2] == p.points[3 * i + 2]
    ensures !p.isClosed || i < NumSegments(p) - 1 ==> r[3] == p.points[3 * i + 3]
    ensures p.isClosed && i == NumSegments(p) - 1 ==> r[3] == p.points[0]
  {
    var pts := p.points;
    [pts[i * 3], pts[i * 3 + 1], pts[i * 3 + 2], pts[LoopIndex(|pts|, i * 3 + 3)]]
  }

  // ---------------------------------------------------------------------------
  // Control-point derivation (auto-tangent mode)
  // ---------------------------------------------------------------------------

  /** Where the two controls beside an anchor go: a direction and two signed distances. */
  datatype Placement = Placement(dir: Vec3, dist0: real, dist1: real)

  /**
    The direction is the normalised difference of the directions towards the previous
    and the next anchor; the distances are those to the two anchors, the second negated.
    The guard on the next neighbour is `a + 3 >= 0 || closed`, which always holds, so
    on an open path the last anchor's "next neighbour" wraps around to point 2.
   */
  function ControlPlacement(pts: seq<Vec3>, closed: bool, geo: Geometry, a: int): (pl: Placement)
    requires 3 <= |pts| && 0 <= a < |pts|
    ensures a - 3 >= 0 || closed ==>
              pl.dist0 == geo.magnitude(Sub(pts[LoopIndex(|pts|, a - 3)], pts[a]))
    ensures !closed && a < 3 ==> pl.dist0 == 0.0
    ensures pl.dist1 == -geo.magnitude(Sub(pts[LoopIndex(|pts|, a + 3)], pts[a]))
  {
    var n := |pts|;
    var anchorPos := pts[a];
    var hasPrev := a - 3 >= 0 || closed;
    var hasNext := a + 3 >= 0 || closed;
    var prevOffset := if hasPrev then Sub(pts[LoopIndex(n, a - 3)], anchorPos) else Zero;
    var nextOffset := if hasNext then Sub(pts[LoopIndex(n, a + 3)], anchorPos) else Zero;
    var dir0 := if hasPrev then Add(Zero, geo.normalized(prevOffset)) else Zero;
    var dist0 := if hasPrev then geo.magnitude(prevOffset) else 0.0;
    var dir1 := if hasNext then Sub(dir0, geo.normalized(nextOffset)) else dir0;
    var dist1 := if hasNext then -geo.magnitude(nextOffset) else 0.0;
    Placement(geo.normalized(dir1), dist0, dist1)
  }
  /** With an exact length, the control before an anchor sits at a non-negative distance and the one after at a non-positive one. */
  lemma ControlDistancesSigned(pts: seq<Vec3>, closed: bool, geo: Geometry, a: int)
    requires 3 <= |pts| && 0 <= a < |pts| && ExactMagnitude(geo)
    ensures var pl := ControlPlacement(pts, closed, geo, a);
            pl.dist0 >= 0.0 && pl.dist1 <= 0.0
  {
    hide ControlPlacement;
    var pl := ControlPlacement(pts, closed, geo, a);
    if a - 3 >= 0 || closed {
      var prev := Sub(pts[LoopIndex(|pts|, a - 3)], pts[a]);
      assert pl.dist0 == geo.magnitude(prev);
    }
    var next := Sub(pts[LoopIndex(|pts|, a + 3)], pts[a]);
    assert pl.dist1 == -geo.magnitude(next);
  }


  /**
    Re-derives the two control points beside anchor `a`, each at half its signed
    distance along the common direction from `ControlPlacement`. Only the slots
    `a - 1` and `a + 1` are written, each under its in-range-or-closed guard; the
    anchor itself is never written.
   */
  function AutoSetAnchorControlPoints(pts: seq<Vec3>, closed: bool, geo: Geometry, a: int): (r: seq<Vec3>)
    requires 3 <= |pts| && 0 <= a < |pts|
    ensures |r| == |pts|
    ensures r[a] == pts[a]
    ensures ChangedAtMost(pts, r, Slot(|pts|, closed, a - 1), Slot(|pts|, closed, a + 1))
  {
    var n := |pts|;
    var anchorPos := pts[a];
    var pl := ControlPlacement(pts, closed, geo, a);
    var r0 := if (0 <= a - 1 < n) || closed
              then pts[LoopIndex(n, a - 1) := Add(anchorPos, Scale(Scale(pl.dir, pl.dist0), 0.5))]
              else pts;
    if (0 <= a + 1 < n) || closed
    then r0[LoopIndex(n, a + 1) := Add(anchorPos, Scale(Scale(pl.dir, pl.dist1), 0.5))]
    else r0
  }

  /**
    On an open path, the first and last control points are placed halfway between
    their anchor and the neighbouring control point; a closed path is left as is.
    The first write reads the old point 2. With one segment point 2 is also the last
    control, which the second write then moves, reading the first one's result.
   */
  function AutoSetStartAndEndControls(pts: seq<Vec3>, closed: bool): (r: seq<Vec3>)
    requires 3 <= |pts|
    ensures |r| == |pts|
    ensures closed ==> r == pts
    ensures ChangedAtMost(pts, r, 1, |pts| - 2)
    ensures !closed ==> r[|pts| - 2] == Midpoint(r[|pts| - 1], r[|pts| - 3])
    ensures !closed && |pts| >= 4 ==> r[1] == Midpoint(pts[0], pts[2])
    ensures !closed && |pts| >= 5 ==> r[1] == Midpoint(r[0], r[2])
  {
    if closed then pts
    else
      var r1 := pts[1 := Midpoint(pts[0], pts[2])];
      r1[|pts| - 2 := Midpoint(r1[|pts| - 1], r1[|pts| - 3])]
  }

  /** Re-deriving the controls of an anchor of a well-formed list moves no anchor. */
  lemma AutoSetAnchorKeepsAnchors(pts: seq<Vec3>, closed: bool, geo: Geometry, a: int)
    requires WellFormed(pts, closed) && 0 <= a < |pts| && a % 3 == 0
    ensures AnchorsPreserved(pts, AutoSetAnchorControlPoints(pts, closed, geo, a))
  {
    hide AutoSetAnchorControlPoints;
    var r := AutoSetAnchorControlPoints(pts, closed, geo, a);
    forall j | 0 <= j < |pts| && j % 3 == 0
      ensures r[j] == pts[j]
    {
      ControlSlotsAreNotAnchors(|pts|, closed, a, j);
    }
  }

  /** The end controls of an open path are never anchors. */
  lemma StartAndEndKeepsAnchors(pts: seq<Vec3>, closed: bool)
    requires WellFormed(pts, closed)
    ensures AnchorsPreserved(pts, AutoSetStartAndEndControls(pts, closed))
  {
    hide AutoSetStartAndEndControls;
  }

  /**
    One pass of the loop in the affected-anchor update: re-derives the controls of
    the anchor at `c` when `c` is in range or the path is closed, wrapping `c`.
   */
  function AutoSetIfPresent(pts: seq<Vec3>, closed: bool, geo: Geometry, c: int): (r: seq<Vec3>)
    requires 3 <= |pts| && -|pts| <= c < 2 * |pts|
    ensures |r| == |pts|
  {
    hide AutoSetAnchorControlPoints;
    if (0 <= c < |pts|) || closed then AutoSetAnchorControlPoints(pts, closed, geo, LoopIndex(|pts|, c)) else pts
  }

  lemma AutoSetIfPresentKeepsAnchors(pts: seq<Vec3>, closed: bool, geo: Geometry, c: int)
    requires WellFormed(pts, closed) && -|pts| <= c < 2 * |pts| && c % 3 == 0
    ensures AnchorsPreserved(pts, AutoSetIfPresent(pts, closed, geo, c))
  {
    hide AutoSetAnchorControlPoints;
    if (0 <= c < |pts|) || closed {
      LoopIndexOfAnchor(|pts|, closed, c);
      AutoSetAnchorKeepsAnchors(pts, closed, geo, LoopIndex(|pts|, c));
    }
  }

  /**
    Re-derives the controls around the anchors at `u - 3`, `u` and `u + 3` (those in
    range, or all three wrapped on a closed path), then the open path's end controls.
   */
  function AutoSetAllAffectedControlPoints(pts: seq<Vec3>, closed: bool, geo: Geometry, u: int): (r: seq<Vec3>)
    requires 3 <= |pts| && 0 <= u < |pts|
    ensures |r| == |pts|
  {
    hide AutoSetIfPresent;
    hide AutoSetStartAndEndControls;
    var r1 := AutoSetIfPresent(pts, closed, geo, u - 3);
    var r2 := AutoSetIfPresent(r1, closed, geo, u);
    var r3 := AutoSetIfPresent(r2, closed, geo, u + 3);
    AutoSetStartAndEndControls(r3, closed)
  }

  /**
    When `u` is an anchor of a well-formed list, re-deriving the controls around it
    moves no anchor.
   */
  lemma AllAffectedKeepsAnchors(pts: seq<Vec3>, closed: bool, geo: Geometry, u: int)
    requires WellFormed(pts, closed) && 0 <= u < |pts| && u % 3 == 0
    ensures AnchorsPreserved(pts, AutoSetAllAffectedControlPoints(pts, closed, geo, u))
  {
    hide AutoSetIfPresent;
    hide AutoSetStartAndEndControls;
    hide AnchorsPreserved;
    var r1 := AutoSetIfPresent(pts, closed, geo, u - 3);
    AutoSetIfPresentKeepsAnchors(pts, closed, geo, u - 3);
    var r2 := AutoSetIfPresent(r1, closed, geo, u);
    AutoSetIfPresentKeepsAnchors(r1, closed, geo, u);
    var r3 := AutoSetIfPresent(r2, closed, geo, u + 3);
    AutoSetIfPresentKeepsAnchors(r2, closed, geo, u + 3);
    StartAndEndKeepsAnchors(r3, closed);
    AnchorsPreservedTrans(pts, r1, r2);
    AnchorsPreservedTrans(pts, r2, r3);
    AnchorsPreservedTrans(pts, r3, AutoSetStartAndEndControls(r3, closed));
  }

  /** Re-derives the controls of every anchor from index `i` on, in index order. */
  function AutoSetAnchorsFrom(pts: seq<Vec3>, closed: bool, geo: Geometry, i: nat): (r: seq<Vec3>)
    requires 3 <= |pts|
    ensures |r| == |pts|
    ensures WellFormed(pts, closed) && i % 3 == 0 ==> AnchorsPreserved(pts, r)
    decreases |pts| - i
  {
    hide AutoSetAnchorControlPoints;
    hide AnchorsPreserved;
    if i >= |pts| then
      AnchorsPreservedRefl(pts);
      pts
    else
      var next := AutoSetAnchorControlPoints(pts, closed, geo, i);
      var r := AutoSetAnchorsFrom(next, closed, geo, i + 3);
      assert WellFormed(pts, closed) && i % 3 == 0 ==> AnchorsPreserved(pts, r) by {
        if WellFormed(pts, closed) && i % 3 == 0 {
          AutoSetAnchorKeepsAnchors(pts, closed, geo, i);
          AnchorsPreservedTrans(pts, next, r);
        }
      }
      r
  }

  /** Re-derives every anchor's controls, then the open path's end controls. */
  function AutoSetAllControlPoints(pts: seq<Vec3>, closed: bool, geo: Geometry): (r: seq<Vec3>)
    requires 3 <= |pts|
    ensures |r| == |pts|
    ensures WellFormed(pts, closed) ==> AnchorsPreserved(pts, r)
  {
    hide AutoSetStartAndEndControls;
    hide AnchorsPreserved;
    var mid := AutoSetAnchorsFrom(pts, closed, geo, 0);
    var r := AutoSetStartAndEndControls(mid, closed);
    assert WellFormed(pts, closed) ==> AnchorsPreserved(pts, r) by {
      if WellFormed(pts, closed) {
        StartAndEndKeepsAnchors(mid, closed);
        AnchorsPreservedTrans(pts, mid, r);
      }
    }
    r
  }

  // ---------------------------------------------------------------------------
  // Editing operations
  // ---------------------------------------------------------------------------

  /**
    The `AutoSetControlPoints` setter: assigning the current value changes nothing;
    switching auto-tangent on re-derives every control point but moves no anchor.
   */
  function SetAutoSetControlPoints(p: Path, geo: Geometry, value: bool): (r: Path)
    requires Valid(p)
    ensures Valid(r) && r.autoSet == value
    ensures r.isClosed == p.isClosed && r.origin == p.origin
    ensures value == p.autoSet ==> r == p
    ensures !value ==> r.points == p.points
    ensures AnchorsPreserved(p.points, r.points)
  {
    hide AutoSetAllControlPoints;
    if p.autoSet != value then
      var q := p.(autoSet := value);
      if value then q.(points := AutoSetAllControlPoints(q.points, q.isClosed, geo)) else q
    else p
  }

  /** The three points `AddSegment` appends before any re-derivation. */
  function AppendSegmentPoints(pts: seq<Vec3>, anchorPos: Vec3): (r: seq<Vec3>)
    requires |pts| >= 2
    ensures |r| == |pts| + 3 && r[..|pts|] == pts
    ensures r[|pts| + 2] == anchorPos
    ensures r[|pts| - 1] == Midpoint(r[|pts| - 2], r[|pts|])
    ensures r[|pts| + 1] == Midpoint(r[|pts|], anchorPos)
  {
    var n := |pts|;
    var c1 := Reflect(pts[n - 1], pts[n - 2]);
    pts + [c1, Midpoint(c1, anchorPos), anchorPos]
  }

  /**
    Appends a segment ending at `anchorPos` to an open path (the editor offers it on
    open paths only). The new first control mirrors the old last control across the
    old last anchor, and the new second control sits halfway between the first one
    and the new anchor. In auto-tangent mode the controls around the new anchor are
    re-derived.
   */
  function AddSegment(p: Path, geo: Geometry, anchorPos: Vec3): (r: Path)
    requires Valid(p) && !p.isClosed
    ensures Valid(r) && !r.isClosed && r.autoSet == p.autoSet && r.origin == p.origin
    ensures |r.points| == |p.points| + 3
    ensures NumSegments(r) == NumSegments(p) + 1
    ensures !p.autoSet ==> r.points == AppendSegmentPoints(p.points, anchorPos)
  {
    hide AutoSetAllAffectedControlPoints;
    hide AppendSegmentPoints;
    var pts' := AppendSegmentPoints(p.points, anchorPos);
    CountPlusThree(|p.points|);
    ModUnique(|p.points| + 2, 3, |p.points| / 3 + 1, 0);
    p.(points := if p.autoSet then AutoSetAllAffectedControlPoints(pts', false, geo, |p.points| + 2) else pts')
  }

  /**
    In either mode, adding a segment ends the path at the new anchor and moves none
    of the old anchors.
   */
  lemma AddSegmentKeepsAnchors(p: Path, geo: Geometry, anchorPos: Vec3)
    requires Valid(p) && !p.isClosed
    ensures var r := AddSegment(p, geo, anchorPos);
            r.points[|r.points| - 1] == anchorPos &&
            forall j :: 0 <= j < |p.points| && j % 3 == 0 ==> r.points[j] == p.points[j]
  {
    hide AutoSetAllAffectedControlPoints;
    hide AppendSegmentPoints;
    var n := |p.points|;
    var p3 := AppendSegmentPoints(p.points, anchorPos);
    CountPlusThree(n);
    ModUnique(n + 2, 3, n / 3 + 1, 0);
    var r := AddSegment(p, geo, anchorPos);
    assert r.points == if p.autoSet then AutoSetAllAffectedControlPoints(p3, false, geo, n + 2) else p3;
    if p.autoSet {
      AllAffectedKeepsAnchors(p3, false, geo, n + 2);
    }
    assert AnchorsPreserved(p3, r.points);
    forall j | 0 <= j < n
      ensures p3[j] == p.points[j]
    {
      assert p3[..n][j] == p3[j];
    }
  }

  /** The points `SplitSegment` inserts before any re-derivation: a new anchor flanked by two zeros. */
  function InsertSegmentPoints(pts: seq<Vec3>, k: int, anchorPos: Vec3): (r: seq<Vec3>)
    requires 0 <= k <= |pts|
    ensures |r| == |pts| + 3
    ensures r[..k] == pts[..k] && r[k + 3..] == pts[k..]
    ensures r[k + 1] == anchorPos
  {
    pts[..k] + [Zero, anchorPos, Zero] + pts[k..]
  }

  /**
    Splits segment `s` by inserting a new anchor, with two fresh control points,
    at index 3s+3; in auto-tangent mode the controls around the new anchor are
    re-derived, otherwise only the two new controls are.
   */
  function SplitSegment(p: Path, geo: Geometry, anchorPos: Vec3, s: int): (r: Path)
    requires Valid(p) && 0 <= s < NumSegments(p)
    ensures Valid(r) && r.isClosed == p.isClosed && r.autoSet == p.autoSet && r.origin == p.origin
    ensures |r.points| == |p.points| + 3
    ensures NumSegments(r) == NumSegments(p) + 1
  {
    hide AutoSetAllAffectedControlPoints;
    hide AutoSetAnchorControlPoints;
    hide InsertSegmentPoints;
    var inserted := InsertSegmentPoints(p.points, 3 * s + 2, anchorPos);
    CountPlusThree(|p.points|);
    var pts' := if p.autoSet then AutoSetAllAffectedControlPoints(inserted, p.isClosed, geo, 3 * s + 3)
                else AutoSetAnchorControlPoints(inserted, p.isClosed, geo, 3 * s + 3);
    p.(points := pts')
  }

  /**
    In either mode, a split puts the new anchor at index 3s+3 and every old anchor
    survives: those before the new segment at their index, the others three places
    further on.
   */
  lemma SplitSegmentKeepsAnchors(p: Path, geo: Geometry, anchorPos: Vec3, s: int)
    requires Valid(p) && 0 <= s < NumSegments(p)
    ensures var r := SplitSegment(p, geo, anchorPos, s);
            r.points[3 * s + 3] == anchorPos &&
            (forall j :: 0 <= j < 3 * s + 2 && j % 3 == 0 ==> r.points[j] == p.points[j]) &&
            (forall j :: 3 * s + 2 <= j < |p.points| && j % 3 == 0 ==> r.points[j + 3] == p.points[j])
  {
    hide AutoSetAllAffectedControlPoints;
    hide AutoSetAnchorControlPoints;
    hide InsertSegmentPoints;
    var k := 3 * s + 2;
    var inserted := InsertSegmentPoints(p.points, k, anchorPos);
    CountPlusThree(|p.points|);
    ModUnique(k, 3, s, 2);
    ModUnique(k + 1, 3, s + 1, 0);
    var r := SplitSegment(p, geo, anchorPos, s);
    assert r.points == if p.autoSet then AutoSetAllAffectedControlPoints(inserted, p.isClosed, geo, k + 1)
                       else AutoSetAnchorControlPoints(inserted, p.isClosed, geo, k + 1);
    if p.autoSet {
      AllAffectedKeepsAnchors(inserted, p.isClosed, geo, k + 1);
    } else {
      AutoSetAnchorKeepsAnchors(inserted, p.isClosed, geo, k + 1);
    }
    InsertedAnchorsShift(p.points, k, anchorPos, r.points);
  }

  /**
    Any list with the anchors of `InsertSegmentPoints(pts, k, anchorPos)` holds the
    new anchor at k+1, the old anchors before `k` in place and the rest three later.
   */
  lemma InsertedAnchorsShift(pts: seq<Vec3>, k: int, anchorPos: Vec3, r: seq<Vec3>)
    requires 0 <= k <= |pts| && k % 3 == 2
    requires AnchorsPreserved(InsertSegmentPoints(pts, k, anchorPos), r)
    ensures r[k + 1] == anchorPos
    ensures forall j :: 0 <= j < k && j % 3 == 0 ==> r[j] == pts[j]
    ensures forall j :: k <= j < |pts| && j % 3 == 0 ==> r[j + 3] == pts[j]
  {
    var inserted := InsertSegmentPoints(pts, k, anchorPos);
    forall j | 0 <= j < k
      ensures inserted[j] == pts[j]
    {
      assert inserted[..k][j] == pts[..k][j];
    }
    forall j | k <= j < |pts|
      ensures inserted[j + 3] == pts[j]
    {
      assert inserted[k + 3..][j - k] == pts[k..][j - k];
    }
  }

  /**
    Without auto-tangent, a split keeps the old points in order: everything before
    index 3s+2 stays put, everything from there on moves three places, and only the
    three inserted points are new.
   */
  lemma SplitSegmentKeepsOrder(p: Path, geo: Geometry, anchorPos: Vec3, s: int)
    requires Valid(p) && 0 <= s < NumSegments(p) && !p.autoSet
    ensures var r := SplitSegment(p, geo, anchorPos, s);
            r.points[..3 * s + 2] == p.points[..3 * s + 2] &&
            r.points[3 * s + 5..] == p.points[3 * s + 2..]
  {
    hide AutoSetAnchorControlPoints;
    hide InsertSegmentPoints;
    var pts := p.points;
    var k := 3 * s + 2;
    var inserted := InsertSegmentPoints(pts, k, anchorPos);
    var r := SplitSegment(p, geo, anchorPos, s);
    assert r.points == AutoSetAnchorControlPoints(inserted, p.isClosed, geo, k + 1);
    assert Slot(|inserted|, p.isClosed, k) == k;
    assert Slot(|inserted|, p.isClosed, k + 2) == k + 2;
    assert r.points[..k] == inserted[..k];
    assert r.points[k + 3..] == inserted[k + 3..];
  }

  /** Whether deleting a segment leaves at least one segment on an open path and two on a closed one. */
  function HasSegmentToSpare(p: Path): (b: bool)
    ensures Valid(p) && b ==> |p.points| >= (if p.isClosed then 9 else 7)
    ensures Valid(p) && !b ==> |p.points| == (if p.isClosed then 6 else 4)
  {
    NumSegments(p) > 2 || (!p.isClosed && NumSegments(p) > 1)
  }

  /**
    Deletes the segment at anchor `anchorIndex`, as written: nothing happens unless
    the path has a segment to spare. On an open path anchor 0 is also left alone,
    because the end-anchor branch is nested under `anchorIndex == 0` and so never
    runs. Any other index removes the three points centred on it with `RemoveRange`,
    which throws when they run past either end of the list: for an anchor, exactly
    when it is the last anchor of an open path.
   */
  function DeleteSegment(p: Path, anchorIndex: int): (r: Result<Path, PathError>)
    requires Valid(p)
    ensures !HasSegmentToSpare(p) ==> r == Ok(p)
    ensures !p.isClosed && anchorIndex == 0 ==> r == Ok(p)
    ensures r.Err? <==> HasSegmentToSpare(p) && anchorIndex != 0 && !(1 <= anchorIndex <= |p.points| - 2)
    ensures r.Ok? ==> Valid(r.value) && r.value.isClosed == p.isClosed && r.value.autoSet == p.autoSet
    ensures r.Ok? ==> r.value.origin == p.origin
    ensures HasSegmentToSpare(p) && (p.isClosed || anchorIndex != 0) && r.Ok? ==>
              |r.value.points| == |p.points| - 3 && NumSegments(r.value) == NumSegments(p) - 1 &&
              NumSegments(r.value) >= (if p.isClosed then 2 else 1)
    ensures HasSegmentToSpare(p) && anchorIndex != 0 && r.Ok? ==>
              r.value.points[..anchorIndex - 1] == p.points[..anchorIndex - 1] &&
              r.value.points[anchorIndex - 1..] == p.points[anchorIndex + 2..]
    ensures HasSegmentToSpare(p) && p.isClosed && anchorIndex == 0 ==>
              r.Ok? &&
              r.value.points[..|p.points| - 4] == p.points[3..|p.points| - 1] &&
              r.value.points[|p.points| - 4] == p.points[2]
  {
    var pts := p.points;
    var n := |pts|;
    if HasSegmentToSpare(p) then
      CountPlusThree(n - 3);
      if anchorIndex == 0 then
        if p.isClosed then
          var r := pts[n - 1 := pts[2]][3..];
          assert r[..n - 4] == pts[3..n - 1];
          Ok(p.(points := r))
        else
          // the branch for the last anchor of an open path is only reached
          // when anchorIndex == 0, which is never the last index
          Ok(p)
      else if 0 <= anchorIndex - 1 && anchorIndex - 1 + 3 <= n then
        Ok(p.(points := pts[..anchorIndex - 1] + pts[anchorIndex + 2..]))
      else
        Err(InvalidRange)
    else
      Ok(p)
  }

  /**
    Among anchors, deletion fails exactly at the last anchor of an open path that
    has a segment to spare.
   */
  lemma DeleteSegmentFailsOnlyAtOpenEnd(p: Path, a: int)
    requires Valid(p) && 0 <= a < |p.points| && a % 3 == 0
    ensures DeleteSegment(p, a).Err? <==> !p.isClosed && NumSegments(p) > 1 && a == |p.points| - 1
  {
  }

  /**
    Deleting an anchor other than the first, on a path with segments to spare,
    removes exactly that anchor and its two flanking control points.
   */
  lemma DeleteInnerAnchor(p: Path, a: int)
    requires Valid(p) && 0 < a < |p.points| - 1 && HasSegmentToSpare(p)
    ensures DeleteSegment(p, a) == Ok(p.(points := p.points[..a - 1] + p.points[a + 2..]))
  {
    hide DeleteSegment;
    var r := DeleteSegment(p, a);
    var e := r.value.points;
    assert e == e[..a - 1] + e[a - 1..];
  }

  /**
    Segment deletion with the end-anchor branch where it evidently belongs: anchor 0
    removes the first segment (on a closed path after carrying its first control
    over to the wrap-around slot), and the last anchor of an open path removes the
    last segment together with the control before it.
   */
  function DeleteSegmentFixed(p: Path, anchorIndex: int): (r: Path)
    requires Valid(p) && 0 <= anchorIndex < |p.points| && anchorIndex % 3 == 0
    ensures Valid(r) && r.isClosed == p.isClosed && r.autoSet == p.autoSet && r.origin == p.origin
    ensures !HasSegmentToSpare(p) ==> r == p
    ensures HasSegmentToSpare(p) ==>
              |r.points| == |p.points| - 3 && NumSegments(r) == NumSegments(p) - 1
    ensures HasSegmentToSpare(p) && !p.isClosed && anchorIndex == 0 ==> r.points == p.points[3..]
    ensures HasSegmentToSpare(p) && !p.isClosed && anchorIndex == |p.points| - 1 ==>
              r.points == p.points[..|p.points| - 3]
    ensures HasSegmentToSpare(p) && 0 < anchorIndex < |p.points| - 1 ==>
              r.points == p.points[..anchorIndex - 1] + p.points[anchorIndex + 2..]
  {
    var pts := p.points;
    var n := |pts|;
    if HasSegmentToSpare(p) then
      CountPlusThree(n - 3);
      if anchorIndex == 0 then
        p.(points := (if p.isClosed then pts[n - 1 := pts[2]] else pts)[3..])
      else if anchorIndex == n - 1 && !p.isClosed then
        p.(points := pts[..anchorIndex - 2] + pts[anchorIndex + 1..])
      else
        p.(points := pts[..anchorIndex - 1] + pts[anchorIndex + 2..])
    else
      p
  }

  /** The control point paired with control `i` across their shared anchor. */
  function PairedControl(i: int): (c: int)
    requires i % 3 != 0
    ensures c % 3 != 0 && c != i
    ensures OwningAnchor(c) == OwningAnchor(i)
  {
    if (i + 1) % 3 == 0 then i + 2 else i - 2
  }

  /** The anchor that control `i` belongs to. */
  function OwningAnchor(i: int): (a: int)
    requires i % 3 != 0
    ensures a % 3 == 0 && (a == i + 1 || a == i - 1)
  {
    if (i + 1) % 3 == 0 then i + 1 else i - 1
  }

  /**
    Moves point `i` to `pos`, as written. Without auto-tangent: an anchor drags its
    two neighbours (each in range, or wrapped on a closed path) by the same offset;
    a control point re-places only its paired control, on the far side of the shared
    anchor at its old distance (`MovePointControlMovesOnlyItsPair` for the placement,
    `MovePointPairKeepsDistance` for the distance). With auto-tangent the controls around index `i` are
    re-derived, treating `i` as an anchor whatever it is.
   */
  function MovePoint(p: Path, geo: Geometry, i: int, pos: Vec3): (r: Path)
    requires Valid(p) && 0 <= i < |p.points|
    ensures Valid(r) && r.isClosed == p.isClosed && r.autoSet == p.autoSet && r.origin == p.origin
    ensures |r.points| == |p.points|
  {
    hide AutoSetAllAffectedControlPoints;
    var pts := p.points;
    var n := |pts|;
    var deltaMove := Sub(pos, pts[i]);
    var moved := pts[i := pos];
    if p.autoSet then
      p.(points := AutoSetAllAffectedControlPoints(moved, p.isClosed, geo, i))
    else if i % 3 == 0 then
      var r1 := if i + 1 < n || p.isClosed
                then moved[LoopIndex(n, i + 1) := Add(moved[LoopIndex(n, i + 1)], deltaMove)]
                else moved;
      var r2 := if i - 1 >= 0 || p.isClosed
                then r1[LoopIndex(n, i - 1) := Add(r1[LoopIndex(n, i - 1)], deltaMove)]
                else r1;
      p.(points := r2)
    else
      var c := PairedControl(i);
      var a := OwningAnchor(i);
      if (c >= 0 && c < n) || p.isClosed then
        var anchorPos := moved[LoopIndex(n, a)];
        var dist := geo.magnitude(Sub(anchorPos, moved[LoopIndex(n, c)]));
        var dir := geo.normalized(Sub(anchorPos, pos));
        p.(points := moved[LoopIndex(n, c) := Add(anchorPos, Scale(dir, dist))])
      else
        p.(points := moved)
  }

  /**
    Without auto-tangent, moving an anchor puts it at `pos` and shifts the control
    on each side of it (when there is one) by the same offset; nothing else changes.
   */
  lemma MovePointAnchorDragsNeighbours(p: Path, geo: Geometry, i: int, pos: Vec3)
    requires Valid(p) && !p.autoSet && 0 <= i < |p.points| && i % 3 == 0
    ensures var r := MovePoint(p, geo, i, pos);
            var n := |p.points|;
            r.points[i] == pos &&
            forall j :: 0 <= j < n && j != i ==>
              r.points[j] == (if j == Slot(n, p.isClosed, i + 1) || j == Slot(n, p.isClosed, i - 1)
                              then Add(p.points[j], Sub(pos, p.points[i]))
                              else p.points[j])
  {
  }

  /**
    Without auto-tangent, moving a control point puts it at `pos` and changes at most
    its paired control; in particular no anchor moves.
   */
  lemma MovePointControlMovesOnlyItsPair(p: Path, geo: Geometry, i: int, pos: Vec3)
    requires Valid(p) && !p.autoSet && 0 <= i < |p.points| && i % 3 != 0
    ensures var r := MovePoint(p, geo, i, pos);
            var n := |p.points|;
            r.points[i] == pos &&
            ChangedAtMost(p.points, r.points, i, Slot(n, p.isClosed, PairedControl(i))) &&
            AnchorsPreserved(p.points, r.points)
    ensures var r := MovePoint(p, geo, i, pos);
            var n := |p.points|;
            var c := PairedControl(i);
            var j := LoopIndex(n, c);
            var a := p.points[LoopIndex(n, OwningAnchor(i))];
            (0 <= c < n || p.isClosed) ==>
              r.points[j] == Add(a, Scale(geo.normalized(Sub(a, pos)), geo.magnitude(Sub(a, p.points[j]))))
  {
    var n := |p.points|;
    var c := PairedControl(i);
    if (c >= 0 && c < n) || p.isClosed {
      assert LoopIndex(n, c) % 3 != 0;
      assert LoopIndex(n, OwningAnchor(i)) % 3 == 0;
    }
  }

  /**
    With exact lengths and unit directions, the re-placed paired control keeps its
    old distance from the shared anchor, unless the moved control sits on the anchor
    (the direction is then the zero vector).
   */
  lemma MovePointPairKeepsDistance(p: Path, geo: Geometry, i: int, pos: Vec3)
    requires Valid(p) && !p.autoSet && 0 <= i < |p.points| && i % 3 != 0
    requires ExactMagnitude(geo) && UnitNormalized(geo)
    ensures var r := MovePoint(p, geo, i, pos);
            var n := |p.points|;
            var c := PairedControl(i);
            var j := LoopIndex(n, c);
            var a := p.points[LoopIndex(n, OwningAnchor(i))];
            (0 <= c < n || p.isClosed) && SqMagnitude(Sub(a, pos)) != 0.0 ==>
              SqMagnitude(Sub(r.points[j], a)) == SqMagnitude(Sub(a, p.points[j]))
  {
    var n := |p.points|;
    var c := PairedControl(i);
    if (0 <= c < n || p.isClosed) {
      var j := LoopIndex(n, c);
      var a := p.points[LoopIndex(n, OwningAnchor(i))];
      if SqMagnitude(Sub(a, pos)) != 0.0 {
        MovePointControlMovesOnlyItsPair(p, geo, i, pos);
        var d := geo.normalized(Sub(a, pos));
        var m := geo.magnitude(Sub(a, p.points[j]));
        assert SqMagnitude(d) == 1.0;
        assert m * m == SqMagnitude(Sub(a, p.points[j]));
        assert Sub(Add(a, Scale(d, m)), a) == Scale(d, m);
        ScaleSqMagnitude(d, m);
      }
    }
  }

  /**
    With auto-tangent, moving an anchor puts it at `pos` and re-derives control
    points only: every other anchor stays where it was.
   */
  lemma MovePointAutoKeepsOtherAnchors(p: Path, geo: Geometry, i: int, pos: Vec3)
    requires Valid(p) && p.autoSet && 0 <= i < |p.points| && i % 3 == 0
    ensures var r := MovePoint(p, geo, i, pos);
            r.points[i] == pos &&
            forall j :: 0 <= j < |p.points| && j % 3 == 0 && j != i ==> r.points[j] == p.points[j]
  {
    hide AutoSetAllAffectedControlPoints;
    var moved := p.points[i := pos];
    AllAffectedKeepsAnchors(moved, p.isClosed, geo, i);
  }

  /**
    On an open path, re-deriving "controls" around index 1 writes slot 0 with point 1
    itself: there is no previous neighbour, so the signed distance used is zero.
   */
  lemma AutoSetAtOneOverwritesFirst(pts: seq<Vec3>, geo: Geometry)
    requires |pts| >= 4
    ensures AutoSetAnchorControlPoints(pts, false, geo, 1)[0] == pts[1]
  {
    hide ControlPlacement;
    var pl := ControlPlacement(pts, false, geo, 1);
    assert Scale(Scale(pl.dir, pl.dist0), 0.5) == Zero;
  }

  /**
    As written, with auto-tangent on an open path, dragging the first control point
    drags anchor 0 along with it: the update treats index 1 as an anchor with no
    previous neighbour, so the slot before it, anchor 0, is set to `pos`.
   */
  lemma MovePointAutoDragsFirstAnchor(p: Path, geo: Geometry, pos: Vec3)
    requires Valid(p) && p.autoSet && !p.isClosed
    ensures MovePoint(p, geo, 1, pos).points[0] == pos
  {
    hide AutoSetAnchorControlPoints;
    hide AutoSetStartAndEndControls;
    var pts := p.points;
    var n := |pts|;
    var moved := pts[1 := pos];
    var r2 := AutoSetAnchorControlPoints(moved, false, geo, 1);
    AutoSetAtOneOverwritesFirst(moved, geo);
    var r3 := if 4 < n then AutoSetAnchorControlPoints(r2, false, geo, 4) else r2;
    assert r3[0] == pos;
    assert AutoSetAllAffectedControlPoints(moved, false, geo, 1) == AutoSetStartAndEndControls(r3, false);
  }

  /**
    Outside the one case that misbehaves (a control point of an auto-tangent path),
    moving point `i` puts it at `pos` and moves no other anchor.
   */
  lemma MovePointKeepsOtherAnchors(p: Path, geo: Geometry, i: int, pos: Vec3)
    requires Valid(p) && 0 <= i < |p.points| && !(p.autoSet && i % 3 != 0)
    ensures var r := MovePoint(p, geo, i, pos);
            r.points[i] == pos &&
            forall j :: 0 <= j < |p.points| && j % 3 == 0 && j != i ==> r.points[j] == p.points[j]
  {
    hide MovePoint;
    if p.autoSet {
      MovePointAutoKeepsOtherAnchors(p, geo, i, pos);
    } else if i % 3 == 0 {
      MovePointAnchorDragsNeighbours(p, geo, i, pos);
      forall j | 0 <= j < |p.points| && j % 3 == 0 && j != i
        ensures MovePoint(p, geo, i, pos).points[j] == p.points[j]
      {
        ControlSlotsAreNotAnchors(|p.points|, p.isClosed, i, j);
      }
    } else {
      MovePointControlMovesOnlyItsPair(p, geo, i, pos);
    }
  }

  /**
    Moving a point with control points locked in auto-tangent mode: a control point
    of an auto-tangent path is left where it is, since its position is derived from
    the anchors; everything else is `MovePoint`. No anchor other than `i` ever moves.
   */
  function MovePointGuarded(p: Path, geo: Geometry, i: int, pos: Vec3): (r: Path)
    requires Valid(p) && 0 <= i < |p.points|
    ensures Valid(r) && r.isClosed == p.isClosed && r.autoSet == p.autoSet && r.origin == p.origin
    ensures |r.points| == |p.points|
    ensures p.autoSet && i % 3 != 0 ==> r == p
    ensures !(p.autoSet && i % 3 != 0) ==> r.points[i] == pos
    ensures forall j :: 0 <= j < |p.points| && j % 3 == 0 && j != i ==> r.points[j] == p.points[j]
  {
    hide MovePoint;
    if p.autoSet && i % 3 != 0 then p
    else
      MovePointKeepsOtherAnchors(p, geo, i, pos);
      MovePoint(p, geo, i, pos)
  }

  /**
    Opens or closes the path. Closing appends two controls that mirror the last
    control across the last anchor and the first control across anchor 0; opening
    drops the two wrap-around controls again.
   */
  function ToggleClosed(p: Path, geo: Geometry): (r: Path)
    requires Valid(p)
    ensures Valid(r) && r.isClosed == !p.isClosed && r.autoSet == p.autoSet && r.origin == p.origin
    ensures !p.isClosed ==> |r.points| == |p.points| + 2
    ensures p.isClosed ==> |r.points| == |p.points| - 2
    ensures !p.isClosed ==> NumSegments(r) == NumSegments(p) + 1
    ensures p.isClosed ==> NumSegments(r) == NumSegments(p) - 1
    ensures !p.isClosed && !p.autoSet ==>
              var n := |p.points|;
              r.points[..n] == p.points &&
              Midpoint(r.points[n - 2], r.points[n]) == r.points[n - 1] &&
              Midpoint(r.points[n + 1], r.points[1]) == r.points[0]
    ensures p.isClosed && !p.autoSet ==> r.points == p.points[..|p.points| - 2]
  {
    hide AutoSetAnchorControlPoints;
    hide AutoSetStartAndEndControls;
    var pts := p.points;
    var n := |pts|;
    if !p.isClosed then
      CountPlusTwo(n);
      ModUnique(n - 1, 3, n / 3, 0);
      var p1 := pts + [Reflect(pts[n - 1], pts[n - 2])];
      var p2 := p1 + [Reflect(p1[0], p1[1])];
      var pts' := if p.autoSet
                  then AutoSetAnchorControlPoints(AutoSetAnchorControlPoints(p2, true, geo, 0), true, geo, |p2| - 3)
                  else p2;
      p.(isClosed := true, points := pts')
    else
      CountPlusTwo(n - 2);
      var p1 := pts[..n - 2];
      p.(isClosed := false, points := if p.autoSet then AutoSetStartAndEndControls(p1, false) else p1)
  }

  /** Opening or closing a path, in either mode, moves none of the anchors both versions have. */
  lemma ToggleClosedKeepsAnchors(p: Path, geo: Geometry)
    requires Valid(p)
    ensures var r := ToggleClosed(p, geo);
            forall j :: 0 <= j < |p.points| && j < |r.points| && j % 3 == 0 ==> r.points[j] == p.points[j]
  {
    hide AutoSetAnchorControlPoints;
    hide AutoSetStartAndEndControls;
    var pts := p.points;
    var n := |pts|;
    if !p.isClosed {
      CountPlusTwo(n);
      ModUnique(n - 1, 3, n / 3, 0);
      var p1 := pts + [Reflect(pts[n - 1], pts[n - 2])];
      var p2 := p1 + [Reflect(p1[0], p1[1])];
      if p.autoSet {
        var q := AutoSetAnchorControlPoints(p2, true, geo, 0);
        AutoSetAnchorKeepsAnchors(p2, true, geo, 0);
        AutoSetAnchorKeepsAnchors(q, true, geo, |p2| - 3);
        assert forall j :: 0 <= j < n && j % 3 == 0 ==> p2[j] == pts[j];
      }
    } else if p.autoSet {
      CountPlusTwo(n - 2);
      var p1 := pts[..n - 2];
      StartAndEndKeepsAnchors(p1, false);
    }
  }

  // ---------------------------------------------------------------------------
  // Properties relating several operations
  // ---------------------------------------------------------------------------

  /** Closing and re-opening an open path without auto-tangent restores it exactly. */
  lemma ToggleClosedTwiceRestores(p: Path, geo: Geometry)
    requires Valid(p) && !p.isClosed && !p.autoSet
    ensures ToggleClosed(ToggleClosed(p, geo), geo) == p
  {
    hide ToggleClosed;
    var q := ToggleClosed(p, geo);
    assert q.points[..|p.points|] == p.points;
  }

  /**
    In either mode, closing and re-opening an open path gives back an open path of
    the same length with the same anchors; only control points may differ.
   */
  lemma ToggleClosedTwiceKeepsAnchors(p: Path, geo: Geometry)
    requires Valid(p) && !p.isClosed
    ensures var r := ToggleClosed(ToggleClosed(p, geo), geo);
            !r.isClosed && AnchorsPreserved(p.points, r.points)
  {
    hide ToggleClosed;
    var q := ToggleClosed(p, geo);
    ToggleClosedKeepsAnchors(p, geo);
    ToggleClosedKeepsAnchors(q, geo);
  }

  /**
    Without auto-tangent, splitting a segment and then deleting the anchor that the
    split inserted gives back the original path.
   */
  lemma SplitThenDeleteRestores(p: Path, geo: Geometry, anchorPos: Vec3, s: int, q: Path)
    requires Valid(p) && !p.autoSet && 0 <= s < NumSegments(p)
    requires q == SplitSegment(p, geo, anchorPos, s)
    ensures Valid(q) && 3 * s + 3 < |q.points| && DeleteSegment(q, 3 * s + 3) == Ok(p)
  {
    hide AutoSetAnchorControlPoints, AutoSetAllAffectedControlPoints, AutoSetIfPresent, AutoSetStartAndEndControls, ControlPlacement;
    var k := 3 * s + 2;
    SplitSegmentKeepsOrder(p, geo, anchorPos, s);
    RemoveThreeUndoesInsert(p.points, q.points, k);
    DeleteInnerAnchor(q, k + 1);
  }

  /** Cutting three points out at `k` undoes inserting three points at `k`. */
  lemma RemoveThreeUndoesInsert(a: seq<Vec3>, b: seq<Vec3>, k: int)
    requires 0 <= k <= |a| && |b| == |a| + 3
    requires b[..k] == a[..k] && b[k + 3..] == a[k..]
    ensures b[..k] + b[k + 3..] == a
  {
    assert a == a[..k] + a[k..];
  }

  /** Adding a segment and deleting an inner anchor again restores the segment count. */
  lemma AddThenDeleteRestoresCount(p: Path, geo: Geometry, anchorPos: Vec3, k: int)
    requires Valid(p) && !p.isClosed
    requires 0 < k < NumSegments(p) + 1
    ensures var q := AddSegment(p, geo, anchorPos);
            var d := DeleteSegment(q, 3 * k);
            d.Ok? && NumSegments(d.value) == NumSegments(p)
  {
    hide AddSegment;
    var q := AddSegment(p, geo, anchorPos);
    assert 3 * k != |q.points| - 1;
  }

  /**
    As written, removing the segment just appended to an open path throws: the new
    anchor is the last one, and deleting it runs `RemoveRange` past the end.
   */
  lemma AddThenDeleteLastFails(p: Path, geo: Geometry, anchorPos: Vec3)
    requires Valid(p) && !p.isClosed
    ensures var q := AddSegment(p, geo, anchorPos);
            DeleteSegment(q, |q.points| - 1).Err?
  {
    hide AddSegment;
  }

  /**
    With the corrected deletion, removing the segment just appended to an open path
    without auto-tangent gives back the original path.
   */
  lemma AddThenDeleteLastRestores(p: Path, geo: Geometry, anchorPos: Vec3)
    requires Valid(p) && !p.isClosed && !p.autoSet
    ensures var q := AddSegment(p, geo, anchorPos);
            DeleteSegmentFixed(q, |q.points| - 1) == p
  {
    hide AddSegment;
    var q := AddSegment(p, geo, anchorPos);
    var n := |p.points|;
    assert q.points[..n] == p.points;
  }
}
