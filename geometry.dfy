/**
  Geometry of detector boxes and the monocular distance heuristic (utils.py).

  Everything here is straight-line arithmetic. Box coordinates and pixel heights are
  integers; the ratios and distances that Python computes in floating point are modelled
  over `real`, and Python's `float('inf')` is the `PosInf` case of `Extended`.
 */
module Geometry {

  /** An axis-aligned box (x1, y1, x2, y2) in pixel coordinates, y growing downwards.
      Detectors produce x1 < x2 and y1 < y2, but nothing here relies on it unless stated. */
  datatype Box = Box(x1: int, y1: int, x2: int, y2: int)

  /** A pixel position. */
  datatype Point = Point(x: int, y: int)

  /** A real number or positive infinity (Python's `float('inf')`). */
  datatype Extended = Finite(value: real) | PosInf

  predicate WellFormed(b: Box) {
    b.x1 < b.x2 && b.y1 < b.y2
  }

  /** The face box lies inside the hand box. */
  predicate Contains(outer: Box, inner: Box) {
    outer.x1 <= inner.x1 && outer.y1 <= inner.y1 && inner.x2 <= outer.x2 && inner.y2 <= outer.y2
  }

  function Max(a: int, b: int): int { if a < b then b else a }

  function Min(a: int, b: int): int { if a < b then a else b }

  function Abs(a: int): int { if a < 0 then -a else a }

  function AbsReal(a: real): real { if a < 0.0 then -a else a }

  // ---------------------------------------------------------------------------
  // bbox_overlap
  // ---------------------------------------------------------------------------

  /** max(0, min(hi1, hi2) - max(lo1, lo2)): the length of the common part of the
      intervals [lo1, hi1] and [lo2, hi2], clamped at zero. */
  function OverlapLength(lo1: int, hi1: int, lo2: int, hi2: int): (w: int)
    ensures w >= 0
    ensures w > 0 ==> lo1 < hi1 && lo2 < hi2 && lo1 < hi2 && lo2 < hi1
    ensures lo1 <= hi1 ==> w <= hi1 - lo1
    ensures hi1 <= lo2 || hi2 <= lo1 ==> w == 0
    ensures lo2 <= lo1 <= hi1 <= hi2 ==> w == hi1 - lo1
  {
    Max(0, Min(hi1, hi2) - Max(lo1, lo2))
  }

  /** The area of the intersection rectangle of two boxes; each side is clamped at zero. */
  function InterArea(face: Box, hand: Box): (a: int)
    ensures a >= 0
    ensures a > 0 ==> WellFormed(face) && WellFormed(hand)
  {
    OverlapLength(face.x1, face.x2, hand.x1, hand.x2) * OverlapLength(face.y1, face.y2, hand.y1, hand.y2)
  }

  /** (x2 - x1) * (y2 - y1): negative when exactly one axis is inverted. */
  function Area(b: Box): int {
    (b.x2 - b.x1) * (b.y2 - b.y1)
  }

  /** The fraction of the FACE box's area covered by the hand box (not the Jaccard index);
      0 when the face box has no area. */
  function BboxOverlap(face: Box, hand: Box): (r: real)
    ensures Area(face) == 0 ==> r == 0.0
    ensures r >= 0.0
    ensures r > 0.0 ==> WellFormed(face) && InterArea(face, hand) > 0
  {
    var inter := InterArea(face, hand);
    var area := Area(face);
    if area == 0 then 0.0
    else
      PositiveIntersectionHasPositiveArea(face, hand);
      inter as real / area as real
  }

  lemma PositiveIntersectionHasPositiveArea(face: Box, hand: Box)
    ensures InterArea(face, hand) > 0 ==> Area(face) > 0
  {
    if InterArea(face, hand) > 0 {
      MulPositive(face.x2 - face.x1, face.y2 - face.y1);
    }
  }

  lemma MulPositive(a: int, b: int)
    requires a > 0 && b > 0
    ensures a * b > 0
  {}

  lemma MulMonotone(a: int, b: int, c: int, d: int)
    requires 0 <= a <= c && 0 <= b <= d
    ensures a * b <= c * d
  {
    assert a * b <= c * b by {
      assert (c - a) * b >= 0;
    }
    assert c * b <= c * d by {
      assert c * (d - b) >= 0;
    }
  }

  /** The intersection is symmetric; only the normalisation makes bbox_overlap directional. */
  lemma InterAreaSymmetric(a: Box, b: Box)
    ensures InterArea(a, b) == InterArea(b, a)
  {}

  /** Boxes that are separated along some axis do not overlap at all. */
  lemma DisjointBoxesDoNotOverlap(face: Box, hand: Box)
    requires face.x2 <= hand.x1 || hand.x2 <= face.x1 || face.y2 <= hand.y1 || hand.y2 <= face.y1
    ensures BboxOverlap(face, hand) == 0.0
  {}

  /** For a well-formed face box the covered fraction is at most 1. */
  lemma OverlapAtMostOne(face: Box, hand: Box)
    requires WellFormed(face)
    ensures 0.0 <= BboxOverlap(face, hand) <= 1.0
  {
    var wx := OverlapLength(face.x1, face.x2, hand.x1, hand.x2);
    var wy := OverlapLength(face.y1, face.y2, hand.y1, hand.y2);
    MulMonotone(wx, wy, face.x2 - face.x1, face.y2 - face.y1);
    MulPositive(face.x2 - face.x1, face.y2 - face.y1);
    RatioAtMostOne(InterArea(face, hand), Area(face));
  }

  lemma RatioAtMostOne(i: int, a: int)
    requires 0 <= i <= a && a > 0
    ensures 0.0 <= i as real / a as real <= 1.0
  {
    assert i as real <= a as real;
  }

  /** A hand box that contains a well-formed face box covers all of it. */
  lemma ContainedFaceFullyCovered(face: Box, hand: Box)
    requires WellFormed(face) && Contains(hand, face)
    ensures BboxOverlap(face, hand) == 1.0
  {
    var wx := OverlapLength(face.x1, face.x2, hand.x1, hand.x2);
    var wy := OverlapLength(face.y1, face.y2, hand.y1, hand.y2);
    assert wx == face.x2 - face.x1 && wy == face.y2 - face.y1;
    MulPositive(face.x2 - face.x1, face.y2 - face.y1);
    SelfRatio(InterArea(face, hand), Area(face));
  }

  lemma SelfRatio(i: int, a: int)
    requires i == a && a > 0
    ensures i as real / a as real == 1.0
  {}

  /** Normalisation is by the first argument's area: swapping two boxes leaves the result
      unchanged exactly when they do not intersect or have equal areas. A box without
      positive area has a side of no length, so its intersection with anything is 0. */
  lemma OverlapDirectional(a: Box, b: Box)
    ensures BboxOverlap(a, b) == BboxOverlap(b, a) <==> InterArea(a, b) == 0 || Area(a) == Area(b)
  {
    InterAreaSymmetric(a, b);
    PositiveIntersectionHasPositiveArea(a, b);
    PositiveIntersectionHasPositiveArea(b, a);
    if Area(a) > 0 && Area(b) > 0 {
      OverlapDirectionalPositive(a, b);
    }
  }

  lemma OverlapDirectionalPositive(a: Box, b: Box)
    requires Area(a) > 0 && Area(b) > 0
    ensures BboxOverlap(a, b) == BboxOverlap(b, a) <==> InterArea(a, b) == 0 || Area(a) == Area(b)
  {
    InterAreaSymmetric(a, b);
    var i := InterArea(a, b);
    if i > 0 && BboxOverlap(a, b) == BboxOverlap(b, a) {
      QuotientCancel(i as real, Area(a) as real, Area(b) as real);
    }
  }

  lemma QuotientCancel(i: real, p: real, q: real)
    requires i > 0.0 && p > 0.0 && q > 0.0 && i / p == i / q
    ensures p == q
  {
    var t := i / p;
    assert t * p == i;
    assert t * q == i;
    assert t * (p - q) == 0.0;
    assert t > 0.0;
  }

  /** A concrete witness of the direction: a 100x100 face and a 50x50 hand in its corner. */
  lemma OverlapDirectionalExample()
    ensures BboxOverlap(Box(0, 0, 100, 100), Box(0, 0, 50, 50)) == 0.25
    ensures BboxOverlap(Box(0, 0, 50, 50), Box(0, 0, 100, 100)) == 1.0
  {}

  // ---------------------------------------------------------------------------
  // estimate_distance_cm and calculate_distance
  // ---------------------------------------------------------------------------

  /** The calibration pair: a person 390 px tall stands 100 cm from the camera. */
  const KNOWN_DISTANCE_CM: int := 100
  const KNOWN_HEIGHT_PX: int := 390

  /** Pinhole model: distance is inversely proportional to pixel height, and a height of
      zero gives positive infinity rather than an error. */
  function EstimateDistanceCm(heightPx: int): (d: Extended)
    ensures d.PosInf? <==> heightPx == 0
    ensures d.Finite? ==> d.value * heightPx as real == (KNOWN_DISTANCE_CM * KNOWN_HEIGHT_PX) as real
    ensures heightPx > 0 ==> d.Finite? && d.value > 0.0
  {
    if heightPx == 0 then PosInf
    else Finite((KNOWN_DISTANCE_CM * KNOWN_HEIGHT_PX) as real / heightPx as real)
  }

  lemma EstimateAtCalibration()
    ensures EstimateDistanceCm(KNOWN_HEIGHT_PX) == Finite(KNOWN_DISTANCE_CM as real)
  {}

  /** Taller (closer) people are estimated nearer: strictly decreasing for positive heights. */
  lemma EstimateStrictlyDecreasing(h1: int, h2: int)
    requires 0 < h1 < h2
    ensures EstimateDistanceCm(h1).Finite? && EstimateDistanceCm(h2).Finite?
    ensures EstimateDistanceCm(h1).value > EstimateDistanceCm(h2).value
  {
    QuotientDecreasing((KNOWN_DISTANCE_CM * KNOWN_HEIGHT_PX) as real, h1 as real, h2 as real);
  }

  lemma QuotientDecreasing(k: real, a: real, b: real)
    requires k > 0.0 && 0.0 < a < b
    ensures k / a > k / b
  {
    var p := k / a;
    var q := k / b;
    assert p * a == k && q * b == k;
    assert q > 0.0;
    assert q * a < q * b;
  }

  /** The horizontal legs of `calculate_distance` before `math.hypot` and rounding:
      `Planar(dxCm, dzCm)` is the horizontal offset and the depth difference in cm;
      `Unbounded` is the infinite result. */
  datatype Separation = Planar(dxCm: real, dzCm: real) | Unbounded

  /** KNOWN_HEIGHT_PX / KNOWN_DISTANCE_CM pixels per cm at the calibration distance (3.9). */
  const PX_PER_CM_AT_KNOWN_DIST: real := KNOWN_HEIGHT_PX as real / KNOWN_DISTANCE_CM as real

  /** The two legs whose hypotenuse `calculate_distance` returns. The result is infinite when
      the average height is 0 (h1 + h2 == 0), and also when exactly one height is 0: that
      person's depth is infinite, so the depth difference and its hypotenuse are too. */
  function CalculateDistance(p1: Point, h1: int, p2: Point, h2: int): (s: Separation)
    ensures s.Unbounded? <==> h1 + h2 == 0 || h1 == 0 || h2 == 0
    ensures s.Planar? ==> s.dxCm >= 0.0 && s.dzCm >= 0.0
    ensures s.Planar? && p1.x == p2.x ==> s.dxCm == 0.0
    ensures s.Planar? && h1 == h2 ==> s.dzCm == 0.0
  {
    var d1 := EstimateDistanceCm(h1);
    var d2 := EstimateDistanceCm(h2);
    var dxPx := Abs(p1.x - p2.x);
    if h1 + h2 == 0 then Unbounded
    else if d1.PosInf? || d2.PosInf? then Unbounded
    else
      var avgDist := (d1.value + d2.value) / 2.0;
      var pxPerCm :=
        if avgDist > 0.0 then PX_PER_CM_AT_KNOWN_DIST * (KNOWN_DISTANCE_CM as real / avgDist)
        else PX_PER_CM_AT_KNOWN_DIST;
      var dxCm := if pxPerCm > 0.0 then dxPx as real / pxPerCm else 0.0;
      Planar(dxCm, AbsReal(d1.value - d2.value))
  }

  /** The distance between two people does not depend on which of them comes first. */
  lemma CalculateDistanceSymmetric(p1: Point, h1: int, p2: Point, h2: int)
    ensures CalculateDistance(p1, h1, p2, h2) == CalculateDistance(p2, h2, p1, h1)
  {}

  /** `s` has hypotenuse `d`: `math.hypot` of the two legs, or infinity for `Unbounded`. */
  predicate IsHypot(s: Separation, d: Extended) {
    match s
    case Unbounded => d.PosInf?
    case Planar(dx, dz) => d.Finite? && d.value >= 0.0 && d.value * d.value == dx * dx + dz * dz
  }

  /** Two people at the same spot with the calibration height are 0 cm apart. */
  lemma CoincidentPeopleAreZeroApart()
    ensures CalculateDistance(Point(100, 500), 390, Point(100, 500), 390) == Planar(0.0, 0.0)
  {}

  /** Two people of the calibration height 200 px apart: the unscaled ratio 3.9 px/cm applies,
      so the horizontal leg is 200 / 3.9 cm and the depth leg is 0. */
  lemma SideBySideAtCalibration()
    ensures CalculateDistance(Point(100, 500), 390, Point(300, 500), 390) == Planar(2000.0 / 39.0, 0.0)
  {}
}
