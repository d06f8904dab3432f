/**
  The per-frame fusion of `process_frame` (app.py): relabelling faces that a hand covers,
  deriving a ground point and height for each person, enumerating every unordered pair of
  people with a safety flag, and the fixed colour scheme of the annotations.

  The three detectors are not modelled: their normalised output arrives as sequences of
  `Detection`, the mask model's class names as a map, and the pairwise distance estimate
  as a function value.
 */
module Fusion {
  import opened Geometry

  /** A face is "hand on mouth" when a hand covers strictly more than this share of it. */
  const HAND_ON_MOUTH_THRESHOLD: real := 0.40
  /** Two people at least this far apart (in cm) are safe. */
  const SAFE_DISTANCE_CM: real := 150.0

  const HAND_ON_MOUTH: string := "Hand on Mouth"
  const UNKNOWN: string := "unknown"

  /** One detector result, normalised: box, confidence score and class id. */
  datatype Detection = Detection(box: Box, confidence: real, classId: int)

  /** A face with the label that is drawn for it. */
  datatype FaceAnnotation = FaceAnnotation(box: Box, labelText: string, confidence: real)

  /** A person's ground-contact point (horizontal midpoint, bottom edge) and pixel height. */
  datatype PersonPoint = PersonPoint(centroid: Point, heightPx: int)

  /** One unordered pair of people; `distance` is the numeric value the source formats as text. */
  datatype PairDistance = PairDistance(from: Point, to: Point, distance: Extended, safe: bool)

  /** A colour in OpenCV's (blue, green, red) order. */
  datatype Color = Color(b: int, g: int, r: int)

  // ---------------------------------------------------------------------------
  // Face relabelling
  // ---------------------------------------------------------------------------

  /** `bbox_overlap(face, hand) > HAND_ON_MOUTH_THRESHOLD`. */
  predicate Covers(face: Box, hand: Box) {
    BboxOverlap(face, hand) > HAND_ON_MOUTH_THRESHOLD
  }

  /** The `any(...)` over the hand boxes. */
  predicate HandOnMouth(face: Box, hands: seq<Box>) {
    exists k | 0 <= k < |hands| :: Covers(face, hands[k])
  }

  /** `names.get(classId, 'unknown')`. */
  function ClassName(names: map<int, string>, classId: int): string {
    if classId in names then names[classId] else UNKNOWN
  }

  /** The label drawn for a face: the override wins over the mask model's class name. */
  function FaceLabel(det: Detection, names: map<int, string>, hands: seq<Box>): string {
    if HandOnMouth(det.box, hands) then HAND_ON_MOUTH else ClassName(names, det.classId)
  }

  function Annotate(det: Detection, names: map<int, string>, hands: seq<Box>): FaceAnnotation {
    FaceAnnotation(det.box, FaceLabel(det, names, hands), det.confidence)
  }

  /** The threshold test in integers: the face has positive area and the hand covers
      strictly more than 2/5 of it. */
  lemma CoversIff(face: Box, hand: Box)
    ensures Covers(face, hand) <==> Area(face) > 0 && 5 * InterArea(face, hand) > 2 * Area(face)
  {
    PositiveIntersectionHasPositiveArea(face, hand);
    var i := InterArea(face, hand);
    var a := Area(face);
    if a > 0 {
      QuotientAbove(i as real, a as real);
    }
  }

  lemma QuotientAbove(i: real, a: real)
    requires a > 0.0
    ensures i / a > 0.40 <==> 5.0 * i > 2.0 * a
  {
    var q := i / a;
    assert q * a == i;
    if q > 0.40 {
      assert q * a > 0.40 * a;
    } else {
      assert q * a <= 0.40 * a;
    }
  }

  /** The threshold is strict: a hand over exactly the top 40% of a face does not count. */
  lemma BoundaryOverlapDoesNotCover()
    ensures BboxOverlap(Box(0, 0, 100, 100), Box(0, 0, 100, 40)) == 0.40
    ensures !Covers(Box(0, 0, 100, 100), Box(0, 0, 100, 40))
  {}

  /** The label is "Hand on Mouth" exactly when some hand covers the face, or the mask
      model itself names the class so; with no such class name it is "any hand covers". */
  lemma FaceLabelOverride(det: Detection, names: map<int, string>, hands: seq<Box>)
    ensures FaceLabel(det, names, hands) == HAND_ON_MOUTH
        <==> HandOnMouth(det.box, hands) || ClassName(names, det.classId) == HAND_ON_MOUTH
    ensures !HandOnMouth(det.box, hands) ==> FaceLabel(det, names, hands) == ClassName(names, det.classId)
  {}

  /** With no hand detections every face keeps its class name, or "unknown". */
  lemma NoHandsKeepClassName(det: Detection, names: map<int, string>)
    ensures det.classId in names ==> FaceLabel(det, names, []) == names[det.classId]
    ensures det.classId !in names ==> FaceLabel(det, names, []) == UNKNOWN
  {}

  /** A hand over exactly 40% of the face leaves the class name in place. */
  lemma BoundaryKeepsLabel(confidence: real, classId: int, names: map<int, string>)
    ensures FaceLabel(Detection(Box(0, 0, 100, 100), confidence, classId), names, [Box(0, 0, 100, 40)])
         == ClassName(names, classId)
  {
    BoundaryOverlapDoesNotCover();
  }

  /** `[h['box'] for h in hand_detections]`. */
  function HandBoxes(hands: seq<Detection>): (boxes: seq<Box>)
    ensures |boxes| == |hands|
    ensures forall k :: 0 <= k < |hands| ==> boxes[k] == hands[k].box
  {
    seq(|hands|, k requires 0 <= k < |hands| => hands[k].box)
  }

  /** The loop that builds `final_face_detections`: one annotation per mask detection, in
      order, with box and confidence kept and the label decided by the hand boxes. */
  method RelabelFaces(masks: seq<Detection>, names: map<int, string>, hands: seq<Box>)
    returns (faces: seq<FaceAnnotation>)
    ensures |faces| == |masks|
    ensures forall k :: 0 <= k < |masks| ==>
      faces[k].box == masks[k].box && faces[k].confidence == masks[k].confidence
    ensures forall k :: 0 <= k < |masks| ==>
      faces[k].labelText == (if HandOnMouth(masks[k].box, hands) then HAND_ON_MOUTH
                         else ClassName(names, masks[k].classId))
  {
    faces := [];
    var i := 0;
    while i < |masks|
      invariant 0 <= i <= |masks|
      invariant |faces| == i
      invariant forall k :: 0 <= k < i ==> faces[k] == Annotate(masks[k], names, hands)
    {
      var det := masks[i];
      var text := ClassName(names, det.classId);
      var isHandOnMouth := HandOnMouth(det.box, hands);
      if isHandOnMouth {
        text := HAND_ON_MOUTH;
      }
      faces := faces + [FaceAnnotation(det.box, text, det.confidence)];
      i := i + 1;
    }
  }

  // ---------------------------------------------------------------------------
  // Person points
  // ---------------------------------------------------------------------------

  /** Python's `int(s / 2)`: halving that truncates toward zero. It agrees with Dafny's
      `s / 2` (a floor) only when `s` is non-negative. */
  function TruncHalf(s: int): (r: int)
    ensures s >= 0 ==> 0 <= s - 2 * r <= 1
    ensures s < 0 ==> 0 <= 2 * r - s <= 1
  {
    if s >= 0 then s / 2 else -((-s) / 2)
  }

  lemma TruncHalfRoundsTowardZero()
    ensures TruncHalf(-3) == -1 != -3 / 2
    ensures TruncHalf(3) == 1
  {}

  /** The person point of a box: centroid (int((x1 + x2) / 2), y2) and height y2 - y1. */
  function PersonPointOf(box: Box): (p: PersonPoint)
    ensures box.x1 <= box.x2 ==> box.x1 <= p.centroid.x <= box.x2
    ensures Abs(2 * p.centroid.x - (box.x1 + box.x2)) <= 1
    ensures box.x1 + box.x2 >= 0 ==> p.centroid.x == (box.x1 + box.x2) / 2
    ensures p.centroid.y == box.y2
    ensures p.heightPx == box.y2 - box.y1
    ensures WellFormed(box) ==> p.heightPx > 0
  {
    PersonPoint(Point(TruncHalf(box.x1 + box.x2), box.y2), box.y2 - box.y1)
  }

  /** The loop that builds `active_people`: one point per person detection, in order. */
  method PersonPoints(persons: seq<Detection>) returns (people: seq<PersonPoint>)
    ensures |people| == |persons|
    ensures forall k :: 0 <= k < |persons| ==> people[k] == PersonPointOf(persons[k].box)
  {
    people := [];
    var i := 0;
    while i < |persons|
      invariant 0 <= i <= |persons|
      invariant |people| == i
      invariant forall k :: 0 <= k < i ==> people[k] == PersonPointOf(persons[k].box)
    {
      var box := persons[i].box;
      var centroid := Point(TruncHalf(box.x1 + box.x2), box.y2);
      var height := box.y2 - box.y1;
      people := people + [PersonPoint(centroid, height)];
      i := i + 1;
    }
  }

  // ---------------------------------------------------------------------------
  // Pair enumeration
  // ---------------------------------------------------------------------------

  /** `dist >= 150.0`; an infinite distance is safe. */
  predicate IsSafe(d: Extended) {
    d.PosInf? || d.value >= SAFE_DISTANCE_CM
  }

  /** With an unrounded `math.hypot` distance, safety is a bound on the squared legs. */
  lemma SafeIffSquaredLegs(s: Separation, d: Extended)
    requires IsHypot(s, d)
    ensures IsSafe(d) <==> s.Unbounded? || s.dxCm * s.dxCm + s.dzCm * s.dzCm >= SAFE_DISTANCE_CM * SAFE_DISTANCE_CM
  {
    if s.Planar? {
      var v := d.value;
      var sq := s.dxCm * s.dxCm + s.dzCm * s.dzCm;
      assert v * v == sq;
      if v >= SAFE_DISTANCE_CM {
        assert v * v >= SAFE_DISTANCE_CM * v >= SAFE_DISTANCE_CM * SAFE_DISTANCE_CM;
      } else {
        assert v * v <= SAFE_DISTANCE_CM * v < SAFE_DISTANCE_CM * SAFE_DISTANCE_CM;
      }
    }
  }

  /** Two people of the calibration height 200 px apart are about 51.3 cm apart: unsafe. */
  lemma SideBySideAtCalibrationIsUnsafe(d: Extended)
    requires IsHypot(CalculateDistance(Point(100, 500), 390, Point(300, 500), 390), d)
    ensures !IsSafe(d)
  {
    SideBySideAtCalibration();
    SafeIffSquaredLegs(Planar(2000.0 / 39.0, 0.0), d);
  }

  /** Lexicographic order on index pairs. */
  predicate LexLess(p: (nat, nat), q: (nat, nat)) {
    p.0 < q.0 || (p.0 == q.0 && p.1 < q.1)
  }

  /** The pairs (r, c) for lo <= c < hi, in increasing c. */
  function RowPairs(r: nat, lo: nat, hi: nat): seq<(nat, nat)>
    decreases hi
  {
    if hi <= lo then [] else RowPairs(r, lo, hi - 1) + [(r, hi - 1)]
  }

  /** The index pairs that the double loop over n people visits in its first `rows`
      outer iterations: (i, j) for i < rows and i < j < n, row by row. */
  function PairsBefore(rows: nat, n: nat): seq<(nat, nat)>
  {
    if rows == 0 then [] else PairsBefore(rows - 1, n) + RowPairs(rows - 1, rows, n)
  }

  /** All the index pairs the double loop visits. */
  function IndexPairs(n: nat): seq<(nat, nat)> {
    PairsBefore(n, n)
  }

  /** Where (i, j) stands among the index pairs of n people. */
  function PairIndex(i: nat, j: nat, n: nat): int {
    i * (2 * n - i - 1) / 2 + (j - i - 1)
  }

  lemma {:induction false} RowPairsShape(r: nat, lo: nat, hi: nat)
    requires lo <= hi
    ensures |RowPairs(r, lo, hi)| == hi - lo
    ensures forall k :: 0 <= k < hi - lo ==> RowPairs(r, lo, hi)[k] == (r, lo + k)
    decreases hi
  {
    if hi > lo {
      RowPairsShape(r, lo, hi - 1);
    }
  }

  /** The first `rows` rows hold rows * (2n - rows - 1) / 2 pairs. */
  lemma {:induction false} PairsBeforeCount(rows: nat, n: nat)
    requires rows <= n
    ensures 2 * |PairsBefore(rows, n)| == rows * (2 * n - rows - 1)
  {
    if rows > 0 {
      PairsBeforeCount(rows - 1, n);
      RowPairsShape(rows - 1, rows, n);
      assert 2 * |PairsBefore(rows, n)| == (rows - 1) * (2 * n - rows) + 2 * (n - rows);
    }
  }

  /** Every pair visited has i < j < n and lies in an earlier row. */
  lemma {:induction false} PairsBeforeInRange(rows: nat, n: nat)
    requires rows <= n
    ensures forall k :: 0 <= k < |PairsBefore(rows, n)| ==>
      PairsBefore(rows, n)[k].0 < rows && PairsBefore(rows, n)[k].0 < PairsBefore(rows, n)[k].1 < n
  {
    if rows > 0 {
      PairsBeforeInRange(rows - 1, n);
      RowPairsShape(rows - 1, rows, n);
    }
  }

  /** The pairs come in strictly increasing lexicographic order, so none is repeated. */
  lemma {:induction false} PairsBeforeSorted(rows: nat, n: nat)
    requires rows <= n
    ensures forall k, l :: 0 <= k < l < |PairsBefore(rows, n)| ==>
      LexLess(PairsBefore(rows, n)[k], PairsBefore(rows, n)[l])
  {
    if rows > 0 {
      var prev := PairsBefore(rows - 1, n);
      var row := RowPairs(rows - 1, rows, n);
      PairsBeforeSorted(rows - 1, n);
      PairsBeforeInRange(rows - 1, n);
      RowPairsShape(rows - 1, rows, n);
      var all := prev + row;
      forall k, l | 0 <= k < l < |all| ensures LexLess(all[k], all[l]) {
        if l < |prev| {
          assert all[k] == prev[k] && all[l] == prev[l];
        } else if k < |prev| {
          assert all[k] == prev[k] && all[l] == row[l - |prev|];
        } else {
          assert all[k] == row[k - |prev|] && all[l] == row[l - |prev|];
        }
      }
    }
  }

  /** The first `rows'` rows are a prefix of the first `rows` rows. */
  lemma {:induction false} PairsBeforePrefix(rows': nat, rows: nat, n: nat)
    requires rows' <= rows
    ensures PairsBefore(rows', n) <= PairsBefore(rows, n)
    decreases rows
  {
    if rows' < rows {
      PairsBeforePrefix(rows', rows - 1, n);
    }
  }

  /** Every pair i < j < n is visited, at position PairIndex(i, j, n). */
  lemma PairPosition(i: nat, j: nat, n: nat)
    requires i < j < n
    ensures 0 <= PairIndex(i, j, n) < |IndexPairs(n)|
    ensures IndexPairs(n)[PairIndex(i, j, n)] == (i, j)
  {
    PairsBeforeCount(i, n);
    PairsBeforePrefix(i + 1, n, n);
    RowPairsShape(i, i + 1, n);
    var before := PairsBefore(i, n);
    var row := RowPairs(i, i + 1, n);
    assert PairsBefore(i + 1, n) == before + row;
    assert |before| == i * (2 * n - i - 1) / 2;
    assert (before + row)[|before| + (j - i - 1)] == (i, j);
  }

  /** The facts about the double loop, for n people: n(n-1)/2 pairs, each with i < j < n,
      in strictly increasing lexicographic order, and every i < j < n among them. */
  lemma IndexPairsFacts(n: nat)
    ensures 2 * |IndexPairs(n)| == n * (n - 1)
    ensures forall k :: 0 <= k < |IndexPairs(n)| ==> IndexPairs(n)[k].0 < IndexPairs(n)[k].1 < n
    ensures forall k, l :: 0 <= k < l < |IndexPairs(n)| ==> LexLess(IndexPairs(n)[k], IndexPairs(n)[l])
    ensures forall i: nat, j: nat :: i < j < n ==>
      0 <= PairIndex(i, j, n) < |IndexPairs(n)| && IndexPairs(n)[PairIndex(i, j, n)] == (i, j)
  {
    PairsBeforeCount(n, n);
    PairsBeforeInRange(n, n);
    PairsBeforeSorted(n, n);
    forall i: nat, j: nat | i < j < n
      ensures 0 <= PairIndex(i, j, n) < |IndexPairs(n)| && IndexPairs(n)[PairIndex(i, j, n)] == (i, j)
    {
      PairPosition(i, j, n);
    }
  }

  /** The entry the double loop appends for people i and j. */
  function Entry(people: seq<PersonPoint>, dist: (PersonPoint, PersonPoint) -> Extended, i: nat, j: nat): PairDistance
    requires i < |people| && j < |people|
  {
    var d := dist(people[i], people[j]);
    PairDistance(people[i].centroid, people[j].centroid, d, IsSafe(d))
  }

  /** `e` is the entry for the index pair `ij` of two distinct people. */
  predicate IsEntryFor(people: seq<PersonPoint>, dist: (PersonPoint, PersonPoint) -> Extended, ij: (nat, nat), e: PairDistance) {
    ij.0 < ij.1 < |people| && e == Entry(people, dist, ij.0, ij.1)
  }

  /** The double loop that builds `social_distancing`: one entry per index pair, in the
      loop's order, and n(n-1)/2 of them. */
  method SocialDistancing(people: seq<PersonPoint>, dist: (PersonPoint, PersonPoint) -> Extended)
    returns (pairs: seq<PairDistance>)
    ensures |pairs| == |IndexPairs(|people|)|
    ensures 2 * |pairs| == |people| * (|people| - 1)
    ensures forall k :: 0 <= k < |pairs| ==> IsEntryFor(people, dist, IndexPairs(|people|)[k], pairs[k])
  {
    var n := |people|;
    pairs := [];
    ghost var visited: seq<(nat, nat)> := [];
    var i := 0;
    while i < n
      invariant 0 <= i <= n
      invariant visited == PairsBefore(i, n)
      invariant |pairs| == |visited|
      invariant forall k :: 0 <= k < |pairs| ==> IsEntryFor(people, dist, visited[k], pairs[k])
    {
      var j := i + 1;
      while j < n
        invariant i + 1 <= j <= n
        invariant visited == PairsBefore(i, n) + RowPairs(i, i + 1, j)
        invariant |pairs| == |visited|
        invariant forall k :: 0 <= k < |pairs| ==> IsEntryFor(people, dist, visited[k], pairs[k])
      {
        var p1 := people[i];
        var p2 := people[j];
        var d := dist(p1, p2);
        pairs := pairs + [PairDistance(p1.centroid, p2.centroid, d, IsSafe(d))];
        visited := visited + [(i, j)];
        j := j + 1;
      }
      i := i + 1;
    }
    IndexPairsFacts(n);
  }

  /** An entry is safe exactly when its distance is at least 150 cm (or infinite); exactly
      150 cm is safe. */
  lemma EntrySafety(people: seq<PersonPoint>, dist: (PersonPoint, PersonPoint) -> Extended, i: nat, j: nat)
    requires i < |people| && j < |people|
    ensures Entry(people, dist, i, j).safe
        <==> dist(people[i], people[j]).PosInf? || dist(people[i], people[j]).value >= 150.0
    ensures dist(people[i], people[j]) == Finite(150.0) ==> Entry(people, dist, i, j).safe
    ensures Entry(people, dist, i, j).from == people[i].centroid && Entry(people, dist, i, j).to == people[j].centroid
  {}

  // ---------------------------------------------------------------------------
  // The fusion step of process_frame
  // ---------------------------------------------------------------------------

  /** The fused data of one frame, before drawing: annotated faces, person points and the
      pair list. */
  method ProcessFrame(
    persons: seq<Detection>, masks: seq<Detection>, hands: seq<Detection>,
    names: map<int, string>, dist: (PersonPoint, PersonPoint) -> Extended)
    returns (faces: seq<FaceAnnotation>, people: seq<PersonPoint>, pairs: seq<PairDistance>)
    ensures |faces| == |masks|
    ensures forall k :: 0 <= k < |masks| ==> faces[k] == Annotate(masks[k], names, HandBoxes(hands))
    ensures |people| == |persons|
    ensures forall k :: 0 <= k < |persons| ==> people[k] == PersonPointOf(persons[k].box)
    ensures 2 * |pairs| == |persons| * (|persons| - 1)
    ensures |pairs| == |IndexPairs(|people|)|
    ensures forall k :: 0 <= k < |pairs| ==> IsEntryFor(people, dist, IndexPairs(|people|)[k], pairs[k])
  {
    var handBoxes := HandBoxes(hands);
    faces := RelabelFaces(masks, names, handBoxes);
    people := PersonPoints(persons);
    pairs := SocialDistancing(people, dist);
  }

  // ---------------------------------------------------------------------------
  // Colours
  // ---------------------------------------------------------------------------

  const RED: Color := Color(0, 0, 255)
  const YELLOW: Color := Color(0, 255, 255)
  const GREEN: Color := Color(0, 255, 0)
  const MAGENTA: Color := Color(255, 0, 255)
  const GREY: Color := Color(200, 200, 200)

  const COLOR_MAP: map<string, Color> := map[
    "without_mask" := RED,
    "mask_weared_incorrect" := YELLOW,
    "with_mask" := GREEN,
    HAND_ON_MOUTH := MAGENTA
  ]

  /** `color_map.get(label, (200, 200, 200))`. Grey marks exactly the labels outside the
      four known ones. */
  function LabelColor(text: string): (c: Color)
    ensures text == "without_mask" ==> c == RED
    ensures text == "mask_weared_incorrect" ==> c == YELLOW
    ensures text == "with_mask" ==> c == GREEN
    ensures text == HAND_ON_MOUTH ==> c == MAGENTA
    ensures c == GREY <==> text !in {"without_mask", "mask_weared_incorrect", "with_mask", HAND_ON_MOUTH}
  {
    if text in COLOR_MAP then COLOR_MAP[text] else GREY
  }

  /** A face a hand covers is always drawn in magenta, whatever the mask model said. */
  lemma HandOnMouthDrawnMagenta(det: Detection, names: map<int, string>, hands: seq<Box>)
    ensures HandOnMouth(det.box, hands) ==> LabelColor(Annotate(det, names, hands).labelText) == MAGENTA
  {}

  /** Green for a safe pair, red otherwise. */
  function LineColor(safe: bool): (c: Color)
    ensures c == GREEN <==> safe
    ensures c == RED <==> !safe
  {
    if safe then GREEN else RED
  }

  /** The text anchor of a distance line: the component-wise floor-division mean of its
      endpoints (Python's `//`, which Dafny's `/` matches for the divisor 2). */
  function Midpoint(from: Point, to: Point): (m: Point)
    ensures 2 * m.x <= from.x + to.x < 2 * m.x + 2
    ensures 2 * m.y <= from.y + to.y < 2 * m.y + 2
    ensures Min(from.x, to.x) <= m.x <= Max(from.x, to.x)
    ensures Min(from.y, to.y) <= m.y <= Max(from.y, to.y)
  {
    Point((from.x + to.x) / 2, (from.y + to.y) / 2)
  }
}
