# Face-mask and social-distancing fusion, modelled in Dafny

The system takes one webcam frame. It runs three object detectors on it: people, face/mask
state and hands. It then fuses their results with two geometric heuristics:

- a face that a hand box covers by more than 40% is relabelled "Hand on Mouth";
- every unordered pair of people gets an estimated distance and a safety flag.

These are drawn onto the frame. The model covers the pure geometry (`utils.py`) and the
fusion loops of `process_frame` (`app.py`). Detectors, drawing and the UI are not modelled.

- `geometry.dfy`, module `Geometry` (utils.py). This file has no loops or state, so it is
  written as functions and lemmas. `bbox_overlap` computes the integer intersection area
  divided by the face area, over `real`. `estimate_distance_cm` yields an `Extended` value
  (`Finite(real)` or `PosInf`). `calculate_distance` yields its two legs, the horizontal
  offset and the depth difference in cm, as a `Separation`. The hypotenuse that
  `math.hypot` takes of the two legs is described by the predicate `IsHypot`.
- `fusion.dfy`, module `Fusion` (app.py). The three list-building loops are methods with
  `while` loops whose invariants tie each result to a specification function:
  `RelabelFaces`, `PersonPoints`, and `SocialDistancing` (the `i < j` double loop).
  `ProcessFrame` composes them. The `any(...)` over hand boxes is the predicate
  `HandOnMouth`. The class-name lookup, the colour map, the line colour and the line midpoint
  are functions. The detectors' output comes in as sequences of `Detection`, and the mask
  model's `names` as a `map<int, string>`. The pairwise distance is a function value
  `(PersonPoint, PersonPoint) -> Extended`.

Modelling choices:

- Python's `int((x1 + x2) / 2)` truncates toward zero. It is `TruncHalf`, which differs
  from Dafny's floor `/` when the sum is negative and odd. The midpoint's `//` is a floor,
  and Dafny's `/` by 2 is one too.
- The threshold 0.40 and the distances are exact reals.
- `calculate_distance` also returns infinity when `h1 + h2 == 0` (utils.py:50-51). It falls
  back to the unscaled ratio whenever the average depth is not positive (utils.py:57).
- When exactly one height is 0, that person's depth is infinite. The code then computes
  `hypot(0, inf)`, which is infinite. The model returns `Unbounded` directly in that case.

## Model

| member | source | states |
|---|---|---|
| Geometry.OverlapLength | utils.py:13-18 | the clamped side of the intersection is never negative; it is positive only if both intervals are proper and meet; it is 0 for separated intervals; it never exceeds the face's side; it equals the face's side when the hand interval contains it |
| Geometry.InterArea | utils.py:13-18 | the intersection area is never negative, and it is positive only when both boxes are well-formed |
| Geometry.InterAreaSymmetric | utils.py:13-18 | the intersection area does not depend on argument order |
| Geometry.BboxOverlap | utils.py:4-28 | the result is 0 for a zero-area face; it is never negative for any input; it is positive only for a well-formed face with positive intersection |
| Geometry.DisjointBoxesDoNotOverlap | utils.py:13-28 | boxes separated on either axis give exactly 0 |
| Geometry.OverlapAtMostOne | utils.py:13-28 | for a well-formed face box the result lies in [0, 1] |
| Geometry.ContainedFaceFullyCovered | utils.py:13-28 | a hand box containing a well-formed face box gives exactly 1 |
| Geometry.OverlapDirectional | utils.py:21-28 | for all boxes, including zero-area and inverted ones, swapping them keeps the result iff they do not intersect or their areas are equal |
| Geometry.OverlapDirectionalExample | utils.py:21-28 | a 100x100 face with a 50x50 hand in its corner gives 0.25 one way and 1.0 the other |
| Geometry.EstimateDistanceCm | utils.py:32-39 | the result is infinite iff the height is 0; otherwise distance times height equals 100 * 390; it is positive for positive heights |
| Geometry.EstimateAtCalibration | utils.py:32-39 | a height of 390 px gives exactly 100 cm |
| Geometry.EstimateStrictlyDecreasing | utils.py:35-39 | for positive heights the estimate strictly decreases as the height grows |
| Geometry.CalculateDistance | utils.py:41-63 | the result is infinite iff h1 + h2 == 0 or a height is 0; both legs are non-negative; equal x gives a zero horizontal leg; equal heights give a zero depth leg |
| Geometry.CalculateDistanceSymmetric | utils.py:45-63 | swapping (p1, h1) with (p2, h2) does not change the result |
| Geometry.CoincidentPeopleAreZeroApart | utils.py:45-63 | two people at (100,500) with height 390 have both legs 0, so their distance is 0 |
| Geometry.SideBySideAtCalibration | utils.py:45-61 | two 390 px people 200 px apart: the horizontal leg is 200 / 3.9 cm and the depth leg is 0 |
| Fusion.CoversIff | app.py:48 | the strict 0.40 test is equivalent to the integer test: face area > 0 and 5 * intersection > 2 * face area |
| Fusion.BoundaryOverlapDoesNotCover | app.py:17 | a hand over exactly the top 40% of a 100x100 face gives 0.40, which does not pass the strict threshold |
| Fusion.FaceLabelOverride | app.py:44-50 | the label is "Hand on Mouth" iff some hand covers the face or the class is itself named so; with no covering hand the label is the class name |
| Fusion.NoHandsKeepClassName | app.py:44-48 | with no hand boxes the label is `names[class]`, or "unknown" for an absent id |
| Fusion.BoundaryKeepsLabel | app.py:44-50 | a face covered by exactly 40% keeps its class name |
| Fusion.HandBoxes | app.py:39 | one box per hand detection, in order |
| Fusion.RelabelFaces | app.py:41-52 | one annotation per mask detection, same length and order; box and confidence are kept; the label is "Hand on Mouth" iff some hand covers the face, else the class name or "unknown" |
| Fusion.TruncHalf | app.py:59 | truncating halving: the remainder has the sign of the sum and magnitude at most 1 |
| Fusion.TruncHalfRoundsTowardZero | app.py:59 | int(-3 / 2) is -1, which differs from the floor division Dafny's `/` gives; int(3 / 2) is 1 |
| Fusion.PersonPointOf | app.py:57-60 | the centroid x lies between x1 and x2 and is within half a pixel of their mean, equal to the floor of the mean for a non-negative sum; the centroid y is the bottom edge; the height is y2 - y1, positive for a well-formed box |
| Fusion.PersonPoints | app.py:55-61 | one person point per person detection, in order |
| Fusion.RowPairsShape | app.py:65 | the inner loop visits (i, j) for j from i + 1 up to n - 1 in order |
| Fusion.PairsBeforeCount | app.py:64-65 | the first r outer iterations visit r(2n - r - 1)/2 pairs |
| Fusion.PairsBeforeInRange | app.py:64-65 | every visited pair has i < j < n and lies in an earlier row |
| Fusion.PairsBeforeSorted | app.py:64-65 | visited pairs come in strictly increasing lexicographic order |
| Fusion.PairPosition | app.py:64-65 | every i < j < n is visited, at position i(2n - i - 1)/2 + (j - i - 1) |
| Fusion.IndexPairsFacts | app.py:63-74 | n people give n(n-1)/2 index pairs; each has i < j < n; they are strictly lexicographically sorted, so there are no duplicates and no self-pairs; every i < j < n is among them |
| Fusion.SocialDistancing | app.py:63-74 | the pair list lists the index pairs in loop order, n(n-1)/2 entries; entry k has from/to set to the i-th and j-th centroids, the distance for that pair, and its safety flag |
| Fusion.EntrySafety | app.py:66-73 | safe iff the distance is at least 150 cm or infinite, so exactly 150 cm is safe; from/to are the i-th and j-th centroids |
| Fusion.SafeIffSquaredLegs | app.py:73 | for a distance equal to the unrounded hypotenuse of the legs, the `>= 150.0` flag holds iff the squared legs sum to at least 150 squared |
| Fusion.SideBySideAtCalibrationIsUnsafe | app.py:73 | two 390 px people 200 px apart (about 51.3 cm) are flagged unsafe |
| Fusion.ProcessFrame | app.py:36-74 | the fused data of one frame: faces relabelled against the hand boxes, one point per person, and the full pair list |
| Fusion.LabelColor | app.py:90-100 | the four known labels get red, yellow, green and magenta; grey is returned iff the label is none of them |
| Fusion.HandOnMouthDrawnMagenta | app.py:48-50 | a face that a hand covers is always drawn in magenta |
| Fusion.LineColor | app.py:79 | green iff safe, red iff unsafe |
| Fusion.Midpoint | app.py:81 | each coordinate is the floor of the mean of the endpoints, and lies between them |

## Left out

- The YOLO models (app.py:13-15, 21-23) are foreign inference calls. Their output is taken
  as input.
- `extract_boxes` (app.py:25-34) adapts library tensor objects. `Detection` is taken as
  given, with `int` coordinates and a `real` confidence.
- All OpenCV drawing (app.py:78-103) and the returned, mutated frame are left out. They are
  side effects on an image buffer through an unseen library. The colour, line-colour and
  midpoint choices that feed them are modelled.
- The Gradio interface and launch (app.py:107-112) are UI.
- The text formatting of `"{dist:.1f} cm"` and `"{label} {conf*100:.0f}%"` (app.py:72, 102)
  is left out. `PairDistance` keeps the numeric distance instead of the string.
- Geometry.CalculateDistance: it returns the two legs, not `round(math.hypot(dx, dz), 1)`.
  Dafny has no square root, and rounding is float numerics. `IsHypot` relates the legs to an
  unrounded distance.
- Fusion.SocialDistancing: the distance is a parameter and is not tied to
  `calculate_distance`. The source's value is a rounded hypotenuse that the model does not
  compute.
- Fusion.SafeIffSquaredLegs: it applies `>= 150.0` to the unrounded hypotenuse. The source
  compares the distance after `round(..., 1)` (utils.py:63), so its effective threshold on
  the unrounded hypotenuse is about 149.95 cm: hypotenuses from about 149.95 cm up to
  150 cm are safe in the source and unsafe under this lemma.
- Geometry.BboxOverlap: the ratio is an exact real, not an IEEE double. A ratio within
  rounding error of 0.40 could compare differently in floating point.
- Geometry.EstimateDistanceCm: real division, not floating point. IEEE overflow and
  precision are not modelled.
- Python's float conversion in `int((x1 + x2) / 2)` is modelled as exact. It would lose
  precision only for sums beyond 2^53.
