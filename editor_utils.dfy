/**
 * Box geometry and the score colour bands of the bounding-box editor
 * (frontend/src/utils/editorUtils.ts). Coordinates are exact reals: the
 * source only adds, subtracts, multiplies, divides and compares them.
 */
module EditorUtils {
  import opened Options

  /** An axis-aligned rectangle [x1, y1, x2, y2] in the image's native pixels. */
  datatype Box = Box(x1: real, y1: real, x2: real, y2: real)

  datatype ConflictKind = Overlap | Containment

  /** A conflict between boxes indexA and indexB (the human-readable message is not modelled). */
  datatype Conflict = Conflict(kind: ConflictKind, indexA: nat, indexB: nat)

  function Min(a: real, b: real): real { if a <= b then a else b }

  function Max(a: real, b: real): real { if a >= b then a else b }

  function Width(b: Box): real { b.x2 - b.x1 }

  function Height(b: Box): real { b.y2 - b.y1 }

  // ---------------------------------------------------------------------------
  // Score colours
  // ---------------------------------------------------------------------------

  const ManualColor: string := "#3b82f6"

  /** The five colours for detector boxes, from the lowest band to the highest. */
  const BandColors: seq<string> := ["#ef4444", "#f97316", "#eab308", "#22c55e", "#15803d"]

  /** The four scores at which the colour changes to the next band. */
  const CutPoints: seq<real> := [0.5, 0.7, 0.85, 0.95]

  /** How many of the cut points the score has reached: the index of its band. */
  function CutsReached(cuts: seq<real>, score: real): (n: nat)
    ensures n <= |cuts|
  {
    if cuts == [] then 0
    else (if cuts[0] <= score then 1 else 0) + CutsReached(cuts[1..], score)
  }

  /**
   * The colour of a box: blue for a drawn box whatever its score, otherwise
   * the band whose index is the number of cut points the score has reached.
   */
  function ScoreColor(score: real, isManual: bool): (c: string)
    ensures isManual ==> c == ManualColor
    ensures !isManual ==> c == BandColors[CutsReached(CutPoints, score)]
  {
    BandOfScore(score);
    if isManual then ManualColor
    else if score < 0.5 then "#ef4444"
    else if score < 0.7 then "#f97316"
    else if score < 0.85 then "#eab308"
    else if score < 0.95 then "#22c55e"
    else "#15803d"
  }

  /** The band index of a score, spelled out threshold by threshold. */
  lemma BandOfScore(score: real)
    ensures CutsReached(CutPoints, score) ==
      if score < 0.5 then 0 else if score < 0.7 then 1 else if score < 0.85 then 2
      else if score < 0.95 then 3 else 4
  {
    var c := CutPoints;
    assert c[1..][1..][1..][1..] == [];
    assert CutsReached(c[1..][1..][1..], score) == if 0.95 <= score then 1 else 0;
    assert CutsReached(c[1..][1..], score) == (if 0.85 <= score then 1 else 0) + CutsReached(c[1..][1..][1..], score);
    assert CutsReached(c[1..], score) == (if 0.7 <= score then 1 else 0) + CutsReached(c[1..][1..], score);
  }

  /** A higher score never falls into a lower band. */
  lemma {:induction false} CutsReachedMonotone(cuts: seq<real>, s: real, t: real)
    requires s <= t
    ensures CutsReached(cuts, s) <= CutsReached(cuts, t)
  {
    if cuts != [] {
      CutsReachedMonotone(cuts[1..], s, t);
    }
  }

  /** The manual colour is never one of the score colours, so a drawn box is always told apart. */
  lemma ManualColorIsDistinct(score: real)
    ensures ScoreColor(score, true) != ScoreColor(score, false)
  {
    var n := CutsReached(CutPoints, score);
    assert BandColors[n] != ManualColor;
  }

  // ---------------------------------------------------------------------------
  // Areas and intersections
  // ---------------------------------------------------------------------------

  /** getArea: width times height; never negative for a box with non-negative sides, positive for one with positive sides. */
  function Area(b: Box): (r: real)
    ensures Width(b) >= 0.0 && Height(b) >= 0.0 ==> r >= 0.0
    ensures Width(b) > 0.0 && Height(b) > 0.0 ==> r > 0.0
  {
    Width(b) * Height(b)
  }

  /** The length shared by the intervals [lo1, hi1] and [lo2, hi2], clamped at zero. */
  function OverlapExtent(lo1: real, hi1: real, lo2: real, hi2: real): (r: real)
    ensures r >= 0.0
    ensures r > 0.0 ==> r <= hi1 - lo1 && r <= hi2 - lo2
  {
    Max(0.0, Min(hi1, hi2) - Max(lo1, lo2))
  }

  /** The shared length does not depend on which interval comes first. */
  lemma OverlapExtentSymmetric(lo1: real, hi1: real, lo2: real, hi2: real)
    ensures OverlapExtent(lo1, hi1, lo2, hi2) == OverlapExtent(lo2, hi2, lo1, hi1)
  {
  }

  function IntersectionArea(a: Box, b: Box): (r: real)
    ensures r >= 0.0
  {
    var xo := OverlapExtent(a.x1, a.x2, b.x1, b.x2);
    var yo := OverlapExtent(a.y1, a.y2, b.y1, b.y2);
    MulNonNegative(xo, yo);
    xo * yo
  }

  /** The intersection as the product of the two clamped extents. */
  lemma IntersectionByExtents(a: Box, b: Box)
    ensures IntersectionArea(a, b) ==
      OverlapExtent(a.x1, a.x2, b.x1, b.x2) * OverlapExtent(a.y1, a.y2, b.y1, b.y2)
  {
  }

  lemma MulNonNegative(a: real, b: real)
    requires a >= 0.0 && b >= 0.0
    ensures a * b >= 0.0
  {
  }

  lemma MulMonotone(a: real, b: real, c: real, d: real)
    requires 0.0 <= a <= c && 0.0 <= b <= d
    ensures a * b <= c * d
  {
    assert a * b <= c * b;
    assert c * b <= c * d;
  }

  lemma MulStrict(a: real, b: real, c: real)
    requires a < b && c > 0.0
    ensures a * c < b * c
  {
  }

  /** For a positive denominator, a ratio above one half is twice the numerator above the denominator. */
  lemma HalfRatio(num: real, den: real)
    requires num >= 0.0 && den > 0.0
    ensures num / den > 0.5 <==> 2.0 * num > den
  {
    var q := num / den;
    assert q * den == num;
    if q > 0.5 {
      MulStrict(0.5, q, den);
    } else {
      MulMonotone(q, den, 0.5, den);
    }
  }

  lemma MulPositiveFactors(a: real, b: real)
    requires a >= 0.0 && b >= 0.0 && a * b > 0.0
    ensures a > 0.0 && b > 0.0
  {
  }

  /** The intersection does not depend on the order of the two boxes. */
  lemma IntersectionSymmetric(a: Box, b: Box)
    ensures IntersectionArea(a, b) == IntersectionArea(b, a)
  {
    OverlapExtentSymmetric(a.x1, a.x2, b.x1, b.x2);
    OverlapExtentSymmetric(a.y1, a.y2, b.y1, b.y2);
  }

  /**
   * A positive intersection forces both boxes to have positive width and
   * height, and it is no larger than either area: the smaller area is then
   * positive and the overlap ratio lies in (0, 1].
   */
  lemma IntersectionWithinAreas(a: Box, b: Box)
    requires IntersectionArea(a, b) > 0.0
    ensures Width(a) > 0.0 && Height(a) > 0.0 && Width(b) > 0.0 && Height(b) > 0.0
    ensures IntersectionArea(a, b) <= Area(a) && IntersectionArea(a, b) <= Area(b)
    ensures Min(Area(a), Area(b)) > 0.0
  {
    var xo := OverlapExtent(a.x1, a.x2, b.x1, b.x2);
    var yo := OverlapExtent(a.y1, a.y2, b.y1, b.y2);
    MulPositiveFactors(xo, yo);
    MulMonotone(xo, yo, Width(a), Height(a));
    MulMonotone(xo, yo, Width(b), Height(b));
  }

  /** The boxes at the given indices, in that order: `idxs.map(idx => boxes[idx])`. */
  function BoxesAt(boxes: seq<Box>, idxs: seq<nat>): (r: seq<Box>)
    requires forall p :: 0 <= p < |idxs| ==> idxs[p] < |boxes|
    ensures |r| == |idxs| && forall p :: 0 <= p < |idxs| ==> r[p] == boxes[idxs[p]]
  {
    seq(|idxs|, p requires 0 <= p < |idxs| => boxes[idxs[p]])
  }

  // ---------------------------------------------------------------------------
  // Classification of one pair
  // ---------------------------------------------------------------------------

  /** Box a lies within box b, bounds compared inclusively on all four edges. */
  predicate Inside(a: Box, b: Box)
    ensures Inside(a, b) ==> Width(a) <= Width(b) && Height(a) <= Height(b)
  {
    a.x1 >= b.x1 && a.y1 >= b.y1 && a.x2 <= b.x2 && a.y2 <= b.y2
  }

  /**
   * A box with non-negative sides inside another shares all of its area with
   * it: the intersection is the inner box's area.
   */
  lemma InsideIntersection(a: Box, b: Box)
    requires Inside(a, b) && Width(a) >= 0.0 && Height(a) >= 0.0
    ensures IntersectionArea(a, b) == Area(a)
  {
    assert OverlapExtent(a.x1, a.x2, b.x1, b.x2) == Width(a);
    assert OverlapExtent(a.y1, a.y2, b.y1, b.y2) == Height(a);
  }

  /**
   * The conflict, if any, between two live boxes: containment when one lies
   * within the other, overlap when the intersection exceeds half of the
   * smaller area (written 2 * intersection > smaller area; see OverlapRatio),
   * and none when they do not intersect at all.
   */
  function Classify(a: Box, b: Box): (r: Option<ConflictKind>)
    ensures r.Some? ==> IntersectionArea(a, b) > 0.0
    ensures r == Some(Containment) <==> IntersectionArea(a, b) > 0.0 && (Inside(a, b) || Inside(b, a))
    ensures r == Some(Overlap) ==> !Inside(a, b) && !Inside(b, a)
  {
    var inter := IntersectionArea(a, b);
    if inter > 0.0 then
      if Inside(a, b) || Inside(b, a) then Some(Containment)
      else
        var smallerArea := Min(Area(a), Area(b));
        if 2.0 * inter > smallerArea then Some(Overlap) else None
    else None
  }

  /**
   * For an intersecting pair that is not a containment, the pair is an
   * overlap exactly when intersection / smaller area exceeds 0.5, the ratio
   * the source computes; the smaller area is positive, so the ratio is defined.
   */
  lemma OverlapRatio(a: Box, b: Box)
    requires IntersectionArea(a, b) > 0.0
    ensures Min(Area(a), Area(b)) > 0.0
    ensures Classify(a, b) == Some(Overlap) <==>
      !Inside(a, b) && !Inside(b, a) && IntersectionArea(a, b) / Min(Area(a), Area(b)) > 0.5
  {
    IntersectionWithinAreas(a, b);
    var inter := IntersectionArea(a, b);
    var smaller := Min(Area(a), Area(b));
    HalfRatio(inter, smaller);
  }

  /** The classification of a pair does not depend on which box comes first. */
  lemma ClassifySymmetric(a: Box, b: Box)
    ensures Classify(a, b) == Classify(b, a)
  {
    IntersectionSymmetric(a, b);
  }
}
