/**
 * The pairwise conflict scan of the bounding-box editor
 * (detectConflicts in frontend/src/utils/editorUtils.ts): a nested loop
 * over the pairs i < j of live boxes that appends one conflict per pair that
 * Classify labels. Conflicts is the same scan as a function; the lemmas say
 * what it contains and in which order.
 */
module ConflictDetection {
  import opened Options
  import opened EditorUtils

  /** `eliminated[i]` read as JavaScript does: a missing entry is falsy. */
  predicate IsEliminated(eliminated: seq<bool>, i: nat)
  {
    i < |eliminated| && eliminated[i]
  }

  /**
   * The scan below is written over any pair classifier `cls`; the editor's is
   * Classify. Keeping the classifier a parameter lets the lemmas about the
   * shape of the scan ignore the arithmetic inside Classify.
   */
  type Classifier = (Box, Box) -> Option<ConflictKind>

  /** The conflict recorded for the pair (i, j), if any, once box i is known to be live. */
  function PairConflict(cls: Classifier, boxes: seq<Box>, eliminated: seq<bool>, i: nat, j: nat): seq<Conflict>
    requires i < j < |boxes|
  {
    if IsEliminated(eliminated, j) then []
    else
      match cls(boxes[i], boxes[j])
      case None => []
      case Some(kind) => [Conflict(kind, i, j)]
  }

  /** The conflicts of row i with the partners i + 1 .. j - 1, in scan order. */
  function RowConflicts(cls: Classifier, boxes: seq<Box>, eliminated: seq<bool>, i: nat, j: nat): seq<Conflict>
    requires i < j <= |boxes|
    decreases j
  {
    if j == i + 1 then []
    else RowConflicts(cls, boxes, eliminated, i, j - 1) + PairConflict(cls, boxes, eliminated, i, j - 1)
  }

  /** The conflicts of rows 0 .. i - 1, in scan order. */
  function ConflictsBefore(cls: Classifier, boxes: seq<Box>, eliminated: seq<bool>, i: nat): seq<Conflict>
    requires i <= |boxes|
  {
    if i == 0 then []
    else
      ConflictsBefore(cls, boxes, eliminated, i - 1)
      + (if IsEliminated(eliminated, i - 1) then [] else RowConflicts(cls, boxes, eliminated, i - 1, |boxes|))
  }

  /**
   * Every conflict among the boxes, in the order the scan produces them:
   * strictly increasing (indexA, indexB), so no pair is reported twice.
   */
  function Conflicts(boxes: seq<Box>, eliminated: seq<bool>): (r: seq<Conflict>)
    ensures Ordered(r)
    ensures forall p, q :: 0 <= p < q < |r| ==> (r[p].indexA, r[p].indexB) != (r[q].indexA, r[q].indexB)
  {
    BeforeOrdered(Classify, boxes, eliminated, |boxes|);
    ConflictsBefore(Classify, boxes, eliminated, |boxes|)
  }

  /** The body of the scan for one live pair, as the source computes it. */
  method ClassifyPair(boxA: Box, boxB: Box) returns (kind: Option<ConflictKind>)
    ensures kind == Classify(boxA, boxB)
  {
    kind := None;
    var areaA := Area(boxA);
    var areaB := Area(boxB);
    var intersection := IntersectionArea(boxA, boxB);
    if intersection > 0.0 {
      var isAInsideB := boxA.x1 >= boxB.x1 && boxA.y1 >= boxB.y1 && boxA.x2 <= boxB.x2 && boxA.y2 <= boxB.y2;
      var isBInsideA := boxB.x1 >= boxA.x1 && boxB.y1 >= boxA.y1 && boxB.x2 <= boxA.x2 && boxB.y2 <= boxA.y2;
      if isAInsideB || isBInsideA {
        kind := Some(Containment);
      } else {
        var smallerArea := Min(areaA, areaB);
        if 2.0 * intersection > smallerArea {
          kind := Some(Overlap);
        }
      }
    }
  }

  /** One step of the inner loop: the row grows by the pair (i, j)'s conflict, if any. */
  lemma RowStep(cls: Classifier, boxes: seq<Box>, eliminated: seq<bool>, i: nat, j: nat, kind: Option<ConflictKind>)
    requires i < j < |boxes|
    requires !IsEliminated(eliminated, j) ==> kind == cls(boxes[i], boxes[j])
    requires IsEliminated(eliminated, j) ==> kind == None
    ensures RowConflicts(cls, boxes, eliminated, i, j + 1) ==
      RowConflicts(cls, boxes, eliminated, i, j) + (match kind case None => [] case Some(k) => [Conflict(k, i, j)])
  {
  }

  /** One step of the outer loop: a live row i adds its conflicts, an eliminated one adds none. */
  lemma BeforeStep(cls: Classifier, boxes: seq<Box>, eliminated: seq<bool>, i: nat)
    requires i < |boxes|
    ensures IsEliminated(eliminated, i) ==>
      ConflictsBefore(cls, boxes, eliminated, i + 1) == ConflictsBefore(cls, boxes, eliminated, i)
    ensures !IsEliminated(eliminated, i) ==>
      ConflictsBefore(cls, boxes, eliminated, i + 1)
      == ConflictsBefore(cls, boxes, eliminated, i) + RowConflicts(cls, boxes, eliminated, i, |boxes|)
  {
  }

  method DetectConflicts(boxes: seq<Box>, eliminated: seq<bool>) returns (conflicts: seq<Conflict>)
    ensures conflicts == Conflicts(boxes, eliminated)
  {
    conflicts := [];
    var i := 0;
    while i < |boxes|
      invariant 0 <= i <= |boxes|
      invariant conflicts == ConflictsBefore(Classify, boxes, eliminated, i)
    {
      if !(i < |eliminated| && eliminated[i]) {
        var row := ScanRow(boxes, eliminated, i);
        conflicts := conflicts + row;
      }
      BeforeStep(Classify, boxes, eliminated, i);
      i := i + 1;
    }
  }

  /** The inner loop of the scan: the conflicts of box i with each later live box, in index order. */
  method ScanRow(boxes: seq<Box>, eliminated: seq<bool>, i: nat) returns (row: seq<Conflict>)
    requires i < |boxes|
    ensures row == RowConflicts(Classify, boxes, eliminated, i, |boxes|)
  {
    row := [];
    var j := i + 1;
    while j < |boxes|
      invariant i + 1 <= j <= |boxes|
      invariant row == RowConflicts(Classify, boxes, eliminated, i, j)
    {
      if !(j < |eliminated| && eliminated[j]) {
        var kind := ClassifyPair(boxes[i], boxes[j]);
        RowStep(Classify, boxes, eliminated, i, j, kind);
        if kind.Some? {
          row := row + [Conflict(kind.value, i, j)];
        }
      } else {
        RowStep(Classify, boxes, eliminated, i, j, None);
      }
      j := j + 1;
    }
  }

  // ---------------------------------------------------------------------------
  // What the scan produces
  // ---------------------------------------------------------------------------

  /** Lexicographic order on the index pairs of two conflicts. */
  predicate PairBefore(c: Conflict, d: Conflict)
  {
    c.indexA < d.indexA || (c.indexA == d.indexA && c.indexB < d.indexB)
  }

  /** The conflicts come in strictly increasing (indexA, indexB) order. */
  predicate Ordered(cs: seq<Conflict>)
  {
    forall p, q :: 0 <= p < q < |cs| ==> PairBefore(cs[p], cs[q])
  }

  /** A conflict names two live boxes, lower index first, and carries their classification. */
  predicate Justified(cls: Classifier, boxes: seq<Box>, eliminated: seq<bool>, c: Conflict)
  {
    && c.indexA < c.indexB < |boxes|
    && !IsEliminated(eliminated, c.indexA)
    && !IsEliminated(eliminated, c.indexB)
    && cls(boxes[c.indexA], boxes[c.indexB]) == Some(c.kind)
  }

  lemma OrderedConcat(xs: seq<Conflict>, ys: seq<Conflict>)
    requires Ordered(xs) && Ordered(ys)
    requires forall p, q :: 0 <= p < |xs| && 0 <= q < |ys| ==> PairBefore(xs[p], ys[q])
    ensures Ordered(xs + ys)
  {
    var zs := xs + ys;
    forall p, q | 0 <= p < q < |zs|
      ensures PairBefore(zs[p], zs[q])
    {
      if q < |xs| {
        assert zs[p] == xs[p] && zs[q] == xs[q];
      } else if p < |xs| {
        assert zs[p] == xs[p] && zs[q] == ys[q - |xs|];
      } else {
        assert zs[p] == ys[p - |xs|] && zs[q] == ys[q - |xs|];
      }
    }
  }

  /** Every conflict in row i up to partner j names i, a live partner below j, and their classification. */
  lemma {:induction false} RowSound(cls: Classifier, boxes: seq<Box>, eliminated: seq<bool>, i: nat, j: nat)
    requires i < j <= |boxes| && !IsEliminated(eliminated, i)
    ensures forall c :: c in RowConflicts(cls, boxes, eliminated, i, j) ==>
      c.indexA == i && c.indexB < j && Justified(cls, boxes, eliminated, c)
  {
    if j > i + 1 {
      RowSound(cls, boxes, eliminated, i, j - 1);
    }
  }

  /** Row i up to partner j holds every classified live partner below j. */
  lemma {:induction false} RowComplete(cls: Classifier, boxes: seq<Box>, eliminated: seq<bool>, i: nat, j: nat)
    requires i < j <= |boxes|
    ensures forall k: nat :: (i < k < j && !IsEliminated(eliminated, k) && cls(boxes[i], boxes[k]).Some?) ==>
      Conflict(cls(boxes[i], boxes[k]).value, i, k) in RowConflicts(cls, boxes, eliminated, i, j)
  {
    if j > i + 1 {
      RowComplete(cls, boxes, eliminated, i, j - 1);
    }
  }

  /** Row i lists its partners in increasing order. */
  lemma {:induction false} RowOrdered(cls: Classifier, boxes: seq<Box>, eliminated: seq<bool>, i: nat, j: nat)
    requires i < j <= |boxes| && !IsEliminated(eliminated, i)
    ensures Ordered(RowConflicts(cls, boxes, eliminated, i, j))
  {
    if j > i + 1 {
      RowOrdered(cls, boxes, eliminated, i, j - 1);
      RowBounds(cls, boxes, eliminated, i, j - 1);
      var prev := RowConflicts(cls, boxes, eliminated, i, j - 1);
      var last := PairConflict(cls, boxes, eliminated, i, j - 1);
      assert forall q :: 0 <= q < |last| ==> last[q].indexA == i && last[q].indexB == j - 1;
      OrderedConcat(prev, last);
    }
  }

  /** The conflicts of row i up to partner j name i first and a partner below j second. */
  lemma {:induction false} RowBounds(cls: Classifier, boxes: seq<Box>, eliminated: seq<bool>, i: nat, j: nat)
    requires i < j <= |boxes|
    ensures forall p :: 0 <= p < |RowConflicts(cls, boxes, eliminated, i, j)| ==>
      RowConflicts(cls, boxes, eliminated, i, j)[p].indexA == i && RowConflicts(cls, boxes, eliminated, i, j)[p].indexB < j
  {
    if j > i + 1 {
      RowBounds(cls, boxes, eliminated, i, j - 1);
    }
  }

  /** Every conflict in rows 0 .. i - 1 has its first index below i and is justified. */
  lemma {:induction false} BeforeSound(cls: Classifier, boxes: seq<Box>, eliminated: seq<bool>, i: nat)
    requires i <= |boxes|
    ensures forall c :: c in ConflictsBefore(cls, boxes, eliminated, i) ==>
      c.indexA < i && Justified(cls, boxes, eliminated, c)
  {
    if i > 0 {
      BeforeSound(cls, boxes, eliminated, i - 1);
      if !IsEliminated(eliminated, i - 1) {
        RowSound(cls, boxes, eliminated, i - 1, |boxes|);
      }
    }
  }

  /** Rows 0 .. i - 1 hold every classified live pair whose first index is below i. */
  lemma {:induction false} BeforeComplete(cls: Classifier, boxes: seq<Box>, eliminated: seq<bool>, i: nat)
    requires i <= |boxes|
    ensures forall a: nat, b: nat ::
      (a < i && a < b < |boxes| && !IsEliminated(eliminated, a) && !IsEliminated(eliminated, b)
       && cls(boxes[a], boxes[b]).Some?) ==>
      Conflict(cls(boxes[a], boxes[b]).value, a, b) in ConflictsBefore(cls, boxes, eliminated, i)
  {
    if i > 0 {
      var prev := ConflictsBefore(cls, boxes, eliminated, i - 1);
      var all := ConflictsBefore(cls, boxes, eliminated, i);
      BeforeComplete(cls, boxes, eliminated, i - 1);
      forall a: nat, b: nat |
        a < i && a < b < |boxes| && !IsEliminated(eliminated, a) && !IsEliminated(eliminated, b)
        && cls(boxes[a], boxes[b]).Some?
        ensures Conflict(cls(boxes[a], boxes[b]).value, a, b) in all
      {
        if a < i - 1 {
          assert Conflict(cls(boxes[a], boxes[b]).value, a, b) in prev;
        } else {
          var row := RowConflicts(cls, boxes, eliminated, i - 1, |boxes|);
          RowComplete(cls, boxes, eliminated, i - 1, |boxes|);
          assert all == prev + row;
        }
      }
    }
  }

  /** Rows 0 .. i - 1 come in strictly increasing (indexA, indexB) order. */
  lemma {:induction false} BeforeOrdered(cls: Classifier, boxes: seq<Box>, eliminated: seq<bool>, i: nat)
    requires i <= |boxes|
    ensures Ordered(ConflictsBefore(cls, boxes, eliminated, i))
  {
    if i > 0 {
      BeforeOrdered(cls, boxes, eliminated, i - 1);
      var prev := ConflictsBefore(cls, boxes, eliminated, i - 1);
      if IsEliminated(eliminated, i - 1) {
        assert ConflictsBefore(cls, boxes, eliminated, i) == prev + [];
        assert prev + [] == prev;
      } else {
        var row := RowConflicts(cls, boxes, eliminated, i - 1, |boxes|);
        BeforeSound(cls, boxes, eliminated, i - 1);
        RowSound(cls, boxes, eliminated, i - 1, |boxes|);
        RowOrdered(cls, boxes, eliminated, i - 1, |boxes|);
        forall p, q | 0 <= p < |prev| && 0 <= q < |row|
          ensures PairBefore(prev[p], row[q])
        {
          assert prev[p] in prev && row[q] in row;
        }
        OrderedConcat(prev, row);
      }
    }
  }

  /** Every reported conflict names two live boxes i < j and their classification. */
  lemma ConflictsSound(boxes: seq<Box>, eliminated: seq<bool>, c: Conflict)
    requires c in Conflicts(boxes, eliminated)
    ensures c.indexA < c.indexB < |boxes|
    ensures !IsEliminated(eliminated, c.indexA) && !IsEliminated(eliminated, c.indexB)
    ensures Classify(boxes[c.indexA], boxes[c.indexB]) == Some(c.kind)
    ensures IntersectionArea(boxes[c.indexA], boxes[c.indexB]) > 0.0
  {
    BeforeSound(Classify, boxes, eliminated, |boxes|);
  }

  /** Every live pair i < j that Classify labels is reported. */
  lemma ConflictsComplete(boxes: seq<Box>, eliminated: seq<bool>, i: nat, j: nat)
    requires i < j < |boxes|
    requires !IsEliminated(eliminated, i) && !IsEliminated(eliminated, j)
    requires Classify(boxes[i], boxes[j]).Some?
    ensures Conflict(Classify(boxes[i], boxes[j]).value, i, j) in Conflicts(boxes, eliminated)
  {
    BeforeComplete(Classify, boxes, eliminated, |boxes|);
  }

  /** A pair that does not intersect is never reported, whatever its containment. */
  lemma NoConflictWithoutIntersection(boxes: seq<Box>, eliminated: seq<bool>, c: Conflict)
    requires c in Conflicts(boxes, eliminated)
    ensures c.indexA < c.indexB < |boxes| && IntersectionArea(boxes[c.indexA], boxes[c.indexB]) != 0.0
  {
    ConflictsSound(boxes, eliminated, c);
  }

  // ---------------------------------------------------------------------------
  // Worked examples
  // ---------------------------------------------------------------------------

  /** With two live boxes the scan reports exactly the classification of that one pair. */
  lemma TwoLiveBoxes(cls: Classifier, a: Box, b: Box)
    ensures ConflictsBefore(cls, [a, b], [false, false], 2) ==
      match cls(a, b) case None => [] case Some(kind) => [Conflict(kind, 0, 1)]
  {
    var boxes := [a, b];
    assert RowConflicts(cls, boxes, [false, false], 0, 2) == [] + PairConflict(cls, boxes, [false, false], 0, 1);
    assert ConflictsBefore(cls, boxes, [false, false], 1) == [] + RowConflicts(cls, boxes, [false, false], 0, 2);
    assert RowConflicts(cls, boxes, [false, false], 1, 2) == [];
  }

  /** [0,0,10,10] and [2,2,8,8]: the second lies inside the first. */
  lemma NestedBoxesAreContainment(a: Box, b: Box)
    requires a == Box(0.0, 0.0, 10.0, 10.0) && b == Box(2.0, 2.0, 8.0, 8.0)
    ensures Conflicts([a, b], [false, false]) == [Conflict(Containment, 0, 1)]
  {
    assert Inside(b, a);
    assert OverlapExtent(a.x1, a.x2, b.x1, b.x2) == 6.0;
    assert OverlapExtent(a.y1, a.y2, b.y1, b.y2) == 6.0;
    IntersectionByExtents(a, b);
    TwoLiveBoxes(Classify, a, b);
  }

  /** [0,0,10,10] and [5,5,15,15]: intersection 25 of area 100 is a ratio of 0.25, no conflict. */
  lemma QuarterOverlapIsNoConflict(a: Box, b: Box)
    requires a == Box(0.0, 0.0, 10.0, 10.0) && b == Box(5.0, 5.0, 15.0, 15.0)
    ensures Conflicts([a, b], [false, false]) == []
  {
    QuarterOverlapFacts(a, b);
    ProductOfExtents(a, b);
    QuarterOverlapPair(a, b);
    TwoLiveBoxes(Classify, a, b);
  }

  lemma QuarterOverlapFacts(a: Box, b: Box)
    requires a == Box(0.0, 0.0, 10.0, 10.0) && b == Box(5.0, 5.0, 15.0, 15.0)
    ensures Width(a) == 10.0 && Height(a) == 10.0 && Width(b) == 10.0 && Height(b) == 10.0
    ensures !Inside(a, b) && !Inside(b, a)
    ensures OverlapExtent(a.x1, a.x2, b.x1, b.x2) == 5.0 && OverlapExtent(a.y1, a.y2, b.y1, b.y2) == 5.0
  {
  }

  lemma ProductOfExtents(a: Box, b: Box)
    requires OverlapExtent(a.x1, a.x2, b.x1, b.x2) == 5.0 && OverlapExtent(a.y1, a.y2, b.y1, b.y2) == 5.0
    ensures IntersectionArea(a, b) == 25.0
  {
    IntersectionByExtents(a, b);
  }

  lemma QuarterOverlapPair(a: Box, b: Box)
    requires Width(a) == 10.0 && Height(a) == 10.0 && Width(b) == 10.0 && Height(b) == 10.0
    requires IntersectionArea(a, b) == 25.0
    requires !Inside(a, b) && !Inside(b, a)
    ensures Classify(a, b) == None
  {
    assert Area(a) == 100.0 && Area(b) == 100.0;
  }

  /** [0,0,10,10] and [1,0,9,10]: edges touch, the second is still inside the first. */
  lemma SharedEdgesAreContainment(a: Box, b: Box)
    requires a == Box(0.0, 0.0, 10.0, 10.0) && b == Box(1.0, 0.0, 9.0, 10.0)
    ensures Conflicts([a, b], [false, false]) == [Conflict(Containment, 0, 1)]
  {
    assert Inside(b, a);
    assert OverlapExtent(a.x1, a.x2, b.x1, b.x2) == 8.0;
    assert OverlapExtent(a.y1, a.y2, b.y1, b.y2) == 10.0;
    IntersectionByExtents(a, b);
    TwoLiveBoxes(Classify, a, b);
  }

  /** Two boxes, the second eliminated: nothing is reported (ConflictsSound states it for any boxes). */
  lemma EliminatedBoxIsIgnored(a: Box, b: Box)
    ensures Conflicts([a, b], [false, true]) == []
  {
    var boxes := [a, b];
    assert RowConflicts(Classify, boxes, [false, true], 0, 2) == [];
    assert ConflictsBefore(Classify, boxes, [false, true], 1) == [];
    assert RowConflicts(Classify, boxes, [false, true], 1, 2) == [];
  }
}
