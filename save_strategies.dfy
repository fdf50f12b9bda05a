/**
 * Which boxes of an image are exported on save
 * (frontend/src/utils/saveStrategies.ts): the single best-scoring live box,
 * or every live box, with the "custom" strategies switching on whether the
 * user touched the image. The strategy arrives as a string, so an unknown
 * name reaches the default branch.
 */
module SaveStrategies {
  import opened Options
  import opened EditorUtils
  import opened ImageTypes

  /** Entry i of an optional flag list is present and true (JavaScript `flags?.[i]` is truthy). */
  predicate Flagged(flags: Option<seq<bool>>, i: int)
  {
    flags.Some? && 0 <= i < |flags.value| && flags.value[i]
  }

  /** `s.some(b => b)`. */
  function AnyTrue(s: seq<bool>): (r: bool)
    ensures r <==> exists i :: 0 <= i < |s| && s[i]
  {
    if |s| == 0 then false
    else if s[0] then true
    else
      var rest := AnyTrue(s[1..]);
      assert forall i :: 1 <= i < |s| ==> s[i] == s[1..][i - 1];
      rest
  }

  /** `flags?.some(b => b) ?? false`: the list is present and holds a true entry. */
  function AnyFlagged(flags: Option<seq<bool>>): (r: bool)
    ensures r <==> exists i :: Flagged(flags, i)
  {
    if flags.None? then false
    else
      var r := AnyTrue(flags.value);
      assert r ==> exists i :: 0 <= i < |flags.value| && flags.value[i] && Flagged(flags, i);
      r
  }

  /** The image carries an analysis in which some box is marked modified, eliminated or manual. */
  function IsFileModified(file: ImageFile): (r: bool)
    ensures r <==> file.analysis.Some? && exists i ::
      Flagged(file.analysis.value.modified, i) || Flagged(file.analysis.value.eliminated, i)
      || Flagged(file.analysis.value.isManual, i)
  {
    match file.analysis
    case None => false
    case Some(a) => AnyFlagged(a.modified) || AnyFlagged(a.eliminated) || AnyFlagged(a.isManual)
  }

  /** Box i is hidden; a missing list or entry leaves it live. */
  predicate Eliminated(a: Analysis, i: nat)
  {
    Flagged(a.eliminated, i)
  }

  /** The live box indices below n, in increasing order. */
  function ActiveBelow(a: Analysis, n: nat): (r: seq<nat>)
    requires n <= |a.boxes|
    ensures forall p :: 0 <= p < |r| ==> r[p] < n && !Eliminated(a, r[p])
  {
    if n == 0 then []
    else ActiveBelow(a, n - 1) + (if Eliminated(a, n - 1) then [] else [n - 1])
  }

  /** The live indices below n come in increasing order, and every live index below n is among them. */
  lemma {:induction false} ActiveBelowFacts(a: Analysis, n: nat)
    requires n <= |a.boxes|
    ensures forall p, q :: 0 <= p < q < |ActiveBelow(a, n)| ==> ActiveBelow(a, n)[p] < ActiveBelow(a, n)[q]
    ensures forall i :: 0 <= i < n && !Eliminated(a, i) ==> i in ActiveBelow(a, n)
  {
    if n > 0 {
      ActiveBelowFacts(a, n - 1);
      var prev := ActiveBelow(a, n - 1);
      if Eliminated(a, n - 1) {
        assert ActiveBelow(a, n) == prev + [] == prev;
      } else {
        assert ActiveBelow(a, n) == prev + [n - 1];
      }
    }
  }

  /**
   * `boxes.map((_, i) => i).filter(i => !eliminated?.[i])`: exactly the live
   * indices, each once, in increasing order.
   */
  function ActiveIndices(a: Analysis): (r: seq<nat>)
    ensures forall p :: 0 <= p < |r| ==> r[p] < |a.boxes| && !Eliminated(a, r[p])
    ensures forall p, q :: 0 <= p < q < |r| ==> r[p] < r[q]
    ensures forall i :: 0 <= i < |a.boxes| && !Eliminated(a, i) ==> i in r
  {
    ActiveBelowFacts(a, |a.boxes|);
    ActiveBelow(a, |a.boxes|)
  }

  /** `scores[idx]`, undefined past the end of the list. */
  function ScoreAt(scores: seq<real>, i: nat): Option<real>
  {
    if i < |scores| then Some(scores[i]) else None
  }

  /** `scores[idx] > m`; an undefined score compares false. */
  predicate Beats(s: Option<real>, m: real)
  {
    s.Some? && s.value > m
  }

  /**
   * The pair (bestIdx, maxScore) after the forEach of getBestBox has visited
   * the first k live indices, starting from (-1, -1) and replacing the pair
   * only on a strictly greater score.
   */
  function Scan(scores: seq<real>, idxs: seq<nat>, k: nat): (r: (int, real))
    requires k <= |idxs|
    ensures r.0 == -1 || r.0 in idxs
  {
    if k == 0 then (-1, -1.0)
    else
      var prev := Scan(scores, idxs, k - 1);
      var s := ScoreAt(scores, idxs[k - 1]);
      if Beats(s, prev.1) then (idxs[k - 1], s.value) else prev
  }

  /**
   * getBestBox as a function: the box at the index the scan settles on, if it
   * settled on one. At most one box comes back, and it is a live box.
   */
  function BestBoxes(a: Analysis): (r: seq<Box>)
    ensures |r| <= 1
    ensures |r| == 1 ==> exists i: nat :: i < |a.boxes| && !Eliminated(a, i) && r[0] == a.boxes[i]
  {
    var idxs := ActiveIndices(a);
    if |idxs| == 0 then []
    else
      var r := Scan(a.scores, idxs, |idxs|);
      if r.0 != -1 then [a.boxes[r.0]] else []
  }

  /**
   * getAllActiveBoxes: the boxes at the live indices, which are exactly the
   * non-eliminated boxes in their original order (LiveBoxes, the filter).
   */
  function AllActiveBoxes(a: Analysis): (r: seq<Box>)
    ensures r == LiveBoxes(a, |a.boxes|)
  {
    BoxesAtLive(a, |a.boxes|);
    BoxesAt(a.boxes, ActiveIndices(a))
  }

  /** getBestBox: one pass over the live indices keeping the first strictly highest score. */
  method GetBestBox(a: Analysis) returns (r: seq<Box>)
    ensures r == BestBoxes(a)
  {
    var activeIndices := ActiveIndices(a);
    if |activeIndices| == 0 {
      return [];
    }
    var bestIdx := -1;
    var maxScore := -1.0;
    var k := 0;
    while k < |activeIndices|
      invariant k <= |activeIndices|
      invariant (bestIdx, maxScore) == Scan(a.scores, activeIndices, k)
    {
      var idx := activeIndices[k];
      if idx < |a.scores| && a.scores[idx] > maxScore {
        maxScore := a.scores[idx];
        bestIdx := idx;
      }
      k := k + 1;
    }
    r := if bestIdx != -1 then [a.boxes[bestIdx]] else [];
  }

  /** The boxes exported for a strategy name, as the switch of getBoxesForStrategy picks them. */
  function BoxesForStrategy(file: ImageFile, strategy: string): (r: seq<Box>)
    ensures file.analysis.None? ==> r == []
  {
    match file.analysis
    case None => []
    case Some(a) =>
      if strategy == "global_best" then BestBoxes(a)
      else if strategy == "global_all" then AllActiveBoxes(a)
      else if strategy == "custom_best" then (if IsFileModified(file) then AllActiveBoxes(a) else BestBoxes(a))
      else if strategy == "custom_all" then AllActiveBoxes(a)
      else AllActiveBoxes(a)
  }

  method GetBoxesForStrategy(file: ImageFile, strategy: string) returns (r: seq<Box>)
    ensures r == BoxesForStrategy(file, strategy)
  {
    if file.analysis.None? {
      return [];
    }
    var a := file.analysis.value;
    if strategy == "global_best" {
      r := GetBestBox(a);
    } else if strategy == "global_all" {
      r := AllActiveBoxes(a);
    } else if strategy == "custom_best" {
      if IsFileModified(file) {
        r := AllActiveBoxes(a);
      } else {
        r := GetBestBox(a);
      }
    } else if strategy == "custom_all" {
      r := AllActiveBoxes(a);
    } else {
      r := AllActiveBoxes(a);
    }
  }

  // ---------------------------------------------------------------------------
  // What is exported
  // ---------------------------------------------------------------------------

  /** Reference definition of the live boxes below n: filter the boxes by their flag. */
  function LiveBoxes(a: Analysis, n: nat): seq<Box>
    requires n <= |a.boxes|
  {
    if n == 0 then []
    else LiveBoxes(a, n - 1) + (if Eliminated(a, n - 1) then [] else [a.boxes[n - 1]])
  }

  lemma BoxesAtConcat(boxes: seq<Box>, xs: seq<nat>, ys: seq<nat>)
    requires forall p :: 0 <= p < |xs| ==> xs[p] < |boxes|
    requires forall p :: 0 <= p < |ys| ==> ys[p] < |boxes|
    ensures BoxesAt(boxes, xs + ys) == BoxesAt(boxes, xs) + BoxesAt(boxes, ys)
  {
    var l := BoxesAt(boxes, xs + ys);
    var r := BoxesAt(boxes, xs) + BoxesAt(boxes, ys);
    assert |l| == |r|;
    forall p | 0 <= p < |l|
      ensures l[p] == r[p]
    {
      if p < |xs| {
        assert (xs + ys)[p] == xs[p];
      } else {
        assert (xs + ys)[p] == ys[p - |xs|];
      }
    }
  }

  lemma {:induction false} BoxesAtLive(a: Analysis, n: nat)
    requires n <= |a.boxes|
    ensures BoxesAt(a.boxes, ActiveBelow(a, n)) == LiveBoxes(a, n)
  {
    if n > 0 {
      BoxesAtLive(a, n - 1);
      var prev := ActiveBelow(a, n - 1);
      if Eliminated(a, n - 1) {
        assert ActiveBelow(a, n) == prev + [] == prev;
        assert LiveBoxes(a, n) == LiveBoxes(a, n - 1) + [] == LiveBoxes(a, n - 1);
      } else {
        assert ActiveBelow(a, n) == prev + [n - 1];
        BoxesAtConcat(a.boxes, prev, [n - 1]);
        assert BoxesAt(a.boxes, [n - 1]) == [a.boxes[n - 1]];
      }
    }
  }

  /** `scores[j] >= m`; an undefined score compares false. */
  predicate AtLeast(s: Option<real>, m: real)
  {
    s.Some? && s.value >= m
  }

  /**
   * Box i is the one best-box selection must return: live, scored above -1,
   * no live box scores higher, and no live box before it scores as high.
   */
  predicate FirstBest(a: Analysis, i: nat)
  {
    && i < |a.boxes| && !Eliminated(a, i) && i < |a.scores| && a.scores[i] > -1.0
    && (forall j: nat :: j < |a.boxes| && !Eliminated(a, j) ==> !Beats(ScoreAt(a.scores, j), a.scores[i]))
    && (forall j: nat :: j < i && !Eliminated(a, j) ==> !AtLeast(ScoreAt(a.scores, j), a.scores[i]))
  }

  /** At most one box is the first best. */
  lemma FirstBestUnique(a: Analysis, i: nat, k: nat)
    requires FirstBest(a, i) && FirstBest(a, k)
    ensures i == k
  {
    if i < k {
      assert AtLeast(ScoreAt(a.scores, i), a.scores[k]);
    } else if k < i {
      assert AtLeast(ScoreAt(a.scores, k), a.scores[i]);
    }
  }

  /** Position p of idxs holds the first highest score, above -1, among the first k positions. */
  predicate FirstBestAt(scores: seq<real>, idxs: seq<nat>, k: nat, p: nat, m: real)
    requires k <= |idxs|
  {
    && p < k && ScoreAt(scores, idxs[p]) == Some(m) && m > -1.0
    && (forall q :: 0 <= q < k ==> !Beats(ScoreAt(scores, idxs[q]), m))
    && (forall q :: 0 <= q < p ==> !AtLeast(ScoreAt(scores, idxs[q]), m))
  }

  lemma {:induction false} ScanFacts(scores: seq<real>, idxs: seq<nat>, k: nat)
    requires k <= |idxs|
    ensures Scan(scores, idxs, k).0 == -1 ==>
      Scan(scores, idxs, k).1 == -1.0 && forall q :: 0 <= q < k ==> !Beats(ScoreAt(scores, idxs[q]), -1.0)
    ensures Scan(scores, idxs, k).0 != -1 ==> exists p: nat ::
      FirstBestAt(scores, idxs, k, p, Scan(scores, idxs, k).1) && idxs[p] == Scan(scores, idxs, k).0
  {
    if k > 0 {
      ScanFacts(scores, idxs, k - 1);
      var prev := Scan(scores, idxs, k - 1);
      var s := ScoreAt(scores, idxs[k - 1]);
      if Beats(s, prev.1) {
        var m := s.value;
        if prev.0 != -1 {
          var p: nat :| FirstBestAt(scores, idxs, k - 1, p, prev.1) && idxs[p] == prev.0;
        }
        assert FirstBestAt(scores, idxs, k, k - 1, m);
      } else if prev.0 != -1 {
        var p: nat :| FirstBestAt(scores, idxs, k - 1, p, prev.1) && idxs[p] == prev.0;
        assert FirstBestAt(scores, idxs, k, p, prev.1);
      }
    }
  }

  /**
   * Best-box selection returns nothing exactly when no live box scores above
   * -1, and otherwise the single FirstBest box: the highest live score, ties
   * going to the lowest index because the comparison is strict.
   */
  lemma BestBoxIsFirstMaximum(a: Analysis)
    ensures BestBoxes(a) == [] <==>
      forall j: nat :: j < |a.boxes| && !Eliminated(a, j) ==> !Beats(ScoreAt(a.scores, j), -1.0)
    ensures BestBoxes(a) == [] || exists i: nat :: FirstBest(a, i) && BestBoxes(a) == [a.boxes[i]]
  {
    var idxs := ActiveIndices(a);
    var n := |a.boxes|;
    ActiveBelowFacts(a, n);
    ScanFacts(a.scores, idxs, |idxs|);
    var r := Scan(a.scores, idxs, |idxs|);
    if r.0 == -1 {
      forall j: nat | j < n && !Eliminated(a, j)
        ensures !Beats(ScoreAt(a.scores, j), -1.0)
      {
        var q :| 0 <= q < |idxs| && idxs[q] == j;
      }
    } else {
      var p: nat :| FirstBestAt(a.scores, idxs, |idxs|, p, r.1) && idxs[p] == r.0;
      var i := idxs[p];
      forall j: nat | j < n && !Eliminated(a, j)
        ensures !Beats(ScoreAt(a.scores, j), a.scores[i])
        ensures j < i ==> !AtLeast(ScoreAt(a.scores, j), a.scores[i])
      {
        var q :| 0 <= q < |idxs| && idxs[q] == j;
        if j < i {
          assert q < p;
        }
      }
      assert FirstBest(a, i);
      assert Beats(ScoreAt(a.scores, i), -1.0);
    }
  }

  /** Some increasing live indices whose boxes are exactly the result. */
  predicate LiveSelection(a: Analysis, idxs: seq<nat>)
  {
    && (forall p :: 0 <= p < |idxs| ==> idxs[p] < |a.boxes| && !Eliminated(a, idxs[p]))
    && (forall p, q :: 0 <= p < q < |idxs| ==> idxs[p] < idxs[q])
  }

  /**
   * Whatever the strategy, the exported boxes are the boxes at increasing live
   * indices: a subsequence of the non-eliminated boxes in original order, and
   * no eliminated box.
   */
  lemma ExportIsLiveSubsequence(file: ImageFile, strategy: string)
    requires file.analysis.Some?
    ensures exists idxs :: (LiveSelection(file.analysis.value, idxs)
      && BoxesForStrategy(file, strategy) == BoxesAt(file.analysis.value.boxes, idxs))
  {
    var a := file.analysis.value;
    var all := ActiveIndices(a);
    ActiveBelowFacts(a, |a.boxes|);
    assert LiveSelection(a, all);
    if BoxesForStrategy(file, strategy) != AllActiveBoxes(a) {
      BestBoxIsFirstMaximum(a);
      if BestBoxes(a) == [] {
        assert LiveSelection(a, []) && BoxesAt(a.boxes, []) == [];
      } else {
        var i: nat :| FirstBest(a, i) && BestBoxes(a) == [a.boxes[i]];
        assert LiveSelection(a, [i]) && BoxesAt(a.boxes, [i]) == [a.boxes[i]];
      }
    }
  }

  lemma {:induction false} NothingLiveBelow(a: Analysis, n: nat)
    requires n <= |a.boxes|
    requires forall i: nat :: i < |a.boxes| ==> Eliminated(a, i)
    ensures ActiveBelow(a, n) == []
  {
    if n > 0 {
      NothingLiveBelow(a, n - 1);
    }
  }

  /** With every box eliminated, or with no box at all, nothing is exported. */
  lemma AllEliminatedExportsNothing(file: ImageFile, strategy: string)
    requires file.analysis.Some?
    requires forall i: nat :: i < |file.analysis.value.boxes| ==> Eliminated(file.analysis.value, i)
    ensures BoxesForStrategy(file, strategy) == []
  {
    NothingLiveBelow(file.analysis.value, |file.analysis.value.boxes|);
  }

  /**
   * global_all, custom_all and any unknown name export every live box;
   * custom_best exports every live box of a modified image and the best box
   * of an untouched one.
   */
  lemma StrategyChoice(file: ImageFile, strategy: string)
    requires file.analysis.Some?
    ensures strategy != "global_best" && strategy != "custom_best" ==>
      BoxesForStrategy(file, strategy) == LiveBoxes(file.analysis.value, |file.analysis.value.boxes|)
    ensures strategy == "custom_best" ==>
      BoxesForStrategy(file, strategy) ==
        if IsFileModified(file) then LiveBoxes(file.analysis.value, |file.analysis.value.boxes|)
        else BestBoxes(file.analysis.value)
  {
  }
}
