/**
 * The image record the frontend passes around (ImageFile in
 * frontend/src/types/index.ts) and the five parallel detection sequences the
 * editor works on. Seed is how the editor reads an analysis into those
 * sequences, filling missing flag lists with `count` falses.
 */
module ImageTypes {
  import opened Options
  import opened EditorUtils

  /** The detection results attached to an image; the three flag lists may be absent. */
  datatype Analysis = Analysis(
    boxes: seq<Box>,
    scores: seq<real>,
    labels: Option<seq<string>>,
    count: nat,
    modified: Option<seq<bool>>,
    eliminated: Option<seq<bool>>,
    isManual: Option<seq<bool>>)

  /** An uploaded image; the browser File handle it may carry is not modelled. */
  datatype ImageFile = ImageFile(name: string, url: string, analysis: Option<Analysis>)

  /** The five sequences the editor keeps per image, and the shape of a cached snapshot. */
  datatype DetectionSet = DetectionSet(
    boxes: seq<Box>,
    scores: seq<real>,
    modified: seq<bool>,
    eliminated: seq<bool>,
    isManual: seq<bool>)

  /** The five sequences have one entry per box. */
  predicate Parallel(d: DetectionSet)
  {
    |d.scores| == |d.boxes| && |d.modified| == |d.boxes|
    && |d.eliminated| == |d.boxes| && |d.isManual| == |d.boxes|
  }

  /** A flag list, when present, has one entry per box. */
  predicate FlagsFit(flags: Option<seq<bool>>, n: nat)
  {
    flags.Some? ==> |flags.value| == n
  }

  /** An analysis as the detector produces it: `count` boxes, one score and one flag each. */
  predicate WellFormed(a: Analysis)
  {
    a.count == |a.boxes| && |a.scores| == |a.boxes|
    && FlagsFit(a.modified, a.count) && FlagsFit(a.eliminated, a.count) && FlagsFit(a.isManual, a.count)
  }

  /** An image without analysis, or with a well-formed one. */
  predicate WellFormedImage(img: ImageFile)
  {
    img.analysis.Some? ==> WellFormed(img.analysis.value)
  }

  function Falses(n: nat): (r: seq<bool>)
    ensures |r| == n && forall i :: 0 <= i < n ==> !r[i]
  {
    seq(n, _ => false)
  }

  /** A flag list read as the editor reads it: a copy when present, `count` falses when absent. */
  function FlagsOrFalses(flags: Option<seq<bool>>, count: nat): (r: seq<bool>)
    ensures flags.Some? ==> r == flags.value
    ensures flags.None? ==> |r| == count && forall i :: 0 <= i < |r| ==> !r[i]
  {
    match flags
    case Some(fs) => fs
    case None => Falses(count)
  }

  /**
   * The detection sequences read from an optional analysis. Without an
   * analysis everything is empty; a flag is set only where the analysis
   * carries a list with that flag set.
   */
  function Seed(a: Option<Analysis>): (d: DetectionSet)
    ensures a.None? ==> d == DetectionSet([], [], [], [], [])
    ensures a.Some? ==> d.boxes == a.value.boxes && d.scores == a.value.scores
    ensures (a.Some? ==> WellFormed(a.value)) ==> Parallel(d)
    ensures forall i :: 0 <= i < |d.eliminated| && d.eliminated[i] ==>
      a.Some? && a.value.eliminated.Some? && i < |a.value.eliminated.value| && a.value.eliminated.value[i]
    ensures forall i :: 0 <= i < |d.modified| && d.modified[i] ==>
      a.Some? && a.value.modified.Some? && i < |a.value.modified.value| && a.value.modified.value[i]
    ensures forall i :: 0 <= i < |d.isManual| && d.isManual[i] ==>
      a.Some? && a.value.isManual.Some? && i < |a.value.isManual.value| && a.value.isManual.value[i]
  {
    match a
    case None => DetectionSet([], [], [], [], [])
    case Some(an) =>
      DetectionSet(an.boxes, an.scores,
        FlagsOrFalses(an.modified, an.count),
        FlagsOrFalses(an.eliminated, an.count),
        FlagsOrFalses(an.isManual, an.count))
  }

  /**
   * The record the editor hands back on save: the image with its analysis
   * replaced by the five sequences and `count = |boxes|`. The labels of the
   * old analysis are kept; the spread of an absent analysis has none.
   * Reading the record back with Seed gives the saved sequences again.
   */
  function SavedImage(image: ImageFile, live: DetectionSet): (r: ImageFile)
    ensures r.name == image.name && r.url == image.url && r.analysis.Some?
    ensures r.analysis.value.count == |live.boxes|
    ensures r.analysis.value.labels == (if image.analysis.Some? then image.analysis.value.labels else None)
    ensures Parallel(live) ==> WellFormedImage(r) && Seed(r.analysis) == live
  {
    var labels := if image.analysis.Some? then image.analysis.value.labels else None;
    ImageFile(image.name, image.url,
      Some(Analysis(live.boxes, live.scores, labels, |live.boxes|,
                    Some(live.modified), Some(live.eliminated), Some(live.isManual))))
  }
}
