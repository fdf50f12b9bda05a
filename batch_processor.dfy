/**
 * The crop window of the batch cropping script (center_on_bbox in
 * scripts/batch_processor.py): a window centred on a bounding box, twice the
 * box's size or a fixed output size, clamped to the image. Python's `//` by 2
 * floors, as Dafny's `/` does for a positive divisor.
 *
 * resize_with_dynamic_padding returns its image at once, so everything after
 * its first line never runs.
 */
module BatchProcessor {
  import opened Options

  /** A bounding box [x1, y1, x2, y2] in pixels. */
  datatype BBox = BBox(x1: int, y1: int, x2: int, y2: int)

  /** The (left, top, right, bottom) rectangle handed to the crop. */
  datatype Window = Window(left: int, top: int, right: int, bottom: int)

  function Max(a: int, b: int): int { if a >= b then a else b }
  function Min(a: int, b: int): int { if a <= b then a else b }

  /** `(a + b) // 2`: the midpoint rounded down. */
  function Midpoint(a: int, b: int): (m: int)
    ensures 2 * m <= a + b < 2 * m + 2
  {
    (a + b) / 2
  }

  /** The crop size: the output size when one is given, twice the box's extent otherwise. */
  function CropSize(b: BBox, outputSize: Option<(int, int)>): (r: (int, int))
    ensures outputSize.Some? ==> r == outputSize.value
    ensures outputSize.None? ==> r.0 / 2 == b.x2 - b.x1 && r.1 / 2 == b.y2 - b.y1
  {
    match outputSize
    case Some(size) => size
    case None => ((b.x2 - b.x1) * 2, (b.y2 - b.y1) * 2)
  }

  /**
   * center_on_bbox without the pixel work: the window reaches half the crop
   * size either side of the box's centre and is cut off at the image's edges,
   * so it never leaves the image and is never wider or higher than the crop.
   */
  function CenterOnBbox(b: BBox, width: nat, height: nat, outputSize: Option<(int, int)>): (w: Window)
    ensures 0 <= w.left && 0 <= w.top && w.right <= width && w.bottom <= height
    ensures w.right - w.left <= CropSize(b, outputSize).0
    ensures w.bottom - w.top <= CropSize(b, outputSize).1
  {
    var cx := Midpoint(b.x1, b.x2);
    var cy := Midpoint(b.y1, b.y2);
    var (cropWidth, cropHeight) := CropSize(b, outputSize);
    var w := Window(
      Max(0, cx - cropWidth / 2),
      Max(0, cy - cropHeight / 2),
      Min(width, cx + cropWidth / 2),
      Min(height, cy + cropHeight / 2));
    HalvesFit(cropWidth);
    HalvesFit(cropHeight);
    w
  }

  /** Twice the floor of half of n is at most n. */
  lemma HalvesFit(n: int)
    ensures 2 * (n / 2) <= n
  {
  }

  /**
   * Without an output size, a box inside the image lies inside its window:
   * the half-extent is the box's full extent, which reaches past both edges
   * from the rounded-down centre.
   */
  lemma WindowHoldsBox(b: BBox, width: nat, height: nat)
    requires 0 <= b.x1 <= b.x2 <= width && 0 <= b.y1 <= b.y2 <= height
    ensures var w := CenterOnBbox(b, width, height, None);
      w.left <= b.x1 && b.x2 <= w.right && w.top <= b.y1 && b.y2 <= w.bottom
  {
    var cx := Midpoint(b.x1, b.x2);
    var cy := Midpoint(b.y1, b.y2);
    assert cx - (b.x2 - b.x1) <= b.x1 && b.x2 <= cx + (b.x2 - b.x1);
    assert cy - (b.y2 - b.y1) <= b.y1 && b.y2 <= cy + (b.y2 - b.y1);
  }

  /**
   * With an output size, the window depends only on the box's centre, not on
   * its extent: two boxes with the same centre get the same window.
   */
  lemma FixedSizeIgnoresExtent(a: BBox, b: BBox, width: nat, height: nat, size: (int, int))
    requires Midpoint(a.x1, a.x2) == Midpoint(b.x1, b.x2) && Midpoint(a.y1, a.y2) == Midpoint(b.y1, b.y2)
    ensures CenterOnBbox(a, width, height, Some(size)) == CenterOnBbox(b, width, height, Some(size))
  {
  }

  /**
   * Away from the image's edges the window is centred on the box: its left
   * and right edges are the same distance from the centre, and likewise
   * vertically.
   */
  lemma WindowCentred(b: BBox, width: nat, height: nat, outputSize: Option<(int, int)>)
    requires var (cw, ch) := CropSize(b, outputSize);
      && 0 <= Midpoint(b.x1, b.x2) - cw / 2 && Midpoint(b.x1, b.x2) + cw / 2 <= width
      && 0 <= Midpoint(b.y1, b.y2) - ch / 2 && Midpoint(b.y1, b.y2) + ch / 2 <= height
    ensures var w := CenterOnBbox(b, width, height, outputSize);
      && w.left + w.right == 2 * Midpoint(b.x1, b.x2)
      && w.top + w.bottom == 2 * Midpoint(b.y1, b.y2)
  {
  }

  /** resize_with_dynamic_padding: the image comes back as it was passed, whatever the target sizes. */
  function ResizeWithDynamicPadding<Image>(img: Image, sizeV: (int, int), sizeH: (int, int)): (r: Image)
    ensures r == img
  {
    img
  }
}
