/**
 * The value-level pieces of the image editor (useImageEditor in
 * frontend/src/hooks/useImageEditor.ts): mapping the pointer into image
 * pixels, resizing a box by a handle, the drawing preview, the bounding
 * rectangle a merge produces, toggling an index in the merge selection and
 * marking indices eliminated.
 */
module EditorGeometry {
  import opened EditorUtils

  datatype Point = Point(x: real, y: real)

  /** The natural pixel size of the loaded image. */
  datatype Size = Size(w: nat, h: nat)

  /** Where the image element is displayed on screen, as getBoundingClientRect reports it. */
  datatype DisplayRect = DisplayRect(left: real, top: real, width: real, height: real)

  /**
   * The pointer in image pixels: its offset from the displayed image scaled by
   * natural / displayed size, so the offset is to the displayed size as the
   * result is to the natural size. The displayed left and right edges go to 0
   * and to the natural width, and likewise vertically.
   */
  function ToImagePoint(client: Point, rect: DisplayRect, size: Size): (p: Point)
    requires rect.width > 0.0 && rect.height > 0.0
    ensures p.x * rect.width == (client.x - rect.left) * size.w as real
    ensures p.y * rect.height == (client.y - rect.top) * size.h as real
    ensures client.x == rect.left ==> p.x == 0.0
    ensures client.y == rect.top ==> p.y == 0.0
    ensures client.x == rect.left + rect.width ==> p.x == size.w as real
    ensures client.y == rect.top + rect.height ==> p.y == size.h as real
  {
    var scaleX := size.w as real / rect.width;
    var scaleY := size.h as real / rect.height;
    Point((client.x - rect.left) * scaleX, (client.y - rect.top) * scaleY)
  }

  /** The point clamped into [0, w] x [0, h]; a point already inside is left as it is. */
  function ClampPoint(p: Point, size: Size): (c: Point)
    ensures 0.0 <= c.x <= size.w as real && 0.0 <= c.y <= size.h as real
    ensures 0.0 <= p.x <= size.w as real ==> c.x == p.x
    ensures 0.0 <= p.y <= size.h as real ==> c.y == p.y
  {
    Point(Max(0.0, Min(size.w as real, p.x)), Max(0.0, Min(size.h as real, p.y)))
  }

  /**
   * The pointer position a move event uses: scaled, then clamped to the image.
   * It always lies in the image, and where the scaled point already does, it
   * is that point.
   */
  function Pointer(client: Point, rect: DisplayRect, size: Size): (c: Point)
    requires rect.width > 0.0 && rect.height > 0.0
    ensures 0.0 <= c.x <= size.w as real && 0.0 <= c.y <= size.h as real
    ensures var p := ToImagePoint(client, rect, size);
      (0.0 <= p.x <= size.w as real ==> c.x == p.x) && (0.0 <= p.y <= size.h as real ==> c.y == p.y)
  {
    ClampPoint(ToImagePoint(client, rect, size), size)
  }

  /** The minimum side a resize leaves, in image pixels. */
  const MinSide: real := 5.0

  /**
   * The box after dragging the named handle to p. Only the edges the handle
   * names move; a moved edge follows the pointer but stops MinSide short of
   * the opposite edge, so a handle naming one horizontal and one vertical
   * edge leaves at least MinSide in each direction.
   */
  function ResizedBox(b: Box, handle: string, p: Point): (r: Box)
    ensures 'w' !in handle ==> r.x1 == b.x1
    ensures 'e' !in handle ==> r.x2 == b.x2
    ensures 'n' !in handle ==> r.y1 == b.y1
    ensures 's' !in handle ==> r.y2 == b.y2
    ensures 'w' in handle && 'e' !in handle ==> Width(r) >= MinSide
    ensures 'e' in handle && 'w' !in handle ==> Width(r) >= MinSide
    ensures 'n' in handle && 's' !in handle ==> Height(r) >= MinSide
    ensures 's' in handle && 'n' !in handle ==> Height(r) >= MinSide
    ensures 'w' in handle && p.x <= b.x2 - MinSide ==> r.x1 == p.x
    ensures 'e' in handle && p.x >= b.x1 + MinSide ==> r.x2 == p.x
    ensures 'n' in handle && p.y <= b.y2 - MinSide ==> r.y1 == p.y
    ensures 's' in handle && p.y >= b.y1 + MinSide ==> r.y2 == p.y
  {
    Box(
      if 'w' in handle then Min(p.x, b.x2 - MinSide) else b.x1,
      if 'n' in handle then Min(p.y, b.y2 - MinSide) else b.y1,
      if 'e' in handle then Max(p.x, b.x1 + MinSide) else b.x2,
      if 's' in handle then Max(p.y, b.y1 + MinSide) else b.y2)
  }

  /** The four corner handles the canvas draws on the active box. */
  const CornerHandles: set<string> := {"nw", "ne", "sw", "se"}

  /** Every corner handle leaves the box at least MinSide wide and high. */
  lemma CornerResizeKeepsMinimum(b: Box, handle: string, p: Point)
    requires handle in CornerHandles
    ensures Width(ResizedBox(b, handle, p)) >= MinSide && Height(ResizedBox(b, handle, p)) >= MinSide
  {
    assert handle == "nw" || handle == "ne" || handle == "sw" || handle == "se";
    assert handle[0] in "ns" && handle[1] in "we";
    assert |handle| == 2;
    assert ('w' in handle) != ('e' in handle);
    assert ('n' in handle) != ('s' in handle);
  }

  /**
   * The box being drawn from anchor to p: the two points are opposite corners,
   * the result is normalised (x1 <= x2, y1 <= y2) and does not depend on which
   * point is the anchor.
   */
  function PreviewBox(anchor: Point, p: Point): (r: Box)
    ensures r.x1 <= r.x2 && r.y1 <= r.y2
    ensures {r.x1, r.x2} == {anchor.x, p.x} && {r.y1, r.y2} == {anchor.y, p.y}
  {
    Box(Min(anchor.x, p.x), Min(anchor.y, p.y), Max(anchor.x, p.x), Max(anchor.y, p.y))
  }

  /** Dragging from p back to the anchor draws the same box. */
  lemma PreviewSymmetric(anchor: Point, p: Point)
    ensures PreviewBox(anchor, p) == PreviewBox(p, anchor)
  {
  }

  /**
   * A drawn box is committed only when it is more than 5 pixels wide and
   * high; such a box covers more than 25 square pixels.
   */
  predicate Committable(b: Box)
    ensures Committable(b) ==> Area(b) > 25.0
  {
    if b.x2 - b.x1 > 5.0 && b.y2 - b.y1 > 5.0 then
      MulStrict(5.0, Width(b), 5.0);
      MulStrict(5.0, Height(b), Width(b));
      true
    else false
  }

  /** The smallest box holding both a and b. */
  function Enclose(a: Box, b: Box): Box
  {
    Box(Min(a.x1, b.x1), Min(a.y1, b.y1), Max(a.x2, b.x2), Max(a.y2, b.y2))
  }

  /**
   * [min x1, min y1, max x2, max y2] over a non-empty list of boxes: it holds
   * every box, and each of its edges is the edge of some box.
   */
  function BoundingRect(bs: seq<Box>): (r: Box)
    requires |bs| > 0
    ensures forall k :: 0 <= k < |bs| ==> Inside(bs[k], r)
    ensures exists k :: 0 <= k < |bs| && bs[k].x1 == r.x1
    ensures exists k :: 0 <= k < |bs| && bs[k].y1 == r.y1
    ensures exists k :: 0 <= k < |bs| && bs[k].x2 == r.x2
    ensures exists k :: 0 <= k < |bs| && bs[k].y2 == r.y2
  {
    if |bs| == 1 then bs[0]
    else
      var front := bs[..|bs| - 1];
      var r := Enclose(BoundingRect(front), bs[|bs| - 1]);
      assert forall k :: 0 <= k < |front| ==> front[k] == bs[k];
      r
  }

  /** Any box holding all of bs holds their bounding rectangle: it is the smallest such box. */
  lemma BoundingRectIsSmallest(bs: seq<Box>, e: Box)
    requires |bs| > 0
    requires forall k :: 0 <= k < |bs| ==> Inside(bs[k], e)
    ensures Inside(BoundingRect(bs), e)
  {
    var r := BoundingRect(bs);
    var i :| 0 <= i < |bs| && bs[i].x1 == r.x1;
    var j :| 0 <= j < |bs| && bs[j].y1 == r.y1;
    var k :| 0 <= k < |bs| && bs[k].x2 == r.x2;
    var l :| 0 <= l < |bs| && bs[l].y2 == r.y2;
    assert Inside(bs[i], e) && Inside(bs[j], e) && Inside(bs[k], e) && Inside(bs[l], e);
  }

  /** No index occurs twice. */
  predicate Distinct(s: seq<nat>)
  {
    forall p, q :: 0 <= p < q < |s| ==> s[p] != s[q]
  }

  /**
   * `s.filter(j => j !== i)`: every other index, in the same order. A list
   * without i comes back as it is; from a repeat-free list holding i, exactly
   * the one entry i is cut out.
   */
  function Remove(s: seq<nat>, i: nat): (r: seq<nat>)
    ensures forall j :: j in r <==> j in s && j != i
    ensures |r| <= |s|
    ensures Distinct(s) ==> Distinct(r)
    ensures i !in s ==> r == s
    ensures Distinct(s) && i in s ==> exists k :: 0 <= k < |s| && s[k] == i && r == s[..k] + s[k + 1..]
  {
    if |s| == 0 then []
    else
      var rest := Remove(s[1..], i);
      if s[0] == i then
        DropHead(s, i, rest);
        rest
      else
        KeepHead(s, i, rest);
        [s[0]] + rest
  }

  /** The step of Remove that drops the head: what holds of the tail holds of the whole. */
  lemma DropHead(s: seq<nat>, i: nat, rest: seq<nat>)
    requires |s| > 0 && s[0] == i
    requires forall j :: j in rest <==> j in s[1..] && j != i
    requires |rest| <= |s[1..]|
    requires Distinct(s[1..]) ==> Distinct(rest)
    requires i !in s[1..] ==> rest == s[1..]
    ensures forall j :: j in rest <==> j in s && j != i
    ensures |rest| <= |s|
    ensures Distinct(s) ==> Distinct(rest)
    ensures Distinct(s) && i in s ==> exists k :: 0 <= k < |s| && s[k] == i && rest == s[..k] + s[k + 1..]
  {
    assert forall j :: j in s <==> j == s[0] || j in s[1..];
    if Distinct(s) {
      assert Distinct(s[1..]) && i !in s[1..];
      assert rest == s[..0] + s[0 + 1..];
    }
  }

  /** The step of Remove that keeps the head: what holds of the tail holds of the whole. */
  lemma KeepHead(s: seq<nat>, i: nat, rest: seq<nat>)
    requires |s| > 0 && s[0] != i
    requires forall j :: j in rest <==> j in s[1..] && j != i
    requires |rest| <= |s[1..]|
    requires Distinct(s[1..]) ==> Distinct(rest)
    requires i !in s[1..] ==> rest == s[1..]
    requires Distinct(s[1..]) && i in s[1..] ==>
      exists k :: 0 <= k < |s[1..]| && s[1..][k] == i && rest == s[1..][..k] + s[1..][k + 1..]
    ensures forall j :: j in [s[0]] + rest <==> j in s && j != i
    ensures |[s[0]] + rest| <= |s|
    ensures Distinct(s) ==> Distinct([s[0]] + rest)
    ensures i !in s ==> [s[0]] + rest == s
    ensures Distinct(s) && i in s ==> exists k :: 0 <= k < |s| && s[k] == i && [s[0]] + rest == s[..k] + s[k + 1..]
  {
    assert forall j :: j in s <==> j == s[0] || j in s[1..];
    assert s == [s[0]] + s[1..];
    if Distinct(s) {
      assert Distinct(s[1..]) && s[0] !in s[1..];
      ConsDistinct(s[0], rest);
      if i in s {
        var k :| 0 <= k < |s[1..]| && s[1..][k] == i && rest == s[1..][..k] + s[1..][k + 1..];
        CutBehindHead(s, k, rest);
        assert s[k + 1] == i;
      }
    }
  }

  /** Putting an index that is not in a repeat-free list in front of it keeps it repeat-free. */
  lemma ConsDistinct(x: nat, rest: seq<nat>)
    requires Distinct(rest) && x !in rest
    ensures Distinct([x] + rest)
  {
    var r := [x] + rest;
    forall p, q | 0 <= p < q < |r| ensures r[p] != r[q] {
      assert r[q] == rest[q - 1];
      if p > 0 {
        assert r[p] == rest[p - 1];
      }
    }
  }

  /** Cutting entry k from the tail of s is cutting entry k + 1 from s, once the head is put back. */
  lemma CutBehindHead(s: seq<nat>, k: nat, rest: seq<nat>)
    requires k + 1 < |s| && rest == s[1..][..k] + s[1..][k + 1..]
    ensures [s[0]] + rest == s[..k + 1] + s[k + 2..]
  {
    assert s[1..][..k] == s[1..k + 1];
    assert s[1..][k + 1..] == s[k + 2..];
    assert [s[0]] + s[1..k + 1] == s[..k + 1];
  }

  /**
   * toggleBox on the merge selection: the index leaves the selection when it
   * was in it and joins it at the end otherwise; every other index keeps its
   * membership, and the selection stays free of repeats.
   */
  function ToggledSelection(sel: seq<nat>, i: nat): (r: seq<nat>)
    ensures i in r <==> i !in sel
    ensures forall j :: j != i ==> (j in r <==> j in sel)
    ensures i !in sel ==> r == sel + [i]
    ensures Distinct(sel) && i in sel ==> exists k :: 0 <= k < |sel| && sel[k] == i && r == sel[..k] + sel[k + 1..]
    ensures Distinct(sel) ==> Distinct(r)
  {
    if i in sel then Remove(sel, i) else sel + [i]
  }

  /**
   * Deselecting a box other than the first keeps the first selected box first,
   * so it stays the master of a later merge.
   */
  lemma DeselectKeepsMaster(sel: seq<nat>, i: nat)
    requires Distinct(sel) && |sel| > 0 && i in sel && i != sel[0]
    ensures |ToggledSelection(sel, i)| > 0 && ToggledSelection(sel, i)[0] == sel[0]
  {
    var k :| 0 <= k < |sel| && sel[k] == i && ToggledSelection(sel, i) == sel[..k] + sel[k + 1..];
    assert k > 0;
    assert (sel[..k] + sel[k + 1..])[0] == sel[..k][0];
  }

  /** Removing the index just appended gives the selection back. */
  lemma {:induction false} RemoveLast(s: seq<nat>, i: nat)
    requires i !in s
    ensures Remove(s + [i], i) == s
  {
    if |s| == 0 {
      assert Remove([i], i) == Remove([], i);
    } else {
      assert (s + [i])[1..] == s[1..] + [i];
      RemoveLast(s[1..], i);
    }
  }

  /** Clicking an unselected box twice in merge mode leaves the selection as it was. */
  lemma ToggleTwiceRestores(sel: seq<nat>, i: nat)
    requires i !in sel
    ensures ToggledSelection(ToggledSelection(sel, i), i) == sel
  {
    RemoveLast(sel, i);
  }

  /** The flags with every listed index set, the rest as they were. */
  function Marked(flags: seq<bool>, idxs: seq<nat>): (r: seq<bool>)
    ensures |r| == |flags|
  {
    seq(|flags|, p requires 0 <= p < |flags| => flags[p] || p in idxs)
  }

  /** `idxs.forEach(idx => next[idx] = true)` on a copy of the flags. */
  method MarkEliminated(flags: seq<bool>, idxs: seq<nat>) returns (next: seq<bool>)
    requires forall k :: 0 <= k < |idxs| ==> idxs[k] < |flags|
    ensures next == Marked(flags, idxs)
    ensures forall p :: 0 <= p < |flags| ==> (next[p] <==> flags[p] || p in idxs)
  {
    next := flags;
    var k := 0;
    while k < |idxs|
      invariant k <= |idxs|
      invariant |next| == |flags|
      invariant forall p :: 0 <= p < |flags| ==> (next[p] <==> flags[p] || p in idxs[..k])
    {
      assert idxs[..k + 1] == idxs[..k] + [idxs[k]];
      next := next[idxs[k] := true];
      k := k + 1;
    }
    assert idxs[..k] == idxs;
  }
}
