/**
 * The image editor's state machine: the useImageEditor hook
 * (frontend/src/hooks/useImageEditor.ts) together with the mode buttons and
 * the saving gate of ImageEditorModal (frontend/src/components/ImageEditorModal.tsx).
 * Each React state slot and ref is a field of Editor, each handler a method
 * that runs to completion before the next; the module-level snapshot cache
 * is a SnapshotCache shared by every editor.
 */
module ImageEditor {
  import opened Options
  import opened EditorUtils
  import opened ConflictDetection
  import opened ImageTypes
  import opened EditorGeometry

  /**
   * originalStateCache: the detection sequences each image URL had when the
   * editor first saw it. An entry, once written, is never replaced.
   */
  class SnapshotCache {
    var entries: map<string, DetectionSet>

    predicate Valid()
      reads this
    {
      forall url :: url in entries ==> Parallel(entries[url])
    }

    constructor ()
      ensures entries == map[] && Valid()
    {
      entries := map[];
    }

    /**
     * getCachedOriginals: the first call for a URL stores the sequences read
     * from the image; later calls return that entry as it is.
     */
    method GetCachedOriginals(img: ImageFile) returns (d: DetectionSet)
      requires Valid() && WellFormedImage(img)
      modifies this`entries
      ensures Valid() && img.url in entries && d == entries[img.url] && Parallel(d)
      ensures img.url in old(entries) ==> entries == old(entries)
      ensures img.url !in old(entries) ==> entries == old(entries)[img.url := Seed(img.analysis)]
    {
      if img.url !in entries {
        entries := entries[img.url := Seed(img.analysis)];
      }
      d := entries[img.url];
    }
  }

  class Editor {
    /** currentImageKey: the URL the state below belongs to. */
    var imageKey: string
    /** The selectedImage prop of the latest render. */
    var image: ImageFile
    /** The five originalXSnapshot slots, always set together from the cache. */
    var original: DetectionSet

    var boxes: seq<Box>
    var scores: seq<real>
    var modified: seq<bool>
    var eliminated: seq<bool>
    var isManual: seq<bool>

    var activeBoxIndex: Option<nat>
    var suggestions: seq<Conflict>
    var isMergeMode: bool
    var mergeSelection: seq<nat>
    var isDrawingMode: bool
    var currentDrawingBox: Option<Box>
    /** drawingStartRef */
    var drawingStart: Option<Point>
    var naturalSize: Option<Size>
    var isResizing: bool
    /** resizeRef: the handle being dragged. */
    var resizeHandle: Option<string>
    var isSaving: bool
    /** The record the pending save timer will hand to the parent, fixed when Save was pressed. */
    var pendingSave: Option<ImageFile>

    /** The five live sequences as one value. */
    function Live(): DetectionSet
      reads this
    {
      DetectionSet(boxes, scores, modified, eliminated, isManual)
    }

    /**
     * The live and the snapshot sequences are each parallel; the active index
     * and the merge selection point at boxes, the selection has no repeats,
     * and a save is pending exactly while the editor is saving.
     */
    predicate Valid()
      reads this
    {
      && Parallel(Live()) && Parallel(original)
      && (activeBoxIndex.Some? ==> activeBoxIndex.value < |boxes|)
      && (forall k :: 0 <= k < |mergeSelection| ==> mergeSelection[k] < |boxes|)
      && Distinct(mergeSelection)
      && (isSaving <==> pendingSave.Some?)
    }

    /** Mounting the editor on an image: snapshot from the cache, live state from the image. */
    constructor (selected: ImageFile, cache: SnapshotCache)
      requires cache.Valid() && WellFormedImage(selected)
      modifies cache`entries
      ensures Valid() && cache.Valid()
      ensures imageKey == selected.url && image == selected
      ensures selected.url in old(cache.entries) ==> cache.entries == old(cache.entries)
      ensures selected.url !in old(cache.entries) ==> cache.entries == old(cache.entries)[selected.url := Seed(selected.analysis)]
      ensures original == cache.entries[selected.url]
      ensures Live() == Seed(selected.analysis)
      ensures activeBoxIndex.None? && suggestions == [] && !isMergeMode && mergeSelection == []
      ensures !isDrawingMode && currentDrawingBox.None? && drawingStart.None? && naturalSize.None?
      ensures !isResizing && resizeHandle.None? && !isSaving
    {
      var defaults := cache.GetCachedOriginals(selected);
      var seeded := Seed(selected.analysis);
      imageKey := selected.url;
      image := selected;
      original := defaults;
      boxes := seeded.boxes;
      scores := seeded.scores;
      modified := seeded.modified;
      eliminated := seeded.eliminated;
      isManual := seeded.isManual;
      activeBoxIndex := None;
      suggestions := [];
      isMergeMode := false;
      mergeSelection := [];
      isDrawingMode := false;
      currentDrawingBox := None;
      drawingStart := None;
      naturalSize := None;
      isResizing := false;
      resizeHandle := None;
      isSaving := false;
      pendingSave := None;
    }

    /**
     * A render with the (possibly new) selected image. When its URL differs
     * from the current key, the snapshot is reloaded from the cache, the live
     * sequences are read from the image, and size, active box, modes and
     * selection are reset; drawing preview, resize and save state are kept.
     */
    method ReceiveImage(selected: ImageFile, cache: SnapshotCache)
      requires Valid() && cache.Valid() && WellFormedImage(selected)
      modifies this`image, this`imageKey, this`original, this`boxes, this`scores, this`modified
      modifies this`eliminated, this`isManual, this`naturalSize, this`activeBoxIndex
      modifies this`isMergeMode, this`isDrawingMode, this`mergeSelection, cache`entries
      ensures Valid() && cache.Valid() && image == selected && imageKey == selected.url
      ensures old(imageKey) == selected.url ==>
        && unchanged(cache) && original == old(original) && Live() == old(Live())
        && naturalSize == old(naturalSize) && activeBoxIndex == old(activeBoxIndex)
        && isMergeMode == old(isMergeMode) && isDrawingMode == old(isDrawingMode)
        && mergeSelection == old(mergeSelection)
      ensures old(imageKey) != selected.url ==>
        && selected.url in cache.entries && original == cache.entries[selected.url]
        && (selected.url in old(cache.entries) ==> cache.entries == old(cache.entries))
        && (selected.url !in old(cache.entries) ==>
              cache.entries == old(cache.entries)[selected.url := Seed(selected.analysis)])
        && Live() == Seed(selected.analysis)
        && naturalSize.None? && activeBoxIndex.None? && !isMergeMode && !isDrawingMode
        && mergeSelection == []
    {
      image := selected;
      if selected.url != imageKey {
        LoadImage(selected, cache);
      }
    }

    /** The image-switching branch of a render: key, snapshot and live state follow the new image. */
    method LoadImage(selected: ImageFile, cache: SnapshotCache)
      requires Valid() && cache.Valid() && WellFormedImage(selected)
      modifies this`imageKey, this`original, this`boxes, this`scores, this`modified
      modifies this`eliminated, this`isManual, this`naturalSize, this`activeBoxIndex
      modifies this`isMergeMode, this`isDrawingMode, this`mergeSelection, cache`entries
      ensures Valid() && cache.Valid() && imageKey == selected.url
      ensures selected.url in cache.entries && original == cache.entries[selected.url]
      ensures selected.url in old(cache.entries) ==> cache.entries == old(cache.entries)
      ensures selected.url !in old(cache.entries) ==>
        cache.entries == old(cache.entries)[selected.url := Seed(selected.analysis)]
      ensures Live() == Seed(selected.analysis)
      ensures naturalSize.None? && activeBoxIndex.None? && !isMergeMode && !isDrawingMode && mergeSelection == []
    {
      imageKey := selected.url;
      var originals := cache.GetCachedOriginals(selected);
      original := originals;
      ResetLive(Seed(selected.analysis));
    }

    /** The live sequences replaced by d; no box active, no mode, no selection, size unknown. */
    method ResetLive(d: DetectionSet)
      requires Parallel(d) && Parallel(original) && (isSaving <==> pendingSave.Some?)
      modifies this`boxes, this`scores, this`modified, this`eliminated, this`isManual
      modifies this`naturalSize, this`activeBoxIndex, this`isMergeMode, this`isDrawingMode, this`mergeSelection
      ensures Valid() && Live() == d
      ensures naturalSize.None? && activeBoxIndex.None? && !isMergeMode && !isDrawingMode && mergeSelection == []
    {
      boxes := d.boxes;
      modified := d.modified;
      eliminated := d.eliminated;
      isManual := d.isManual;
      scores := d.scores;
      naturalSize := None;
      activeBoxIndex := None;
      isMergeMode := false;
      isDrawingMode := false;
      mergeSelection := [];
    }

    /**
     * The conflict effect: unless a resize or a drawing is in progress, the
     * suggestions are recomputed from the live boxes and flags.
     */
    method RefreshSuggestions()
      modifies this`suggestions
      ensures isResizing || currentDrawingBox.Some? ==> suggestions == old(suggestions)
      ensures !isResizing && currentDrawingBox.None? ==> suggestions == Conflicts(boxes, eliminated)
    {
      if !(isResizing || currentDrawingBox.Some?) {
        suggestions := DetectConflicts(boxes, eliminated);
      }
    }

    /**
     * toggleBox. In merge mode a live index enters or leaves the selection and
     * an eliminated one is ignored; otherwise the active index is toggled
     * between this box and none.
     */
    method ToggleBox(index: nat)
      requires Valid() && index < |boxes|
      modifies this`mergeSelection, this`activeBoxIndex
      ensures Valid()
      ensures isMergeMode && eliminated[index] ==> unchanged(this)
      ensures isMergeMode && !eliminated[index] ==>
        mergeSelection == ToggledSelection(old(mergeSelection), index) && activeBoxIndex == old(activeBoxIndex)
      ensures !isMergeMode ==> mergeSelection == old(mergeSelection)
      ensures !isMergeMode ==> activeBoxIndex == (if old(activeBoxIndex) == Some(index) then None else Some(index))
    {
      if isMergeMode {
        if eliminated[index] {
          return;
        }
        var next := ToggledSelection(mergeSelection, index);
        assert forall k :: 0 <= k < |next| ==> next[k] in next;
        mergeSelection := next;
      } else {
        activeBoxIndex := if activeBoxIndex == Some(index) then None else Some(index);
      }
    }

    /** handleApplySuggestion: enter merge mode with the conflict's boxes selected. */
    method ApplySuggestion(indices: seq<nat>)
      requires Valid() && Distinct(indices)
      requires forall k :: 0 <= k < |indices| ==> indices[k] < |boxes|
      modifies this`isMergeMode, this`mergeSelection, this`activeBoxIndex
      ensures Valid() && isMergeMode && mergeSelection == indices && activeBoxIndex.None?
    {
      isMergeMode := true;
      mergeSelection := indices;
      activeBoxIndex := None;
    }

    /**
     * handleMergeSelected. With at least two selected boxes, the first becomes
     * the bounding rectangle of the selection and is marked modified, the
     * others are eliminated, and merge mode ends with an empty selection;
     * scores and manual flags are untouched. With fewer it does nothing.
     */
    method MergeSelected()
      requires Valid()
      modifies this`boxes, this`modified, this`eliminated, this`mergeSelection, this`isMergeMode
      ensures Valid()
      ensures |old(mergeSelection)| < 2 ==> unchanged(this)
      ensures |old(mergeSelection)| >= 2 ==>
        && boxes == old(boxes)[old(mergeSelection)[0] := BoundingRect(BoxesAt(old(boxes), old(mergeSelection)))]
        && modified == old(modified)[old(mergeSelection)[0] := true]
        && eliminated == Marked(old(eliminated), old(mergeSelection)[1..])
        && eliminated[old(mergeSelection)[0]] == old(eliminated)[old(mergeSelection)[0]]
        && mergeSelection == [] && !isMergeMode
    {
      if |mergeSelection| < 2 {
        return;
      }
      var boxesToMerge := BoxesAt(boxes, mergeSelection);
      var merged := BoundingRect(boxesToMerge);
      var masterIndex := mergeSelection[0];
      var indexesToEliminate := mergeSelection[1..];
      var nextEliminated := MarkEliminated(eliminated, indexesToEliminate);
      assert masterIndex !in indexesToEliminate;
      CommitMerge(masterIndex, merged, nextEliminated);
    }

    /** The state a merge leaves: the master box replaced and marked modified, the new flags, merge mode over. */
    method CommitMerge(masterIndex: nat, merged: Box, nextEliminated: seq<bool>)
      requires Valid() && masterIndex < |boxes| && |nextEliminated| == |boxes|
      modifies this`boxes, this`modified, this`eliminated, this`mergeSelection, this`isMergeMode
      ensures Valid()
      ensures boxes == old(boxes)[masterIndex := merged] && modified == old(modified)[masterIndex := true]
      ensures eliminated == nextEliminated && mergeSelection == [] && !isMergeMode
    {
      boxes := boxes[masterIndex := merged];
      modified := modified[masterIndex := true];
      eliminated := nextEliminated;
      mergeSelection := [];
      isMergeMode := false;
    }

    /** handleBatchDelete: eliminate exactly the selected boxes and leave merge mode; nothing on an empty selection. */
    method BatchDelete()
      requires Valid()
      modifies this`eliminated, this`mergeSelection, this`isMergeMode
      ensures Valid()
      ensures |old(mergeSelection)| == 0 ==> unchanged(this)
      ensures |old(mergeSelection)| > 0 ==>
        eliminated == Marked(old(eliminated), old(mergeSelection)) && mergeSelection == [] && !isMergeMode
    {
      if |mergeSelection| == 0 {
        return;
      }
      eliminated := MarkEliminated(eliminated, mergeSelection);
      mergeSelection := [];
      isMergeMode := false;
    }

    /**
     * handleEliminateAll, with the answer of the confirmation dialog as a
     * parameter; its button is disabled while saving.
     */
    method EliminateAll(confirmed: bool)
      requires Valid() && !isSaving
      modifies this`eliminated, this`mergeSelection, this`isMergeMode, this`activeBoxIndex
      ensures Valid()
      ensures !confirmed ==> unchanged(this)
      ensures confirmed ==>
        && |eliminated| == |boxes| && (forall i :: 0 <= i < |boxes| ==> eliminated[i])
        && mergeSelection == [] && !isMergeMode && activeBoxIndex.None?
    {
      if confirmed {
        eliminated := seq(|boxes|, _ => true);
        mergeSelection := [];
        isMergeMode := false;
        activeBoxIndex := None;
      }
    }

    /**
     * toggleElimination: flip one flag; the active index is cleared only when
     * it was this box and the box is now eliminated.
     */
    method ToggleElimination(index: nat)
      requires Valid() && index < |boxes|
      modifies this`eliminated, this`activeBoxIndex
      ensures Valid()
      ensures eliminated == old(eliminated)[index := !old(eliminated)[index]]
      ensures activeBoxIndex ==
        (if eliminated[index] && old(activeBoxIndex) == Some(index) then None else old(activeBoxIndex))
    {
      var willBeEliminated := !eliminated[index];
      eliminated := eliminated[index := !eliminated[index]];
      if willBeEliminated && activeBoxIndex == Some(index) {
        activeBoxIndex := None;
      }
    }

    /** handleResizeStart: ignored on an eliminated box; otherwise that box becomes active and the handle is held. */
    method ResizeStart(index: nat, handle: string)
      requires Valid() && index < |boxes|
      modifies this`activeBoxIndex, this`isResizing, this`resizeHandle
      ensures Valid()
      ensures eliminated[index] ==> unchanged(this)
      ensures !eliminated[index] ==> activeBoxIndex == Some(index) && isResizing && resizeHandle == Some(handle)
    {
      if eliminated[index] {
        return;
      }
      if activeBoxIndex != Some(index) {
        activeBoxIndex := Some(index);
      }
      isResizing := true;
      resizeHandle := Some(handle);
    }

    /**
     * handleContainerMouseMove. Once the image element and its natural size are
     * known, the pointer is mapped into the image and clamped; a resize in
     * progress moves the handle's edges of the active box and marks it
     * modified, and a drawing in progress updates the preview.
     */
    method MouseMove(client: Point, rect: Option<DisplayRect>)
      requires Valid()
      requires rect.Some? && naturalSize.Some? ==> rect.value.width > 0.0 && rect.value.height > 0.0
      modifies this`boxes, this`modified, this`currentDrawingBox
      ensures Valid()
      ensures rect.None? || naturalSize.None? ==> unchanged(this)
      ensures rect.Some? && naturalSize.Some? ==>
        var cur := Pointer(client, rect.value, naturalSize.value);
        && (if isResizing && resizeHandle.Some? && activeBoxIndex.Some?
            then boxes == old(boxes)[activeBoxIndex.value :=
                            ResizedBox(old(boxes)[activeBoxIndex.value], resizeHandle.value, cur)]
                 && modified == old(modified)[activeBoxIndex.value := true]
            else boxes == old(boxes) && modified == old(modified))
        && currentDrawingBox ==
             (if isDrawingMode && drawingStart.Some? then Some(PreviewBox(drawingStart.value, cur))
              else old(currentDrawingBox))
    {
      if rect.None? || naturalSize.None? {
        return;
      }
      var cur := Pointer(client, rect.value, naturalSize.value);
      if isResizing && resizeHandle.Some? && activeBoxIndex.Some? {
        var a := activeBoxIndex.value;
        var newBox := ResizedBox(boxes[a], resizeHandle.value, cur);
        boxes := boxes[a := newBox];
        modified := modified[a := true];
      }
      if isDrawingMode && drawingStart.Some? {
        currentDrawingBox := Some(PreviewBox(drawingStart.value, cur));
      }
    }

    /**
     * handleContainerMouseDown: in drawing mode, with the image measured, the
     * pointer (scaled but not clamped) becomes the anchor and a zero-size preview.
     */
    method MouseDown(client: Point, rect: Option<DisplayRect>)
      requires Valid()
      requires isDrawingMode && rect.Some? && naturalSize.Some? ==> rect.value.width > 0.0 && rect.value.height > 0.0
      modifies this`drawingStart, this`currentDrawingBox
      ensures Valid()
      ensures !(isDrawingMode && rect.Some? && naturalSize.Some?) ==> unchanged(this)
      ensures isDrawingMode && rect.Some? && naturalSize.Some? ==>
        var p := ToImagePoint(client, rect.value, naturalSize.value);
        drawingStart == Some(p) && currentDrawingBox == Some(Box(p.x, p.y, p.x, p.y))
    {
      if isDrawingMode && rect.Some? && naturalSize.Some? {
        var p := ToImagePoint(client, rect.value, naturalSize.value);
        drawingStart := Some(p);
        currentDrawingBox := Some(Box(p.x, p.y, p.x, p.y));
      }
    }

    /**
     * handleContainerMouseUp, reached from anywhere on the overlay. A resize
     * ends. In drawing mode a preview more than 5 pixels wide and high is
     * appended to all five sequences (unmodified, live, manual, score 1.0)
     * and becomes active; the preview and anchor are cleared either way.
     */
    method MouseUp()
      requires Valid()
      modifies this`isResizing, this`resizeHandle, this`boxes, this`modified, this`eliminated
      modifies this`isManual, this`scores, this`activeBoxIndex, this`currentDrawingBox, this`drawingStart
      ensures Valid()
      ensures !isResizing
      ensures old(isResizing) ==> resizeHandle.None?
      ensures !old(isResizing) ==> resizeHandle == old(resizeHandle)
      ensures isDrawingMode && old(currentDrawingBox).Some? ==>
        && currentDrawingBox.None? && drawingStart.None?
        && (Committable(old(currentDrawingBox).value) ==>
              && Live() == DetectionSet(old(boxes) + [old(currentDrawingBox).value], old(scores) + [1.0],
                                        old(modified) + [false], old(eliminated) + [false], old(isManual) + [true])
              && activeBoxIndex == Some(|old(boxes)|))
        && (!Committable(old(currentDrawingBox).value) ==>
              Live() == old(Live()) && activeBoxIndex == old(activeBoxIndex))
      ensures !(isDrawingMode && old(currentDrawingBox).Some?) ==>
        && Live() == old(Live()) && activeBoxIndex == old(activeBoxIndex)
        && currentDrawingBox == old(currentDrawingBox) && drawingStart == old(drawingStart)
    {
      if isResizing {
        isResizing := false;
        resizeHandle := None;
      }
      if isDrawingMode && currentDrawingBox.Some? {
        FinishDrawing();
      }
    }

    /**
     * The drawing half of mouse-up: a preview more than 5 pixels wide and
     * high becomes a new manual box, made active; the preview and anchor are cleared.
     */
    method FinishDrawing()
      requires Valid() && currentDrawingBox.Some?
      modifies this`boxes, this`modified, this`eliminated, this`isManual, this`scores
      modifies this`activeBoxIndex, this`currentDrawingBox, this`drawingStart
      ensures Valid() && currentDrawingBox.None? && drawingStart.None?
      ensures Committable(old(currentDrawingBox).value) ==>
        && Live() == DetectionSet(old(boxes) + [old(currentDrawingBox).value], old(scores) + [1.0],
                                  old(modified) + [false], old(eliminated) + [false], old(isManual) + [true])
        && activeBoxIndex == Some(|old(boxes)|)
      ensures !Committable(old(currentDrawingBox).value) ==>
        Live() == old(Live()) && activeBoxIndex == old(activeBoxIndex)
    {
      var drawn := currentDrawingBox.value;
      if drawn.x2 - drawn.x1 > 5.0 && drawn.y2 - drawn.y1 > 5.0 {
        AddManualBox(drawn);
      }
      currentDrawingBox := None;
      drawingStart := None;
    }

    /** A drawn box appended as a manual detection with score 1.0, unmodified and live, and made active. */
    method AddManualBox(drawn: Box)
      requires Valid()
      modifies this`boxes, this`modified, this`eliminated, this`isManual, this`scores, this`activeBoxIndex
      ensures Valid()
      ensures Live() == DetectionSet(old(boxes) + [drawn], old(scores) + [1.0],
                                     old(modified) + [false], old(eliminated) + [false], old(isManual) + [true])
      ensures activeBoxIndex == Some(|old(boxes)|)
    {
      var newIndex := |boxes|;
      boxes := boxes + [drawn];
      modified := modified + [false];
      eliminated := eliminated + [false];
      isManual := isManual + [true];
      scores := scores + [1.0];
      activeBoxIndex := Some(newIndex);
    }

    /**
     * handleDiscardChanges ("Reset Selected" / "Reset All"), disabled while
     * saving. With an active box inside the snapshot, only its box, modified
     * and eliminated entries are restored; with an active box past the
     * snapshot (one drawn since), only the active index is cleared; with no
     * active box, all five sequences are restored, the selection is emptied
     * and drawing mode ends.
     */
    method DiscardChanges()
      requires Valid() && !isSaving
      modifies this`boxes, this`modified, this`eliminated, this`isManual, this`scores
      modifies this`activeBoxIndex, this`mergeSelection, this`isDrawingMode
      ensures Valid()
      ensures old(activeBoxIndex).Some? && old(activeBoxIndex).value >= |original.boxes| ==>
        activeBoxIndex.None? && Live() == old(Live())
        && mergeSelection == old(mergeSelection) && isDrawingMode == old(isDrawingMode)
      ensures old(activeBoxIndex).Some? && old(activeBoxIndex).value < |original.boxes| ==>
        var a := old(activeBoxIndex).value;
        && boxes == old(boxes)[a := original.boxes[a]]
        && modified == old(modified)[a := original.modified[a]]
        && eliminated == old(eliminated)[a := original.eliminated[a]]
        && scores == old(scores) && isManual == old(isManual)
        && activeBoxIndex == old(activeBoxIndex)
        && mergeSelection == old(mergeSelection) && isDrawingMode == old(isDrawingMode)
      ensures old(activeBoxIndex).None? ==>
        Live() == original && mergeSelection == [] && !isDrawingMode && activeBoxIndex.None?
    {
      if activeBoxIndex.Some? {
        var a := activeBoxIndex.value;
        if a >= |original.boxes| {
          activeBoxIndex := None;
        } else {
          var snapshotBox := original.boxes[a];
          var snapshotMod := original.modified[a];
          var snapshotElim := original.eliminated[a];
          boxes := boxes[a := snapshotBox];
          modified := modified[a := snapshotMod];
          eliminated := eliminated[a := snapshotElim];
        }
      } else {
        boxes := original.boxes;
        modified := original.modified;
        eliminated := original.eliminated;
        isManual := original.isManual;
        scores := original.scores;
        mergeSelection := [];
        isDrawingMode := false;
      }
    }

    /** "Reset All" pressed twice leaves the editor as pressing it once. */
    method DiscardAllTwice()
      requires Valid() && !isSaving && activeBoxIndex.None?
      modifies this`boxes, this`modified, this`eliminated, this`isManual, this`scores
      modifies this`activeBoxIndex, this`mergeSelection, this`isDrawingMode
      ensures Valid()
      ensures Live() == original && mergeSelection == [] && !isDrawingMode && activeBoxIndex.None?
    {
      DiscardChanges();
      ghost var once := (Live(), mergeSelection, isDrawingMode, activeBoxIndex);
      DiscardChanges();
      assert (Live(), mergeSelection, isDrawingMode, activeBoxIndex) == once;
    }

    /**
     * handleSave, first half: the button is disabled while saving; pressing it
     * starts saving and fixes the record to hand over, built from the state
     * at the time of the press.
     */
    method BeginSave()
      requires Valid() && !isSaving
      modifies this`isSaving, this`pendingSave
      ensures Valid() && isSaving
      ensures pendingSave == Some(SavedImage(image, Live()))
    {
      isSaving := true;
      pendingSave := Some(SavedImage(image, Live()));
    }

    /** handleSave, second half: the timer fires, saving ends and the record goes to the parent. */
    method CompleteSave() returns (record: ImageFile)
      requires Valid() && isSaving
      modifies this`isSaving, this`pendingSave
      ensures Valid() && !isSaving
      ensures Some(record) == old(pendingSave)
    {
      record := pendingSave.value;
      isSaving := false;
      pendingSave := None;
    }

    /** onImgLoad: the loaded image's natural size. */
    method SetNaturalSize(w: nat, h: nat)
      requires Valid()
      modifies this`naturalSize
      ensures Valid()
      ensures naturalSize == Some(Size(w, h))
    {
      naturalSize := Some(Size(w, h));
    }

    /** onStartDrawing (toolbar and sidebar): drawing mode on, no active box; merge mode is left as it was. */
    method StartDrawing()
      requires Valid()
      modifies this`isDrawingMode, this`activeBoxIndex
      ensures Valid() && isDrawingMode && activeBoxIndex.None?
    {
      isDrawingMode := true;
      activeBoxIndex := None;
    }

    /** onStartMerge: merge mode on, no active box; drawing mode is left as it was. */
    method StartMerge()
      requires Valid()
      modifies this`isMergeMode, this`activeBoxIndex
      ensures Valid() && isMergeMode && activeBoxIndex.None?
    {
      isMergeMode := true;
      activeBoxIndex := None;
    }

    /** onCancelMode: both modes off and the selection emptied; a drawing preview stays. */
    method CancelMode()
      requires Valid()
      modifies this`isDrawingMode, this`isMergeMode, this`mergeSelection
      ensures Valid() && !isDrawingMode && !isMergeMode && mergeSelection == []
    {
      isDrawingMode := false;
      isMergeMode := false;
      mergeSelection := [];
    }

    /** onClearSelection ("Show All"): no active box. */
    method ClearSelection()
      requires Valid()
      modifies this`activeBoxIndex
      ensures Valid() && activeBoxIndex.None?
    {
      activeBoxIndex := None;
    }
  }
}
