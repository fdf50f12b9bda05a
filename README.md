# Bounding-box editor, save strategies and dataset helpers of the orchid classifier

This project models in Dafny the parts of the orchid classification web app that decide
which bounding boxes of an image survive editing and get exported. It also models two
helpers of the offline scripts.

- **Conflict detection** (`frontend/src/utils/editorUtils.ts`), module `EditorUtils` and module
  `ConflictDetection`:
  - the score colour bands;
  - box area and intersection area;
  - the classification of a pair of boxes as containment, high overlap or no conflict;
  - the double loop that lists the conflicts between live boxes.

  The loop is proved against a functional definition. That definition is then proved sound,
  complete and ordered: exactly the pairs `i < j` of live, conflicting boxes, in
  lexicographic order.
- **The editor state machine** (`frontend/src/hooks/useImageEditor.ts` and the mode buttons
  and saving gate of `frontend/src/components/ImageEditorModal.tsx`), class
  `ImageEditor.Editor` with the value-level pieces in module `EditorGeometry`:
  - every React state slot and ref is a field, and every handler is a method that states
    the whole new state;
  - the invariant `Valid()` is kept throughout: five parallel sequences, an active index
    and merge selection that point at boxes, and a save pending exactly while saving;
  - the module-level snapshot cache is class `ImageEditor.SnapshotCache`.
- **Save strategies** (`frontend/src/utils/saveStrategies.ts`), module `SaveStrategies`:
  - the modified-file test;
  - the best-box scan (the first strictly highest live score);
  - the all-live-boxes export;
  - the strategy switch, including its default branch.
- **Class-name normalisation** (`scripts/test.py`), module `ClassNames`:
  - Python's `' '.join(s.split())` over its exact whitespace set;
  - the `"O "` rewrite;
  - the folder label `replace("_Int", "").strip()`;
  - the six class names of `backend/app/model_state.py`.
- **Crop window** (`scripts/batch_processor.py`), module `BatchProcessor`:
  - the crop rectangle of `center_on_bbox`;
  - `resize_with_dynamic_padding`, which returns its input unchanged.

Shared record types (`ImageFile`, the analysis, the five detection sequences) are in module
`ImageTypes`. `Option` is in module `Options`.

## Model

| member | source | states |
|---|---|---|
| EditorUtils.ScoreColor | frontend/src/utils/editorUtils.ts:14-21 | Manual boxes get the manual colour. Any other box gets the band colour indexed by how many of the cut points 0.5, 0.7, 0.85, 0.95 its score reaches. |
| EditorUtils.BandOfScore | frontend/src/utils/editorUtils.ts:16-20 | The band index is 0 below 0.5, 1 below 0.7, 2 below 0.85, 3 below 0.95 and 4 otherwise, as the chain of `if`s picks it. |
| EditorUtils.CutsReachedMonotone | frontend/src/utils/editorUtils.ts:16-20 | A higher score never falls into a lower band. |
| EditorUtils.ManualColorIsDistinct | frontend/src/utils/editorUtils.ts:15-20 | For any score, the manual colour differs from the band colour. |
| EditorUtils.Area | frontend/src/utils/editorUtils.ts:23 | Width times height is non-negative for a box with non-negative sides, and positive for one with positive sides. |
| EditorUtils.OverlapExtent | frontend/src/utils/editorUtils.ts:26-27 | The clamped overlap of two intervals is non-negative, and when positive is no longer than either interval. |
| EditorUtils.OverlapExtentSymmetric | frontend/src/utils/editorUtils.ts:26-27 | The clamped overlap does not depend on the order of the two intervals. |
| EditorUtils.IntersectionArea | frontend/src/utils/editorUtils.ts:25-29 | The intersection area is never negative. |
| EditorUtils.IntersectionSymmetric | frontend/src/utils/editorUtils.ts:25-29 | The intersection area does not depend on the order of the boxes. |
| EditorUtils.IntersectionWithinAreas | frontend/src/utils/editorUtils.ts:23-29 | When two boxes intersect, both have positive width and height, the intersection is at most each area, and the smaller area is positive, so the ratio at line 54 never divides by zero. |
| EditorUtils.Inside | frontend/src/utils/editorUtils.ts:47-48 | A box inside another (inclusive on all four edges) is no wider and no higher than it. |
| EditorUtils.InsideIntersection | frontend/src/utils/editorUtils.ts:44-48 | When a box with non-negative sides lies inside another, their intersection is the whole inner box. |
| EditorUtils.BoxesAt | frontend/src/hooks/useImageEditor.ts:148 | `idxs.map(idx => boxes[idx])`: one box per index, the box at that index, in index order. |
| EditorUtils.Classify | frontend/src/utils/editorUtils.ts:40-58 | A pair is a conflict only when it intersects. It is containment exactly when it intersects and one box lies inside the other. An overlap conflict has neither box inside the other. |
| EditorUtils.OverlapRatio | frontend/src/utils/editorUtils.ts:53-56 | For intersecting boxes neither inside the other, the pair is an overlap conflict exactly when intersection / smaller area exceeds 0.5. |
| EditorUtils.ClassifySymmetric | frontend/src/utils/editorUtils.ts:40-58 | Swapping the two boxes gives the same classification. |
| ConflictDetection.ClassifyPair | frontend/src/utils/editorUtils.ts:40-58 | The loop body's imperative classification equals the reference classification Classify. |
| ConflictDetection.ScanRow | frontend/src/utils/editorUtils.ts:37-60 | The inner loop for box i produces the row of conflicts the functional definition gives. |
| ConflictDetection.DetectConflicts | frontend/src/utils/editorUtils.ts:32-63 | The double loop returns exactly the functional conflict list Conflicts. |
| ConflictDetection.RowSound | frontend/src/utils/editorUtils.ts:37-60 | Every conflict of row i pairs i with a later, live box that the classifier flags, with that kind. |
| ConflictDetection.RowComplete | frontend/src/utils/editorUtils.ts:37-60 | Every later, live box that the classifier flags against i appears in row i. |
| ConflictDetection.RowOrdered | frontend/src/utils/editorUtils.ts:37-60 | Row i lists its partners in increasing order. |
| ConflictDetection.Conflicts | frontend/src/utils/editorUtils.ts:32-63 | Conflicts come in strictly increasing lexicographic order of (indexA, indexB), so no pair is reported twice. |
| ConflictDetection.ConflictsSound | frontend/src/utils/editorUtils.ts:32-63 | Every reported conflict has `indexA < indexB`, both boxes live and intersecting, and the kind Classify gives. |
| ConflictDetection.ConflictsComplete | frontend/src/utils/editorUtils.ts:32-63 | Every pair `i < j` of live boxes that Classify flags is reported with that kind. |
| ConflictDetection.NoConflictWithoutIntersection | frontend/src/utils/editorUtils.ts:44-46 | A reported conflict pairs two in-range boxes whose intersection is not zero, so boxes with zero intersection are never reported. |
| ConflictDetection.NestedBoxesAreContainment | frontend/src/utils/editorUtils.ts:47-51 | A box strictly inside another is reported once, as containment. |
| ConflictDetection.SharedEdgesAreContainment | frontend/src/utils/editorUtils.ts:47-51 | The inside test is inclusive: a box sharing edges with its container still counts as containment. |
| ConflictDetection.QuarterOverlapIsNoConflict | frontend/src/utils/editorUtils.ts:53-57 | Two 10x10 boxes sharing a 5x5 corner (ratio 0.25) produce no conflict. |
| ConflictDetection.EliminatedBoxIsIgnored | frontend/src/utils/editorUtils.ts:35-38 | Example: for two boxes, the second eliminated, nothing is reported whatever the boxes are. |
| ImageTypes.FlagsOrFalses | frontend/src/hooks/useImageEditor.ts:69-71 | A present flag list is copied. An absent one becomes `count` falses. |
| ImageTypes.Seed | frontend/src/hooks/useImageEditor.ts:68-72 | No analysis gives five empty sequences. Otherwise boxes and scores are copied, and a flag is set only where the analysis lists it as set. A well-formed analysis gives parallel sequences. |
| ImageTypes.SavedImage | frontend/src/hooks/useImageEditor.ts:290-301 | The saved record keeps name, url and labels, sets `count` to the number of boxes, and reading it back with Seed gives exactly the saved sequences. |
| ImageEditor.SnapshotCache.GetCachedOriginals | frontend/src/hooks/useImageEditor.ts:44-57 | The first call for a URL stores the sequences seeded from the image. Later calls return the stored entry unchanged. The cache holds only parallel entries. |
| ImageEditor.Editor.constructor | frontend/src/hooks/useImageEditor.ts:59-90 | Mounting fills the snapshot from the cache and the live state from the image, with every mode off and nothing selected. |
| ImageEditor.Editor.ReceiveImage | frontend/src/hooks/useImageEditor.ts:93-116 | A render with the same URL changes nothing but the image prop. A new URL reloads the snapshot and the live sequences and resets size, active box, modes and selection. |
| ImageEditor.Editor.LoadImage | frontend/src/hooks/useImageEditor.ts:94-115 | The switching branch: key, snapshot and live state follow the new image, and the resets hold. |
| ImageEditor.Editor.ResetLive | frontend/src/hooks/useImageEditor.ts:105-115 | The live sequences become the given ones, and size, active box, modes and selection are cleared. |
| ImageEditor.Editor.RefreshSuggestions | frontend/src/hooks/useImageEditor.ts:119-123 | While resizing or drawing, the suggestions are kept. Otherwise they become the conflicts of the live boxes. |
| ImageEditor.Editor.ToggleBox | frontend/src/hooks/useImageEditor.ts:128-138 | In merge mode an eliminated box is ignored and a live one enters or leaves the selection. Outside merge mode the active box toggles between this box and none. |
| EditorGeometry.Remove | frontend/src/hooks/useImageEditor.ts:132 | The filter keeps exactly the other indices and keeps a repeat-free list repeat-free. A list without the index comes back unchanged; from a repeat-free list holding it, exactly that one entry is cut out and the others keep their order. |
| EditorGeometry.ToggledSelection | frontend/src/hooks/useImageEditor.ts:131-134 | The index is in the new selection exactly when it was not in the old one, and every other index keeps its membership. A new index is appended at the end; a selected index is cut out of a repeat-free selection with the rest kept in order. |
| EditorGeometry.DeselectKeepsMaster | frontend/src/hooks/useImageEditor.ts:131-153 | Deselecting a box other than the first keeps the first selected box first, so it stays the master of a later merge. |
| EditorGeometry.ToggleTwiceRestores | frontend/src/hooks/useImageEditor.ts:131-134 | Selecting then deselecting a box restores the selection exactly. |
| ImageEditor.Editor.ApplySuggestion | frontend/src/hooks/useImageEditor.ts:140-144 | Merge mode is on, the selection is the conflict's indices, and no box is active. |
| EditorGeometry.BoundingRect | frontend/src/hooks/useImageEditor.ts:149-152 | The merged rectangle holds every selected box, and each of its edges is an edge of some selected box. |
| EditorGeometry.BoundingRectIsSmallest | frontend/src/hooks/useImageEditor.ts:149-152 | Any box holding all selected boxes holds the merged rectangle. |
| EditorGeometry.MarkEliminated | frontend/src/hooks/useImageEditor.ts:156-168 | After the forEach, a flag is set exactly when it was set before or its index was listed. |
| ImageEditor.Editor.MergeSelected | frontend/src/hooks/useImageEditor.ts:146-161 | With two or more selected boxes, the first becomes the bounding rectangle and is marked modified, and the rest are eliminated. The first keeps its own eliminated flag, and merge mode ends with an empty selection. With fewer than two, nothing changes. |
| ImageEditor.Editor.CommitMerge | frontend/src/hooks/useImageEditor.ts:156-160 | The master box and its modified flag are replaced, the new eliminated flags are installed, and merge mode is over. |
| ImageEditor.Editor.BatchDelete | frontend/src/hooks/useImageEditor.ts:163-168 | Exactly the selected boxes are eliminated and merge mode ends. An empty selection changes nothing. |
| ImageEditor.Editor.EliminateAll | frontend/src/hooks/useImageEditor.ts:170-177 | When confirmed, every box is eliminated and selection, merge mode and active box are cleared. When refused, nothing changes. |
| ImageEditor.Editor.ToggleElimination | frontend/src/hooks/useImageEditor.ts:179-184 | One flag flips. The active box is cleared only if it is this box and the box is now eliminated. |
| ImageEditor.Editor.ResizeStart | frontend/src/hooks/useImageEditor.ts:186-194 | On an eliminated box nothing changes. Otherwise that box becomes active and its handle is held. |
| EditorGeometry.ToImagePoint | frontend/src/hooks/useImageEditor.ts:199-203 | The pointer's offset from the displayed image is to the displayed size as the result is to the natural size, on each axis. So the left/top edge maps to 0 and the right/bottom edge to the natural width/height. |
| EditorGeometry.Pointer | frontend/src/hooks/useImageEditor.ts:199-205 | The clamped pointer always lies within the natural image, and equals the scaled pointer on each axis where that already lies within it. |
| EditorGeometry.Committable | frontend/src/hooks/useImageEditor.ts:249-251 | A drawn box more than 5 px wide and high covers more than 25 square pixels. |
| EditorGeometry.ClampPoint | frontend/src/hooks/useImageEditor.ts:204-205 | The clamped point lies inside the image, and a point already inside is unchanged. |
| EditorGeometry.ResizedBox | frontend/src/hooks/useImageEditor.ts:209-215 | Only the edges the handle names move. A moved edge follows the pointer until 5 px from the opposite edge, and a handle naming one edge of a pair leaves at least 5 px. |
| EditorGeometry.CornerResizeKeepsMinimum | frontend/src/hooks/useImageEditor.ts:209-215 | Each of the four corner handles leaves the box at least 5 px wide and high. |
| EditorGeometry.PreviewBox | frontend/src/hooks/useImageEditor.ts:222-228 | The drawing preview is normalised and has the anchor and the pointer as opposite corners. |
| EditorGeometry.PreviewSymmetric | frontend/src/hooks/useImageEditor.ts:225-228 | The preview box does not depend on which of the two points is the anchor: dragging from p back to the anchor draws the same box. |
| ImageEditor.Editor.MouseMove | frontend/src/hooks/useImageEditor.ts:196-230 | Without a measured image nothing changes. Otherwise a resize moves the active box's edges to the clamped pointer and marks it modified, and a drawing updates the preview; nothing else changes. |
| ImageEditor.Editor.MouseDown | frontend/src/hooks/useImageEditor.ts:232-242 | In drawing mode with a measured image, the scaled (unclamped) pointer becomes the anchor and a zero-size preview. Otherwise nothing changes. |
| ImageEditor.Editor.MouseUp | frontend/src/hooks/useImageEditor.ts:244-262 | A resize ends. In drawing mode, a preview more than 5 px wide and high is appended as a live, unmodified manual box with score 1.0 and becomes active. The preview and anchor are cleared either way. |
| ImageEditor.Editor.FinishDrawing | frontend/src/hooks/useImageEditor.ts:249-261 | The drawing half of mouse-up, with the same commit rule. |
| ImageEditor.Editor.AddManualBox | frontend/src/hooks/useImageEditor.ts:252-257 | All five sequences grow by one entry for the drawn box, and the new index becomes active. |
| ImageEditor.Editor.DiscardChanges | frontend/src/hooks/useImageEditor.ts:264-285 | With an active box from the snapshot, only its box, modified and eliminated entries are restored. With an active box drawn since, only the active index is cleared. With no active box, all five sequences are restored, the selection is emptied and drawing mode ends. |
| ImageEditor.Editor.DiscardAllTwice | frontend/src/hooks/useImageEditor.ts:276-284 | Reset All is idempotent: pressing it twice leaves the snapshot state. |
| ImageEditor.Editor.BeginSave | frontend/src/hooks/useImageEditor.ts:287-301 | Pressing Save sets the saving flag and fixes the record built from the state at the time of the press. |
| ImageEditor.Editor.CompleteSave | frontend/src/hooks/useImageEditor.ts:302-303 | When the timer fires, saving ends and the fixed record is handed over. |
| ImageEditor.Editor.SetNaturalSize | frontend/src/components/ImageEditorModal.tsx:94-97 | The image's natural size is recorded, and the editor invariant is kept. |
| ImageEditor.Editor.StartDrawing | frontend/src/components/ImageEditorModal.tsx:110 | Drawing mode is on and no box is active. |
| ImageEditor.Editor.StartMerge | frontend/src/components/ImageEditorModal.tsx:111 | Merge mode is on and no box is active. |
| ImageEditor.Editor.CancelMode | frontend/src/components/ImageEditorModal.tsx:112 | Both modes are off and the selection is empty. |
| ImageEditor.Editor.ClearSelection | frontend/src/components/ImageEditorModal.tsx:132 | No box is active. |
| SaveStrategies.AnyTrue | frontend/src/utils/saveStrategies.ts:12-14 | `some(b => b)` holds exactly when some entry is true. |
| SaveStrategies.AnyFlagged | frontend/src/utils/saveStrategies.ts:12-14 | `flags?.some(b => b) ?? false` holds exactly when the list is present and has a true entry. |
| SaveStrategies.IsFileModified | frontend/src/utils/saveStrategies.ts:8-16 | A file counts as modified exactly when it has an analysis in which some box is flagged modified, eliminated or manual. |
| SaveStrategies.ActiveBelow | frontend/src/utils/saveStrategies.ts:25 | Every collected index is in range and live. |
| SaveStrategies.ActiveBelowFacts | frontend/src/utils/saveStrategies.ts:25 | The live indices come in increasing order, and every live index is among them. |
| SaveStrategies.ActiveIndices | frontend/src/utils/saveStrategies.ts:25 | The live indices: each in range and not eliminated, in strictly increasing order, and every live index among them. |
| SaveStrategies.Scan | frontend/src/utils/saveStrategies.ts:30-37 | The index the scan settles on is -1 or one of the live indices. |
| SaveStrategies.GetBestBox | frontend/src/utils/saveStrategies.ts:28-39 | The forEach loop returns what the functional scan gives. |
| SaveStrategies.ScanFacts | frontend/src/utils/saveStrategies.ts:30-37 | After k steps, the scan is at -1 when no visited score exceeds -1. Otherwise it holds the first visited position with the highest score, and that score. |
| SaveStrategies.BestBoxIsFirstMaximum | frontend/src/utils/saveStrategies.ts:28-39 | Nothing is returned exactly when no live box scores above -1. Otherwise exactly the box with the highest live score is returned, ties going to the lowest index. |
| SaveStrategies.BestBoxes | frontend/src/utils/saveStrategies.ts:28-39 | At most one box is returned, and a returned box is the box of some live index. |
| SaveStrategies.FirstBestUnique | frontend/src/utils/saveStrategies.ts:33 | The strict comparison makes the chosen box unique. |
| SaveStrategies.BoxesAtConcat | frontend/src/utils/saveStrategies.ts:42 | Mapping over a concatenation is the concatenation of the mappings. |
| SaveStrategies.BoxesAtLive | frontend/src/utils/saveStrategies.ts:25-42 | The live indices mapped to boxes give the same sequence as filtering the boxes by their eliminated flag. |
| SaveStrategies.AllActiveBoxes | frontend/src/utils/saveStrategies.ts:41-43 | Export-all returns exactly the non-eliminated boxes in original order. |
| SaveStrategies.BoxesForStrategy | frontend/src/utils/saveStrategies.ts:21-22 | An image without analysis exports nothing. |
| SaveStrategies.GetBoxesForStrategy | frontend/src/utils/saveStrategies.ts:21-63 | The switch returns what the functional strategy choice gives. |
| SaveStrategies.StrategyChoice | frontend/src/utils/saveStrategies.ts:45-62 | global_all, custom_all and unknown names export every live box. custom_best exports every live box of a modified file and the best box of an untouched one. |
| SaveStrategies.ExportIsLiveSubsequence | frontend/src/utils/saveStrategies.ts:21-63 | Every strategy exports the boxes at some strictly increasing live indices, so never an eliminated box and never out of order. |
| SaveStrategies.NothingLiveBelow | frontend/src/utils/saveStrategies.ts:25 | With every box eliminated, there are no live indices. |
| SaveStrategies.AllEliminatedExportsNothing | frontend/src/utils/saveStrategies.ts:22-29 | With every box eliminated, or none at all, every strategy exports nothing. |
| ClassNames.DropSpaces | scripts/test.py:88 | Leading whitespace is skipped: the result is no longer than the input and does not start with whitespace. |
| ClassNames.DropSpacesSuffix | scripts/test.py:88 | What is skipped is all whitespace and what remains is a suffix. |
| ClassNames.WordPrefix | scripts/test.py:88 | A word holds no whitespace and ends at whitespace or at the end of the string. |
| ClassNames.WordPrefixIsPrefix | scripts/test.py:88 | The word is a prefix of the string. |
| ClassNames.Words | scripts/test.py:88 | `split()` yields non-empty words without whitespace. |
| ClassNames.DropSpacesSkip | scripts/test.py:88 | Leading whitespace does not change what remains. |
| ClassNames.WordsSkip | scripts/test.py:88 | Leading whitespace does not change the words. |
| ClassNames.WordPrefixOf | scripts/test.py:88 | A word followed by whitespace or the end is read back whole. |
| ClassNames.WordsCons | scripts/test.py:88 | A word, then whitespace, then a tail, splits into the word followed by the tail's words. |
| ClassNames.WordsSingle | scripts/test.py:88 | A single word splits into itself. |
| ClassNames.Join | scripts/test.py:88 | `' '.join(ws)` starts with the first word, and on words it is empty exactly when there are none. |
| ClassNames.JoinCollapsed | scripts/test.py:88 | Joining words with single spaces gives a collapsed string: no leading or trailing whitespace, and only single spaces between words. |
| ClassNames.CollapsedAfterWord | scripts/test.py:88 | A word and its separating space put in front of a collapsed string keep it collapsed. |
| ClassNames.CollapsedSuffix | scripts/test.py:88 | A suffix of a collapsed string that starts at a non-space is collapsed. |
| ClassNames.WordsOfJoin | scripts/test.py:88 | Round trip: splitting a space-joined list of words gives the words back. |
| ClassNames.CollapsedFixed | scripts/test.py:88 | A collapsed string is left unchanged by the normalisation. |
| ClassNames.Collapse | scripts/test.py:88 | `' '.join(s.split())` always yields a collapsed string (no outer whitespace, single spaces between words) with the same words as the input. |
| ClassNames.CollapseIdempotent | scripts/test.py:88 | Normalising whitespace twice is normalising once. |
| ClassNames.CollapsedAfterO | scripts/test.py:89 | In a collapsed name starting with `"O "`, a non-space follows the space. |
| ClassNames.NormalizeClassName | scripts/test.py:82-91 | As written: the result is collapsed, never starts with `"O "`, and has the collapsed name's length, because the space is replaced by the dot. |
| ClassNames.NormalizeClassNameIntended | scripts/test.py:82-91 | As documented (`'O. exaltata'`): collapsed, never starts with `"O "`, and one character longer when rewritten. |
| ClassNames.NormalizeKeepsOtherNames | scripts/test.py:88-91 | A name that is already collapsed and does not start with `"O "` is returned unchanged. |
| ClassNames.NormalizeIdempotent | scripts/test.py:82-91 | Normalising twice is normalising once. |
| ClassNames.NormalizeIntendedIdempotent | scripts/test.py:82-91 | The same holds for the documented rewrite. |
| ClassNames.CollapseOFolder | scripts/test.py:88 | "O", any run of whitespace and a collapsed species name collapse to `"O " + species`. |
| ClassNames.NormalizeOFolder | scripts/test.py:88-90 | Such a name normalises to `"O." + species` as written, and to `"O. " + species` as documented. |
| ClassNames.RemoveAll | scripts/test.py:108 | `replace("_Int", "")` never lengthens the string and leaves it unchanged exactly when `"_Int"` does not occur. |
| ClassNames.OccursTail | scripts/test.py:108 | A string without a match at its head has a match exactly when its tail has one. |
| ClassNames.RemoveIntSuffix | scripts/test.py:108 | A trailing `"_Int"` on a string without other occurrences is removed, giving the string back. |
| ClassNames.DropSpacesEnd | scripts/test.py:108 | Trailing whitespace is dropped: the result is a prefix ending in a non-space, followed only by whitespace. |
| ClassNames.Strip | scripts/test.py:108 | `strip()` yields a substring that neither starts nor ends with whitespace. |
| ClassNames.FolderClassLabel | scripts/test.py:108-109 | The label of any folder is collapsed and never starts with `"O "`. |
| ClassNames.FolderClassLabelIntended | scripts/test.py:108-109 | The same holds with the documented rewrite. |
| ClassNames.NoIntInFolder | scripts/test.py:108 | "O", whitespace and a species without `"_Int"` contain no `"_Int"`. |
| ClassNames.FolderLabelOfSpecies | scripts/test.py:108-109 | The folder `"O" + gap + species`, with or without the `_Int` tag, is labelled `"O." + species` as written and `"O. " + species` as documented. |
| ClassNames.ClassNamesOf | backend/app/model_state.py:4 | The class names are `"O. "` followed by each species name. |
| ClassNames.ClassNameShape | backend/app/model_state.py:4 | Every class name has a dot and then a space after its first letter. |
| ClassNames.SpeciesWellFormed | backend/app/model_state.py:4 | Every species name is a non-empty word without `"_Int"`. |
| ClassNames.NoIntWithoutI | scripts/test.py:108 | A string without `'I'` contains no `"_Int"`. |
| ClassNames.AsWrittenMatchesNoClass | scripts/test.py:89-90 | As written, no species folder of the form `"O" + gap + species` gets a label that is one of the class names. |
| ClassNames.IntendedMatchesClass | scripts/test.py:89-90 | As documented, the folder of the k-th species is labelled with the k-th class name. |
| ClassNames.ExaltataFolder | scripts/test.py:85-90 | The folder `"O  exaltata"` is labelled `"O.exaltata"` as written, which is not a class name, and `"O. exaltata"` as documented, which is the first class name. |
| BatchProcessor.Midpoint | scripts/batch_processor.py:59-60 | `(a + b) // 2` rounds down: twice it is at most a + b and more than a + b - 2. |
| BatchProcessor.CropSize | scripts/batch_processor.py:65-70 | A given output size is used as it is. Otherwise half the crop size is exactly the box's width and height. |
| BatchProcessor.CenterOnBbox | scripts/batch_processor.py:58-76 | The window lies inside the image and is never wider or higher than the crop size. |
| BatchProcessor.WindowHoldsBox | scripts/batch_processor.py:68-76 | Without an output size, a box inside the image lies inside its window. |
| BatchProcessor.FixedSizeIgnoresExtent | scripts/batch_processor.py:65-76 | With an output size, boxes with the same centre get the same window. |
| BatchProcessor.WindowCentred | scripts/batch_processor.py:73-76 | Away from the image edges, the window is symmetric about the box's rounded-down centre. |
| BatchProcessor.ResizeWithDynamicPadding | scripts/batch_processor.py:20-24 | The image is returned as it was passed, whatever the target sizes. |

## Left out

- Rendering is not modelled: EditorCanvas, EditorSidebar, EditorToolbar, colours on screen and the modal layout. Only the state changes their callbacks cause are modelled.
- React scheduling is not modelled. Each handler runs to completion on the state of the latest render, and state updates are applied at once rather than at the next render.
- The conflict effect is not run automatically. It is the explicit method `RefreshSuggestions`, to be called after a change, because effects run outside the handlers.
- Conflict messages are not modelled. A conflict keeps its kind and indices; the human-readable text is not modelled.
- The 500 ms and 0 ms timers of handleSave are two steps, `BeginSave` and `CompleteSave`. The parent callback receives the record that `CompleteSave` returns.
- Browser inputs become parameters:
  - the `confirm` dialog's answer;
  - `getBoundingClientRect` (an `Option<DisplayRect>`, with `None` for a missing image element);
  - the image's natural size.
- Event objects (`stopPropagation`, `preventDefault`) and the `imgElementRef` handle are not modelled.
- Malformed analyses are excluded. The editor methods require `WellFormedImage`: `count`, boxes, scores and flag lists of one length. The source trusts the backend for this; with mismatched lengths it would read `undefined` entries.
- Handler indices must be in range:
  - `ToggleBox`, `ToggleElimination` and `ResizeStart` require an in-range index;
  - `ApplySuggestion` requires in-range, repeat-free indices.

  The UI only passes indices of rendered boxes, and conflicts always pair two distinct existing boxes. Out-of-range JavaScript array writes, which would grow the array, are not modelled.
- Coordinates, scores and sizes are JavaScript doubles in the source and exact reals in the model. Floating-point rounding is not modelled, so the proofs are about exact arithmetic.
- EditorGeometry.ToImagePoint: requires a displayed width and height above 0. With a zero-size displayed image the source divides by zero and computes Infinity or NaN coordinates; that case is not modelled.
- EditorGeometry.Pointer: requires a displayed width and height above 0, for the same reason as ToImagePoint.
- ImageEditor.Editor.MouseMove: requires a displayed width and height above 0 only when both the image element and its natural size are present, the one case where the source divides by the displayed size; an image still loading may be drawn at any size.
- ImageEditor.Editor.MouseDown: requires a displayed width and height above 0 only in drawing mode with both the image element and its natural size present, the one case where the source divides by the displayed size.
- ImageEditor.Editor.MouseDown: the anchor is scaled but not clamped, as in the source. The model does not prove anything about anchors outside the image.
- The `scores || []` fallback of saveStrategies.ts line 26 is not modelled: scores are always present in the model. A missing score (an index past the end of the list) is modelled, and compares false as `undefined > x` does.
- `labels` are carried through save but not otherwise used. The browser `File` handle of `ImageFile` is not modelled.
- BatchProcessor.CenterOnBbox: the bounding box is modelled with integer coordinates. Floating-point boxes, where `//` floors a float, and the PIL crop and `resize` pixel work are not modelled.
- BatchProcessor.ResizeWithDynamicPadding: everything after the early `return img` at line 23 is unreachable and is not modelled. Its contract is the identity the early return makes.
- The rest of the scripts and of the backend is not part of this model: the dataset walk, inference calls, reporting, the model and its preprocessing.
- The dbinference page and the other frontend pages and components are not part of this model.

## Findings

| source | as written | input that shows it | evidently intended | confidence | as-written member | corrected member |
|---|---|---|---|---|---|---|
| scripts/test.py:89-90 | `'O.' + name[2:]` replaces the space after "O" with a dot, so `"O exaltata"` becomes `"O.exaltata"` | the folder `"O  exaltata"` is labelled `"O.exaltata"`; the class names of backend/app/model_state.py:4 are `"O. exaltata"` and the like, so the comparison at scripts/test.py:171 can never match for any species folder | `'O. ' + name[2:]`, as the docstring at scripts/test.py:85 says (`'O  exaltata'` becomes `'O. exaltata'`) | not executed | ClassNames.AsWrittenMatchesNoClass, ClassNames.ExaltataFolder | ClassNames.IntendedMatchesClass, ClassNames.NormalizeClassNameIntended |
