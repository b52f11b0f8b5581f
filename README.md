# Monster Maker workspace, modelled in Dafny

Monster Maker is a pixel-art editor. The user picks two base monsters, drags
their body parts onto a 640 x 640 canvas (one native pixel is 10 units, with a
10-unit snap grid), and then moves, layers, scales, rotates and flips the
parts. The result can be exported or saved to a gallery. This project models
the client-side core of `public/script.js` without the DOM or the canvas, and
proves properties of it.

- **`Editor.Workspace`** (`workspace.dfy`) is a class. It holds
  `placedParts` (index 0 is painted first, the last index is front-most),
  `selectedPart`, `selectedLayerIndex`, `isDragging` and `frameRequested`.
  `frameRequested` stands for `animationFrameId` being set. Every user action
  is a method:
  - adding a part, by drop or by click;
  - pointer down, move and up;
  - arrow keys;
  - the layer operations, remove and clear;
  - scale, rotation and flip;
  - the export bounds;
  - the monster chooser's clear-on-confirm.

  The object invariant `Valid` says three things: the selection index and the
  selected part agree, no part is listed twice, and every part's size is its
  native size times its scale.
- **`PartModel.Part`** (`part.dfy`) is a class. Handlers change a part's
  fields in place through the reference they hold, so `selectedPart` aliases
  an element of `placedParts` as it does in the source. The same file has
  the two-per-name placement cap (`canAddPart`) and the rotation
  arithmetic.
- **`Layers`** (`layers.dfy`) has the reorderings as sequence functions,
  with proofs that each one is a permutation.
- **`Grid`** (`grid.dfy`):
  - the snap `Math.floor(v / 10) * 10`;
  - the scale clamp;
  - the doubling of pointer coordinates on small screens;
  - JavaScript's truncating `%`.
- **`AutoCrop`** (`crop.dfy`) scans the alpha grid for the tight box of
  visible pixels and crops to it. This is `autoCropImage`, with the image
  modelled as rows of alpha values.
- **`ExportBox`** (`export.dfy`) is the bounding-box accumulation of
  `exportCanvas`, in native pixels.
- **`Render`** (`render.dfy`) is the paint order of `redrawWorkspace`,
  abstracted to a list of "draw part i" and "outline part i" operations.
- **`Catalog`** (`catalog.dfy`) computes which parts are offered, and which
  are disabled by the cap.
- **`Gallery`** (`gallery.dfy`):
  - the gallery filter predicate;
  - the family-button state machine, as the class `FamilyFilter`;
  - the sorted, duplicate-free author list.
- **`Forms`** (`forms.dfy`):
  - the monster-chooser confirm button;
  - the save and change buttons;
  - ECMAScript `trim`;
  - the save-form checks.

Positions, sizes and scales are Dafny `real` values, which are exact
rationals. Rotation and degree steps are `int`.

### Behaviour of the code that the model keeps

- After an arrow key, a part's position is not always a multiple of 10. The
  down and right clamps move a part to `640 - height` or `640 - width`
  (public/script.js:593, 599), which is off the grid whenever the scaled
  size is (`Editor.NudgeCanLeaveGrid`).
- For a part wider than the canvas the right-arrow clamp is negative, so the
  right arrow moves the part to the left (`Editor.NudgeRightCanMoveLeft`).
- Of the two add paths, only the drop handler checks `canAddPart` at the
  moment of adding (public/script.js:330). The list builder calls it once
  per entry when the list is built (public/script.js:241), which is what
  `Catalog.EntryFor` models. Click-to-add's handler is attached only to
  entries that passed that check (public/script.js:261), so
  `Editor.Workspace.ClickAdd` takes the entry and adds when `entry.enabled`
  holds.
- `canAddPart` counts names in a plain object `{}` (public/script.js:186).
  For a part name that `Object.prototype` already defines (`constructor`,
  `toString`, `__proto__` and the other keys of `PartModel.InheritedKeys`),
  `counts[partName]` is an inherited function or object. The comparison
  with 2 is then false, so such a part is always listed as "Limit reached"
  and can never be placed (`PartModel.InheritedNameNeverAddable`).
  `PartModel.CanAddPart` follows this.
- The highlight goes to every drawn part whose `id` equals the selected
  part's. Ids come from `Date.now()` and may repeat, so the model does not
  claim that exactly one part is outlined. It claims only that the selected
  index is outlined when its image is ready.

## Model

| member | source | states |
|---|---|---|
| Grid.Snap | public/script.js:324-325 | The snapped value is a multiple of 10, at most the input, and less than 10 below it |
| Grid.SnapUnique | public/script.js:543-544 | The snap is the only grid value in (v - 10, v] |
| Grid.Clamp | public/script.js:975 | The result is within [lo, hi]; it equals v inside the range, lo below it and hi above it |
| Grid.PointerCoord | public/script.js:479-483 | On a small screen the coordinate is doubled; otherwise it is unchanged |
| Grid.JsRem | public/script.js:996 | The remainder has the sign of the dividend and lies strictly within m of zero; quotient times m plus remainder gives back the dividend |
| PartModel.Part.constructor | public/script.js:358-373 | A new part has size and original size both equal to native size times 10, scale 1, rotation 0 and no flips |
| PartModel.CountNameIsIndexCount | public/script.js:185-191 | The fold's count of a name equals the number of indices holding that name |
| PartModel.CountName | public/script.js:186-190 | The count of a name is at most the number of parts; CountNameIsIndexCount proves it is the number of indices holding the name |
| PartModel.CanAddPart | public/script.js:185-194 | For an inherited key the answer is false; for any other name it is true exactly when fewer than two indices hold the name |
| PartModel.InheritedNameNeverAddable | public/script.js:186-193 | Parts named "constructor", "toString" or "__proto__" can never be added, whatever is placed |
| PartModel.CanAddIgnoresMonster | public/script.js:185-194 | Eligibility does not depend on the monster argument: the cap is global per name |
| PartModel.CountAppend | public/script.js:375 | Pushing a part raises its own name's count by one and leaves every other name's count unchanged |
| PartModel.CountRemoveAt | public/script.js:1038 | Splicing out index i lowers that part's name count by one and leaves every other name unchanged |
| PartModel.RemoveReopens | public/script.js:1036-1043 | Once a name is at the cap, removing one of its parts makes it addable again, exactly when the name is not an inherited key |
| PartModel.CountSwapNeighbours | public/script.js:939-961 | Moving a layer up or down changes no name's count |
| PartModel.CountToFront | public/script.js:1014-1023 | Bringing a part to the front changes no name's count |
| PartModel.CountToBack | public/script.js:1025-1034 | Sending a part to the back changes no name's count |
| PartModel.Rotated | public/script.js:994-999 | The new rotation differs from rotation + degrees by a multiple of 360, and lies in [0, 360) when rotation + degrees + 360 >= 0 |
| PartModel.RotatedStaysNormal | public/script.js:994-999 | From a rotation in [0, 360), any step of at least -360 stays in [0, 360) |
| PartModel.RotatedCanGoNegative | public/script.js:996 | A step below -360 can leave a negative rotation (0 turned by -450 gives -90) |
| Layers.Swap | public/script.js:942-944 | The two positions exchange their elements and every other position is unchanged |
| Layers.RemoveAt | public/script.js:1038 | Elements before i are kept and elements after i shift down by one |
| Layers.ToFront | public/script.js:1016-1017 | The result has the same length, holds the part last, and before it the list without that part |
| Layers.ToBack | public/script.js:1027-1028 | The result has the same length, holds the part first, and after it the list without that part |
| Layers.SwapPermutes | public/script.js:939-961 | A swap keeps the multiset of parts |
| Layers.SwapBack | public/script.js:939-961 | Moving a layer up and then down again restores the list |
| Layers.ToFrontPermutes | public/script.js:1014-1023 | Bring to front keeps the multiset and puts the part last |
| Layers.ToBackPermutes | public/script.js:1025-1034 | Send to back keeps the multiset and puts the part first |
| Layers.FrontThenBack | public/script.js:1014-1034 | Bring to front keeps the other parts in order: sending the part back afterwards equals sending it back directly |
| Layers.BackThenFront | public/script.js:1014-1034 | Send to back keeps the other parts in order: bringing the part to the front afterwards equals bringing it there directly |
| Layers.DistinctSwap | public/script.js:942-944 | A swap keeps the list free of duplicates, with the same members |
| Layers.DistinctRemoveAt | public/script.js:1038 | Splicing keeps the list free of duplicates and drops exactly the removed element |
| Layers.DistinctToFront | public/script.js:1016-1017 | Bring to front keeps the list free of duplicates, with the same members |
| Layers.DistinctToBack | public/script.js:1027-1028 | Send to back keeps the list free of duplicates, with the same members |
| ExportBox.MinOf | public/script.js:1230-1231 | The running minimum is at most every element and equals one of them |
| ExportBox.MaxOf | public/script.js:1232-1233 | The running maximum is at least every element and equals one of them |
| ExportBox.BoundingBox | public/script.js:1236-1237 | Defines the export box from the running bounds; BoundingBoxContains and BoundingBoxTight state that it is the tight box |
| ExportBox.BoundingBoxContains | public/script.js:1221-1237 | The export box contains every part's rectangle |
| ExportBox.BoundingBoxTight | public/script.js:1221-1237 | Each of the box's four edges touches some part, so no smaller box contains them all |
| ExportBox.TwoOverlappingSquares | public/script.js:1236-1237 | Native rectangles (0,0,8,8) and (4,4,8,8) export as 12 x 12 |
| ExportBox.BoundsSnoc | public/script.js:1224-1233 | Adding one rectangle moves each running bound to that rectangle's edge or leaves it unchanged |
| ExportBox.AccumulateBounds | public/script.js:1221-1237 | The forEach accumulation yields exactly the bounding box of all rectangles |
| AutoCrop.Crop | public/script.js:43-52 | The crop is (maxX - minX + 1) x (maxY - minY + 1), and pixel (x, y) of it is pixel (minX + x, minY + y) of the input |
| AutoCrop.FindBounds | public/script.js:28-42 | minX stays at width exactly when no pixel is visible; otherwise the four bounds form the tight box of the visible pixels; with no visible pixel the initial values remain |
| AutoCrop.AutoCropImage | public/script.js:14-60 | With a visible pixel the result is the crop to the tight box; a fully transparent image is returned unchanged |
| AutoCrop.TightUnique | public/script.js:28-42 | At most one window is tight, so the scan's result is determined by the image |
| AutoCrop.CroppedIsTight | public/script.js:43-52 | A tight crop has a visible pixel on each of its four borders |
| AutoCrop.CropFullIsIdentity | public/script.js:43-52 | Cropping to the whole image gives the image back |
| AutoCrop.TightCropHasOpaque | public/script.js:43-52 | A tight crop still has a visible pixel, so cropping it again takes the cropping branch |
| AutoCrop.TightCropIsStable | public/script.js:14-60 | Auto-cropping a cropped image gives the same image: the crop is idempotent |
| AutoCrop.NoBorderUnchanged | public/script.js:14-60 | An image with visible pixels on all four borders comes back unchanged |
| Catalog.SelectedCount | public/script.js:208 | The count is 2 exactly when both slots are filled and 0 exactly when neither is |
| Catalog.EntryFor | public/script.js:233-247 | The entry carries the part's name, image and monster; it is enabled exactly when the name is not an inherited key and fewer than two placed parts share it; a disabled entry's title gains " - Limit reached" |
| Catalog.EntriesFor | public/script.js:225-247 | There is one entry per part of the monster, in order |
| Catalog.AvailableParts | public/script.js:208-213 | Nothing is offered unless both monsters are chosen |
| Catalog.AvailableListsEveryPart | public/script.js:223-236 | With both chosen, every part of monster 1 is listed, then every part of monster 2, each under its monster's name |
| Catalog.EntryEnabledIffUnderCap | public/script.js:240-247 | An entry is enabled exactly when its name is not an inherited key and fewer than two placed parts share it; disabled entries carry the " - Limit reached" title |
| Gallery.AuthorOf | public/script.js:823 | A missing or empty author reads as "Anonymous"; any other author is kept |
| Gallery.FindMonster | public/script.js:829 | The result is the first monster with that name, or None exactly when no monster has it |
| Gallery.Matches | public/script.js:816-834 | Defines the filter test: the monster filter is empty or names a parent; the author filter is empty or equals the shown author; "ALL" is selected or some parent's first namesake belongs to a selected family. FilterGallery and FilterSingle state what it decides |
| Gallery.FilterGallery | public/script.js:812-838 | A creation is shown exactly when it is in the gallery and passes the monster, author and family filters; the result is no longer than the gallery |
| Gallery.FilterSingle | public/script.js:816-835 | A one-creation gallery is kept exactly when that creation matches |
| Gallery.FilterConcat | public/script.js:816-835 | Filtering a concatenation is the concatenation of the filtered pieces, so the result keeps the gallery's order and duplicates |
| Gallery.ResetFiltersShowAll | public/script.js:866-878 | With the filters reset (no monster, no author, only "ALL"), the whole gallery is shown in order |
| Gallery.FilterIdempotent | public/script.js:816-835 | Filtering an already filtered list changes nothing |
| Gallery.StrLess | public/script.js:856 | Defines the default sort order: a proper prefix comes first, otherwise the first differing character decides. Its properties are the four lemmas below |
| Gallery.StrLessIrreflexive | public/script.js:856 | The sort order is irreflexive |
| Gallery.StrLessTransitive | public/script.js:856 | The sort order is transitive |
| Gallery.StrLessTotal | public/script.js:856 | Any two distinct strings are ordered one way or the other |
| Gallery.StrLessAsymmetric | public/script.js:856 | No two strings are ordered both ways |
| Gallery.InsertSorted | public/script.js:856 | Adding an author to a strictly sorted list keeps it strictly sorted and adds exactly that author |
| Gallery.Authors | public/script.js:856 | The author list is strictly sorted, so it has no duplicates, and holds exactly the authors of the creations (with the Anonymous default) |
| Gallery.SortedListUnique | public/script.js:856 | Two strictly sorted lists with the same members are equal, so the author list is the only such list |
| Gallery.Without | public/script.js:797 | Filtering out a family removes exactly that family, keeps the list free of duplicates, and shortens it by one when the family was present |
| Gallery.Toggled | public/script.js:785-809 | Defines the selection after a click, branch for branch as in the source; ToggleFlipsOnlyThatFamily states what it promises |
| Gallery.ToggleFlipsOnlyThatFamily | public/script.js:785-809 | Every toggle keeps the selection non-empty, with "ALL" only ever alone and no duplicates. Clicking "ALL" selects only it. Clicking another family flips that family's membership, leaves every other family as it was, and falls back to "ALL" exactly when the last family is switched off |
| Gallery.FamilyFilter.constructor | public/script.js:658 | Initially only "ALL" is selected |
| Gallery.FamilyFilter.Toggle | public/script.js:785-809 | The new selection is the toggled one, and the selection invariant is kept |
| Gallery.FamilyFilter.Reset | public/script.js:872 | Resetting selects only "ALL" |
| Forms.ValidateModal | public/script.js:1104-1118 | The confirm button is enabled exactly when both ids are set and differ; the "Please select different monsters" caption shows exactly when both are set and equal |
| Forms.ModalLabelAgreesWithState | public/script.js:1104-1118 | An enabled button reads "Start Creating"; the warning only ever shows on a disabled button; with a slot empty the button is disabled |
| Forms.ButtonStates | public/script.js:1166-1176 | Save is enabled exactly when a monster is chosen and a part is placed; the caption is "Select Monsters" exactly when no monster is chosen |
| Forms.TrimStart | public/script.js:619 | The result is a suffix of the input; everything dropped is whitespace; the result does not start with whitespace |
| Forms.TrimEnd | public/script.js:619 | The result is a prefix of the input; everything dropped is whitespace; the result does not end with whitespace |
| Forms.Trim | public/script.js:619 | The result is a contiguous piece of the input with only whitespace before and after it, and it has whitespace at neither end |
| Forms.AllWhitespaceConcat | public/script.js:619 | A concatenation is all whitespace exactly when both pieces are |
| Forms.TrimEmptyIffBlank | public/script.js:619-623 | The trimmed name is empty exactly when the input is all whitespace |
| Forms.TrimIdempotent | public/script.js:619 | Trimming twice equals trimming once |
| Forms.TrimFixes | public/script.js:619 | A string with no whitespace at either end is its own trim |
| Forms.ParentNames | public/script.js:627-629 | There is one name per filled slot, slot 1 first |
| Forms.ValidateSave | public/script.js:618-629 | A blank name is refused. Otherwise the request carries the trimmed name, the trimmed author or "Anonymous" when it is blank, and the chosen monsters' names |
| Forms.SavedTextIsTrimmed | public/script.js:619-625 | The submitted name and author are their own trims |
| Forms.AnonymousIsTrimmed | public/script.js:625 | The default author has no surrounding whitespace |
| Render.PaintList | public/script.js:409-451 | Operations refer to existing parts, in index order (back to front), with a part's outline directly after its drawing |
| Render.PartOps | public/script.js:417-449 | A part gets no operation until its image is ready; then a drawing, followed by an outline when it carries the selected id |
| Render.PaintListMembers | public/script.js:409-451 | Part i is drawn exactly when its image is ready, and outlined exactly when it is ready and carries the selected id |
| Render.PaintListAllMembers | public/script.js:409-451 | The same, for all parts at once |
| Render.NoSelectionNoHighlight | public/script.js:445 | With nothing selected, nothing is outlined |
| Editor.ClickAddIsGridPoint300 | public/script.js:273-274 | Click-to-add places at (300, 300) |
| Editor.Nudge | public/script.js:578-604 | A non-arrow key changes nothing. Up and left step 10 but stop at 0; down and right step 10 but stop at 640 minus the size; only the key's coordinate changes |
| Editor.NudgeCanLeaveGrid | public/script.js:598-599 | The right-arrow clamp can put a part off the grid (x = 632.5 for width 7.5) |
| Editor.NudgeRightCanMoveLeft | public/script.js:598-599 | For width 660 the right arrow moves a part at x = 0 to x = -20 |
| Editor.IsArrow | public/script.js:582 | Defines the four keys the handler accepts; Nudge and KeyDown state that any other key changes nothing |
| Editor.Flipped | public/script.js:1002-1012 | "horizontal" toggles the horizontal flag, "vertical" the vertical one, and any other direction changes nothing |
| Editor.FlipTwiceRestores | public/script.js:1002-1012 | Flipping the same axis twice restores both flags |
| Editor.NativeRect | public/script.js:1225-1228 | Defines one part's native rectangle: position and size divided by 10 |
| Editor.NativeRects | public/script.js:1224-1228 | There is one native rectangle per part, each the part's box divided by 10 |
| Editor.LayerRows | public/script.js:912-929 | Rows run front-most first. Row k shows part length - 1 - k, numbered k + 1 (= length - index), and is marked exactly when it is the selected index |
| Editor.Workspace.constructor | public/script.js:6-10 | The workspace starts empty, with nothing selected, not dragging and no redraw pending |
| Editor.Workspace.Paint | public/script.js:390-452 | Every ready part is drawn; the selected index is outlined exactly when its image is ready; with no selection nothing is outlined |
| Editor.Workspace.AddPart | public/script.js:355-387 | Appended holds: a fresh part with the given id, name, monster, image and position, native size times 10, scale 1, rotation 0 and no flips is appended in front of the untouched earlier parts and selected; the drag and redraw flags are kept; the invariant holds |
| Editor.Workspace.Drop | public/script.js:321-333 | When the cap allows, Appended holds for the part at the snapped drop point, so the whole new part and the unchanged flags are stated, and its name's count rises by one; otherwise nothing changes |
| Editor.Workspace.ClickAdd | public/script.js:270-300 | For an enabled entry, Appended holds for that entry's part at (300, 300); a disabled entry changes nothing |
| Editor.Workspace.HitTest | public/script.js:485-499 | The result is the highest index whose inclusive box contains the point, or -1 when none does |
| Editor.Workspace.PointerDown | public/script.js:477-509 | With a hit, the front-most part under the pointer is selected and dragging starts; with no hit, the selection is cleared; the parts are unchanged |
| Editor.Workspace.PointerMove | public/script.js:511-557 | While dragging, the selected part's top-left becomes the snapped pointer position minus half its size; a redraw is requested only when that position changed; size and other state are unchanged |
| Editor.Workspace.PointerUp | public/script.js:569-575 | Dragging stops and any pending redraw is cancelled; the parts and the selection are unchanged and the invariant is kept |
| Editor.Workspace.KeyDown | public/script.js:578-604 | The selected part moves to the nudged position, its size, scale, rotation and flips unchanged; no other part or field changes |
| Editor.Workspace.SelectLayer | public/script.js:931-936 | The index and the selected part become that row's |
| Editor.Workspace.MoveLayerUp | public/script.js:939-949 | Below the top, the part swaps with the one in front and the index follows; otherwise nothing changes; the multiset of parts is kept |
| Editor.Workspace.MoveLayerDown | public/script.js:951-961 | Above the bottom, the part swaps with the one behind and the index follows; otherwise nothing changes; the multiset of parts is kept |
| Editor.Workspace.BringToFront | public/script.js:1014-1023 | The list becomes the others in order followed by the selected part, with the index last; without a selection nothing changes |
| Editor.Workspace.SendToBack | public/script.js:1025-1034 | The list becomes the selected part followed by the others in order, with the index 0; without a selection nothing changes |
| Editor.Workspace.RemoveSelectedPart | public/script.js:1036-1046 | The selected part is spliced out, the selection is cleared and its name's count drops by one; without a selection nothing changes |
| Editor.Workspace.ClearWorkspace | public/script.js:607-615 | No parts remain and the selection is cleared |
| Editor.Workspace.OpenMonsterModal | public/script.js:1058-1070 | The chooser opens exactly when the canvas is empty or the user confirms. When it opens, the canvas is empty and the drag and redraw flags are kept; a confirmed clear also clears the selection. On refusal, or with an empty canvas, nothing changes |
| Editor.Workspace.ResizeSelectedPart | public/script.js:963-970 | A non-zero scale is stored unclamped and the size follows it; a zero scale changes nothing; the position is kept |
| Editor.Workspace.AdjustScale | public/script.js:973-981 | The scale becomes clamp(scale + increment, 0.25, 2) and the size follows it; the position, rotation and flips are kept |
| Editor.Workspace.ResetScale | public/script.js:984-991 | The scale returns to 1 and the size to the original |
| Editor.Workspace.RotateSelectedPart | public/script.js:994-999 | The rotation becomes (rotation + degrees + 360) % 360 with JavaScript's remainder; nothing else changes |
| Editor.Workspace.FlipSelectedPart | public/script.js:1002-1012 | The flip flags become the flipped ones; position, size, scale and rotation are kept |
| Editor.Workspace.ExportBounds | public/script.js:1211-1237 | With no parts the export is an error; otherwise its box is the tight bounding box of the parts' native rectangles |

## Left out

- `server.js` (HTTP routes, SQLite storage) and `seed-data.js` (filesystem scan and PNG encoding) are I/O and are not part of this model.
- Canvas drawing: the grid lines, `translate`/`scale`/`rotate` with floating-point trigonometry, `drawImage` and `toDataURL` (including the export image itself and its offset drawing). The redraw is kept only as the paint order in `Render`.
- Every `fetch`: loading monsters, saving and deleting creations, loading the gallery, wiping and seeding the database. `Forms.ValidateSave` stops at the request body.
- Image decoding by `Image.onload`. Decoded sizes (`AddPart`'s `imageWidth`/`imageHeight`) and the set of decoded images (`Paint`'s `decoded`) are parameters.
- `requestAnimationFrame` timing. A pending redraw is the `frameRequested` flag, and the frame itself never runs in the model, so the flag is only cleared by pointer up, as in the source.
- `Date.now()` ids are a parameter of `AddPart`. Their uniqueness is not claimed.
- `JSON.parse` of part maps and parent lists. The parsed lists are the inputs (`Catalog.Monster.parts`, `Gallery.Creation.parents`).
- The order in which the asynchronous catalog entries are pushed. `Catalog.AvailableParts` lists them in the order of the parts object.
- The auto-cropped image data. The catalog uses the image key, and `AutoCrop` covers the crop itself.
- The DOM: modals, tabs, titles, the admin password prompt, previews, mobile layout and section toggles. Small-screen detection is the `isMobile` input.
- Thumbnail fitting in the gallery and preview, which is display-only floating-point scaling.
- The integer truncation when the export canvas width and height are assigned.
- IEEE floating point. Coordinates and scales are exact rationals, so rounding in the source's arithmetic is not modelled.
- The touch handlers' one-finger guard and the touch-versus-scroll detection on catalog entries. These are event plumbing ahead of the modelled pointer handlers.
- Editor.Workspace.Drop and Editor.Workspace.ClickAdd: the cap check and the insertion are one step. In the source, the drop handler checks the cap when the drop happens, but the part is pushed later, in `img.onload` (public/script.js:357-375). Two adds of one name that are both checked before either push both pass the check. One tap may also plausibly run `addPartHandler` twice, from `touchend` and from `click` (public/script.js:294-300). Either way a name can exceed two placed parts, and the model cannot show this.
- Editor.Workspace.RotateSelectedPart: degrees are integers, because the buttons pass whole steps. Fractional rotations are not modelled.
- Editor.Workspace.ResizeSelectedPart: only 0 stands for a falsy scale. `NaN` or `undefined` are not in the model's domain.
- Gallery.StrLess: compares Dafny characters, which are Unicode scalar values, while JavaScript's sort compares UTF-16 code units. The two orders differ only for characters outside the Basic Multilingual Plane.
- Editor.Workspace.SelectLayer: requires an index in range. The layer list only passes indices of the rows it has just built.
- Editor.Workspace.Paint: claims only that the selected index is outlined. Other parts sharing the selected part's `id` are outlined too, as `Render.PaintListMembers` states.
