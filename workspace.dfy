/** The compositing workspace: the ordered list of placed parts (index 0 at
    the back), the selection, the drag flag and the pending-redraw flag, with
    every user action as a method. */
module Editor {
  import opened Wrappers
  import opened Grid
  import opened Layers
  import opened PartModel
  import opened ExportBox
  import Catalog
  import Render

  /** The click-to-add position, `Math.floor((320 - 16) / 10) * 10`. */
  const ClickAddX: real := Snap(320.0 - 16.0)
  const ClickAddY: real := Snap(320.0 - 16.0)

  lemma ClickAddIsGridPoint300()
    ensures ClickAddX == 300.0 && ClickAddY == 300.0
  {
    assert (304.0 / GridUnit).Floor == 30;
  }

  /** The arrow keys the workspace responds to. */
  predicate IsArrow(key: string) {
    key == "ArrowUp" || key == "ArrowDown" || key == "ArrowLeft" || key == "ArrowRight"
  }

  /** The position an arrow key moves a part of size w x h at (x, y) to: one
      grid unit in the key's direction, stopped at the canvas edge. */
  function Nudge(key: string, x: real, y: real, w: real, h: real): (r: (real, real))
    ensures !IsArrow(key) ==> r == (x, y)
    ensures key == "ArrowUp" ==> r.0 == x && 0.0 <= r.1 && r.1 == (if y - GridUnit < 0.0 then 0.0 else y - GridUnit)
    ensures key == "ArrowLeft" ==> r.1 == y && 0.0 <= r.0 && r.0 == (if x - GridUnit < 0.0 then 0.0 else x - GridUnit)
    ensures key == "ArrowDown" ==> (r.0 == x && r.1 <= CanvasSize - h &&
      r.1 == (if y + GridUnit > CanvasSize - h then CanvasSize - h else y + GridUnit))
    ensures key == "ArrowRight" ==> (r.1 == y && r.0 <= CanvasSize - w &&
      r.0 == (if x + GridUnit > CanvasSize - w then CanvasSize - w else x + GridUnit))
  {
    if key == "ArrowUp" then (x, Max(0.0, y - GridUnit))
    else if key == "ArrowDown" then (x, Min(CanvasSize - h, y + GridUnit))
    else if key == "ArrowLeft" then (Max(0.0, x - GridUnit), y)
    else if key == "ArrowRight" then (Min(CanvasSize - w, x + GridUnit), y)
    else (x, y)
  }

  /** The right-arrow clamp `640 - width` is off the grid whenever the
      scaled width is, so arrow keys can leave a part between grid lines. */
  lemma NudgeCanLeaveGrid()
    ensures Nudge("ArrowRight", 630.0, 0.0, 7.5, 7.5).0 == 632.5 && !OnGrid(632.5)
  {
    assert (632.5 / GridUnit).Floor == 63;
  }

  /** For a part wider than the canvas the same clamp is negative, so the
      right arrow moves the part left, off the canvas edge. */
  lemma NudgeRightCanMoveLeft()
    ensures Nudge("ArrowRight", 0.0, 0.0, 660.0, 660.0).0 == -20.0
  {
  }

  /** The flip flags after `flipSelectedPart(direction)`. */
  function Flipped(h: bool, v: bool, direction: string): (r: (bool, bool))
    ensures direction == "horizontal" ==> r == (!h, v)
    ensures direction == "vertical" ==> r == (h, !v)
    ensures direction != "horizontal" && direction != "vertical" ==> r == (h, v)
  {
    if direction == "horizontal" then (!h, v)
    else if direction == "vertical" then (h, !v)
    else (h, v)
  }

  /** Flipping the same axis twice restores the part. */
  lemma FlipTwiceRestores(h: bool, v: bool, direction: string)
    ensures var f := Flipped(h, v, direction); Flipped(f.0, f.1, direction) == (h, v)
  {
  }

  /** A part's unrotated box in native pixels (workspace units / 10). */
  function NativeRect(p: Part): Rect
    reads p
  {
    Rect(p.x / GridUnit, p.y / GridUnit, p.width / GridUnit, p.height / GridUnit)
  }

  function NativeRects(parts: seq<Part>): (r: seq<Rect>)
    reads parts
    ensures |r| == |parts|
    ensures forall k :: 0 <= k < |parts| ==> r[k] == NativeRect(parts[k])
  {
    if parts == [] then [] else NativeRects(parts[..|parts| - 1]) + [NativeRect(parts[|parts| - 1])]
  }

  datatype ExportResult = Exported(box: Rect) | NothingToExport

  /** One row of the layer list. */
  datatype LayerRow = LayerRow(index: nat, number: nat, name: string, selected: bool)

  /** `updateLayersList`: front-most part first, numbered from 1, the row of
      the selected index marked. */
  function LayerRows(parts: seq<Part>, selectedIndex: int): (r: seq<LayerRow>)
    ensures |r| == |parts|
    ensures forall k :: 0 <= k < |r| ==>
      r[k].index == |parts| - 1 - k && r[k].number == k + 1 &&
      r[k].name == parts[r[k].index].name &&
      (r[k].selected <==> r[k].index == selectedIndex)
  {
    seq(|parts|, k requires 0 <= k < |parts| =>
      var i := |parts| - 1 - k;
      LayerRow(i, |parts| - i, parts[i].name, i == selectedIndex))
  }

  /** The part's size, scale, rotation and flips are as before. */
  twostate predicate SameTransform(p: Part)
    reads p
  {
    p.width == old(p.width) && p.height == old(p.height) && p.scale == old(p.scale) &&
    p.rotation == old(p.rotation) &&
    p.flipHorizontal == old(p.flipHorizontal) && p.flipVertical == old(p.flipVertical)
  }

  /** The part has not moved. */
  twostate predicate SamePosition(p: Part)
    reads p
  {
    p.x == old(p.x) && p.y == old(p.y)
  }

  class Workspace {
    var placedParts: seq<Part>
    var selectedPart: Part?
    var selectedLayerIndex: int
    var isDragging: bool
    /** Stands for `animationFrameId` being set: a redraw has been requested
        during a drag and not yet cancelled by pointer up. */
    var frameRequested: bool

    /** The selection index and the selected part always agree. */
    ghost predicate SelectionAgrees()
      reads this
    {
      (selectedLayerIndex == -1 <==> selectedPart == null) &&
      (selectedLayerIndex != -1 ==>
         0 <= selectedLayerIndex < |placedParts| && placedParts[selectedLayerIndex] == selectedPart)
    }

    ghost predicate Valid()
      reads this, placedParts
    {
      SelectionAgrees() && Distinct(placedParts) &&
      forall p :: p in placedParts ==> p.Valid()
    }

    constructor ()
      ensures Valid()
      ensures placedParts == [] && selectedPart == null && selectedLayerIndex == -1
      ensures !isDragging && !frameRequested
    {
      placedParts := [];
      selectedPart := null;
      selectedLayerIndex := -1;
      isDragging := false;
      frameRequested := false;
    }

    /** `redrawWorkspace`'s paint order with the images in `decoded` ready:
        every ready part is drawn, back to front, and the selected part, when
        ready, is outlined; with no selection nothing is. */
    function Paint(decoded: set<string>): (r: seq<Render.PaintOp>)
      reads this
      requires SelectionAgrees()
      ensures forall i :: 0 <= i < |placedParts| ==>
        (Render.DrawPart(i) in r <==> placedParts[i].imageKey in decoded)
      ensures selectedLayerIndex >= 0 ==>
        (Render.Highlight(selectedLayerIndex) in r <==> placedParts[selectedLayerIndex].imageKey in decoded)
      ensures selectedPart == null ==> forall op :: op in r ==> op.DrawPart?
    {
      var sel := if selectedPart == null then None else Some(selectedPart.id);
      Render.PaintListAllMembers(placedParts, sel, decoded);
      Render.NoSelectionNoHighlight(placedParts, decoded);
      Render.PaintList(placedParts, sel, decoded)
    }

    /** The state after one `addPartToWorkspace`: a fresh part built from
        the arguments (native size times 10, scale 1, no rotation, no flip)
        is appended in front of the unchanged earlier parts and selected;
        the drag and redraw flags are as before. */
    twostate predicate Appended(imageKey: string, partName: string, x: real, y: real,
                                monsterName: string, imageWidth: nat, imageHeight: nat, id: int)
      reads this, placedParts
    {
      |placedParts| == |old(placedParts)| + 1 &&
      placedParts[..|placedParts| - 1] == old(placedParts) &&
      var p := placedParts[|placedParts| - 1];
      fresh(p) && p.id == id && p.name == partName && p.monster == monsterName &&
      p.imageKey == imageKey && p.x == x && p.y == y &&
      p.originalWidth == imageWidth as real * GridUnit && p.width == p.originalWidth &&
      p.originalHeight == imageHeight as real * GridUnit && p.height == p.originalHeight &&
      p.scale == 1.0 && p.rotation == 0 && !p.flipHorizontal && !p.flipVertical &&
      selectedPart == p && selectedLayerIndex == |placedParts| - 1 &&
      isDragging == old(isDragging) && frameRequested == old(frameRequested)
    }

    /** `addPartToWorkspace`, run once the image has decoded to
        imageWidth x imageHeight pixels; `id` stands for `Date.now()`. The new
        part goes in front and is selected. */
    method AddPart(imageKey: string, partName: string, x: real, y: real, monsterName: string,
                   imageWidth: nat, imageHeight: nat, id: int)
      requires Valid()
      modifies this
      ensures Valid()
      ensures Appended(imageKey, partName, x, y, monsterName, imageWidth, imageHeight, id)
    {
      var part := new Part(id, partName, monsterName, imageKey, x, y, imageWidth, imageHeight);
      placedParts := placedParts + [part];
      selectedPart := part;
      selectedLayerIndex := |placedParts| - 1;
      assert placedParts[..|placedParts| - 1] == old(placedParts);
    }

    /** The drop handler: snap the drop point to the grid and insert only
        while the part's name is under the cap. */
    method Drop(px: real, py: real, imageKey: string, partName: string, monsterName: string,
                imageWidth: nat, imageHeight: nat, id: int)
      requires Valid()
      modifies this
      ensures Valid()
      ensures old(CanAddPart(placedParts, partName, monsterName)) ==>
        Appended(imageKey, partName, Snap(px), Snap(py), monsterName, imageWidth, imageHeight, id) &&
        CountName(placedParts, partName) == old(CountName(placedParts, partName)) + 1
      ensures !old(CanAddPart(placedParts, partName, monsterName)) ==> unchanged(this)
    {
      if CanAddPart(placedParts, partName, monsterName) {
        AddPart(imageKey, partName, Snap(px), Snap(py), monsterName, imageWidth, imageHeight, id);
        assert placedParts == old(placedParts) + [placedParts[|placedParts| - 1]];
        CountAppend(old(placedParts), placedParts[|placedParts| - 1], partName);
      }
    }

    /** Clicking (or tapping) a catalog entry: the handler exists only on
        enabled entries and places the part at the fixed grid point. */
    method ClickAdd(entry: Catalog.Entry, imageWidth: nat, imageHeight: nat, id: int)
      requires Valid()
      modifies this
      ensures Valid()
      ensures entry.enabled ==>
        Appended(entry.imageKey, entry.partName, ClickAddX, ClickAddY, entry.monster,
                 imageWidth, imageHeight, id)
      ensures !entry.enabled ==> unchanged(this)
    {
      if entry.enabled {
        AddPart(entry.imageKey, entry.partName, ClickAddX, ClickAddY, entry.monster,
                imageWidth, imageHeight, id);
      }
    }

    /** The reverse scan of `handlePointerDown`: the highest index whose
        inclusive box contains the point, or -1. */
    method HitTest(px: real, py: real) returns (hit: int)
      ensures -1 <= hit < |placedParts|
      ensures hit >= 0 ==> placedParts[hit].Contains(px, py)
      ensures forall j :: hit < j < |placedParts| ==> !placedParts[j].Contains(px, py)
    {
      var i := |placedParts| - 1;
      while i >= 0
        invariant -1 <= i < |placedParts|
        invariant forall j :: i < j < |placedParts| ==> !placedParts[j].Contains(px, py)
      {
        if placedParts[i].Contains(px, py) {
          return i;
        }
        i := i - 1;
      }
      return -1;
    }

    /** Pointer down: select the front-most part under the pointer and start
        dragging it; with no part there, clear the selection. */
    method PointerDown(rawX: real, rawY: real, isMobile: bool)
      requires Valid()
      modifies this
      ensures Valid()
      ensures placedParts == old(placedParts) && frameRequested == old(frameRequested)
      ensures var px, py := PointerCoord(rawX, isMobile), PointerCoord(rawY, isMobile);
        (selectedLayerIndex >= 0 ==> placedParts[selectedLayerIndex].Contains(px, py) && isDragging) &&
        (forall j :: selectedLayerIndex < j < |placedParts| ==> !placedParts[j].Contains(px, py)) &&
        (selectedLayerIndex == -1 ==> isDragging == old(isDragging))
    {
      var px, py := PointerCoord(rawX, isMobile), PointerCoord(rawY, isMobile);
      var i := HitTest(px, py);
      if i >= 0 {
        selectedPart := placedParts[i];
        selectedLayerIndex := i;
        isDragging := true;
      } else {
        selectedPart := null;
        selectedLayerIndex := -1;
      }
    }

    /** Pointer move while dragging: centre the selected part under the
        pointer, snapped to the grid; touch the part and request a redraw only
        when that position differs from the current one. */
    method PointerMove(rawX: real, rawY: real, isMobile: bool)
      requires Valid()
      modifies this, selectedPart
      ensures Valid()
      ensures placedParts == old(placedParts) && selectedPart == old(selectedPart)
      ensures selectedLayerIndex == old(selectedLayerIndex) && isDragging == old(isDragging)
      ensures selectedPart != null ==> SameTransform(selectedPart)
      ensures !isDragging || selectedPart == null ==>
        frameRequested == old(frameRequested) &&
        (selectedPart != null ==> SamePosition(selectedPart))
      ensures isDragging && selectedPart != null ==>
        var nx := Snap(PointerCoord(rawX, isMobile) - selectedPart.width / 2.0);
        var ny := Snap(PointerCoord(rawY, isMobile) - selectedPart.height / 2.0);
        selectedPart.x == nx && selectedPart.y == ny &&
        (nx == old(selectedPart.x) && ny == old(selectedPart.y) ==> frameRequested == old(frameRequested)) &&
        (nx != old(selectedPart.x) || ny != old(selectedPart.y) ==> frameRequested)
    {
      if !isDragging || selectedPart == null {
        return;
      }
      var px, py := PointerCoord(rawX, isMobile), PointerCoord(rawY, isMobile);
      var newX := Snap(px - selectedPart.width / 2.0);
      var newY := Snap(py - selectedPart.height / 2.0);
      if newX != selectedPart.x || newY != selectedPart.y {
        selectedPart.x := newX;
        selectedPart.y := newY;
        frameRequested := true;
      }
    }

    /** Pointer up: stop dragging and cancel any pending redraw. */
    method PointerUp()
      requires Valid()
      modifies this
      ensures Valid()
      ensures !isDragging && !frameRequested
      ensures placedParts == old(placedParts) && selectedPart == old(selectedPart)
      ensures selectedLayerIndex == old(selectedLayerIndex)
    {
      isDragging := false;
      frameRequested := false;
    }

    /** An arrow key nudges the selected part by one grid unit, stopping at
        the canvas edge; anything else does nothing. */
    method KeyDown(key: string)
      requires Valid()
      modifies selectedPart
      ensures Valid()
      ensures selectedPart != null ==> SameTransform(selectedPart)
      ensures selectedPart != null ==>
        (selectedPart.x, selectedPart.y) ==
          Nudge(key, old(selectedPart.x), old(selectedPart.y), selectedPart.width, selectedPart.height)
    {
      if selectedPart == null || !IsArrow(key) {
        return;
      }
      var p := Nudge(key, selectedPart.x, selectedPart.y, selectedPart.width, selectedPart.height);
      selectedPart.x, selectedPart.y := p.0, p.1;
    }

    /** A click on a row of the layer list selects that row's part. */
    method SelectLayer(index: int)
      requires Valid() && 0 <= index < |placedParts|
      modifies this
      ensures Valid()
      ensures placedParts == old(placedParts)
      ensures selectedLayerIndex == index && selectedPart == placedParts[index]
      ensures isDragging == old(isDragging) && frameRequested == old(frameRequested)
    {
      selectedLayerIndex := index;
      selectedPart := placedParts[index];
    }

    /** Swap the selected part with the one in front of it. */
    method MoveLayerUp()
      requires Valid()
      modifies this
      ensures Valid()
      ensures selectedPart == old(selectedPart)
      ensures isDragging == old(isDragging) && frameRequested == old(frameRequested)
      ensures multiset(placedParts) == multiset(old(placedParts))
      ensures old(0 <= selectedLayerIndex < |placedParts| - 1) ==>
        placedParts == Swap(old(placedParts), old(selectedLayerIndex), old(selectedLayerIndex) + 1) &&
        selectedLayerIndex == old(selectedLayerIndex) + 1
      ensures !old(0 <= selectedLayerIndex < |placedParts| - 1) ==>
        placedParts == old(placedParts) && selectedLayerIndex == old(selectedLayerIndex)
    {
      if selectedLayerIndex < |placedParts| - 1 && selectedLayerIndex >= 0 {
        var i := selectedLayerIndex;
        SwapPermutes(placedParts, i, i + 1);
        DistinctSwap(placedParts, i, i + 1);
        placedParts := Swap(placedParts, i, i + 1);
        selectedLayerIndex := i + 1;
      }
    }

    /** Swap the selected part with the one behind it. */
    method MoveLayerDown()
      requires Valid()
      modifies this
      ensures Valid()
      ensures selectedPart == old(selectedPart)
      ensures isDragging == old(isDragging) && frameRequested == old(frameRequested)
      ensures multiset(placedParts) == multiset(old(placedParts))
      ensures old(selectedLayerIndex > 0) ==>
        placedParts == Swap(old(placedParts), old(selectedLayerIndex), old(selectedLayerIndex) - 1) &&
        selectedLayerIndex == old(selectedLayerIndex) - 1
      ensures !old(selectedLayerIndex > 0) ==>
        placedParts == old(placedParts) && selectedLayerIndex == old(selectedLayerIndex)
    {
      if selectedLayerIndex > 0 {
        var i := selectedLayerIndex;
        SwapPermutes(placedParts, i, i - 1);
        DistinctSwap(placedParts, i, i - 1);
        placedParts := Swap(placedParts, i, i - 1);
        selectedLayerIndex := i - 1;
      }
    }

    /** Move the selected part to the front, keeping the others in order. */
    method BringToFront()
      requires Valid()
      modifies this
      ensures Valid()
      ensures selectedPart == old(selectedPart)
      ensures isDragging == old(isDragging) && frameRequested == old(frameRequested)
      ensures multiset(placedParts) == multiset(old(placedParts))
      ensures old(selectedLayerIndex) >= 0 ==>
        placedParts == ToFront(old(placedParts), old(selectedLayerIndex)) &&
        selectedLayerIndex == |placedParts| - 1
      ensures old(selectedLayerIndex) < 0 ==>
        placedParts == old(placedParts) && selectedLayerIndex == old(selectedLayerIndex)
    {
      if selectedLayerIndex >= 0 {
        var i := selectedLayerIndex;
        ToFrontPermutes(placedParts, i);
        DistinctToFront(placedParts, i);
        placedParts := ToFront(placedParts, i);
        selectedLayerIndex := |placedParts| - 1;
      }
    }

    /** Move the selected part to the back, keeping the others in order. */
    method SendToBack()
      requires Valid()
      modifies this
      ensures Valid()
      ensures selectedPart == old(selectedPart)
      ensures isDragging == old(isDragging) && frameRequested == old(frameRequested)
      ensures multiset(placedParts) == multiset(old(placedParts))
      ensures old(selectedLayerIndex) >= 0 ==>
        placedParts == ToBack(old(placedParts), old(selectedLayerIndex)) &&
        selectedLayerIndex == 0
      ensures old(selectedLayerIndex) < 0 ==>
        placedParts == old(placedParts) && selectedLayerIndex == old(selectedLayerIndex)
    {
      if selectedLayerIndex >= 0 {
        var i := selectedLayerIndex;
        ToBackPermutes(placedParts, i);
        DistinctToBack(placedParts, i);
        placedParts := ToBack(placedParts, i);
        selectedLayerIndex := 0;
      }
    }

    /** Delete the selected part and clear the selection; that part's name
        loses one from its count. */
    method RemoveSelectedPart()
      requires Valid()
      modifies this
      ensures Valid()
      ensures isDragging == old(isDragging) && frameRequested == old(frameRequested)
      ensures old(selectedLayerIndex) >= 0 ==>
        placedParts == RemoveAt(old(placedParts), old(selectedLayerIndex)) &&
        selectedPart == null && selectedLayerIndex == -1 &&
        CountName(placedParts, old(selectedPart).name) == CountName(old(placedParts), old(selectedPart).name) - 1
      ensures old(selectedLayerIndex) < 0 ==> unchanged(this)
    {
      if selectedLayerIndex >= 0 {
        var i := selectedLayerIndex;
        DistinctRemoveAt(placedParts, i);
        CountRemoveAt(placedParts, i, placedParts[i].name);
        placedParts := RemoveAt(placedParts, i);
        selectedPart := null;
        selectedLayerIndex := -1;
      }
    }

    /** Empty the workspace and clear the selection. */
    method ClearWorkspace()
      requires Valid()
      modifies this
      ensures Valid()
      ensures placedParts == [] && selectedPart == null && selectedLayerIndex == -1
      ensures isDragging == old(isDragging) && frameRequested == old(frameRequested)
    {
      placedParts := [];
      selectedPart := null;
      selectedLayerIndex := -1;
    }

    /** Opening the monster chooser: with parts on the canvas it asks first
        (`confirmed` is the answer) and clears them if the user agrees. */
    method OpenMonsterModal(confirmed: bool) returns (shown: bool)
      requires Valid()
      modifies this
      ensures Valid()
      ensures shown <==> old(|placedParts|) == 0 || confirmed
      ensures shown ==> (placedParts == [] &&
                         isDragging == old(isDragging) && frameRequested == old(frameRequested))
      ensures shown && old(|placedParts|) > 0 ==> selectedPart == null && selectedLayerIndex == -1
      ensures old(|placedParts|) == 0 || !shown ==> unchanged(this)
    {
      if |placedParts| > 0 {
        if !confirmed {
          return false;
        }
        ClearWorkspace();
      }
      return true;
    }

    /** `resizeSelectedPart`: set the scale as given, unclamped, and resize;
        a zero scale is ignored like any falsy value. */
    method ResizeSelectedPart(scale: real)
      requires Valid()
      modifies selectedPart
      ensures Valid()
      ensures selectedPart != null ==> SamePosition(selectedPart)
      ensures selectedPart != null && scale != 0.0 ==>
        selectedPart.scale == scale &&
        selectedPart.width == selectedPart.originalWidth * scale &&
        selectedPart.height == selectedPart.originalHeight * scale &&
        selectedPart.rotation == old(selectedPart.rotation) &&
        selectedPart.flipHorizontal == old(selectedPart.flipHorizontal) &&
        selectedPart.flipVertical == old(selectedPart.flipVertical)
      ensures selectedPart != null && scale == 0.0 ==> SameTransform(selectedPart)
    {
      if selectedPart != null && scale != 0.0 {
        selectedPart.scale := scale;
        selectedPart.width := selectedPart.originalWidth * scale;
        selectedPart.height := selectedPart.originalHeight * scale;
      }
    }

    /** `adjustScale`: add the increment and clamp into [0.25, 2]. */
    method AdjustScale(increment: real)
      requires Valid()
      modifies selectedPart
      ensures Valid()
      ensures selectedPart != null ==>
        SamePosition(selectedPart) &&
        selectedPart.scale == Clamp(old(selectedPart.scale) + increment, 0.25, 2.0) &&
        0.25 <= selectedPart.scale <= 2.0 &&
        selectedPart.width == selectedPart.originalWidth * selectedPart.scale &&
        selectedPart.height == selectedPart.originalHeight * selectedPart.scale &&
        selectedPart.rotation == old(selectedPart.rotation) &&
        selectedPart.flipHorizontal == old(selectedPart.flipHorizontal) &&
        selectedPart.flipVertical == old(selectedPart.flipVertical)
    {
      if selectedPart != null {
        var newScale := Clamp(selectedPart.scale + increment, 0.25, 2.0);
        selectedPart.scale := newScale;
        selectedPart.width := selectedPart.originalWidth * newScale;
        selectedPart.height := selectedPart.originalHeight * newScale;
      }
    }

    /** `resetScale`: back to scale 1 and the native size. */
    method ResetScale()
      requires Valid()
      modifies selectedPart
      ensures Valid()
      ensures selectedPart != null ==>
        SamePosition(selectedPart) && selectedPart.scale == 1.0 &&
        selectedPart.width == selectedPart.originalWidth &&
        selectedPart.height == selectedPart.originalHeight &&
        selectedPart.rotation == old(selectedPart.rotation) &&
        selectedPart.flipHorizontal == old(selectedPart.flipHorizontal) &&
        selectedPart.flipVertical == old(selectedPart.flipVertical)
    {
      if selectedPart != null {
        selectedPart.scale := 1.0;
        selectedPart.width := selectedPart.originalWidth;
        selectedPart.height := selectedPart.originalHeight;
      }
    }

    /** `rotateSelectedPart`: turn by the given degrees, normalised with
        JavaScript's `%`. */
    method RotateSelectedPart(degrees: int)
      requires Valid()
      modifies selectedPart
      ensures Valid()
      ensures selectedPart != null ==>
        SamePosition(selectedPart) &&
        selectedPart.rotation == Rotated(old(selectedPart.rotation), degrees) &&
        selectedPart.scale == old(selectedPart.scale) &&
        selectedPart.width == old(selectedPart.width) && selectedPart.height == old(selectedPart.height) &&
        selectedPart.flipHorizontal == old(selectedPart.flipHorizontal) &&
        selectedPart.flipVertical == old(selectedPart.flipVertical)
    {
      if selectedPart != null {
        selectedPart.rotation := Rotated(selectedPart.rotation, degrees);
      }
    }

    /** `flipSelectedPart`: toggle the named axis; other directions change
        nothing. */
    method FlipSelectedPart(direction: string)
      requires Valid()
      modifies selectedPart
      ensures Valid()
      ensures selectedPart != null ==>
        SamePosition(selectedPart) &&
        (selectedPart.flipHorizontal, selectedPart.flipVertical) ==
          Flipped(old(selectedPart.flipHorizontal), old(selectedPart.flipVertical), direction) &&
        selectedPart.scale == old(selectedPart.scale) && selectedPart.rotation == old(selectedPart.rotation) &&
        selectedPart.width == old(selectedPart.width) && selectedPart.height == old(selectedPart.height)
    {
      if selectedPart != null {
        var f := Flipped(selectedPart.flipHorizontal, selectedPart.flipVertical, direction);
        selectedPart.flipHorizontal, selectedPart.flipVertical := f.0, f.1;
      }
    }

    /** The bounds loop of `exportCanvas`: with no parts it reports an error;
        otherwise the minimum corner and the size of the box around every
        part, in native pixels. */
    method ExportBounds() returns (r: ExportResult)
      ensures r.NothingToExport? <==> |placedParts| == 0
      ensures |placedParts| > 0 ==> r == Exported(BoundingBox(NativeRects(placedParts)))
    {
      if |placedParts| == 0 {
        return NothingToExport;
      }
      var box := AccumulateBounds(NativeRects(placedParts));
      return Exported(box);
    }
  }
}
