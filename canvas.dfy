/**
 * The editing state of the canvas in app.js (committed strokes, the stroke
 * in progress, the placed items, the selection and the drag state) and the
 * event handlers that change it: pointer down, move, up and cancel, image
 * placement once the image has loaded, the scale and rotation sliders, and
 * the delete and bring-to-front buttons.
 */
module Canvas {
  import opened Options
  import opened Items
  import opened ItemList
  import opened Subtools

  /** A brush stroke: the points the pointer went through, with the brush's colour and size. */
  datatype Stroke = Stroke(points: seq<Point>, color: string, size: nat)

  /** A placement asked for by pointer-down: load the image `src`, then put it at `at`. */
  datatype Placement = Placement(src: string, at: Point)

  /** How loading the image of a placement ended: its natural size, or an error. */
  datatype LoadOutcome = Loaded(width: nat, height: nat) | LoadFailed

  /** The largest box a newly placed item gets, in canvas pixels. */
  const MaxItemWidth: nat := 300
  const MaxItemHeight: nat := 200

  function Min(a: nat, b: nat): nat
  {
    if a < b then a else b
  }

  class Editor {
    /** Math.cos and Math.sin, as used by the hit test. */
    const trig: Trig
    /** The subtools of every category, `Object.values(SUBTOOLS).flat()`. */
    const catalog: seq<Subtool>

    var activeCategory: string
    var activeSubtool: Option<string>
    var activeSubtoolType: Option<SubtoolType>

    var strokes: seq<Stroke>
    var isDrawing: bool
    var currentStroke: Option<Stroke>

    /** The placed items, bottom first: the last one is drawn on top. */
    var items: seq<Item>
    var selectedItemId: Option<Id>

    var pointerDown: bool
    var draggingItem: Option<Id>
    var dragOffset: Point

    /** The supply of fresh item ids. */
    var nextId: Id

    /** Where the pointer grabbed the dragged item, and where that item's centre was then. */
    ghost var grabPoint: Point
    ghost var grabOrigin: Point

    /** A stroke is in progress exactly while drawing, and every stroke has a point. */
    ghost predicate StrokesValid()
      reads this`isDrawing, this`currentStroke, this`strokes
    {
      && (isDrawing <==> currentStroke.Some?)
      && (currentStroke.Some? ==> currentStroke.value.points != [])
      && (forall i :: 0 <= i < |strokes| ==> strokes[i].points != [])
    }

    /** Item ids are distinct, and all of them were drawn from the id supply. */
    ghost predicate ItemsValid()
      reads this`items, this`nextId
    {
      && UniqueIds(items)
      && (forall id :: id in Ids(items) ==> id < nextId)
    }

    /** The selection, when there is one, names a placed item. */
    ghost predicate SelectionValid()
      reads this`selectedItemId, this`items
    {
      selectedItemId.Some? ==> selectedItemId.value in Ids(items)
    }

    /** While an item is dragged, the drag offset is the grab point minus the item's centre at grab time. */
    ghost predicate DragValid()
      reads this`draggingItem, this`dragOffset, this`grabPoint, this`grabOrigin
    {
      draggingItem.Some? ==>
        dragOffset == Point(grabPoint.x - grabOrigin.x, grabPoint.y - grabOrigin.y)
    }

    ghost predicate Valid()
      reads this`isDrawing, this`currentStroke, this`strokes, this`items, this`nextId, this`selectedItemId,
            this`draggingItem, this`dragOffset, this`grabPoint, this`grabOrigin
    {
      StrokesValid() && ItemsValid() && SelectionValid() && DragValid()
    }

    /** The catalog is app.js's own `SUBTOOLS`; it never changes. */
    ghost predicate HasAppCatalog()
    {
      catalog == AllSubtools
    }

    /** The subtool pointer-down acts with: `findSubtoolById(activeSubtool)`. */
    function ActiveTool(): Option<Subtool>
      reads this`activeSubtool
    {
      FindSubtoolById(catalog, activeSubtool)
    }

    predicate BrushActive()
      reads this`activeSubtool
    {
      ActiveTool().Some? && ActiveTool().value.Brush?
    }

    predicate StickerActive()
      reads this`activeSubtool
    {
      ActiveTool().Some? && ActiveTool().value.Sticker?
    }

    /** The state when the page has loaded: the makeup category open, no subtool, an empty scene. */
    constructor (trig: Trig)
      ensures Valid() && HasAppCatalog() && this.trig == trig
      ensures activeCategory == "makeup" && activeSubtool == None && activeSubtoolType == None
      ensures strokes == [] && !isDrawing && currentStroke == None
      ensures items == [] && selectedItemId == None
      ensures !pointerDown && draggingItem == None && dragOffset == Point(0.0, 0.0)
    {
      this.trig := trig;
      catalog := AllSubtools;
      activeCategory, activeSubtool, activeSubtoolType := "makeup", None, None;
      strokes, isDrawing, currentStroke := [], false, None;
      items, selectedItemId := [], None;
      pointerDown, draggingItem, dragOffset := false, None, Point(0.0, 0.0);
      nextId := 0;
      grabPoint, grabOrigin := Point(0.0, 0.0), Point(0.0, 0.0);
    }

    /** Showing the transform panel for a placed item selects that item. */
    method ShowTransformPanelFor(it: Item)
      requires Valid() && it.id in Ids(items)
      modifies this`selectedItemId
      ensures Valid()
      ensures selectedItemId == Some(it.id)
    {
      selectedItemId := Some(it.id);
    }

    /** Hiding the transform panel clears the selection. */
    method HideTransformPanel()
      requires Valid()
      modifies this`selectedItemId
      ensures Valid()
      ensures selectedItemId == None
    {
      selectedItemId := None;
    }

    /**
     * A click on a main-tool chip: opens its category (an empty category name
     * becomes "none"), forgets the active subtool and clears the selection.
     */
    method SelectCategory(category: string)
      requires Valid()
      modifies this`activeCategory, this`activeSubtool, this`activeSubtoolType, this`selectedItemId
      ensures Valid()
      ensures activeCategory == (if category == "" then "none" else category)
      ensures activeSubtool == None && activeSubtoolType == None && ActiveTool() == None
      ensures selectedItemId == None
    {
      activeCategory := if category == "" then "none" else category;
      activeSubtool := None;
      activeSubtoolType := None;
      HideTransformPanel();
    }

    /** A click on a subtool chip of the open category makes that subtool active. */
    method SelectSubtool(st: Subtool)
      requires Valid() && HasAppCatalog() && st in SubtoolsOf(activeCategory)
      modifies this`activeSubtool, this`activeSubtoolType
      ensures Valid()
      ensures activeSubtool == Some(st.id) && activeSubtoolType == Some(TypeOf(st))
      ensures ActiveTool() == Some(st)
      ensures BrushActive() <==> st.Brush?
      ensures StickerActive() <==> st.Sticker?
    {
      activeSubtool := Some(st.id);
      activeSubtoolType := Some(TypeOf(st));
      PickedSubtoolIsFound(activeCategory, st);
    }

    /**
     * `findTopItemAt`: scans the items from the top down and returns the index
     * of the first one hit, which is the topmost hit item (see TopHit).
     */
    method FindTopItemAt(p: Point) returns (top: Option<nat>)
      ensures top == TopHit(items, p, trig)
    {
      var i := |items| - 1;
      assert items[..i + 1] == items;
      while i >= 0
        invariant -1 <= i < |items|
        invariant TopHit(items[..i + 1], p, trig) == TopHit(items, p, trig)
      {
        if PointInItem(p, items[i], trig) {
          assert items[..i + 1][i] == items[i];
          return Some(i);
        }
        assert items[..i + 1][..i] == items[..i];
        i := i - 1;
      }
      return None;
    }

    /**
     * Pointer-down at p. First matching rule: an active brush starts a
     * one-point stroke; else a hit on an item selects it and starts dragging
     * it; else an active sticker asks for a placement at p (returned, to be
     * finished by FinishPlacement once its image has loaded); else the
     * selection is cleared. Committed strokes and the items never change here.
     */
    method PointerDown(p: Point) returns (request: Option<Placement>)
      requires Valid()
      modifies this`pointerDown, this`isDrawing, this`currentStroke, this`selectedItemId,
               this`draggingItem, this`dragOffset, this`grabPoint, this`grabOrigin
      ensures Valid()
      ensures pointerDown
      ensures if BrushActive() then
                // 1. the brush wins, even over an item under the pointer
                && request == None
                && isDrawing && currentStroke == Some(Stroke([p], ActiveTool().value.color, ActiveTool().value.size))
                && selectedItemId == old(selectedItemId)
                && draggingItem == old(draggingItem) && dragOffset == old(dragOffset)
              else if TopHit(items, p, trig).Some? then
                // 2. then the topmost item under the pointer is selected and grabbed
                var it := items[TopHit(items, p, trig).value];
                && request == None
                && isDrawing == old(isDrawing) && currentStroke == old(currentStroke)
                && selectedItemId == Some(it.id) && draggingItem == Some(it.id)
                && dragOffset == Point(p.x - it.x, p.y - it.y)
                && grabPoint == p && grabOrigin == Point(it.x, it.y)
              else
                && isDrawing == old(isDrawing) && currentStroke == old(currentStroke)
                && draggingItem == old(draggingItem) && dragOffset == old(dragOffset)
                && if StickerActive() then
                     // 3. then an active sticker asks to be placed at p
                     request == Some(Placement(ActiveTool().value.src, p)) && selectedItemId == old(selectedItemId)
                   else
                     // 4. otherwise the selection is cleared
                     request == None && selectedItemId == None
    {
      pointerDown := true;

      var st := ActiveTool();
      if st.Some? && st.value.Brush? {
        StartStroke(st.value, p);
        return None;
      }

      var top := FindTopItemAt(p);
      if top.Some? {
        Grab(top.value, p);
        return None;
      }

      if st.Some? && st.value.Sticker? {
        return Some(Placement(st.value.src, p));
      }

      selectedItemId := None;
      HideTransformPanel();
      return None;
    }

    /** The brush branch of pointer-down: a new stroke of the single point p, in the brush's colour and size. */
    method StartStroke(brush: Subtool, p: Point)
      requires Valid() && brush.Brush?
      modifies this`isDrawing, this`currentStroke
      ensures Valid()
      ensures isDrawing && currentStroke == Some(Stroke([p], brush.color, brush.size))
    {
      isDrawing := true;
      currentStroke := Some(Stroke([p], brush.color, brush.size));
    }

    /**
     * The item branch of pointer-down: the item at index k becomes the
     * selection and the dragged item, and the offset from its centre to the
     * grab point p is kept.
     */
    method Grab(k: nat, p: Point)
      requires Valid() && k < |items|
      modifies this`selectedItemId, this`draggingItem, this`dragOffset, this`grabPoint, this`grabOrigin
      ensures Valid()
      ensures selectedItemId == Some(items[k].id) && draggingItem == Some(items[k].id)
      ensures dragOffset == Point(p.x - items[k].x, p.y - items[k].y)
      ensures grabPoint == p && grabOrigin == Point(items[k].x, items[k].y)
    {
      var it := items[k];
      selectedItemId := Some(it.id);
      draggingItem := Some(it.id);
      dragOffset := Point(p.x - it.x, p.y - it.y);
      grabPoint, grabOrigin := p, Point(it.x, it.y);
      ShowTransformPanelFor(it);
    }

    /**
     * Pointer-move to p. Nothing happens unless the pointer is down. While
     * drawing, p is appended to the stroke in progress; otherwise a grabbed
     * item follows the pointer so that the point first grabbed stays under it:
     * its centre becomes its centre at grab time plus the pointer's travel.
     */
    method PointerMove(p: Point)
      requires Valid()
      modifies this`currentStroke, this`items
      ensures Valid()
      ensures !pointerDown ==> currentStroke == old(currentStroke) && items == old(items)
      ensures pointerDown && isDrawing ==>
                var s := old(currentStroke).value;
                currentStroke == Some(s.(points := s.points + [p])) && items == old(items)
      ensures pointerDown && !isDrawing ==>
                && currentStroke == old(currentStroke)
                && items == if draggingItem.Some?
                            then Edited(old(items), draggingItem.value, MoveTo(p.x - dragOffset.x, p.y - dragOffset.y))
                            else old(items)
      ensures pointerDown && !isDrawing && draggingItem.Some? ==>
                && |items| == |old(items)|
                && forall j :: 0 <= j < |items| ==>
                     items[j] == if old(items)[j].id == draggingItem.value
                                 then old(items)[j].(x := grabOrigin.x + (p.x - grabPoint.x),
                                                     y := grabOrigin.y + (p.y - grabPoint.y))
                                 else old(items)[j]
    {
      if !pointerDown {
        return;
      }
      if isDrawing && currentStroke.Some? {
        ExtendStroke(p);
        return;
      }
      if draggingItem.Some? {
        DragTo(p);
      }
    }

    /** The drawing branch of pointer-move: p is appended to the stroke in progress. */
    method ExtendStroke(p: Point)
      requires StrokesValid() && currentStroke.Some?
      modifies this`currentStroke
      ensures StrokesValid()
      ensures currentStroke == Some(old(currentStroke).value.(points := old(currentStroke).value.points + [p]))
    {
      var s := currentStroke.value;
      currentStroke := Some(s.(points := s.points + [p]));
    }

    /**
     * The dragging branch of pointer-move: the dragged item's centre becomes p
     * minus the drag offset, which is its centre at grab time plus the
     * pointer's travel since the grab.
     */
    method DragTo(p: Point)
      requires ItemsValid() && DragValid() && draggingItem.Some?
      modifies this`items
      ensures ItemsValid() && Ids(items) == Ids(old(items))
      ensures items == Edited(old(items), draggingItem.value, MoveTo(p.x - dragOffset.x, p.y - dragOffset.y))
      ensures |items| == |old(items)|
      ensures forall j :: 0 <= j < |items| ==>
                items[j] == if old(items)[j].id == draggingItem.value
                            then old(items)[j].(x := grabOrigin.x + (p.x - grabPoint.x),
                                                y := grabOrigin.y + (p.y - grabPoint.y))
                            else old(items)[j]
    {
      var to := MoveTo(p.x - dragOffset.x, p.y - dragOffset.y);
      assert to == MoveTo(grabOrigin.x + (p.x - grabPoint.x), grabOrigin.y + (p.y - grabPoint.y));
      EditedSpec(items, draggingItem.value, to);
      items := Edited(items, draggingItem.value, to);
    }

    /**
     * Pointer-up: a stroke in progress is committed as the new last stroke;
     * afterwards nothing is being drawn or dragged.
     */
    method PointerUp()
      requires Valid()
      modifies this`pointerDown, this`strokes, this`isDrawing, this`currentStroke, this`draggingItem
      ensures Valid()
      ensures !pointerDown && !isDrawing && currentStroke == None && draggingItem == None
      ensures strokes == if old(isDrawing) then old(strokes) + [old(currentStroke).value] else old(strokes)
    {
      pointerDown := false;
      if isDrawing && currentStroke.Some? {
        strokes := strokes + [currentStroke.value];
        currentStroke := None;
        isDrawing := false;
      }
      draggingItem := None;
    }

    /** Pointer-cancel: the stroke in progress is dropped uncommitted, and drawing and dragging stop. */
    method PointerCancel()
      requires Valid()
      modifies this`pointerDown, this`isDrawing, this`currentStroke, this`draggingItem
      ensures Valid()
      ensures !pointerDown && !isDrawing && currentStroke == None && draggingItem == None
    {
      pointerDown := false;
      isDrawing := false;
      draggingItem := None;
      currentStroke := None;
    }

    /**
     * The end of a placement. On load, a new item with a fresh id is put on
     * top at the requested point, unscaled and unrotated, its box the image's
     * size capped at 300 × 200, and it becomes the selection. On a load
     * error nothing changes.
     */
    method FinishPlacement(req: Placement, outcome: LoadOutcome)
      requires Valid()
      modifies this`items, this`selectedItemId, this`nextId
      ensures Valid()
      ensures outcome.LoadFailed? ==>
                items == old(items) && selectedItemId == old(selectedItemId) && nextId == old(nextId)
      ensures outcome.Loaded? ==>
                var it := Item(old(nextId), req.src, req.at.x, req.at.y,
                               Min(outcome.width, MaxItemWidth), Min(outcome.height, MaxItemHeight), 1.0, 0.0);
                && it.id !in Ids(old(items))
                && items == old(items) + [it]
                && selectedItemId == Some(it.id)
    {
      if outcome.LoadFailed? {
        return;
      }
      var id := nextId;
      var it := Item(id, req.src, req.at.x, req.at.y,
                     Min(outcome.width, MaxItemWidth), Min(outcome.height, MaxItemHeight), 1.0, 0.0);
      AppendFreshSpec(items, it);
      nextId := nextId + 1;
      items := items + [it];
      selectedItemId := Some(id);
      ShowTransformPanelFor(it);
    }

    /** The scale slider: sets the scale of the selected item, and of nothing else. */
    method ScaleInput(value: real)
      requires Valid()
      modifies this`items
      ensures Valid()
      ensures selectedItemId == None ==> items == old(items)
      ensures selectedItemId.Some? ==> items == Edited(old(items), selectedItemId.value, SetScale(value))
      ensures |items| == |old(items)|
      ensures forall j :: 0 <= j < |items| ==>
                items[j] == if Some(old(items)[j].id) == selectedItemId
                            then old(items)[j].(scale := value) else old(items)[j]
    {
      if selectedItemId == None {
        return;
      }
      EditedSpec(items, selectedItemId.value, SetScale(value));
      items := Edited(items, selectedItemId.value, SetScale(value));
    }

    /** The rotation slider: sets the rotation of the selected item, and of nothing else. */
    method RotateInput(value: real)
      requires Valid()
      modifies this`items
      ensures Valid()
      ensures selectedItemId == None ==> items == old(items)
      ensures selectedItemId.Some? ==> items == Edited(old(items), selectedItemId.value, SetRotation(value))
      ensures |items| == |old(items)|
      ensures forall j :: 0 <= j < |items| ==>
                items[j] == if Some(old(items)[j].id) == selectedItemId
                            then old(items)[j].(rotation := value) else old(items)[j]
    {
      if selectedItemId == None {
        return;
      }
      EditedSpec(items, selectedItemId.value, SetRotation(value));
      items := Edited(items, selectedItemId.value, SetRotation(value));
    }

    /**
     * The delete button: removes the selected item, keeps the others in their
     * order, and clears the selection. With nothing selected it does nothing.
     */
    method DeleteSelected()
      requires Valid()
      modifies this`items, this`selectedItemId
      ensures Valid()
      ensures selectedItemId == None
      ensures old(selectedItemId) == None ==> items == old(items)
      ensures old(selectedItemId).Some? ==>
                var id := old(selectedItemId).value;
                && items == Removed(old(items), id) == Others(old(items), id)
                && |items| == |old(items)| - 1
                && Ids(items) == Ids(old(items)) - {id}
    {
      if selectedItemId == None {
        return;
      }
      RemovedSpec(items, selectedItemId.value);
      items := Removed(items, selectedItemId.value);
      selectedItemId := None;
      HideTransformPanel();
    }

    /**
     * The bring-to-front button: the selected item becomes the last (topmost),
     * the others keep their order, and the items are the same as before.
     * With nothing selected it does nothing.
     */
    method BringSelectedToFront()
      requires Valid()
      modifies this`items
      ensures Valid()
      ensures selectedItemId == None ==> items == old(items)
      ensures selectedItemId.Some? ==>
                && items == ToFront(old(items), selectedItemId.value)
                && multiset(items) == multiset(old(items))
                && items[|items| - 1].id == selectedItemId.value
                && items[..|items| - 1] == Others(old(items), selectedItemId.value)
    {
      if selectedItemId == None {
        return;
      }
      var id := selectedItemId.value;
      var front := ToFront(items, id);
      assert && UniqueIds(front) && Ids(front) == Ids(items)
             && multiset(front) == multiset(items)
             && |front| > 0 && front[|front| - 1].id == id
             && front[..|front| - 1] == Others(items, id) by {
        ToFrontSpec(items, id);
      }
      items := front;
    }
  }
}
