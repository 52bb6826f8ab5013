# Future Mirror canvas editor, modelled in Dafny

Future Mirror is a browser try-on mirror. The user paints makeup on a photo
or a camera frame with brushes, and places glasses and jewelry stickers as
images. Those stickers can then be dragged, scaled, rotated, deleted or
brought to the front. This project models the editing core of `app.js`:

- the scene state: committed strokes, the stroke in progress, the placed
  items and the selection;
- the subtool catalog (`SUBTOOLS`) and `findSubtoolById`;
- the hit test (`pointInItem`, `findTopItemAt`);
- the four pointer handlers;
- the end of an image placement;
- the transform panel's sliders and buttons.

The files are:

- `options.dfy`: an `Option` type. It stands for JavaScript's `null`.
- `items.dfy`: points and items, and the hit test.
- `item_list.dfy`: the item list as a sequence, drawn bottom first. It holds
  the list operations the handlers perform (`findIndex`, splice, splice and
  push, an edit by id, the top-down hit scan), their reference definitions and
  the lemmas relating them.
- `subtools.dfy`: the catalog and the lookup by id.
- `canvas.dfy`: class `Editor`. It holds the page-level variables of `app.js`
  as fields and the event handlers as methods. Each event handler states its
  new state and keeps `Valid()`:
  - a stroke is in progress exactly while drawing;
  - every stroke has a point;
  - item ids are distinct and fresh;
  - the selection names a placed item;
  - the drag offset is the grab point minus the grabbed item's centre.

In JavaScript the dragged item is an object reference. Here it is the item's
id, and the items are values in a sequence. Writing a field of the object
found by `items.find` becomes `Edited`, which replaces the item with that id.

Placing an image is asynchronous in `app.js`. Here pointer-down returns a
`Placement` request, and `FinishPlacement` plays the image's `onload` or
`onerror` with the outcome as a parameter. Its `onload` body runs as one
step, and other events may come between the request and that step, as they
may in the browser.

The trigonometry of the hit test (`Math.cos`, `Math.sin`) is a parameter of
the editor. Its only assumed property is its exact value at 0°. One worked
example also needs sin = -1 and a cosine within 0.25 of 0 at 90°.

## Model

| member | source | states |
|---|---|---|
| Items.PointInItem | app.js:159-169 | the point, moved into the item's frame by its centre and rotation, lies in the scaled box, edges included. An item whose scale makes its extents negative is hit nowhere |
| Items.UnrotatedHit | app.js:159-169 | at rotation 0 a point is on an item iff \|dx\| ≤ w·scale/2 and \|dy\| ≤ h·scale/2, edges included |
| Items.QuarterTurnHit | app.js:159-169 | rotation turns the hit box. A 100×40 item holds (49,0) but not (51,0) unrotated, and holds (0,49) but not (0,51) at 90°, for any host cosine within 0.25 of 0 there |
| ItemList.IndexOfId | app.js:374 | `findIndex` by id gives the first index with that id, or -1 exactly when no item has that id |
| ItemList.Apply | app.js:362 | a field write on an item never changes its id, source or box size |
| ItemList.Removed | app.js:374-375 | splicing at `findIndex` drops one item when the id is present, and changes nothing when it is absent |
| ItemList.RemovedSpec | app.js:374-375 | splicing out the item with an id removes exactly the items with that id and keeps the rest in order (equals the filter `Others`). It drops that id and shortens the list by one, or by nothing when the id is absent. Ids stay distinct |
| ItemList.ToFront | app.js:382-385 | splice then push keeps the length, puts the item with the id last, and changes nothing when the id is absent |
| ItemList.ToFrontSpec | app.js:382-386 | splice-and-push is a permutation with the same ids. The item with the id ends last and the others keep their order before it. An absent id changes nothing |
| ItemList.Edited | app.js:360-362 | a field write on the item found by id keeps the length and every id in place, and changes nothing when no item has the id |
| ItemList.EditedSpec | app.js:360-362 | editing the item with an id changes that item only (through `Apply`). The length, order, ids and every other item stay as they were |
| ItemList.AppendFreshSpec | app.js:336 | pushing an item with a fresh id keeps ids distinct and adds exactly that id |
| ItemList.TopHitSpec | app.js:312-318 | the top-down scan finds a hit item, and no item above it is hit. It finds nothing exactly when no item is hit |
| ItemList.MoveKeepsHit | app.js:276-278 | moving an item by the pointer's travel from g to p keeps it hit at p iff it was hit at g, so a dragged item stays under the pointer |
| Subtools.SubtoolsOf | app.js:193-194 | exactly makeup, glasses and jewelry have subtools. Makeup's are all brushes, and the other two offer only stickers |
| Subtools.FindIn | app.js:309 | `find` by id gives the first catalog member with that id, and nothing exactly when no member has it |
| Subtools.FindSubtoolById | app.js:306-310 | a null or empty id finds nothing. Otherwise the result is the first catalog member with that id, and nothing exactly when no member has it |
| Subtools.FindOwnId | app.js:308-309 | in a catalog with distinct ids, the lookup of a member's own id finds that member |
| Subtools.AppCatalogIdsUnique | app.js:43-61 | the subtool ids of the catalog are distinct |
| Subtools.OfferedInCatalog | app.js:191-198 | every chip a category shows is a catalog entry with a non-empty id |
| Subtools.PickedSubtoolIsFound | app.js:199-204 | a subtool picked from a category's chips is found again by `findSubtoolById` of its id |
| Canvas.Editor.constructor | app.js:24-40 | start-up state: makeup category, no active subtool, no strokes or items, nothing selected, pointer up, no drag, offset (0,0) |
| Canvas.Editor.ShowTransformPanelFor | app.js:348-353 | showing the panel for a placed item selects it, and the state stays valid |
| Canvas.Editor.HideTransformPanel | app.js:354-357 | hiding the panel clears the selection, and the state stays valid |
| Canvas.Editor.SelectCategory | app.js:177-189 | a category chip opens its category, with an empty name read as "none". It forgets the active subtool and its type (so no tool is active) and clears the selection |
| Canvas.Editor.SelectSubtool | app.js:199-212 | a subtool chip makes that subtool the active one. Pointer-down then acts with it, as a brush exactly when it is a brush and as a sticker exactly when it is a sticker |
| Canvas.Editor.FindTopItemAt | app.js:312-318 | the loop returns the index `TopHit` defines: the topmost hit item, or none when no item is hit |
| Canvas.Editor.PointerDown | app.js:225-262 | the first rule that applies wins. (1) An active brush starts a one-point stroke in its colour and size, leaving the selection and drag alone. (2) Else the topmost hit item is selected and grabbed, with offset p − centre, and p and that centre are recorded as the grab. (3) Else an active sticker requests a placement of its image at p. (4) Else the selection is cleared. Items and committed strokes never change, and the pointer is down |
| Canvas.Editor.StartStroke | app.js:233-235 | drawing starts with a stroke of the single point p in the brush's colour and size |
| Canvas.Editor.Grab | app.js:241-247 | the item at the index becomes the selection and the dragged item. The offset from its centre to p is kept, and p and that centre are recorded as the grab |
| Canvas.Editor.PointerMove | app.js:264-286 | with the pointer up, nothing changes. While drawing, exactly p is appended to the stroke and the items are unchanged. While dragging, only the dragged item moves, and its centre is its centre at grab time plus the pointer's travel since the grab |
| Canvas.Editor.ExtendStroke | app.js:270-271 | the stroke in progress gets p appended and nothing else |
| Canvas.Editor.DragTo | app.js:276-278 | the dragged item's centre becomes p − offset, which is its grab-time centre plus the pointer's travel. Every other item and the ids are unchanged |
| Canvas.Editor.PointerUp | app.js:288-297 | a stroke in progress is committed as the last stroke. Afterwards the pointer is up and nothing is drawn or dragged |
| Canvas.Editor.PointerCancel | app.js:299-304 | the stroke in progress is dropped without being committed, and the pointer, drawing and drag are reset |
| Canvas.Editor.FinishPlacement | app.js:321-345 | after a load, a new item with a fresh id is pushed on top at the requested point, with its box min(width, 300) × min(height, 200), scale 1 and rotation 0, and it is selected. After a load error nothing changes |
| Canvas.Editor.ScaleInput | app.js:358-364 | with a selection, only the selected item's scale changes, to the slider value. Without one, nothing changes |
| Canvas.Editor.RotateInput | app.js:365-371 | with a selection, only the selected item's rotation changes, to the slider value. Without one, nothing changes |
| Canvas.Editor.DeleteSelected | app.js:372-379 | the selected item is removed and the others keep their order (one fewer item, its id gone). The selection is cleared. Without a selection, nothing changes |
| Canvas.Editor.BringSelectedToFront | app.js:380-388 | the selected item becomes the last (topmost) and the others keep their order. The items are a permutation of the old ones. Without a selection, nothing changes |

## Left out

- Rendering (`redrawAll`, `drawStroke`, the video loop) is not modelled. It only reads the state modelled here.
- Numbers are reals, so floating-point rounding is not modelled.
- `Math.cos` and `Math.sin` are the `Trig` parameter. Hit tests of rotated items are stated only through it. It is assumed exact at 0° only, and near its true values at 90° for one example.
- `uid` draws random ids, which can in principle collide. The model draws ids from a counter, so they are always fresh.
- The DOM side of the handlers is not modelled: chip highlighting, the cursor, the panel's visibility, the slider positions (`updateTransformSliders`) and `alert` on a load error.
- Pointer positions arrive already in canvas coordinates. The `getBoundingClientRect` offset is not modelled.
- ScaleInput and RotateInput take the slider value as a real. `parseFloat` of the slider text, and a NaN from it, are not modelled.
- The camera, the photo upload, the PNG export and the service worker (`sw.js`) are not part of this model.
- Asynchronous image loading is not modelled. It becomes the `Placement` request and a later, separate `FinishPlacement` call that runs the `onload` or `onerror` body as one step.
- Object identity is not modelled. Items are values and the dragged item is held by id. A drag of an item deleted mid-drag writes to a detached object in `app.js` and changes nothing visible; in the model it is an edit of an absent id, which also changes nothing.
- `activeSubtoolType` is kept and stated, but nothing in `app.js` reads it.
