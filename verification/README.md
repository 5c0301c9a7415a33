# Map sketching components: a verified model

This project models the logic of an Angular map-sketching UI. The UI has three components: `Dashboard`, `ArcGis` and `ArcGis2`. Each embeds a mapping SDK's sketch widget. The repository's own logic is small: it labels polygon vertices, saves and loads drawn geometry in browser storage, and routes sketch events. That logic is modelled here as pure functions over immutable data, with proofs of its counting, ordering, filtering and round-trip properties.

- `wrappers.dfy` (`Wrappers`): `Option`, standing in for `null`/`undefined`.
- `graphics.dfy` (`Graphics`): the SDK as the components see it. It holds coordinates, rings, point/polyline/polygon geometries, attribute bags, graphics, sketch lifecycle states, and the `__isVertexLabel` marker with JavaScript truthiness.
- `vertex_labeler.dfy` (`VertexLabeler`): `updateVertexLabels`. The algorithm appears in both `dashboard.ts` and `arc-gis-2.ts` and is modelled once. It has a functional definition (`LabelRings`) and a loop version (`LabelVertices`) that mirrors the source's counter and nested loops. A proof shows the two agree.
- `scene_codec.dfy` (`SceneCodec`): `saveMap`, `loadSavedSketches` and `clearMap`. The code in `arc-gis.ts` and `dashboard.ts` behaves identically apart from console output. The storage slot is an `Option<Stored>`: `None` means the key is absent. A present slot holds either the parsed record array or `Unparsable`.
- `dashboard_controller.dfy` (`DashboardController`): the dashboard's create and update handlers, plus the one-flag animation-frame throttle `raf`. These are written as an explicit state record with step functions.
- `sketch_session.dfy` (`SketchSession`): `ArcGis2`'s create handler with its `vertexCount` counter, and its buttons. The buttons are start tool, edit, undo/redo guards, finish, cancel, delete and clear. Calls into the SDK view model are recorded in an ordered log.

Coordinates are integers, because the source only compares them for exact equality. A spatial reference is an opaque tag.

Two behaviours of the code are easy to miss:
- A one-vertex ring has its first vertex equal to its last, so the code treats it as closed and gives it no label. `SingleVertexRingYieldsNothing` states this.
- A load is not all-or-nothing. When a `null` array element makes `item.type` throw inside the `try`, the graphics added before it stay on the layer. `DecodeStopsAtNull` states this. A text that fails to parse still yields an empty layer.

## Model

| member | source | states |
|---|---|---|
| VertexLabeler.UpdateVertexLabels | src/app/components/arc-gis-2/arc-gis-2.ts:100-133 | The label layer is emptied first. A null geometry, or any geometry that is not a polygon, leaves it empty. A polygon yields exactly the reference count of labels, numbered 1, 2, … in order. Vertex k of ring r (within the ring's labelled prefix) is shown by the label after all labels of the earlier rings, at that vertex's x and y, with the polygon's spatial reference. The same holds for dashboard.ts:98-128. |
| VertexLabeler.LabelVertices | src/app/components/dashboard/dashboard.ts:98-128 | The source's loop uses one counter starting at 1, skips empty rings, and iterates each ring up to its effective length. It produces exactly the functional label sequence, with every labelled vertex at its position. Its length is the sum over non-empty rings of (length − 1 if closed, else length), and its ordinals are 1..N. |
| VertexLabeler.LabelRingsLength | src/app/components/dashboard/dashboard.ts:105-113 | The number of labels equals an independently defined sum over non-empty rings of (length − 1 when first and last x,y are equal, else length). |
| VertexLabeler.LabelRingsOrdinals | src/app/components/dashboard/dashboard.ts:103-118 | The k-th label overall carries ordinal first + k. The numbering is never reset between rings. The same holds for arc-gis-2.ts:105-121. |
| VertexLabeler.LabelPosition | src/app/components/dashboard/dashboard.ts:108-115 | The k-th label of ring r sits after all labels of rings 0..r−1. It is placed at vertex k of ring r and shows the matching ordinal. k only ranges over the effective length, so a closing duplicate is never labelled. |
| VertexLabeler.UnlabelledRingIsInvisible | src/app/components/dashboard/dashboard.ts:106-113 | A ring that yields no label (empty, or a closed one-vertex ring) can be deleted from the polygon without changing any label or any later ordinal. |
| VertexLabeler.SingleVertexRingYieldsNothing | src/app/components/arc-gis-2/arc-gis-2.ts:109-114 | A one-vertex ring counts as closed and contributes no label at all. |
| VertexLabeler.OpenRingsLabelEveryVertex | src/app/components/arc-gis-2/arc-gis-2.ts:110-116 | When no non-empty ring is closed, every vertex gets a label: the count equals the total number of vertices. |
| VertexLabeler.ClosedSquareScenario | src/app/components/dashboard/dashboard.ts:105-126 | The closed square (0,0),(10,0),(10,10),(0,10),(0,0) yields four labels, 1 to 4, at its four distinct corners. |
| SceneCodec.EncodeScene | src/app/components/arc-gis/arc-gis.ts:106-127 | The stored array contains only point, polyline and polygon records. Each record carries attrs (defaulted to `{}`). Nulls and unknown types never appear. |
| SceneCodec.SaveMap | src/app/components/arc-gis/arc-gis.ts:100-131 | With no drawing layer nothing is written and nothing changes. Otherwise the slot holds a record array with exactly one record per saveable graphic: record i is the record of the i-th saveable graphic in layer order. The layer is untouched. |
| SceneCodec.EncodeRoundTripShape | src/app/components/dashboard/dashboard.ts:136-157 | Save drops graphics with a truthy `__isVertexLabel`, and drops any geometry that is not a point, polyline or polygon. It keeps the rest in layer order, and record i is the record of the i-th kept graphic. |
| SceneCodec.LoadScene | src/app/components/arc-gis/arc-gis.ts:133-174 | A missing key or an unparsable text yields an empty layer. Otherwise the layer gets, in record order, one graphic per known-type record before the first null item: that record's coordinates, the view's spatial reference, and its attrs, or `{}` when it has none. |
| SceneCodec.LoadSavedSketches | src/app/components/dashboard/dashboard.ts:165-208 | The layer's previous content is always replaced, by exactly the graphics decoded from the slot (none for a missing or unparsable value). Storage is not modified. |
| SceneCodec.ClearMap | src/app/components/arc-gis/arc-gis.ts:198-202 | The layer becomes empty and the storage key is removed. |
| SceneCodec.DecodeScene | src/app/components/arc-gis/arc-gis.ts:143-168 | The load loop: unknown types are skipped by `continue`, and a null item throws, ending the load. Its contract is carried by `DecodeKnown`, `DecodeSceneFacts`, `DecodeStopsAtNull`, `DecodeSkipsUnknown` and `DecodeEncode`. |
| SceneCodec.DecodeKnown | src/app/components/arc-gis/arc-gis.ts:143-165 | For any stored array, graphic i of the load is built from the i-th point/polyline/polygon record before the first null item: same coordinates, the supplied spatial reference, and the record's attrs, or `{}` when it has none (`attrs ?? {}`). |
| SceneCodec.DecodeSceneFacts | src/app/components/arc-gis/arc-gis.ts:143-165 | Load adds one graphic per point/polyline/polygon record, up to the first null item. Every graphic has attributes, a known geometry type, and the spatial reference supplied. |
| SceneCodec.DecodeStopsAtNull | src/app/components/arc-gis/arc-gis.ts:139-173 | A null element throws inside the `try`. The graphics added before it stay, and nothing after it is loaded. The error never escapes. |
| SceneCodec.DecodeSkipsUnknown | src/app/components/dashboard/dashboard.ts:177-191 | A record of unknown type, anywhere in the array, is skipped without error and without affecting the graphics decoded from the records before and after it. |
| SceneCodec.DecodeEncode | src/app/components/arc-gis/arc-gis.ts:106-165 | Round trip: loading what save wrote gives the saveable graphics, in order. Types, coordinates and attributes are preserved. Spatial references become the view's, and absent attributes become `{}`. |
| SceneCodec.DecodeEncodeIdentity | src/app/components/dashboard/dashboard.ts:136-199 | A scene with no label-flagged or unknown-type graphics, with attributes present, and already in the view's spatial reference, survives save then load unchanged. |
| SceneCodec.SaveThenLoad | src/app/components/dashboard/dashboard.ts:130-208 | Saving the page and then loading it puts back the restored saveable graphics of the original layer. |
| SceneCodec.ClearThenLoad | src/app/components/dashboard/dashboard.ts:232-236 | After `clearMap`, a load yields zero graphics. |
| SceneCodec.ResaveIsStable | src/app/components/arc-gis/arc-gis.ts:109-127 | Saving a scene loaded from what save wrote writes the same records again. (A hand-written slot need not survive: absent attrs come back as `{}`, and unknown records are dropped.) |
| DashboardController.Raf | src/app/components/dashboard/dashboard.ts:238-246 | A request while `pending` is set is dropped, so the state is unchanged. A request while it is clear queues exactly one callback, capturing the requested geometry. After any request the flag is set. The request keeps the at-most-one-outstanding invariant. |
| DashboardController.FireFrame | src/app/components/dashboard/dashboard.ts:242-245 | The flag is cleared and the outstanding callback is consumed. The labels become the relabel of the geometry that the callback captured. |
| DashboardController.Handle | src/app/components/dashboard/dashboard.ts:57-79 | The create and update handlers. Their contract is carried by `EventRouting` (every branch) and `StepKeepsThrottled`. |
| DashboardController.EventRouting | src/app/components/dashboard/dashboard.ts:57-79 | Create events for another tool never relabel, and neither does a cancelled create. A polygon create in start, active or complete relabels at once. Update events without graphics are ignored. Every other update requests a throttled relabel of the first graphic. A `complete` update also relabels immediately, while the others leave the labels as they were. |
| DashboardController.RunKeepsThrottled | src/app/components/dashboard/dashboard.ts:238-246 | Over any sequence of events and frames, `pending` holds exactly when one callback is outstanding, and at most one ever is. |
| DashboardController.AtMostOneOutstanding | src/app/components/dashboard/dashboard.ts:239-242 | From start-up, whatever happens, at most one deferred relabel is outstanding. |
| DashboardController.RequestsDroppedWhilePending | src/app/components/dashboard/dashboard.ts:240 | While a frame is pending, any number of events add no callback: requests are dropped, not queued. |
| DashboardController.DragBurstRelabelsOnce | src/app/components/dashboard/dashboard.ts:68-74 | A burst of updates in any state, `complete` included, followed by one frame ends with the labels of the geometry of the update that armed the flag, and leaves nothing pending. |
| DashboardController.CompleteRefreshRevertedByPendingFrame | src/app/components/dashboard/dashboard.ts:68-79 | A `complete` update arriving while a frame is pending relabels with the completed geometry at once, and the pending frame then relabels with the older geometry it captured. |
| DashboardController.StaleFrameScenario | src/app/components/dashboard/dashboard.ts:238-246 | A triangle being dragged and then completed as a square before the frame fires shows four labels at completion and three after the frame. |
| DashboardController.RafLatest | src/app/components/dashboard/dashboard.ts:239-246 | Corrected throttle: a request while pending replaces the captured geometry instead of being dropped. The flag is set, labels are untouched, and at most one callback is outstanding. |
| DashboardController.CompleteRefreshSticks | src/app/components/dashboard/dashboard.ts:68-79 | With the corrected throttle, a `complete` update shows the completed geometry's labels at once and still after the pending frame fires, and keeps at most one callback outstanding. |
| DashboardController.ClearDashboard | src/app/components/dashboard/dashboard.ts:232-236 | Clearing empties the drawing layer and removes the storage key. The label layer and the throttle are left exactly as they were. |
| DashboardController.LoadDashboard | src/app/components/dashboard/dashboard.ts:165-208 | Loading replaces the drawing layer with the decoded slot and leaves storage, the label layer and the throttle as they were. |
| DashboardController.StaleLabelsAfterClear | src/app/components/dashboard/dashboard.ts:232-236 | After a square polygon was drawn and labelled, clearing empties the drawing layer but its four vertex labels stay on screen, and a following load leaves them there too. |
| DashboardController.RearmedAfterFrame | src/app/components/dashboard/dashboard.ts:242-244 | Because the flag is cleared when the frame fires, the next update is accepted and schedules a new callback. |
| SketchSession.OnCreate | src/app/components/arc-gis-2/arc-gis-2.ts:52-73 | `start` empties the labels, sets `vertexCount` to 1, and stamps `{sketchNumber: 1}` on the graphic. `vertex-add` adds one to the count. `complete` resets it to 0. The three checks run in that order and independently. Graphics and SDK calls are untouched. |
| SketchSession.ActiveEventsCountVertices | src/app/components/arc-gis-2/arc-gis-2.ts:64-68 | During a sketch, the counter grows by exactly the number of vertex-add events, and the layers are untouched. |
| SketchSession.DrawingSession | src/app/components/arc-gis-2/arc-gis-2.ts:53-72 | Consider a start, then active events, then complete. Before completion the counter is one plus the number of vertex-add events, the start event's own tool info included; after completion it is 0. |
| SketchSession.VertexCountNonNegative | src/app/components/arc-gis-2/arc-gis-2.ts:52-73 | Starting from a non-negative count, no sequence of create events makes it negative. |
| SketchSession.LabelsOnlyCleared | src/app/components/arc-gis-2/arc-gis-2.ts:52-73 | The create handler never puts labels on the layer, because its relabel calls are commented out. Over any run the label layer is unchanged or empty. |
| SketchSession.StartTool | src/app/components/arc-gis-2/arc-gis-2.ts:156-164 | Starting a polyline or polygon first cancels, then creates with that tool. The graphics layer is what the view model leaves; the label layer and the counter are untouched. |
| SketchSession.EnableEdit | src/app/components/arc-gis-2/arc-gis-2.ts:166-171 | Edit does nothing exactly when there are no graphics. Otherwise it selects all graphics for update, and selecting changes neither layer nor the vertex counter. |
| SketchSession.Undo | src/app/components/arc-gis-2/arc-gis-2.ts:173-175 | Undo is forwarded exactly when `canUndo` holds, and the graphics layer is then what the view model leaves; otherwise the state is unchanged. Labels and counter are never touched. |
| SketchSession.Redo | src/app/components/arc-gis-2/arc-gis-2.ts:177-179 | Redo is forwarded exactly when `canRedo` holds, and the graphics layer is then what the view model leaves; otherwise the state is unchanged. Labels and counter are never touched. |
| SketchSession.Finish | src/app/components/arc-gis-2/arc-gis-2.ts:181-183 | Finish forwards `complete`. The graphics layer is what the view model leaves; the label layer and the vertex counter are untouched. |
| SketchSession.CancelSketch | src/app/components/arc-gis-2/arc-gis-2.ts:185-188 | Cancel forwards `cancel` and empties the label layer. The graphics layer is what the view model leaves; the vertex counter is untouched. |
| SketchSession.DeleteSelection | src/app/components/arc-gis-2/arc-gis-2.ts:190-193 | Delete forwards `delete` and empties the label layer. The graphics layer is what the view model leaves; the vertex counter is untouched. |
| SketchSession.Clear | src/app/components/arc-gis-2/arc-gis-2.ts:195-199 | Clear forwards `cancel` and empties both the graphics layer and the label layer. The vertex counter is untouched. |
| SketchSession.UndoRedoForwardedOnlyWhenAllowed | src/app/components/arc-gis-2/arc-gis-2.ts:173-179 | Over any sequence of button presses, the view model receives exactly as many undo (redo) calls as there were undo (redo) presses made while it could undo (redo). |
| SketchSession.GraphicsOnlyFromClearOrViewModel | src/app/components/arc-gis-2/arc-gis-2.ts:156-199 | After one press the graphics layer is unchanged, empty because `clear` was pressed, or what the view model left after a call that press forwarded. |
| SketchSession.NothingChangesWithoutViewModelCall | src/app/components/arc-gis-2/arc-gis-2.ts:166-199 | Over any sequence of presses, if no call reached the view model then nothing changed: guarded undo/redo and edit with no graphics are complete no-ops. |
| SketchSession.ButtonsKeepVertexCount | src/app/components/arc-gis-2/arc-gis-2.ts:156-199 | No button touches `vertexCount`: after any presses it is what it was, so a `cancel` mid-sketch leaves the count until the next `start`. |
| SketchSession.ButtonsOnlyClearLabels | src/app/components/arc-gis-2/arc-gis-2.ts:185-199 | Buttons never add labels: after any presses the label layer is unchanged or empty. |

## Findings

| source | as written | input that shows it | evidently intended | confidence | as-written member | corrected member |
|---|---|---|---|---|---|---|
| src/app/components/dashboard/dashboard.ts:68-79, 238-246 | `raf` drops a request while a frame is pending, and the frame relabels with the geometry captured by the request that armed it; the forced relabel of a `complete` update is then overwritten by that older geometry | an `active` update with a three-vertex triangle, then a `complete` update with a four-vertex square before the frame fires: four labels, then three | the labels after a `complete` update show the completed geometry | low, not executed; if the SDK hands over the same geometry object mutated in place, the captured callback already sees the square | DashboardController.CompleteRefreshRevertedByPendingFrame | DashboardController.CompleteRefreshSticks |

The corrected throttle is `RafLatest`, used by `HandleLatest`. The other dashboard lemmas describe the code as written.

## Left out

- Angular lifecycle, `NgZone`, and construction of the map, view, sketch widget and `Expand` widget: framework and SDK plumbing.
- Symbols (`getSymbol`, `TextSymbol` font and halo), the `vertexSymbol` assignment and the API key in arc-gis.ts: cosmetic or configuration only. A label's text `String(idx)` is modelled as the number `idx`.
- `localStorage`, JSON text, `alert` and `console`: storage is a slot of already-parsed records. Any text that does not parse, including the empty string, is `Unparsable`.
- SceneCodec.DecodeEncode: attribute values are null, booleans, integers and strings. Nested objects, arrays, fractions, `NaN`, `Infinity` and `undefined` are not modelled; `JSON.stringify` drops or rewrites some of these, so "attributes preserved" holds only for the modelled values.
- Stored text that parses to something other than an array (a number, an object, a string) is neither a record array nor `Unparsable` here. The source's `for…of` would throw on most of these, or walk a string's characters.
- The fields inside a known-type record are assumed present and well-typed. A point record without `lat` and similar shape errors in stored JSON are not modelled.
- `requestAnimationFrame` timing: a frame is an explicit step, and there is no real concurrency.
- Geometries are immutable values. The deferred relabel therefore sees the geometry it captured when the flag was armed. The SDK may mutate that geometry object in place during a drag, and that is not modelled.
- Floating-point coordinates and `NaN` equality: coordinates are integers compared exactly.
- Graphics without a geometry. In `saveMap`, `geom.type` would throw outside any `try`. Every modelled graphic has a geometry.
- SceneCodec.LoadSavedSketches: requires the drawing layer to exist. ArcGis calls it only after creating the layer, and on a missing layer the source would throw.
- SceneCodec.ClearMap: requires the drawing layer to exist, for the same reason.
- What the SDK view model does with `cancel`, `create`, `update`, `undo`, `redo`, `complete` and `delete`: the calls are logged in order, and `canUndo`/`canRedo` are inputs. Events the view model fires in response to a call (for instance the `create` event with state `complete` after `finish`, which resets `vertexCount` to 0) are separate `OnCreate` steps and are not composed with `Press`.
- `onSketchEvent` in dashboard.ts (lines 89-96): it is private and never called.
- The empty create, update and `graphics.length` handlers in arc-gis.ts (lines 76-93), and `ngOnDestroy`: they do nothing observable.
- The `await this.view.when()` inside load: it changes no modelled state.
- Commented-out code: `refreshAllVertexLabels`, `addVertexLabel`, the polyline labeling branch in arc-gis-2.ts, and the scale watcher in dashboard.ts.
- The route table and the component construction tests.
