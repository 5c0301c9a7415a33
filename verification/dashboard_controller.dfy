/**
 * The dashboard's event wiring: sketch create/update events routed to the
 * vertex labeler, with redraws during edits throttled to one per animation
 * frame through a single `pending` flag.
 */
module DashboardController {
  import opened Wrappers
  import opened Graphics
  import opened VertexLabeler
  import opened SceneCodec

  /** The sketch widget's events as the dashboard reads them. `graphics` is
      `None` when the update event carries no array. */
  datatype SketchEvent =
    | CreateEvent(tool: string, state: ToolState, geometry: Option<Geometry>)
    | UpdateEvent(state: ToolState, graphics: Option<seq<Graphic>>)

  /** Controller state: the throttle flag, the animation-frame callbacks
      requested and not yet run (each relabels the geometry it captured), and
      the label layer's content. */
  datatype Dashboard = Dashboard(pending: bool, frames: seq<Option<Geometry>>, labels: seq<Label>)

  /** What can happen next: an event is delivered, or the browser runs the
      oldest requested animation-frame callback. */
  datatype Step = Deliver(event: SketchEvent) | FrameFires

  const Initial: Dashboard := Dashboard(false, [], [])

  /** At most one callback is outstanding, and `pending` says whether there is one. */
  predicate Throttled(d: Dashboard)
  {
    |d.frames| <= 1 && (d.pending <==> |d.frames| == 1)
  }

  /** `updateVertexLabels(geom)` applied to the label layer. */
  function Relabel(d: Dashboard, geom: Option<Geometry>): (e: Dashboard)
    ensures e.pending == d.pending && e.frames == d.frames
    ensures geom.Some? && geom.value.Polygon? ==> |e.labels| == LabelCount(geom.value.rings)
    ensures !(geom.Some? && geom.value.Polygon?) ==> e.labels == []
  {
    d.(labels := UpdateVertexLabels(geom))
  }

  /** `raf(() => updateVertexLabels(geom))`: dropped while a frame is pending;
      otherwise sets the flag and requests one frame. */
  function Raf(d: Dashboard, geom: Option<Geometry>): (e: Dashboard)
    ensures d.pending ==> e == d
    ensures !d.pending ==> e.frames == d.frames + [geom]
    ensures e.pending && e.labels == d.labels
    ensures Throttled(d) ==> Throttled(e)
  {
    if d.pending then d
    else d.(pending := true, frames := d.frames + [geom])
  }

  /** The frame fires: the flag is cleared first, then the captured relabel runs. */
  function FireFrame(d: Dashboard): (e: Dashboard)
    ensures Throttled(d) ==> Throttled(e) && !e.pending && e.frames == []
    ensures |d.frames| > 0 ==> e.labels == UpdateVertexLabels(d.frames[0])
  {
    if |d.frames| == 0 then d
    else
      var cleared := d.(pending := false, frames := d.frames[1..]);
      Relabel(cleared, d.frames[0])
  }

  /** The `create` and `update` handlers. */
  function Handle(d: Dashboard, ev: SketchEvent): Dashboard
  {
    match ev
    case CreateEvent(tool, state, geom) =>
      if tool != "polygon" then d
      else if state == Start || state == Active then Relabel(d, geom)
      else if state == Complete then Relabel(d, geom)
      else d
    case UpdateEvent(state, graphics) =>
      if graphics.None? || |graphics.value| == 0 then d
      else
        var geom := Some(graphics.value[0].geometry);
        var requested := Raf(d, geom);
        if state == Complete then Relabel(requested, geom) else requested
  }

  function Apply(d: Dashboard, s: Step): Dashboard
  {
    match s
    case Deliver(ev) => Handle(d, ev)
    case FrameFires => FireFrame(d)
  }

  function Run(d: Dashboard, steps: seq<Step>): Dashboard
    decreases |steps|
  {
    if |steps| == 0 then d else Run(Apply(d, steps[0]), steps[1..])
  }

  /** An update event that carries at least one graphic. */
  predicate HasGraphics(ev: SketchEvent)
  {
    ev.UpdateEvent? && ev.graphics.Some? && |ev.graphics.value| > 0
  }

  /** Routing: create events of another tool and update events without
      graphics change nothing; a polygon create event relabels at once except
      on cancel; every other update requests a throttled relabel, and a
      `complete` update also relabels at once. */
  lemma EventRouting(d: Dashboard, ev: SketchEvent)
    ensures ev.CreateEvent? && ev.tool != "polygon" ==> Handle(d, ev) == d
    ensures ev.CreateEvent? && ev.tool == "polygon" && ev.state != Cancel ==>
      Handle(d, ev) == d.(labels := UpdateVertexLabels(ev.geometry))
    ensures ev.CreateEvent? && ev.state == Cancel ==> Handle(d, ev) == d
    ensures ev.UpdateEvent? && !HasGraphics(ev) ==> Handle(d, ev) == d
    ensures HasGraphics(ev) ==> Handle(d, ev).pending
    ensures HasGraphics(ev) && !d.pending ==>
      Handle(d, ev).frames == d.frames + [Some(ev.graphics.value[0].geometry)]
    ensures HasGraphics(ev) && ev.state == Complete ==>
      Handle(d, ev).labels == UpdateVertexLabels(Some(ev.graphics.value[0].geometry))
    ensures HasGraphics(ev) && ev.state != Complete ==> Handle(d, ev).labels == d.labels
  {
  }

  /** Every step keeps the throttle invariant. */
  lemma StepKeepsThrottled(d: Dashboard, s: Step)
    requires Throttled(d)
    ensures Throttled(Apply(d, s))
  {
  }

  lemma {:induction false} RunKeepsThrottled(d: Dashboard, steps: seq<Step>)
    requires Throttled(d)
    ensures Throttled(Run(d, steps))
    decreases |steps|
  {
    if |steps| > 0 {
      StepKeepsThrottled(d, steps[0]);
      RunKeepsThrottled(Apply(d, steps[0]), steps[1..]);
    }
  }

  /** From start-up, whatever happens, at most one callback is ever outstanding. */
  lemma AtMostOneOutstanding(steps: seq<Step>)
    ensures |Run(Initial, steps).frames| <= 1
  {
    RunKeepsThrottled(Initial, steps);
  }

  /** While a frame is pending, events never add a callback: requests are
      dropped, not queued. */
  lemma {:induction false} RequestsDroppedWhilePending(d: Dashboard, evs: seq<SketchEvent>)
    requires d.pending
    ensures Run(d, seq(|evs|, i requires 0 <= i < |evs| => Deliver(evs[i]))).frames == d.frames
    ensures Run(d, seq(|evs|, i requires 0 <= i < |evs| => Deliver(evs[i]))).pending
    decreases |evs|
  {
    var steps := seq(|evs|, i requires 0 <= i < |evs| => Deliver(evs[i]));
    if |evs| > 0 {
      var d1 := Handle(d, evs[0]);
      assert steps[1..] == seq(|evs| - 1, i requires 0 <= i < |evs| - 1 => Deliver(evs[1..][i]));
      RequestsDroppedWhilePending(d1, evs[1..]);
    }
  }

  /** A burst of updates (in any state, `complete` included) followed by one
      frame relabels once more, with the geometry of the update that armed the flag. */
  lemma DragBurstRelabelsOnce(d: Dashboard, ev: SketchEvent, rest: seq<SketchEvent>)
    requires Throttled(d) && !d.pending
    requires HasGraphics(ev)
    ensures var afterBurst := Run(d, seq(|rest| + 1, i requires 0 <= i < |rest| + 1 =>
                                 Deliver(([ev] + rest)[i])));
            && afterBurst.frames == [Some(ev.graphics.value[0].geometry)]
            && FireFrame(afterBurst).labels == UpdateVertexLabels(Some(ev.graphics.value[0].geometry))
            && !FireFrame(afterBurst).pending
  {
    var all := [ev] + rest;
    var steps := seq(|all|, i requires 0 <= i < |all| => Deliver(all[i]));
    var d1 := Handle(d, ev);
    assert d1.frames == [Some(ev.graphics.value[0].geometry)];
    assert steps[1..] == seq(|rest|, i requires 0 <= i < |rest| => Deliver(rest[i]));
    RequestsDroppedWhilePending(d1, rest);
    RunKeepsThrottled(d1, steps[1..]);
  }

  /** Once the frame has fired, the next update is accepted again. */
  lemma RearmedAfterFrame(d: Dashboard, ev: SketchEvent)
    requires Throttled(d)
    requires HasGraphics(ev)
    ensures Handle(FireFrame(d), ev).frames == [Some(ev.graphics.value[0].geometry)]
  {
  }

  // ---------------------------------------------------------------- the forced refresh

  /** As written, the forced refresh of a `complete` update is undone when a
      frame armed by an earlier update fires: the labels go back to the
      geometry that earlier update captured. */
  lemma CompleteRefreshRevertedByPendingFrame(d: Dashboard, ev: SketchEvent)
    requires Throttled(d) && d.pending
    requires HasGraphics(ev) && ev.state == Complete
    ensures Handle(d, ev).labels == UpdateVertexLabels(Some(ev.graphics.value[0].geometry))
    ensures FireFrame(Handle(d, ev)).labels == UpdateVertexLabels(d.frames[0])
    ensures !FireFrame(Handle(d, ev)).pending
  {
  }

  /** A three-vertex triangle being dragged, completed as a four-vertex square
      before the frame fires: four labels at completion, three after the frame. */
  lemma StaleFrameScenario()
    ensures var triangle := Polygon([[Coord(0, 0), Coord(10, 0), Coord(0, 10)]], 0);
            var square := Polygon([[Coord(0, 0), Coord(10, 0), Coord(10, 10), Coord(0, 10)]], 0);
            var dragged := Handle(Initial, UpdateEvent(Active, Some([Graphic(triangle, None)])));
            var completed := Handle(dragged, UpdateEvent(Complete, Some([Graphic(square, None)])));
            && |completed.labels| == 4
            && |FireFrame(completed).labels| == 3
  {
  }

  /** Corrected throttle: a request made while a frame is pending replaces the
      geometry the frame will relabel, so the frame always shows the latest one. */
  function RafLatest(d: Dashboard, geom: Option<Geometry>): (e: Dashboard)
    ensures e.frames == (if d.pending then [geom] else d.frames + [geom])
    ensures e.pending && e.labels == d.labels
    ensures Throttled(d) ==> Throttled(e)
  {
    if d.pending then d.(frames := [geom])
    else d.(pending := true, frames := d.frames + [geom])
  }

  /** The update handler over the corrected throttle; create events are unchanged. */
  function HandleLatest(d: Dashboard, ev: SketchEvent): Dashboard
  {
    match ev
    case CreateEvent(_, _, _) => Handle(d, ev)
    case UpdateEvent(state, graphics) =>
      if graphics.None? || |graphics.value| == 0 then d
      else
        var geom := Some(graphics.value[0].geometry);
        var requested := RafLatest(d, geom);
        if state == Complete then Relabel(requested, geom) else requested
  }

  /** With the corrected throttle the forced refresh sticks: the labels show
      the completed geometry both at once and after the pending frame fires,
      and at most one frame is still outstanding. */
  lemma CompleteRefreshSticks(d: Dashboard, ev: SketchEvent)
    requires Throttled(d)
    requires HasGraphics(ev) && ev.state == Complete
    ensures Throttled(HandleLatest(d, ev))
    ensures HandleLatest(d, ev).labels == UpdateVertexLabels(Some(ev.graphics.value[0].geometry))
    ensures FireFrame(HandleLatest(d, ev)).labels == UpdateVertexLabels(Some(ev.graphics.value[0].geometry))
  {
  }

  // ---------------------------------------------------------------- the whole dashboard

  /** The dashboard as a whole: drawing layer and storage next to the label
      layer and the throttle. */
  datatype Screen = Screen(page: Page, ui: Dashboard)

  /** The dashboard's `clearMap`: drawing layer and storage only. */
  function ClearDashboard(x: Screen): (y: Screen)
    requires x.page.layer.Some?
    ensures y.page.layer == Some([]) && y.page.slot.None?
    ensures y.ui == x.ui
  {
    x.(page := ClearMap(x.page))
  }

  /** The dashboard's `loadSavedSketches`: drawing layer only. */
  function LoadDashboard(x: Screen, sr: SpatialRef): (y: Screen)
    requires x.page.layer.Some?
    ensures y.page.layer == Some(LoadScene(x.page.slot, sr)) && y.page.slot == x.page.slot
    ensures y.ui == x.ui
  {
    x.(page := LoadSavedSketches(x.page, sr))
  }

  /** Clearing after a polygon was labelled empties the drawing layer and the
      storage but leaves the polygon's four vertex labels on screen; a
      following load from the now empty storage leaves them too. */
  lemma StaleLabelsAfterClear(sr: SpatialRef)
    ensures var square := Polygon([[Coord(0, 0), Coord(10, 0), Coord(10, 10), Coord(0, 10)]], sr);
            var drawn := Screen(Page(Some([Graphic(square, None)]), None),
                                Handle(Initial, CreateEvent("polygon", Complete, Some(square))));
            var cleared := ClearDashboard(drawn);
            && cleared.page.layer == Some([])
            && |cleared.ui.labels| == 4
            && LoadDashboard(cleared, sr).page.layer == Some([])
            && |LoadDashboard(cleared, sr).ui.labels| == 4
  {
  }
}
