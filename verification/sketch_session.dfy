/**
 * The second ArcGIS component: a sketch view model driven by buttons, a
 * create-event handler that counts vertices, and a label layer.
 * Calls into the view model are recorded in order rather than executed.
 */
module SketchSession {
  import opened Wrappers
  import opened Graphics
  import opened VertexLabeler

  /** A call the component makes on the sketch view model. */
  datatype VmCall =
    | CancelCall
    | CreateCall(tool: string)
    | UpdateCall(selection: seq<Graphic>)
    | UndoCall
    | RedoCall
    | CompleteCall
    | DeleteCall

  /** `toolEventInfo` of a create event; `kind` is its `type` ("vertex-add", ...). */
  datatype ToolEventInfo = ToolEventInfo(kind: string)

  datatype CreateEvent = CreateEvent(state: ToolState, graphic: Graphic, toolEventInfo: Option<ToolEventInfo>)

  /** Component state: the graphics layer, the label layer, the vertex
      counter, and every view-model call issued so far. */
  datatype Session = Session(graphics: seq<Graphic>, labels: seq<Label>, vertexCount: int, calls: seq<VmCall>)

  /** The state after the create handler, and the event's graphic as the handler left it. */
  datatype Handled = Handled(session: Session, graphic: Graphic)

  const Initial: Session := Session([], [], 0, [])

  const VertexAdd: string := "vertex-add"

  const SketchNumberKey: string := "sketchNumber"

  predicate IsVertexAdd(e: CreateEvent)
  {
    e.toolEventInfo.Some? && e.toolEventInfo.value.kind == VertexAdd
  }

  /** The `create` handler. Its three checks are independent `if`s, run in order:
      start resets, vertex-add counts, complete zeroes. */
  function OnCreate(s: Session, e: CreateEvent): (h: Handled)
    ensures h.session.graphics == s.graphics && h.session.calls == s.calls
    ensures e.state == Start ==>
      h.session.labels == [] && h.graphic.attributes == Some(map[SketchNumberKey := Num(1)])
    ensures e.state != Start ==> h.session.labels == s.labels && h.graphic == e.graphic
    ensures h.graphic.geometry == e.graphic.geometry
    ensures e.state == Complete ==> h.session.vertexCount == 0
    ensures e.state == Start ==> h.session.vertexCount == (if IsVertexAdd(e) then 2 else 1)
    ensures e.state != Start && e.state != Complete ==>
      h.session.vertexCount == s.vertexCount + (if IsVertexAdd(e) then 1 else 0)
  {
    var (s1, g1) :=
      if e.state == Start then
        var reset := s.(labels := [], vertexCount := 1);
        (reset, e.graphic.(attributes := Some(map[SketchNumberKey := Num(reset.vertexCount)])))
      else (s, e.graphic);
    var s2 := if IsVertexAdd(e) then s1.(vertexCount := s1.vertexCount + 1) else s1;
    var s3 := if e.state == Complete then s2.(vertexCount := 0) else s2;
    Handled(s3, g1)
  }

  function RunCreate(s: Session, es: seq<CreateEvent>): Session
    decreases |es|
  {
    if |es| == 0 then s else RunCreate(OnCreate(s, es[0]).session, es[1..])
  }

  /** Reference count: the vertex-add events in a run. */
  function VertexAdds(es: seq<CreateEvent>): nat
  {
    if |es| == 0 then 0 else (if IsVertexAdd(es[0]) then 1 else 0) + VertexAdds(es[1..])
  }

  /** During a sketch (no start, no complete) the counter grows by exactly the
      number of vertex-add events. */
  lemma {:induction false} ActiveEventsCountVertices(s: Session, es: seq<CreateEvent>)
    requires forall i :: 0 <= i < |es| ==> es[i].state != Start && es[i].state != Complete
    ensures RunCreate(s, es).vertexCount == s.vertexCount + VertexAdds(es)
    ensures RunCreate(s, es).labels == s.labels && RunCreate(s, es).graphics == s.graphics
    decreases |es|
  {
    if |es| > 0 {
      ActiveEventsCountVertices(OnCreate(s, es[0]).session, es[1..]);
    }
  }

  /** A whole sketch: start, then active events, then complete. Just before
      completion the counter is one plus the vertex-adds of the sketch (the
      start event's own vertex-add, if it carries one, included); completion
      zeroes it. */
  lemma DrawingSession(s: Session, start: CreateEvent, active: seq<CreateEvent>, done: CreateEvent)
    requires start.state == Start
    requires forall i :: 0 <= i < |active| ==> active[i].state == Active
    requires done.state == Complete
    ensures RunCreate(s, [start] + active).vertexCount == 1 + VertexAdds([start] + active)
    ensures RunCreate(s, [start] + active + [done]).vertexCount == 0
  {
    var s1 := OnCreate(s, start).session;
    assert ([start] + active)[0] == start;
    assert ([start] + active)[1..] == active;
    ActiveEventsCountVertices(s1, active);
    RunCreateAppend(s, [start] + active, done);
  }

  lemma {:induction false} RunCreateAppend(s: Session, es: seq<CreateEvent>, e: CreateEvent)
    ensures RunCreate(s, es + [e]) == OnCreate(RunCreate(s, es), e).session
    decreases |es|
  {
    if |es| == 0 {
      assert es + [e] == [e];
    } else {
      assert (es + [e])[1..] == es[1..] + [e];
      RunCreateAppend(OnCreate(s, es[0]).session, es[1..], e);
    }
  }

  /** Starting from the initial state, the counter never goes negative. */
  lemma {:induction false} VertexCountNonNegative(s: Session, es: seq<CreateEvent>)
    requires s.vertexCount >= 0
    ensures RunCreate(s, es).vertexCount >= 0
    decreases |es|
  {
    if |es| > 0 {
      VertexCountNonNegative(OnCreate(s, es[0]).session, es[1..]);
    }
  }

  // ---------------------------------------------------------------- buttons
  //
  // What the view model does to the graphics layer when called (completing a
  // create adds the new graphic, delete removes the selection, undo and redo
  // revert or replay an edit, cancel ends the active operation) belongs to the
  // SDK. Every button that calls it therefore takes `vmLayer`: the graphics
  // layer content the view model leaves behind.

  /** `startPolyline` / `startPolygon`: cancel whatever is in progress, then create. */
  function StartTool(s: Session, tool: string, vmLayer: seq<Graphic>): (t: Session)
    ensures t.calls == s.calls + [CancelCall, CreateCall(tool)]
    ensures t.graphics == vmLayer
    ensures t.labels == s.labels && t.vertexCount == s.vertexCount
  {
    s.(calls := s.calls + [CancelCall, CreateCall(tool)], graphics := vmLayer)
  }

  /** `enableEdit`: select every graphic for reshaping, if there is any.
      Selecting changes no graphic. */
  function EnableEdit(s: Session): (t: Session)
    ensures |s.graphics| == 0 <==> t == s
    ensures |s.graphics| > 0 ==> t.calls == s.calls + [UpdateCall(s.graphics)]
    ensures t.graphics == s.graphics && t.labels == s.labels && t.vertexCount == s.vertexCount
  {
    if |s.graphics| > 0 then s.(calls := s.calls + [UpdateCall(s.graphics)]) else s
  }

  /** `undo`, forwarded only when the view model can undo; otherwise nothing changes. */
  function Undo(s: Session, canUndo: bool, vmLayer: seq<Graphic>): (t: Session)
    ensures canUndo <==> t != s
    ensures canUndo ==> t.calls == s.calls + [UndoCall] && t.graphics == vmLayer
    ensures t.labels == s.labels && t.vertexCount == s.vertexCount
  {
    if canUndo then s.(calls := s.calls + [UndoCall], graphics := vmLayer) else s
  }

  /** `redo`, forwarded only when the view model can redo; otherwise nothing changes. */
  function Redo(s: Session, canRedo: bool, vmLayer: seq<Graphic>): (t: Session)
    ensures canRedo <==> t != s
    ensures canRedo ==> t.calls == s.calls + [RedoCall] && t.graphics == vmLayer
    ensures t.labels == s.labels && t.vertexCount == s.vertexCount
  {
    if canRedo then s.(calls := s.calls + [RedoCall], graphics := vmLayer) else s
  }

  /** `finish`: the component itself touches neither layer. */
  function Finish(s: Session, vmLayer: seq<Graphic>): (t: Session)
    ensures t.calls == s.calls + [CompleteCall]
    ensures t.graphics == vmLayer && t.labels == s.labels
    ensures t.vertexCount == s.vertexCount
  {
    s.(calls := s.calls + [CompleteCall], graphics := vmLayer)
  }

  /** `cancel`: abort the sketch and empty the label layer. */
  function CancelSketch(s: Session, vmLayer: seq<Graphic>): (t: Session)
    ensures t.labels == [] && t.graphics == vmLayer
    ensures t.calls == s.calls + [CancelCall]
    ensures t.vertexCount == s.vertexCount
  {
    s.(calls := s.calls + [CancelCall], graphics := vmLayer, labels := [])
  }

  /** `delete`: delete the selection and empty the label layer. */
  function DeleteSelection(s: Session, vmLayer: seq<Graphic>): (t: Session)
    ensures t.labels == [] && t.graphics == vmLayer
    ensures t.calls == s.calls + [DeleteCall]
    ensures t.vertexCount == s.vertexCount
  {
    s.(calls := s.calls + [DeleteCall], graphics := vmLayer, labels := [])
  }

  /** `clear`: abort the sketch, then empty both layers, whatever the cancel did. */
  function Clear(s: Session): (t: Session)
    ensures t.labels == [] && t.graphics == []
    ensures t.calls == s.calls + [CancelCall]
    ensures t.vertexCount == s.vertexCount
  {
    s.(calls := s.calls + [CancelCall], graphics := [], labels := [])
  }

  /** The create handler never puts labels on the layer (the relabel calls
      in it are commented out): over any run of create events the label layer
      is either unchanged or empty. */
  lemma {:induction false} LabelsOnlyCleared(s: Session, es: seq<CreateEvent>)
    ensures RunCreate(s, es).labels == s.labels || RunCreate(s, es).labels == []
    decreases |es|
  {
    if |es| > 0 {
      var s1 := OnCreate(s, es[0]).session;
      LabelsOnlyCleared(s1, es[1..]);
    }
  }

  // ---------------------------------------------------------------- button runs

  /** The component's buttons. Undo and redo carry the view model's answer to
      `canUndo()` / `canRedo()` at the moment of the press; every button that
      calls the view model carries the layer content it leaves. */
  datatype Button =
    | StartPolylineButton(vmLayer: seq<Graphic>)
    | StartPolygonButton(vmLayer: seq<Graphic>)
    | EditButton
    | UndoButton(canUndo: bool, vmLayer: seq<Graphic>)
    | RedoButton(canRedo: bool, vmLayer: seq<Graphic>)
    | FinishButton(vmLayer: seq<Graphic>)
    | CancelButton(vmLayer: seq<Graphic>)
    | DeleteButton(vmLayer: seq<Graphic>)
    | ClearButton

  function Press(s: Session, b: Button): Session
  {
    match b
    case StartPolylineButton(vm) => StartTool(s, "polyline", vm)
    case StartPolygonButton(vm) => StartTool(s, "polygon", vm)
    case EditButton => EnableEdit(s)
    case UndoButton(can, vm) => Undo(s, can, vm)
    case RedoButton(can, vm) => Redo(s, can, vm)
    case FinishButton(vm) => Finish(s, vm)
    case CancelButton(vm) => CancelSketch(s, vm)
    case DeleteButton(vm) => DeleteSelection(s, vm)
    case ClearButton => Clear(s)
  }

  function RunButtons(s: Session, bs: seq<Button>): Session
    decreases |bs|
  {
    if |bs| == 0 then s else RunButtons(Press(s, bs[0]), bs[1..])
  }

  /** The calls one press appends to the log. */
  function CallsOf(s: Session, b: Button): seq<VmCall>
  {
    match b
    case StartPolylineButton(_) => [CancelCall, CreateCall("polyline")]
    case StartPolygonButton(_) => [CancelCall, CreateCall("polygon")]
    case EditButton => if |s.graphics| > 0 then [UpdateCall(s.graphics)] else []
    case UndoButton(can, _) => if can then [UndoCall] else []
    case RedoButton(can, _) => if can then [RedoCall] else []
    case FinishButton(_) => [CompleteCall]
    case CancelButton(_) => [CancelCall]
    case DeleteButton(_) => [DeleteCall]
    case ClearButton => [CancelCall]
  }

  predicate IsAllowedUndo(b: Button)
  {
    b.UndoButton? && b.canUndo
  }

  predicate IsAllowedRedo(b: Button)
  {
    b.RedoButton? && b.canRedo
  }

  /** A press adds one undo (redo) call exactly when it is an allowed undo (redo). */
  lemma CallsOfCounts(s: Session, b: Button)
    ensures Press(s, b).calls == s.calls + CallsOf(s, b)
    ensures Occurrences(CallsOf(s, b), UndoCall) == (if IsAllowedUndo(b) then 1 else 0)
    ensures Occurrences(CallsOf(s, b), RedoCall) == (if IsAllowedRedo(b) then 1 else 0)
  {
    var added := CallsOf(s, b);
    if |added| == 2 {
      assert added[1..][1..] == [];
      assert Occurrences(added[1..], UndoCall) == 0 && Occurrences(added[1..], RedoCall) == 0;
    } else if |added| == 1 {
      assert added[1..] == [];
    }
  }

  /** How often `c` occurs in a call log. */
  function Occurrences(calls: seq<VmCall>, c: VmCall): nat
  {
    if |calls| == 0 then 0 else (if calls[0] == c then 1 else 0) + Occurrences(calls[1..], c)
  }

  /** Undo presses made while the view model could undo. */
  function AllowedUndos(bs: seq<Button>): nat
  {
    if |bs| == 0 then 0 else (if IsAllowedUndo(bs[0]) then 1 else 0) + AllowedUndos(bs[1..])
  }

  /** Redo presses made while the view model could redo. */
  function AllowedRedos(bs: seq<Button>): nat
  {
    if |bs| == 0 then 0 else (if IsAllowedRedo(bs[0]) then 1 else 0) + AllowedRedos(bs[1..])
  }

  lemma {:induction false} OccurrencesAppend(a: seq<VmCall>, b: seq<VmCall>, c: VmCall)
    ensures Occurrences(a + b, c) == Occurrences(a, c) + Occurrences(b, c)
    decreases |a|
  {
    if |a| == 0 {
      assert a + b == b;
    } else {
      assert (a + b)[1..] == a[1..] + b;
      OccurrencesAppend(a[1..], b, c);
    }
  }

  /** Over any sequence of button presses, undo and redo reach the view model
      exactly as often as they were pressed while allowed. */
  lemma {:induction false} UndoRedoForwardedOnlyWhenAllowed(s: Session, bs: seq<Button>)
    ensures Occurrences(RunButtons(s, bs).calls, UndoCall) == Occurrences(s.calls, UndoCall) + AllowedUndos(bs)
    ensures Occurrences(RunButtons(s, bs).calls, RedoCall) == Occurrences(s.calls, RedoCall) + AllowedRedos(bs)
    decreases |bs|
  {
    if |bs| > 0 {
      var t := Press(s, bs[0]);
      var added := CallsOf(s, bs[0]);
      CallsOfCounts(s, bs[0]);
      OccurrencesAppend(s.calls, added, UndoCall);
      OccurrencesAppend(s.calls, added, RedoCall);
      UndoRedoForwardedOnlyWhenAllowed(t, bs[1..]);
    }
  }

  /** After one press the graphics layer is what it was, empty because of
      `clear`, or what the view model left after a call this press made. */
  lemma GraphicsOnlyFromClearOrViewModel(s: Session, b: Button)
    ensures var t := Press(s, b);
      || t.graphics == s.graphics
      || (b.ClearButton? && t.graphics == [])
      || (|CallsOf(s, b)| > 0 && !b.EditButton? && !b.ClearButton? && t.graphics == b.vmLayer)
  {
  }

  /** The call log only grows. */
  lemma {:induction false} CallsOnlyGrow(s: Session, bs: seq<Button>)
    ensures |RunButtons(s, bs).calls| >= |s.calls|
    decreases |bs|
  {
    if |bs| > 0 {
      CallsOfCounts(s, bs[0]);
      CallsOnlyGrow(Press(s, bs[0]), bs[1..]);
    }
  }

  /** Presses that issue no call to the view model change nothing at all:
      graphics and labels change only through a forwarded call or `clear`
      (which itself forwards `cancel`). */
  lemma {:induction false} NothingChangesWithoutViewModelCall(s: Session, bs: seq<Button>)
    ensures RunButtons(s, bs).calls == s.calls ==> RunButtons(s, bs) == s
    decreases |bs|
  {
    if |bs| > 0 {
      var t := Press(s, bs[0]);
      CallsOfCounts(s, bs[0]);
      CallsOnlyGrow(t, bs[1..]);
      if |CallsOf(s, bs[0])| == 0 {
        assert t == s;
      }
      NothingChangesWithoutViewModelCall(t, bs[1..]);
    }
  }

  /** Buttons never put labels on the layer: after any presses the label
      layer is unchanged, or empty. */
  lemma {:induction false} ButtonsOnlyClearLabels(s: Session, bs: seq<Button>)
    ensures RunButtons(s, bs).labels == s.labels || RunButtons(s, bs).labels == []
    decreases |bs|
  {
    if |bs| > 0 {
      ButtonsOnlyClearLabels(Press(s, bs[0]), bs[1..]);
    }
  }

  /** No button touches the vertex counter: after any presses it is what it
      was, so a `cancel` in the middle of a sketch leaves the count in place
      until the next `start` event resets it. */
  lemma {:induction false} ButtonsKeepVertexCount(s: Session, bs: seq<Button>)
    ensures RunButtons(s, bs).vertexCount == s.vertexCount
    decreases |bs|
  {
    if |bs| > 0 {
      ButtonsKeepVertexCount(Press(s, bs[0]), bs[1..]);
    }
  }
}
