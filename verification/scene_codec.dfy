/**
 * Scene persistence: `saveMap`, `loadSavedSketches` and `clearMap`, which
 * behave identically in the dashboard and the first ArcGIS component, apart
 * from console output. Storage is
 * one slot (the `savedMapGeometries` key); the JSON text in it is modelled by
 * what parsing it yields.
 */
module SceneCodec {
  import opened Wrappers
  import opened Graphics

  /** One element of the stored array. `UnknownRecord` is any non-null item
      whose `type` is not point, polyline or polygon; `NullItem` is a JSON
      `null`, on which reading `type` throws. */
  datatype Record =
    | PointRecord(lat: int, lon: int, attrs: Option<Attrs>)
    | PolylineRecord(paths: seq<Path>, attrs: Option<Attrs>)
    | PolygonRecord(rings: seq<Ring>, attrs: Option<Attrs>)
    | UnknownRecord
    | NullItem

  /** What the stored text parses to: an array of records, or a parse failure
      (which also covers the empty string). */
  datatype Stored = Json(records: seq<Record>) | Unparsable

  /** The storage slot: `None` when the key is absent. */
  type Slot = Option<Stored>

  /** The component state the codec touches: the drawing layer, which the
      first ArcGIS component creates only once the map initialises, and the slot. */
  datatype Page = Page(layer: Option<seq<Graphic>>, slot: Slot)

  /** `attributes || {}` on save and `attrs ?? {}` on load. */
  function AttrsOrEmpty(a: Option<Attrs>): Attrs
  {
    a.GetOr(map[])
  }

  // ---------------------------------------------------------------- save

  /** `all.filter(g => !g.attributes?.__isVertexLabel)` */
  function WithoutLabels(gs: seq<Graphic>): seq<Graphic>
  {
    if |gs| == 0 then []
    else if IsVertexLabel(gs[0]) then WithoutLabels(gs[1..])
    else [gs[0]] + WithoutLabels(gs[1..])
  }

  /** The record for one graphic, or `None` (the source's `null`) for an unhandled geometry type. */
  function ToRecord(g: Graphic): Option<Record>
  {
    var attrs := Some(AttrsOrEmpty(g.attributes));
    match g.geometry
    case Point(lat, lon, _) => Some(PointRecord(lat, lon, attrs))
    case Polyline(paths, _) => Some(PolylineRecord(paths, attrs))
    case Polygon(rings, _) => Some(PolygonRecord(rings, attrs))
    case Other(_) => None
  }

  /** `.filter(Boolean)`: records are objects, so only the nulls go. */
  function DropNulls(rs: seq<Option<Record>>): seq<Record>
  {
    if |rs| == 0 then []
    else if rs[0].None? then DropNulls(rs[1..])
    else [rs[0].value] + DropNulls(rs[1..])
  }

  /** The array `saveMap` stores: filter out labels, map to records, drop nulls. */
  function EncodeScene(gs: seq<Graphic>): (rs: seq<Record>)
    ensures forall r :: r in rs ==> !r.UnknownRecord? && !r.NullItem? && r.attrs.Some?
  {
    var kept := WithoutLabels(gs);
    var mapped := seq(|kept|, i requires 0 <= i < |kept| => ToRecord(kept[i]));
    EncodeShape(mapped);
    DropNulls(mapped)
  }

  /** `saveMap`: without a drawing layer nothing is written; otherwise the
      slot holds exactly one record per saveable graphic. */
  function SaveMap(p: Page): (q: Page)
    ensures q.layer == p.layer
    ensures p.layer.None? ==> q == p
    ensures p.layer.Some? ==>
      q.slot.Some? && q.slot.value.Json? && |q.slot.value.records| == |Saveable(p.layer.value)|
    ensures p.layer.Some? ==>
      forall i :: 0 <= i < |Saveable(p.layer.value)| ==>
        Some(q.slot.value.records[i]) == ToRecord(Saveable(p.layer.value)[i])
  {
    match p.layer
    case None => p
    case Some(gs) =>
      EncodeRoundTripShape(gs);
      p.(slot := Some(Json(EncodeScene(gs))))
  }

  // ---------------------------------------------------------------- load

  /** The graphics the load loop adds for `rs`. Unknown types are skipped;
      a null item throws, which the surrounding `try` catches, so the
      graphics added before it stay on the layer and the rest are lost. */
  function DecodeScene(rs: seq<Record>, sr: SpatialRef): seq<Graphic>
  {
    if |rs| == 0 then []
    else match rs[0]
      case NullItem => []
      case UnknownRecord => DecodeScene(rs[1..], sr)
      case PointRecord(lat, lon, a) =>
        [Graphic(Point(lat, lon, sr), Some(AttrsOrEmpty(a)))] + DecodeScene(rs[1..], sr)
      case PolylineRecord(paths, a) =>
        [Graphic(Polyline(paths, sr), Some(AttrsOrEmpty(a)))] + DecodeScene(rs[1..], sr)
      case PolygonRecord(rings, a) =>
        [Graphic(Polygon(rings, sr), Some(AttrsOrEmpty(a)))] + DecodeScene(rs[1..], sr)
  }

  /** New content of the drawing layer after `loadSavedSketches` (the layer is
      emptied before storage is read): a missing key or a parse failure leaves
      it empty; every graphic loaded has a known type, attributes, and the
      view's spatial reference. */
  function LoadScene(slot: Slot, sr: SpatialRef): (gs: seq<Graphic>)
    ensures slot.None? || slot.value.Unparsable? ==> gs == []
    ensures slot.Some? && slot.value.Json? ==> |gs| == KnownBeforeNull(slot.value.records)
    ensures forall g :: g in gs ==> !g.geometry.Other? && g.geometry.sr == sr && g.attributes.Some?
    ensures slot.Some? && slot.value.Json? ==> gs == LoadedFrom(KnownPrefix(slot.value.records), sr)
  {
    match slot
    case None => []
    case Some(Unparsable) => []
    case Some(Json(rs)) =>
      DecodeSceneFacts(rs, sr);
      DecodeKnown(rs, sr);
      DecodeScene(rs, sr)
  }

  /** `loadSavedSketches` on a component whose drawing layer exists. */
  function LoadSavedSketches(p: Page, sr: SpatialRef): (q: Page)
    requires p.layer.Some?
    ensures q.slot == p.slot
    ensures q.layer == Some(LoadScene(p.slot, sr))
    ensures p.slot.None? || p.slot.value.Unparsable? ==> q.layer.value == []
  {
    p.(layer := Some(LoadScene(p.slot, sr)))
  }

  /** `clearMap`: empty the layer and remove the key. */
  function ClearMap(p: Page): (q: Page)
    requires p.layer.Some?
    ensures q.layer == Some([]) && q.slot.None?
  {
    Page(Some([]), None)
  }

  // ---------------------------------------------------------------- reference definitions

  /** A graphic survives saving: not a vertex label, and of a handled type. */
  predicate IsSaveable(g: Graphic)
  {
    !IsVertexLabel(g) && !g.geometry.Other?
  }

  /** The saveable graphics, in layer order. */
  function Saveable(gs: seq<Graphic>): seq<Graphic>
  {
    if |gs| == 0 then []
    else if IsSaveable(gs[0]) then [gs[0]] + Saveable(gs[1..])
    else Saveable(gs[1..])
  }

  /** What a saved graphic looks like once loaded back: same coordinates,
      the loading view's spatial reference, attributes defaulted to `{}`. */
  function Restored(g: Graphic, sr: SpatialRef): Graphic
  {
    var geometry := match g.geometry
      case Point(lat, lon, _) => Point(lat, lon, sr)
      case Polyline(paths, _) => Polyline(paths, sr)
      case Polygon(rings, _) => Polygon(rings, sr)
      case Other(_) => Other(sr);
    Graphic(geometry, Some(AttrsOrEmpty(g.attributes)))
  }

  function RestoreAll(gs: seq<Graphic>, sr: SpatialRef): seq<Graphic>
  {
    seq(|gs|, i requires 0 <= i < |gs| => Restored(gs[i], sr))
  }

  /** Number of known-type records before the first null item. */
  function KnownBeforeNull(rs: seq<Record>): nat
  {
    if |rs| == 0 || rs[0].NullItem? then 0
    else (if rs[0].UnknownRecord? then 0 else 1) + KnownBeforeNull(rs[1..])
  }

  /** The known-type records before the first null item, in array order. */
  function KnownPrefix(rs: seq<Record>): (ks: seq<Record>)
    ensures |ks| == KnownBeforeNull(rs)
    ensures forall i :: 0 <= i < |ks| ==> !ks[i].UnknownRecord? && !ks[i].NullItem?
  {
    if |rs| == 0 || rs[0].NullItem? then []
    else if rs[0].UnknownRecord? then KnownPrefix(rs[1..])
    else [rs[0]] + KnownPrefix(rs[1..])
  }

  /** The graphic built from one known record: its coordinates, the view's
      spatial reference, and its attrs, or `{}` when the record has none. */
  function FromRecord(r: Record, sr: SpatialRef): Graphic
    requires !r.UnknownRecord? && !r.NullItem?
  {
    var attrs := Some(if r.attrs.Some? then r.attrs.value else map[]);
    match r
    case PointRecord(lat, lon, _) => Graphic(Point(lat, lon, sr), attrs)
    case PolylineRecord(paths, _) => Graphic(Polyline(paths, sr), attrs)
    case PolygonRecord(rings, _) => Graphic(Polygon(rings, sr), attrs)
  }

  /** One graphic per known record, in record order. */
  function LoadedFrom(ks: seq<Record>, sr: SpatialRef): seq<Graphic>
    requires forall i :: 0 <= i < |ks| ==> !ks[i].UnknownRecord? && !ks[i].NullItem?
  {
    seq(|ks|, i requires 0 <= i < |ks| => FromRecord(ks[i], sr))
  }

  predicate NoNullItem(rs: seq<Record>)
  {
    forall i :: 0 <= i < |rs| ==> !rs[i].NullItem?
  }

  // ---------------------------------------------------------------- lemmas

  lemma {:induction false} EncodeShape(mapped: seq<Option<Record>>)
    requires forall i :: 0 <= i < |mapped| && mapped[i].Some? ==>
      !mapped[i].value.UnknownRecord? && !mapped[i].value.NullItem? && mapped[i].value.attrs.Some?
    ensures forall r :: r in DropNulls(mapped) ==> !r.UnknownRecord? && !r.NullItem? && r.attrs.Some?
    decreases |mapped|
  {
    if |mapped| > 0 {
      EncodeShape(mapped[1..]);
    }
  }

  /** Saving one more graphic in front adds its record in front exactly when it is saveable. */
  lemma EncodeCons(g: Graphic, gs: seq<Graphic>)
    ensures EncodeScene([g] + gs)
         == (if IsSaveable(g) then [ToRecord(g).value] else []) + EncodeScene(gs)
  {
    assert ([g] + gs)[0] == g;
    assert ([g] + gs)[1..] == gs;
    var kept := WithoutLabels(gs);
    var mapped := seq(|kept|, i requires 0 <= i < |kept| => ToRecord(kept[i]));
    if !IsVertexLabel(g) {
      var kept' := [g] + kept;
      var mapped' := seq(|kept'|, i requires 0 <= i < |kept'| => ToRecord(kept'[i]));
      assert mapped' == [ToRecord(g)] + mapped;
      assert mapped'[1..] == mapped;
    }
  }

  /** Save keeps the saveable graphics, in order, one record each. */
  lemma {:induction false} EncodeRoundTripShape(gs: seq<Graphic>)
    ensures |EncodeScene(gs)| == |Saveable(gs)|
    ensures forall i :: 0 <= i < |Saveable(gs)| ==> Some(EncodeScene(gs)[i]) == ToRecord(Saveable(gs)[i])
    decreases |gs|
  {
    if |gs| > 0 {
      assert gs == [gs[0]] + gs[1..];
      EncodeCons(gs[0], gs[1..]);
      EncodeRoundTripShape(gs[1..]);
    }
  }

  /** The round trip: loading what save wrote yields the saveable graphics, in
      order, with their coordinates and attributes, under the view's spatial reference. */
  lemma {:induction false} DecodeEncode(gs: seq<Graphic>, sr: SpatialRef)
    ensures DecodeScene(EncodeScene(gs), sr) == RestoreAll(Saveable(gs), sr)
    decreases |gs|
  {
    if |gs| > 0 {
      var g := gs[0];
      assert gs == [g] + gs[1..];
      EncodeCons(g, gs[1..]);
      DecodeEncode(gs[1..], sr);
      if IsSaveable(g) {
        var rs := [ToRecord(g).value] + EncodeScene(gs[1..]);
        assert rs[1..] == EncodeScene(gs[1..]);
        assert DecodeScene(rs, sr) == [Restored(g, sr)] + DecodeScene(EncodeScene(gs[1..]), sr);
        assert RestoreAll(Saveable(gs), sr) == [Restored(g, sr)] + RestoreAll(Saveable(gs[1..]), sr);
      } else {
        assert EncodeScene(gs) == EncodeScene(gs[1..]);
        assert Saveable(gs) == Saveable(gs[1..]);
      }
    }
  }

  /** A scene already in loaded form (saveable, attributes present, in the
      view's spatial reference) survives save and load unchanged. */
  lemma DecodeEncodeIdentity(gs: seq<Graphic>, sr: SpatialRef)
    requires forall i :: 0 <= i < |gs| ==>
      IsSaveable(gs[i]) && gs[i].attributes.Some? && gs[i].geometry.sr == sr
    ensures DecodeScene(EncodeScene(gs), sr) == gs
  {
    SaveableAll(gs);
    DecodeEncode(gs, sr);
    assert RestoreAll(gs, sr) == gs;
  }

  lemma {:induction false} SaveableAll(gs: seq<Graphic>)
    requires forall i :: 0 <= i < |gs| ==> IsSaveable(gs[i])
    ensures Saveable(gs) == gs
    decreases |gs|
  {
    if |gs| > 0 {
      SaveableAll(gs[1..]);
    }
  }

  /** Decoding facts: one graphic per known record before the first null,
      each of a known type, with attributes and the given spatial reference. */
  /** What each loaded graphic is: the load yields, in order, one graphic per
      known record before the first null, with that record's coordinates, the
      view's spatial reference, and its attrs or `{}`. */
  lemma {:induction false} DecodeKnown(rs: seq<Record>, sr: SpatialRef)
    ensures DecodeScene(rs, sr) == LoadedFrom(KnownPrefix(rs), sr)
    decreases |rs|
  {
    if |rs| > 0 && !rs[0].NullItem? {
      DecodeKnown(rs[1..], sr);
      if !rs[0].UnknownRecord? {
        var ks := KnownPrefix(rs[1..]);
        assert KnownPrefix(rs) == [rs[0]] + ks;
        assert DecodeScene(rs, sr) == [FromRecord(rs[0], sr)] + DecodeScene(rs[1..], sr);
        assert LoadedFrom([rs[0]] + ks, sr) == [FromRecord(rs[0], sr)] + LoadedFrom(ks, sr);
      }
    }
  }

  lemma {:induction false} DecodeSceneFacts(rs: seq<Record>, sr: SpatialRef)
    ensures |DecodeScene(rs, sr)| == KnownBeforeNull(rs)
    ensures forall g :: g in DecodeScene(rs, sr) ==>
      !g.geometry.Other? && g.geometry.sr == sr && g.attributes.Some?
    decreases |rs|
  {
    if |rs| > 0 {
      DecodeSceneFacts(rs[1..], sr);
    }
  }

  /** Without null items, decoding distributes over concatenation. */
  lemma {:induction false} DecodeAppend(pre: seq<Record>, post: seq<Record>, sr: SpatialRef)
    requires NoNullItem(pre)
    ensures DecodeScene(pre + post, sr) == DecodeScene(pre, sr) + DecodeScene(post, sr)
    decreases |pre|
  {
    if |pre| == 0 {
      assert pre + post == post;
    } else {
      assert (pre + post)[0] == pre[0];
      assert (pre + post)[1..] == pre[1..] + post;
      DecodeAppend(pre[1..], post, sr);
    }
  }

  /** A null item aborts the load: what came before it is on the layer, nothing after it is. */
  lemma DecodeStopsAtNull(pre: seq<Record>, post: seq<Record>, sr: SpatialRef)
    requires NoNullItem(pre)
    ensures DecodeScene(pre + [NullItem] + post, sr) == DecodeScene(pre, sr)
  {
    assert pre + [NullItem] + post == pre + ([NullItem] + post);
    DecodeAppend(pre, [NullItem] + post, sr);
  }

  /** Unknown record types are skipped without affecting the others. */
  lemma {:induction false} DecodeSkipsUnknown(pre: seq<Record>, post: seq<Record>, sr: SpatialRef)
    ensures DecodeScene(pre + [UnknownRecord] + post, sr) == DecodeScene(pre + post, sr)
    decreases |pre|
  {
    if |pre| == 0 {
      assert pre + [UnknownRecord] + post == [UnknownRecord] + post;
      assert ([UnknownRecord] + post)[1..] == post;
      assert pre + post == post;
    } else {
      assert (pre + [UnknownRecord] + post)[0] == pre[0];
      assert (pre + [UnknownRecord] + post)[1..] == pre[1..] + [UnknownRecord] + post;
      assert (pre + post)[0] == pre[0];
      assert (pre + post)[1..] == pre[1..] + post;
      DecodeSkipsUnknown(pre[1..], post, sr);
    }
  }

  /** Save then load restores the saveable graphics of the layer. */
  lemma SaveThenLoad(p: Page, sr: SpatialRef)
    requires p.layer.Some?
    ensures LoadSavedSketches(SaveMap(p), sr).layer == Some(RestoreAll(Saveable(p.layer.value), sr))
  {
    DecodeEncode(p.layer.value, sr);
  }

  /** Clear then load yields an empty layer. */
  lemma ClearThenLoad(p: Page, sr: SpatialRef)
    requires p.layer.Some?
    ensures LoadSavedSketches(ClearMap(p), sr).layer == Some([])
  {
  }

  /** Saving a freshly loaded scene writes back the very same records. */
  lemma {:induction false} ResaveIsStable(gs: seq<Graphic>, sr: SpatialRef)
    ensures EncodeScene(DecodeScene(EncodeScene(gs), sr)) == EncodeScene(gs)
    decreases |gs|
  {
    if |gs| > 0 {
      var g := gs[0];
      assert gs == [g] + gs[1..];
      EncodeCons(g, gs[1..]);
      ResaveIsStable(gs[1..], sr);
      if IsSaveable(g) {
        var rs := [ToRecord(g).value] + EncodeScene(gs[1..]);
        assert rs[1..] == EncodeScene(gs[1..]);
        var h := Restored(g, sr);
        assert DecodeScene(rs, sr) == [h] + DecodeScene(EncodeScene(gs[1..]), sr);
        EncodeCons(h, DecodeScene(EncodeScene(gs[1..]), sr));
        assert IsSaveable(h);
      } else {
        assert EncodeScene(gs) == EncodeScene(gs[1..]);
      }
    }
  }
}
