/**
 * Vertex labeler: turns a polygon's rings into the ordered list of numbered
 * labels the components draw on their label layer. The dashboard and the
 * second ArcGIS component write their guards differently but behave identically.
 */
module VertexLabeler {
  import opened Wrappers
  import opened Graphics

  /** One generated label: where it sits and the number it shows. */
  datatype Label = Label(x: int, y: int, sr: SpatialRef, ordinal: nat)

  /** A ring is closed when its first and last vertices have exactly equal x and y.
      A one-vertex ring is its own first and last vertex, so it is closed. */
  predicate IsClosedDup(ring: Ring)
    requires |ring| > 0
  {
    ring[0].x == ring[|ring| - 1].x && ring[0].y == ring[|ring| - 1].y
  }

  /** How many vertices of a ring receive a label: none for an empty ring,
      all but the closing duplicate for a closed one, all of an open one. */
  function EffectiveLength(ring: Ring): nat
  {
    if |ring| == 0 then 0
    else if IsClosedDup(ring) then |ring| - 1
    else |ring|
  }

  /** The labels of one ring, numbered from `first`. */
  function RingLabels(ring: Ring, sr: SpatialRef, first: nat): seq<Label>
  {
    seq(EffectiveLength(ring), i requires 0 <= i < EffectiveLength(ring) =>
      Label(ring[i].x, ring[i].y, sr, first + i))
  }

  /** The labels of consecutive rings; numbering continues from ring to ring. */
  function LabelRings(rings: seq<Ring>, sr: SpatialRef, first: nat): seq<Label>
  {
    if |rings| == 0 then []
    else RingLabels(rings[0], sr, first) + LabelRings(rings[1..], sr, first + EffectiveLength(rings[0]))
  }

  /** Reference count: the sum, over the non-empty rings, of the ring's
      length, less one when it is closed. */
  function LabelCount(rings: seq<Ring>): nat
  {
    if |rings| == 0 then 0
    else
      var ring := rings[0];
      (if |ring| == 0 then 0 else if IsClosedDup(ring) then |ring| - 1 else |ring|)
        + LabelCount(rings[1..])
  }

  /** Total number of vertices in all rings. */
  function VertexCount(rings: seq<Ring>): nat
  {
    if |rings| == 0 then 0 else |rings[0]| + VertexCount(rings[1..])
  }

  /** The full content of the label layer after `updateVertexLabels(geom)`:
      the layer is emptied first; only a polygon puts labels back. */
  function UpdateVertexLabels(geom: Option<Geometry>): (labels: seq<Label>)
    ensures !(geom.Some? && geom.value.Polygon?) ==> labels == []
    ensures geom.Some? && geom.value.Polygon? ==> |labels| == LabelCount(geom.value.rings)
    ensures forall k :: 0 <= k < |labels| ==> labels[k].ordinal == k + 1
    ensures geom.Some? && geom.value.Polygon? ==>
      PlacedAtVertices(labels, geom.value.rings, geom.value.sr, 1)
  {
    match geom
    case Some(Polygon(rings, sr)) =>
      LabelRingsLength(rings, sr, 1);
      LabelRingsOrdinals(rings, sr, 1);
      LabelsPlaced(rings, sr, 1);
      LabelRings(rings, sr, 1)
    case _ => []
  }

  /** The labeling loop as the source writes it: one counter `idx` starting at 1,
      one pass over the rings, an inner loop over each ring's labelled prefix. */
  method LabelVertices(rings: seq<Ring>, sr: SpatialRef) returns (labels: seq<Label>)
    ensures labels == LabelRings(rings, sr, 1)
    ensures |labels| == LabelCount(rings)
    ensures forall k :: 0 <= k < |labels| ==> labels[k].ordinal == k + 1
    ensures PlacedAtVertices(labels, rings, sr, 1)
  {
    labels := [];
    var idx: nat := 1;
    var r := 0;
    while r < |rings|
      invariant 0 <= r <= |rings|
      invariant idx == 1 + LabelCount(rings[..r])
      invariant labels == LabelRings(rings[..r], sr, 1)
    {
      var ring := rings[r];
      var start := idx;
      if |ring| > 0 {
        var first := ring[0];
        var last := ring[|ring| - 1];
        var isClosedDup := first.x == last.x && first.y == last.y;
        var len := if isClosedDup then |ring| - 1 else |ring|;
        var i := 0;
        while i < len
          invariant 0 <= i <= len
          invariant len == EffectiveLength(ring)
          invariant idx == start + i
          invariant labels == LabelRings(rings[..r], sr, 1) + RingLabels(ring, sr, start)[..i]
        {
          labels := labels + [Label(ring[i].x, ring[i].y, sr, idx)];
          idx := idx + 1;
          i := i + 1;
        }
        assert RingLabels(ring, sr, start)[..i] == RingLabels(ring, sr, start);
      } else {
        assert RingLabels(ring, sr, start) == [];
      }
      LabelRingsSnoc(rings[..r], ring, sr, 1);
      LabelCountSnoc(rings[..r], ring);
      assert rings[..r + 1] == rings[..r] + [ring];
      r := r + 1;
    }
    assert rings[..|rings|] == rings;
    LabelRingsLength(rings, sr, 1);
    LabelRingsOrdinals(rings, sr, 1);
    LabelsPlaced(rings, sr, 1);
  }

  /** Appending a ring to the reference count adds that ring's contribution. */
  lemma {:induction false} LabelCountSnoc(rings: seq<Ring>, ring: Ring)
    ensures LabelCount(rings + [ring]) == LabelCount(rings) + EffectiveLength(ring)
    decreases |rings|
  {
    if |rings| == 0 {
      assert rings + [ring] == [ring];
    } else {
      assert (rings + [ring])[1..] == rings[1..] + [ring];
      LabelCountSnoc(rings[1..], ring);
    }
  }

  /** Labeling an extra ring appends its labels, numbered after all earlier ones. */
  lemma {:induction false} LabelRingsSnoc(rings: seq<Ring>, ring: Ring, sr: SpatialRef, first: nat)
    ensures LabelRings(rings + [ring], sr, first)
         == LabelRings(rings, sr, first) + RingLabels(ring, sr, first + LabelCount(rings))
    decreases |rings|
  {
    if |rings| == 0 {
      assert rings + [ring] == [ring];
      assert LabelRings([ring], sr, first) == RingLabels(ring, sr, first) + LabelRings([], sr, first + EffectiveLength(ring));
    } else {
      assert (rings + [ring])[0] == rings[0];
      assert (rings + [ring])[1..] == rings[1..] + [ring];
      LabelRingsSnoc(rings[1..], ring, sr, first + EffectiveLength(rings[0]));
    }
  }

  /** The number of labels is the reference count. */
  lemma {:induction false} LabelRingsLength(rings: seq<Ring>, sr: SpatialRef, first: nat)
    ensures |LabelRings(rings, sr, first)| == LabelCount(rings)
    decreases |rings|
  {
    if |rings| > 0 {
      LabelRingsLength(rings[1..], sr, first + EffectiveLength(rings[0]));
    }
  }

  /** Ordinals run first, first + 1, ... without a reset between rings. */
  lemma {:induction false} LabelRingsOrdinals(rings: seq<Ring>, sr: SpatialRef, first: nat)
    ensures forall k :: 0 <= k < |LabelRings(rings, sr, first)| ==>
      LabelRings(rings, sr, first)[k].ordinal == first + k
    decreases |rings|
  {
    if |rings| > 0 {
      var head := RingLabels(rings[0], sr, first);
      var next := first + EffectiveLength(rings[0]);
      LabelRingsOrdinals(rings[1..], sr, next);
      var ls := LabelRings(rings, sr, first);
      assert ls == head + LabelRings(rings[1..], sr, next);
      forall k | 0 <= k < |ls|
        ensures ls[k].ordinal == first + k
      {
        if k >= |head| {
          assert ls[k] == LabelRings(rings[1..], sr, next)[k - |head|];
        }
      }
    }
  }

  /** The k-th label of ring r sits at that ring's k-th vertex and shows the
      number after all labels of the earlier rings; k ranges only over the
      labelled prefix, so a closing duplicate is never labelled. */
  lemma {:induction false} LabelPosition(rings: seq<Ring>, sr: SpatialRef, first: nat, r: nat, k: nat)
    requires r < |rings|
    requires k < EffectiveLength(rings[r])
    ensures LabelCount(rings[..r]) + k < |LabelRings(rings, sr, first)|
    ensures LabelRings(rings, sr, first)[LabelCount(rings[..r]) + k]
         == Label(rings[r][k].x, rings[r][k].y, sr, first + LabelCount(rings[..r]) + k)
    decreases r
  {
    var head := RingLabels(rings[0], sr, first);
    var next := first + EffectiveLength(rings[0]);
    var ls := LabelRings(rings, sr, first);
    assert ls == head + LabelRings(rings[1..], sr, next);
    LabelRingsLength(rings[1..], sr, next);
    if r == 0 {
      assert rings[..0] == [];
    } else {
      LabelPosition(rings[1..], sr, next, r - 1, k);
      assert rings[..r][0] == rings[0];
      assert rings[..r][1..] == rings[1..][..r - 1];
      assert LabelCount(rings[..r]) == EffectiveLength(rings[0]) + LabelCount(rings[1..][..r - 1]);
    }
  }

  /** Vertex k of ring r (k within the ring's labelled prefix) is shown, with
      the layer's spatial reference, by the label at offset
      LabelCount(rings[..r]) + k, numbered from `first` on. */
  predicate LabelAtVertex(labels: seq<Label>, rings: seq<Ring>, sr: SpatialRef, first: nat, r: nat, k: nat)
    requires r < |rings| && k < EffectiveLength(rings[r])
  {
    && LabelCount(rings[..r]) + k < |labels|
    && labels[LabelCount(rings[..r]) + k]
       == Label(rings[r][k].x, rings[r][k].y, sr, first + LabelCount(rings[..r]) + k)
  }

  /** Every labelled vertex of every ring has its label. */
  predicate PlacedAtVertices(labels: seq<Label>, rings: seq<Ring>, sr: SpatialRef, first: nat)
  {
    forall r: nat, k: nat :: r < |rings| && k < EffectiveLength(rings[r]) ==>
      LabelAtVertex(labels, rings, sr, first, r, k)
  }

  /** `LabelPosition` for every ring and vertex at once. */
  lemma LabelsPlaced(rings: seq<Ring>, sr: SpatialRef, first: nat)
    ensures PlacedAtVertices(LabelRings(rings, sr, first), rings, sr, first)
  {
    forall r: nat, k: nat | r < |rings| && k < EffectiveLength(rings[r])
      ensures LabelAtVertex(LabelRings(rings, sr, first), rings, sr, first, r, k)
    {
      LabelPosition(rings, sr, first, r, k);
    }
  }

  /** A ring that yields no label (empty, or closed with one vertex) can be
      removed without changing any label, including the numbering after it. */
  lemma {:induction false} UnlabelledRingIsInvisible(rings: seq<Ring>, sr: SpatialRef, first: nat, r: nat)
    requires r < |rings|
    requires EffectiveLength(rings[r]) == 0
    ensures LabelRings(rings, sr, first) == LabelRings(rings[..r] + rings[r + 1..], sr, first)
    decreases r
  {
    if r == 0 {
      assert rings[..0] + rings[1..] == rings[1..];
      assert RingLabels(rings[0], sr, first) == [];
    } else {
      var rest := rings[..r] + rings[r + 1..];
      assert rest[0] == rings[0];
      assert rest[1..] == rings[1..][..r - 1] + rings[1..][r..];
      UnlabelledRingIsInvisible(rings[1..], sr, first + EffectiveLength(rings[0]), r - 1);
    }
  }

  /** The one-vertex quirk: such a ring counts as closed and yields no label,
      so it is as if the ring were not there at all. */
  lemma SingleVertexRingYieldsNothing(rings: seq<Ring>, sr: SpatialRef, first: nat, r: nat)
    requires r < |rings|
    requires |rings[r]| == 1
    ensures IsClosedDup(rings[r])
    ensures LabelRings(rings, sr, first) == LabelRings(rings[..r] + rings[r + 1..], sr, first)
  {
    UnlabelledRingIsInvisible(rings, sr, first, r);
  }

  /** With only open rings every vertex is labelled: the count is the total vertex count. */
  lemma {:induction false} OpenRingsLabelEveryVertex(rings: seq<Ring>, sr: SpatialRef, first: nat)
    requires forall r :: 0 <= r < |rings| && |rings[r]| > 0 ==> !IsClosedDup(rings[r])
    ensures |LabelRings(rings, sr, first)| == VertexCount(rings)
    decreases |rings|
  {
    LabelRingsLength(rings, sr, first);
    if |rings| > 0 {
      OpenRingsLabelEveryVertex(rings[1..], sr, first + EffectiveLength(rings[0]));
      LabelRingsLength(rings[1..], sr, first + EffectiveLength(rings[0]));
    }
  }

  /** A closed square ring of five vertices gets four labels, 1 to 4. */
  lemma ClosedSquareScenario(sr: SpatialRef)
    ensures UpdateVertexLabels(Some(Polygon([[Coord(0, 0), Coord(10, 0), Coord(10, 10), Coord(0, 10), Coord(0, 0)]], sr)))
         == [Label(0, 0, sr, 1), Label(10, 0, sr, 2), Label(10, 10, sr, 3), Label(0, 10, sr, 4)]
  {
  }
}
