/**
 * The mapping SDK as the components see it: coordinates, geometries,
 * attribute bags and graphics, plus the lifecycle states of sketch events.
 * Only the parts the components read or write are modelled.
 */
module Graphics {
  import opened Wrappers

  /** A vertex. Coordinates are only ever compared for exact equality,
      so integers stand in for the SDK's doubles. */
  datatype Coord = Coord(x: int, y: int)

  /** A polygon contour; it may or may not repeat its first vertex at the end. */
  type Ring = seq<Coord>

  /** One part of a polyline. */
  type Path = seq<Coord>

  /** Spatial-reference tag: carried along, never interpreted. */
  type SpatialRef = nat

  /** A JSON-serialisable attribute value. */
  datatype AttrValue = Null | Bool(b: bool) | Num(n: int) | Str(s: string)

  /** A graphic's attribute bag. */
  type Attrs = map<string, AttrValue>

  /** Geometry of a graphic, discriminated by its `type`. `Other` stands for
      every geometry type the components do not handle (multipoint, extent, mesh). */
  datatype Geometry =
    | Point(latitude: int, longitude: int, sr: SpatialRef)
    | Polyline(paths: seq<Path>, sr: SpatialRef)
    | Polygon(rings: seq<Ring>, sr: SpatialRef)
    | Other(sr: SpatialRef)

  /** A drawn graphic; `attributes` may be absent. Symbols are cosmetic and left out. */
  datatype Graphic = Graphic(geometry: Geometry, attributes: Option<Attrs>)

  /** Lifecycle state carried by the sketch widget's create and update events. */
  datatype ToolState = Start | Active | Complete | Cancel

  /** JavaScript truthiness of an attribute value. */
  predicate Truthy(v: AttrValue) {
    match v
    case Null => false
    case Bool(b) => b
    case Num(n) => n != 0
    case Str(s) => s != ""
  }

  /** The attribute that marks a generated vertex label. */
  const VertexLabelKey: string := "__isVertexLabel"

  /** `g.attributes?.__isVertexLabel` is truthy. */
  predicate IsVertexLabel(g: Graphic) {
    && g.attributes.Some?
    && VertexLabelKey in g.attributes.value
    && Truthy(g.attributes.value[VertexLabelKey])
  }
}
