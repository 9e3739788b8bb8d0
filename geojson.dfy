/**
 * The GeoJSON feature model the vectors control exports and imports: coordinate values
 * (with an explicit NaN), positions, the six geometry kinds of section 3.1 of RFC 7946 and
 * features with their identifier and property bag.
 */
module GeoJson {
  import opened Wrappers

  /** A JavaScript number as it can appear in a coordinate array: a finite value or NaN. */
  datatype Value = Num(r: real) | NaN

  /** A position ([x, y] with optional trailing values). */
  type Position = seq<Value>

  /** Arbitrary nested coordinate arrays, used for geometries of a kind the control does not know. */
  datatype Tree = Leaf(v: Value) | Node(kids: seq<Tree>)

  const KNOWN_KINDS: set<string> :=
    {"Point", "MultiPoint", "LineString", "MultiLineString", "Polygon", "MultiPolygon"}

  /** A geometry type name that is none of the six kinds. */
  type OtherKind = k: string | k !in KNOWN_KINDS witness ""

  /**
   * A geometry: its constructor is its `type`, its payload its `coordinates`, nested exactly
   * as deep as the kind requires. `Other` keeps an unknown type name and its raw coordinates.
   */
  datatype Geometry =
    | Point(position: Position)
    | MultiPoint(points: seq<Position>)
    | LineString(line: seq<Position>)
    | MultiLineString(lines: seq<seq<Position>>)
    | Polygon(rings: seq<seq<Position>>)
    | MultiPolygon(polygons: seq<seq<seq<Position>>>)
    | Other(kind: OtherKind, raw: Tree)
  {
    /** The geometry's `type` string. */
    function Kind(): string
    {
      match this
      case Point(_) => "Point"
      case MultiPoint(_) => "MultiPoint"
      case LineString(_) => "LineString"
      case MultiLineString(_) => "MultiLineString"
      case Polygon(_) => "Polygon"
      case MultiPolygon(_) => "MultiPolygon"
      case Other(k, _) => k
    }
  }

  /** A GeoJSON feature: optional `id`, `geometry` and the opaque `properties` bag. */
  datatype Feature = Feature(id: Option<string>, geometry: Geometry, properties: map<string, string>)

  /** The error a JavaScript property access on `undefined` (or a call of a missing method) raises. */
  datatype JsError = TypeError

  /** `Number.isNaN(p[p.length - 1])`: false for an empty position, whose last element is `undefined`. */
  predicate EndsInNaN(p: Position)
    ensures EndsInNaN(p) <==> |p| > 0 && Pop(p) + [NaN] == p
  {
    |p| > 0 && p[|p| - 1] == NaN
  }

  /** `p.pop()` for its effect on `p`: the last value goes, an empty array stays empty. */
  function Pop(p: Position): (r: Position)
    ensures |r| == if |p| == 0 then 0 else |p| - 1
    ensures r == p[..|r|]
  {
    if |p| == 0 then p else p[..|p| - 1]
  }

  /** Every position of a list with its last value popped. */
  function PopEach(ps: seq<Position>): (r: seq<Position>)
    ensures |r| == |ps|
    ensures forall i :: 0 <= i < |ps| ==> |r[i]| == (if |ps[i]| == 0 then 0 else |ps[i]| - 1) && r[i] == ps[i][..|r[i]|]
  {
    seq(|ps|, i requires 0 <= i < |ps| => Pop(ps[i]))
  }
}
