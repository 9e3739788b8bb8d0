/**
 * The KML export correction, exactly as the control applies it to each feature: a Point
 * drops a trailing NaN; a LineString drops the last value of every position when its first
 * position ends in NaN; a MultiPolygon does the same part by part, testing the first
 * position of each part's first ring; every other type is left as it is, Polygon included,
 * because the Polygon case label is spelled "Poylgon". Property accesses on `undefined`
 * raise a TypeError, which stops the pass.
 */
module KmlFix {
  import opened Wrappers
  import opened GeoJson

  /** The case label the correction uses where "Polygon" was meant. */
  const POLYGON_LABEL: string := "Poylgon"

  type Ring = seq<Position>
  type Part = seq<Ring>

  /** A feature's state after the correction visited it, and whether the visit threw. */
  datatype Visit = Visit(geometry: Geometry, threw: bool)

  /** Every position of every ring of a part with its last value popped. */
  function PopPart(part: Part): Part
  {
    seq(|part|, j requires 0 <= j < |part| => PopEach(part[j]))
  }

  /**
   * One part of a MultiPolygon: `coord[0][0][coord[0][0].length - 1]` throws when the part
   * or its first ring is empty; None stands for that throw.
   */
  function FixPart(part: Part): (r: Option<Part>)
    ensures r.None? <==> !Testable(part)
    ensures r.Some? ==> |r.value| == |part|
    ensures r.Some? ==> forall j, k :: 0 <= j < |part| && 0 <= k < |part[j]| ==>
              |r.value[j]| == |part[j]| && r.value[j][k] == if EndsInNaN(part[0][0]) then Pop(part[j][k]) else part[j][k]
  {
    if |part| == 0 || |part[0]| == 0 then None
    else if EndsInNaN(part[0][0]) then Some(PopPart(part))
    else Some(part)
  }

  /** The `forEach` over the parts: parts are fixed in order until one throws. */
  function FixParts(parts: seq<Part>): (r: (seq<Part>, bool))
    ensures |r.0| == |parts|
    ensures r.1 <==> exists i :: 0 <= i < |parts| && !Testable(parts[i])
  {
    if |parts| == 0 then ([], false)
    else match FixPart(parts[0])
      case None => (parts, true)
      case Some(p) =>
        var (rest, threw) := FixParts(parts[1..]);
        ([p] + rest, threw)
  }

  /** The `switch` of `fixGeojsonKmlBug` for one geometry. */
  function FixGeometry(g: Geometry): (v: Visit)
    ensures v.geometry.Kind() == g.Kind()
    ensures v.threw ==> g.LineString? || g.MultiPolygon? || (g.Other? && g.kind == POLYGON_LABEL)
  {
    match g
    case Point(p) => Visit(if EndsInNaN(p) then Point(Pop(p)) else g, false)
    case LineString(ps) =>
      if |ps| == 0 then Visit(g, true)
      else if EndsInNaN(ps[0]) then Visit(LineString(PopEach(ps)), false)
      else Visit(g, false)
    case MultiPolygon(parts) =>
      var (fixed, threw) := FixParts(parts);
      Visit(MultiPolygon(fixed), threw)
    case Other(kind, raw) =>
      // the "Poylgon" branch calls `coordinates.forEach`, and neither inner test can match
      Visit(g, kind == POLYGON_LABEL && raw.Leaf?)
    case _ => Visit(g, false)
  }

  /** A part on which the MultiPolygon test can be evaluated. */
  predicate Testable(part: Part)
  {
    |part| > 0 && |part[0]| > 0
  }

  /** The index of the first part the test throws on, or the number of parts. */
  function FirstUntestable(parts: seq<Part>): (n: nat)
    ensures n <= |parts|
    ensures forall i :: 0 <= i < n ==> Testable(parts[i])
    ensures n < |parts| ==> !Testable(parts[n])
  {
    if |parts| == 0 || !Testable(parts[0]) then 0 else 1 + FirstUntestable(parts[1..])
  }

  /**
   * The MultiPolygon pass part by part: it throws exactly when some part is untestable;
   * every part before the first untestable one loses the last value of all its positions
   * exactly when its first ring's first position ends in NaN, and the parts from there on
   * are left as they were.
   */
  lemma {:induction false} FixPartsSpec(parts: seq<Part>)
    ensures var (fixed, threw) := FixParts(parts);
      && |fixed| == |parts|
      && (threw <==> FirstUntestable(parts) < |parts|)
      && (forall i :: 0 <= i < FirstUntestable(parts) ==>
            fixed[i] == if EndsInNaN(parts[i][0][0]) then PopPart(parts[i]) else parts[i])
      && (forall i :: FirstUntestable(parts) <= i < |parts| ==> fixed[i] == parts[i])
  {
    if |parts| > 0 && Testable(parts[0]) {
      FixPartsSpec(parts[1..]);
    }
  }

  /** A Point loses its last value if and only if that value is NaN, and never throws. */
  lemma PointFix(p: Position)
    ensures var v := FixGeometry(Point(p));
      && !v.threw && v.geometry.Point?
      && (EndsInNaN(p) ==> v.geometry.position == p[..|p| - 1])
      && (!EndsInNaN(p) ==> v.geometry.position == p)
  {
  }

  /**
   * A LineString throws when it has no position; otherwise every position loses its last
   * value exactly when the first position ends in NaN.
   */
  lemma LineStringFix(ps: seq<Position>)
    ensures var v := FixGeometry(LineString(ps));
      && (v.threw <==> |ps| == 0)
      && v.geometry.LineString? && |v.geometry.line| == |ps|
      && (forall i :: 0 <= i < |ps| ==>
            v.geometry.line[i] == if EndsInNaN(ps[0]) then Pop(ps[i]) else ps[i])
  {
  }

  /** A Polygon, like a MultiPoint or a MultiLineString, passes the correction untouched. */
  lemma PolygonUntouched(g: Geometry)
    requires g.Polygon? || g.MultiPoint? || g.MultiLineString?
    ensures FixGeometry(g) == Visit(g, false)
  {
  }

  /** A concrete Polygon whose positions end in NaN keeps them. */
  lemma PolygonNaNKept()
    ensures var g := Polygon([[[Num(1.0), Num(2.0), NaN], [Num(3.0), Num(4.0), NaN]]]);
      FixGeometry(g).geometry == g
  {
  }

  /** A feature as the correction leaves it (partly fixed if its visit threw). */
  function FixFeature(f: Feature): (r: Feature)
    ensures r.id == f.id && r.properties == f.properties
    ensures r.geometry.Kind() == f.geometry.Kind()
  {
    f.(geometry := FixGeometry(f.geometry).geometry)
  }

  predicate Throws(f: Feature)
  {
    FixGeometry(f.geometry).threw
  }

  /** The index of the first feature whose visit throws, or the number of features. */
  function FirstThrowing(fs: seq<Feature>): (n: nat)
    ensures n <= |fs|
    ensures forall i :: 0 <= i < n ==> !Throws(fs[i])
    ensures n < |fs| ==> Throws(fs[n])
  {
    if |fs| == 0 || Throws(fs[0]) then 0 else 1 + FirstThrowing(fs[1..])
  }
}
