/**
 * The export reprojection walk: every feature's coordinate tree is rebuilt, position by
 * position, through the map's coordinate transform, keeping the feature's other fields and
 * its geometry type; a geometry of unknown type gets empty coordinates.
 */
module Reprojection {
  import opened GeoJson

  /** The impl's `getTransformedCoordinates(codeProjection, position)`, left uninterpreted. */
  type Transform = (string, Position) -> Position

  /** `qs` holds, index for index, the transforms of `ps`. */
  predicate MapsPositions(ps: seq<Position>, qs: seq<Position>, code: string, t: Transform)
  {
    |qs| == |ps| && forall i :: 0 <= i < |ps| ==> qs[i] == t(code, ps[i])
  }

  predicate MapsLines(ls: seq<seq<Position>>, ms: seq<seq<Position>>, code: string, t: Transform)
  {
    |ms| == |ls| && forall i :: 0 <= i < |ls| ==> MapsPositions(ls[i], ms[i], code, t)
  }

  predicate MapsPolygons(ps: seq<seq<seq<Position>>>, qs: seq<seq<seq<Position>>>, code: string, t: Transform)
  {
    |qs| == |ps| && forall i :: 0 <= i < |ps| ==> MapsLines(ps[i], qs[i], code, t)
  }

  /**
   * `r` is `g` reprojected: same kind, equal lengths at every nesting level, every position
   * the transform of the position at the same place; an unknown kind keeps its name and
   * gets `[]`.
   */
  predicate Reprojected(g: Geometry, r: Geometry, code: string, t: Transform)
  {
    match g
    case Point(p) => r == Point(t(code, p))
    case MultiPoint(ps) => r.MultiPoint? && MapsPositions(ps, r.points, code, t)
    case LineString(ps) => r.LineString? && MapsPositions(ps, r.line, code, t)
    case MultiLineString(ls) => r.MultiLineString? && MapsLines(ls, r.lines, code, t)
    case Polygon(rs) => r.Polygon? && MapsLines(rs, r.rings, code, t)
    case MultiPolygon(ms) => r.MultiPolygon? && MapsPolygons(ms, r.polygons, code, t)
    case Other(k, _) => r == Other(k, Node([]))
  }

  /** `createGeoJSONFeature`'s result: every field of `f` but the geometry, which is reprojected. */
  predicate ReprojectedFeature(f: Feature, r: Feature, code: string, t: Transform)
  {
    r.id == f.id && r.properties == f.properties && Reprojected(f.geometry, r.geometry, code, t)
  }

  /** The `switch` of `geojsonTo4326` for one feature: the new coordinates, built by pushing. */
  method TransformCoordinates(g: Geometry, code: string, t: Transform) returns (r: Geometry)
    ensures Reprojected(g, r, code, t)
    ensures r.Kind() == g.Kind()
  {
    match g {
      case Point(p) =>
        r := Point(t(code, p));
      case MultiPoint(coordinates) =>
        var newCoordinates: seq<Position> := [];
        for i := 0 to |coordinates|
          invariant MapsPositions(coordinates[..i], newCoordinates, code, t)
        {
          newCoordinates := newCoordinates + [t(code, coordinates[i])];
        }
        assert coordinates[..|coordinates|] == coordinates;
        r := MultiPoint(newCoordinates);
      case LineString(coordinates) =>
        var newCoordinates: seq<Position> := [];
        for i := 0 to |coordinates|
          invariant MapsPositions(coordinates[..i], newCoordinates, code, t)
        {
          newCoordinates := newCoordinates + [t(code, coordinates[i])];
        }
        assert coordinates[..|coordinates|] == coordinates;
        r := LineString(newCoordinates);
      case MultiLineString(coordinates) =>
        var newCoordinates: seq<seq<Position>> := [];
        for i := 0 to |coordinates|
          invariant MapsLines(coordinates[..i], newCoordinates, code, t)
        {
          var newLine: seq<Position> := [];
          for j := 0 to |coordinates[i]|
            invariant MapsPositions(coordinates[i][..j], newLine, code, t)
          {
            newLine := newLine + [t(code, coordinates[i][j])];
          }
          assert coordinates[i][..|coordinates[i]|] == coordinates[i];
          newCoordinates := newCoordinates + [newLine];
        }
        assert coordinates[..|coordinates|] == coordinates;
        r := MultiLineString(newCoordinates);
      case Polygon(coordinates) =>
        var newCoordinates: seq<seq<Position>> := [];
        for i := 0 to |coordinates|
          invariant MapsLines(coordinates[..i], newCoordinates, code, t)
        {
          var newPoly: seq<Position> := [];
          for j := 0 to |coordinates[i]|
            invariant MapsPositions(coordinates[i][..j], newPoly, code, t)
          {
            newPoly := newPoly + [t(code, coordinates[i][j])];
          }
          assert coordinates[i][..|coordinates[i]|] == coordinates[i];
          newCoordinates := newCoordinates + [newPoly];
        }
        assert coordinates[..|coordinates|] == coordinates;
        r := Polygon(newCoordinates);
      case MultiPolygon(coordinates) =>
        var newCoordinates: seq<seq<seq<Position>>> := [];
        for i := 0 to |coordinates|
          invariant MapsPolygons(coordinates[..i], newCoordinates, code, t)
        {
          var newPolygon: seq<seq<Position>> := [];
          for j := 0 to |coordinates[i]|
            invariant MapsLines(coordinates[i][..j], newPolygon, code, t)
          {
            var newPolygonLine: seq<Position> := [];
            for k := 0 to |coordinates[i][j]|
              invariant MapsPositions(coordinates[i][j][..k], newPolygonLine, code, t)
            {
              newPolygonLine := newPolygonLine + [t(code, coordinates[i][j][k])];
            }
            assert coordinates[i][j][..|coordinates[i][j]|] == coordinates[i][j];
            newPolygon := newPolygon + [newPolygonLine];
          }
          assert coordinates[i][..|coordinates[i]|] == coordinates[i];
          newCoordinates := newCoordinates + [newPolygon];
        }
        assert coordinates[..|coordinates|] == coordinates;
        r := MultiPolygon(newCoordinates);
      case Other(kind, _) =>
        r := Other(kind, Node([]));
    }
  }

  /**
   * `geojsonTo4326`: one output feature per input feature, in the same order, each the
   * reprojection of the input feature at the same index.
   */
  method GeojsonTo4326(features: seq<Feature>, code: string, t: Transform) returns (result: seq<Feature>)
    ensures |result| == |features|
    ensures forall i :: 0 <= i < |features| ==> ReprojectedFeature(features[i], result[i], code, t)
  {
    result := [];
    for n := 0 to |features|
      invariant |result| == n
      invariant forall i :: 0 <= i < n ==> ReprojectedFeature(features[i], result[i], code, t)
    {
      var newCoordinates := TransformCoordinates(features[n].geometry, code, t);
      var jsonFeature := features[n].(geometry := newCoordinates);
      result := result + [jsonFeature];
    }
  }

  lemma PositionsDetermined(ps: seq<Position>, a: seq<Position>, b: seq<Position>, code: string, t: Transform)
    requires MapsPositions(ps, a, code, t) && MapsPositions(ps, b, code, t)
    ensures a == b
  {
  }

  lemma LinesDetermined(ls: seq<seq<Position>>, a: seq<seq<Position>>, b: seq<seq<Position>>, code: string, t: Transform)
    requires MapsLines(ls, a, code, t) && MapsLines(ls, b, code, t)
    ensures a == b
  {
    forall i | 0 <= i < |ls| ensures a[i] == b[i] {
      PositionsDetermined(ls[i], a[i], b[i], code, t);
    }
  }

  /** The reprojection of a geometry is unique: the walk is a function of its input. */
  lemma ReprojectedIsUnique(g: Geometry, a: Geometry, b: Geometry, code: string, t: Transform)
    requires Reprojected(g, a, code, t) && Reprojected(g, b, code, t)
    ensures a == b
  {
    match g
    case MultiLineString(ls) => LinesDetermined(ls, a.lines, b.lines, code, t);
    case Polygon(rs) => LinesDetermined(rs, a.rings, b.rings, code, t);
    case MultiPolygon(ms) =>
      forall i | 0 <= i < |ms| ensures a.polygons[i] == b.polygons[i] {
        LinesDetermined(ms[i], a.polygons[i], b.polygons[i], code, t);
      }
    case _ =>
  }

  /** With an identity transform, reprojection gives back every geometry of a known kind. */
  lemma IdentityKeepsGeometry(g: Geometry, r: Geometry, code: string, t: Transform)
    requires forall p :: t(code, p) == p
    requires !g.Other?
    requires Reprojected(g, r, code, t)
    ensures r == g
  {
    match g
    case MultiLineString(ls) =>
      forall i | 0 <= i < |ls| ensures r.lines[i] == ls[i] {
        PositionsDetermined(ls[i], r.lines[i], ls[i], code, t);
      }
    case Polygon(rs) =>
      forall i | 0 <= i < |rs| ensures r.rings[i] == rs[i] {
        PositionsDetermined(rs[i], r.rings[i], rs[i], code, t);
      }
    case MultiPolygon(ms) =>
      forall i | 0 <= i < |ms| ensures r.polygons[i] == ms[i] {
        LinesDetermined(ms[i], r.polygons[i], ms[i], code, t);
      }
    case _ =>
  }

  /**
   * Reprojecting the reprojected geometry again changes nothing when the transform is
   * idempotent (as a transform into the map's own CRS is).
   */
  lemma ReprojectTwice(g: Geometry, once: Geometry, twice: Geometry, code: string, t: Transform)
    requires forall p :: t(code, t(code, p)) == t(code, p)
    requires Reprojected(g, once, code, t) && Reprojected(once, twice, code, t)
    ensures twice == once
  {
    match g
    case MultiPoint(ps) =>
      PositionsDetermined(once.points, twice.points, once.points, code, t);
    case LineString(ps) =>
      PositionsDetermined(once.line, twice.line, once.line, code, t);
    case MultiLineString(ls) =>
      forall i | 0 <= i < |ls| ensures twice.lines[i] == once.lines[i] {
        PositionsDetermined(once.lines[i], twice.lines[i], once.lines[i], code, t);
      }
    case Polygon(rs) =>
      forall i | 0 <= i < |rs| ensures twice.rings[i] == once.rings[i] {
        PositionsDetermined(once.rings[i], twice.rings[i], once.rings[i], code, t);
      }
    case MultiPolygon(ms) =>
      forall i | 0 <= i < |ms| ensures twice.polygons[i] == once.polygons[i] {
        LinesDetermined(once.polygons[i], twice.polygons[i], once.polygons[i], code, t);
      }
    case _ =>
  }
}
