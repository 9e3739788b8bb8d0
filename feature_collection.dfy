/**
 * The FeatureCollection object that `toGeoJSON` builds for a download and that the KML and
 * Shapefile corrections rewrite in place before it is handed to the serializers.
 */
module Export {
  import opened Wrappers
  import opened GeoJson
  import opened KmlFix
  import opened ShpPrep

  /** What a download produces (the serializers themselves are not modelled). */
  datatype Download =
    | Saved(extension: string, mimeType: string)  // a Blob saved as `<layer>.<extension>`
    | SavedShapefile                              // handed to the Shapefile writer
    | Threw                                       // a TypeError escaped a correction
    | NotSelected                                 // error dialog, then a `<layer>.undefined` file

  class FeatureCollection {
    var features: seq<Feature>

    constructor (features: seq<Feature>)
      ensures this.features == features
    {
      this.features := features;
    }

    /**
     * `fixGeojsonKmlBug`: visits the features in order, rewriting each in place, until a
     * visit throws; the feature count and order never change.
     */
    method FixKmlBug() returns (threw: bool)
      modifies this
      ensures |features| == |old(features)|
      ensures threw <==> FirstThrowing(old(features)) < |old(features)|
      ensures forall j :: 0 <= j < |features| ==>
        features[j] == if j <= FirstThrowing(old(features)) then FixFeature(old(features)[j]) else old(features)[j]
    {
      for i := 0 to |features|
        invariant |features| == |old(features)|
        invariant forall k :: 0 <= k < i ==> !Throws(old(features)[k])
        invariant forall j :: 0 <= j < i ==> features[j] == FixFeature(old(features)[j])
        invariant forall j :: i <= j < |features| ==> features[j] == old(features)[j]
      {
        var visit := FixGeometry(features[i].geometry);
        features := features[i := features[i].(geometry := visit.geometry)];
        if visit.threw {
          assert FirstThrowing(old(features)) == i;
          return true;
        }
      }
      return false;
    }

    /**
     * `parseGeojsonForShp`: the features are replaced by their decomposition and then every
     * id is deleted; when a split throws, the collection is left as it was.
     */
    method ParseForShp() returns (threw: bool)
      modifies this
      ensures threw <==> Decomposed(old(features)).Failure?
      ensures threw ==> features == old(features)
      ensures !threw ==> features == WithoutIds(Decomposed(old(features)).value)
      ensures !threw ==> forall j :: 0 <= j < |features| ==> features[j].id.None?
    {
      var newFeatures: seq<Feature> := [];
      for n := 0 to |features|
        invariant Decomposed(features[..n]) == Success(newFeatures)
      {
        assert features[..n + 1][..n] == features[..n];
        match Pieces(features[n]) {
          case Failure(_) =>
            DecomposedSpec(features);
            return true;
          case Success(ps) =>
            newFeatures := newFeatures + ps;
        }
      }
      assert features[..|features|] == features;
      features := newFeatures;
      for i := 0 to |features|
        invariant |features| == |newFeatures|
        invariant forall j :: 0 <= j < i ==> features[j] == newFeatures[j].(id := None)
        invariant forall j :: i <= j < |features| ==> features[j] == newFeatures[j]
      {
        features := features[i := features[i].(id := None)];
      }
      return false;
    }

    /**
     * The format switch of `downloadLayer` on the reprojected collection: GeoJSON and GPX are
     * passed on as they are, KML after the KML correction, Shapefile after the Shapefile
     * preparation; any other format shows an error and still saves an `undefined` file.
     * A TypeError in a correction escapes `downloadLayer` (Threw), and nothing is saved.
     */
    method PrepareDownload(format: string) returns (d: Download)
      modifies this
      ensures format == "geojson" ==> d == Saved("geojson", "json") && features == old(features)
      ensures format == "gpx" ==> d == Saved("gpx", "xml") && features == old(features)
      ensures format == "kml" ==>
        && |features| == |old(features)|
        && (d == Threw <==> FirstThrowing(old(features)) < |old(features)|)
        && (d != Threw ==>
              && d == Saved("kml", "xml")
              && forall j :: 0 <= j < |features| ==> features[j] == FixFeature(old(features)[j]))
      ensures format == "shp" ==>
        && (d == Threw <==> Decomposed(old(features)).Failure?)
        && (d != Threw ==> d == SavedShapefile && features == WithoutIds(Decomposed(old(features)).value))
      ensures format !in {"geojson", "kml", "gpx", "shp"} ==> d == NotSelected && features == old(features)
    {
      if format == "geojson" {
        d := Saved("geojson", "json");
      } else if format == "kml" {
        var threw := FixKmlBug();
        d := if threw then Threw else Saved("kml", "xml");
      } else if format == "gpx" {
        d := Saved("gpx", "xml");
      } else if format == "shp" {
        var threw := ParseForShp();
        d := if threw then Threw else SavedShapefile;
      } else {
        d := NotSelected;
      }
    }
  }
}
