/** Assembly of a domain feature collection from its wire form
    (internal/domain/geojson/feature_collection.go). */
module FeatureCollections {
  import opened Wrappers
  import opened GeoErrors
  import opened GeoJson

  /** A decoded feature; properties are carried over verbatim. */
  datatype Feature = Feature(kind: string, geometry: Geometry, properties: Properties)

  /** `decodeGeometryJson`, the package-private twin of `FeatureGeometryJSON.Decode`:
      the same guards, with the kind dispatched by a switch. */
  function DecodeGeometryJson(fg: FeatureGeometryJson, lib: GeomLibrary): (r: Result<Geometry, GeoError>)
    ensures r == Decode(fg, lib)
  {
    if fg.kind == "" then Failure(GeometryTypeIsRequired)
    else if fg.coordinates.Missing? then Failure(CoordinatesIsRequired)
    else
      match fg.kind
      case "Polygon" =>
        (match UnmarshalPolygon(fg.coordinates)
         case None => Failure(NotValidPolygonCoordinates)
         case Some(coords) =>
           if !lib.acceptsPolygon(coords) || CoordCount(coords) == 0 then Failure(NotValidPolygonCoordinates)
           else Success(Polygon(coords)))
      case "MultiPolygon" =>
        (match UnmarshalMultiPolygon(fg.coordinates)
         case None => Failure(NotValidMultiPolygonCoordinates)
         case Some(coords) =>
           if !lib.acceptsMultiPolygon(coords) || MultiCoordCount(coords) == 0 then Failure(NotValidMultiPolygonCoordinates)
           else Success(MultiPolygon(coords)))
      case _ => Failure(UnsupportedGeometryType(fg.kind))
  }

  /** The features the loop has built after reading `fs`, or the error of the
      first feature (from the front) whose geometry fails to decode. */
  function DecodeFeatures(fs: seq<FeatureJson>, lib: GeomLibrary): (r: Result<seq<Feature>, GeoError>)
    ensures r.Success? ==> |r.value| == |fs|
    ensures r.Failure? ==> exists i :: 0 <= i < |fs| && Decode(fs[i].geometry, lib) == Failure(r.error)
    decreases |fs|
  {
    if fs == [] then Success([])
    else
      match DecodeFeatures(fs[..|fs| - 1], lib)
      case Failure(e) => Failure(e)
      case Success(done) =>
        var last := fs[|fs| - 1];
        match DecodeGeometryJson(last.geometry, lib)
        case Failure(e) => Failure(e)
        case Success(g) => Success(done + [Feature(last.kind, g, last.properties)])
  }

  /** The outcome `FromFeatureCollectionJSON` computes: the envelope's type
      is checked before the feature list, and the feature list before any
      geometry. */
  function Assemble(fcj: FeatureCollectionJson, lib: GeomLibrary): (r: Result<seq<Feature>, GeoError>)
    ensures fcj.kind != "FeatureCollection" ==> r == Failure(NotValidFeatureCollectionType(fcj.kind))
    ensures fcj.kind == "FeatureCollection" && fcj.features == [] ==> r == Failure(FeaturesIsRequired)
    ensures fcj.kind == "FeatureCollection" && fcj.features != [] ==> r == DecodeFeatures(fcj.features, lib)
  {
    if fcj.kind != "FeatureCollection" then Failure(NotValidFeatureCollectionType(fcj.kind))
    else if |fcj.features| == 0 then Failure(FeaturesIsRequired)
    else DecodeFeatures(fcj.features, lib)
  }

  predicate FirstFailing(fs: seq<FeatureJson>, i: int, lib: GeomLibrary) {
    && 0 <= i < |fs|
    && Decode(fs[i].geometry, lib).Failure?
    && forall j :: 0 <= j < i ==> Decode(fs[j].geometry, lib).Success?
  }

  /** Fail-fast: the features decode exactly when every geometry does, and
      otherwise the error is that of the first failing geometry in input order. */
  lemma {:induction false} DecodeFeaturesFailFast(fs: seq<FeatureJson>, lib: GeomLibrary)
    ensures DecodeFeatures(fs, lib).Success? <==>
            forall i :: 0 <= i < |fs| ==> Decode(fs[i].geometry, lib).Success?
    ensures forall i :: FirstFailing(fs, i, lib) ==>
              DecodeFeatures(fs, lib) == Failure(Decode(fs[i].geometry, lib).error)
    decreases |fs|
  {
    if fs != [] {
      var init := fs[..|fs| - 1];
      DecodeFeaturesFailFast(init, lib);
      assert forall i :: 0 <= i < |init| ==> init[i] == fs[i];
      forall i | FirstFailing(fs, i, lib)
        ensures DecodeFeatures(fs, lib) == Failure(Decode(fs[i].geometry, lib).error)
      {
        if i < |init| {
          assert FirstFailing(init, i, lib);
        }
      }
    }
  }

  /** On success every feature's type and properties are copied in order and
      its geometry is the decoded one. */
  lemma {:induction false} DecodeFeaturesCopies(fs: seq<FeatureJson>, lib: GeomLibrary)
    requires DecodeFeatures(fs, lib).Success?
    ensures |DecodeFeatures(fs, lib).value| == |fs|
    ensures forall i :: 0 <= i < |fs| ==>
              var f := DecodeFeatures(fs, lib).value[i];
              && f.kind == fs[i].kind
              && f.properties == fs[i].properties
              && Decode(fs[i].geometry, lib) == Success(f.geometry)
    decreases |fs|
  {
    if fs != [] {
      var init := fs[..|fs| - 1];
      DecodeFeaturesCopies(init, lib);
      assert forall i :: 0 <= i < |init| ==> init[i] == fs[i];
    }
  }

  /** The domain collection; `FromFeatureCollectionJSON` fills it in place. */
  class FeatureCollection {
    var kind: string
    var features: seq<Feature>

    /** Go's zero value. */
    constructor ()
      ensures kind == "" && features == []
    {
      kind := "";
      features := [];
    }

    /** Both fields are assigned only after every geometry decoded, so on any
        error the receiver is left as it was. */
    method FromFeatureCollectionJson(fcj: FeatureCollectionJson, lib: GeomLibrary) returns (err: Option<GeoError>)
      modifies this
      ensures match Assemble(fcj, lib)
              case Failure(e) => err == Some(e) && unchanged(this)
              case Success(fs) => err == None && kind == "FeatureCollection" && features == fs
      ensures err == None ==>
                && |features| == |fcj.features|
                && forall i :: 0 <= i < |features| ==>
                     && features[i].kind == fcj.features[i].kind
                     && features[i].properties == fcj.features[i].properties
                     && Decode(fcj.features[i].geometry, lib) == Success(features[i].geometry)
    {
      if fcj.kind != "FeatureCollection" {
        return Some(NotValidFeatureCollectionType(fcj.kind));
      }
      if |fcj.features| == 0 {
        return Some(FeaturesIsRequired);
      }
      var built: seq<Feature> := [];
      var i := 0;
      while i < |fcj.features|
        invariant 0 <= i <= |fcj.features|
        invariant DecodeFeatures(fcj.features[..i], lib) == Success(built)
      {
        var f := fcj.features[i];
        assert fcj.features[..i + 1][..i] == fcj.features[..i];
        var g := DecodeGeometryJson(f.geometry, lib);
        if g.Failure? {
          DecodeFeaturesFailFast(fcj.features[..i], lib);
          assert forall j :: 0 <= j < i ==> fcj.features[..i][j] == fcj.features[j];
          assert FirstFailing(fcj.features, i, lib);
          DecodeFeaturesFailFast(fcj.features, lib);
          return Some(g.error);
        }
        built := built + [Feature(f.kind, g.value, f.properties)];
        i := i + 1;
      }
      assert fcj.features[..i] == fcj.features;
      DecodeFeaturesCopies(fcj.features, lib);
      kind := fcj.kind;
      features := built;
      err := None;
    }
  }
}
