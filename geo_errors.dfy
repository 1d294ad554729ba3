/** The error set of the geojson package: three error types that echo an
    offending type string and six fixed sentinel errors. */
module GeoErrors {

  datatype GeoError =
    // parameterised errors
    | UnsupportedGeometryType(t: string)
    | NotValidFeatureCollectionType(t: string)
    | NotValidFeatureType(t: string)
    // sentinel errors
    | Serialization
    | FeaturesIsRequired
    | GeometryTypeIsRequired
    | CoordinatesIsRequired
    | NotValidPolygonCoordinates
    | NotValidMultiPolygonCoordinates

  const UnsupportedGeometryTypePrefix := "unsupported geometry type: "
  const NotValidFeatureCollectionTypePrefix := "not valid feature collection type: "
  const NotValidFeatureTypePrefix := "not valid feature type: "

  predicate IsSentinel(e: GeoError) {
    !(e.UnsupportedGeometryType? || e.NotValidFeatureCollectionType? || e.NotValidFeatureType?)
  }

  /** The text `Error()` returns; the HTTP layer sends it to clients verbatim. */
  function Message(e: GeoError): (m: string)
    ensures e.UnsupportedGeometryType? ==> m == UnsupportedGeometryTypePrefix + e.t
    ensures e.NotValidFeatureCollectionType? ==> m == NotValidFeatureCollectionTypePrefix + e.t
    ensures e.NotValidFeatureType? ==> m == NotValidFeatureTypePrefix + e.t
  {
    match e
    case UnsupportedGeometryType(t) => UnsupportedGeometryTypePrefix + t
    case NotValidFeatureCollectionType(t) => NotValidFeatureCollectionTypePrefix + t
    case NotValidFeatureType(t) => NotValidFeatureTypePrefix + t
    case Serialization => "serialization error"
    case FeaturesIsRequired => "features is required"
    case GeometryTypeIsRequired => "geometry is required"
    case CoordinatesIsRequired => "coordinates is required"
    case NotValidPolygonCoordinates => "not valid polygon coordinates"
    case NotValidMultiPolygonCoordinates => "not valid multipolygon coordinates"
  }

  /** Each parameterised message determines the echoed string. */
  lemma ParameterisedMessageInjective(e1: GeoError, e2: GeoError)
    requires !IsSentinel(e1) && !IsSentinel(e2)
    requires e1.UnsupportedGeometryType? == e2.UnsupportedGeometryType?
    requires e1.NotValidFeatureCollectionType? == e2.NotValidFeatureCollectionType?
    requires Message(e1) == Message(e2)
    ensures e1.t == e2.t
  {
    var p := if e1.UnsupportedGeometryType? then UnsupportedGeometryTypePrefix
             else if e1.NotValidFeatureCollectionType? then NotValidFeatureCollectionTypePrefix
             else NotValidFeatureTypePrefix;
    assert Message(e1) == p + e1.t && Message(e2) == p + e2.t;
    assert e1.t == (p + e1.t)[|p|..];
    assert e2.t == (p + e2.t)[|p|..];
  }

  /** Characters at fixed positions that tell the messages apart. */
  function Initial(e: GeoError): char {
    match e
    case UnsupportedGeometryType(_) => 'u'
    case Serialization => 's'
    case FeaturesIsRequired => 'f'
    case GeometryTypeIsRequired => 'g'
    case CoordinatesIsRequired => 'c'
    case _ => 'n'
  }

  lemma MessageLandmarks(e: GeoError)
    ensures |Message(e)| >= 19
    ensures Message(e)[0] == Initial(e)
    ensures e.NotValidFeatureCollectionType? || e.NotValidFeatureType? ==> Message(e)[10] == 'f'
    ensures e.NotValidPolygonCoordinates? ==> Message(e)[10] == 'p'
    ensures e.NotValidMultiPolygonCoordinates? ==> Message(e)[10] == 'm'
    ensures e.NotValidFeatureCollectionType? ==> Message(e)[18] == 'c'
    ensures e.NotValidFeatureType? ==> Message(e)[18] == 't'
  {
  }

  /** No sentinel message starts with one of the three parameterised prefixes. */
  lemma SentinelsHaveNoPrefix(e: GeoError)
    requires IsSentinel(e)
    ensures !(UnsupportedGeometryTypePrefix <= Message(e))
    ensures !(NotValidFeatureCollectionTypePrefix <= Message(e))
    ensures !(NotValidFeatureTypePrefix <= Message(e))
  {
    MessageLandmarks(e);
    var m := Message(e);
    assert UnsupportedGeometryTypePrefix[0] != m[0];
    assert NotValidFeatureCollectionTypePrefix[0] != m[0] || NotValidFeatureCollectionTypePrefix[10] != m[10];
    assert NotValidFeatureTypePrefix[0] != m[0] || NotValidFeatureTypePrefix[10] != m[10];
  }

  /** Distinct errors never share a message, so a client can tell every
      error apart from its text alone. */
  lemma MessageInjective(e1: GeoError, e2: GeoError)
    requires Message(e1) == Message(e2)
    ensures e1 == e2
  {
    MessageLandmarks(e1);
    MessageLandmarks(e2);
    if !IsSentinel(e1) && !IsSentinel(e2) {
      ParameterisedMessageInjective(e1, e2);
    }
  }
}
