/** The wire-level GeoJSON shapes of a create-zone request and the geometry
    decoder of internal/domain/geojson/json.go (`FeatureGeometryJSON.Decode`).

    Byte-level JSON parsing happens before this layer: the `coordinates`
    member arrives as the outcome of that parse (absent, not a coordinate
    array tree, or the parsed tree), and unmarshalling into a fixed nesting
    depth is the depth check below. */
module GeoJson {
  import opened Wrappers
  import opened GeoErrors

  /** One position; its values are carried along, never computed on. */
  datatype Coord = Coord(x: real, y: real)
  type Ring = seq<Coord>
  type PolygonCoords = seq<Ring>
  type MultiPolygonCoords = seq<PolygonCoords>

  /** Nested JSON arrays with positions at the leaves. */
  datatype CoordTree = Position(c: Coord) | Array(items: seq<CoordTree>)

  /** The `coordinates` member of a geometry object: a nil pointer (absent or
      JSON `null`), bytes that are not an array tree of positions, or the
      parsed tree. */
  datatype RawCoordinates = Missing | Malformed | Parsed(tree: CoordTree)

  /** Feature properties: arbitrary JSON, passed through untouched. */
  datatype JsonValue =
    | JNull
    | JBool(b: bool)
    | JNumber(n: real)
    | JString(s: string)
    | JArray(elements: seq<JsonValue>)
    | JObject(members: map<string, JsonValue>)
  type Properties = map<string, JsonValue>

  datatype FeatureGeometryJson = FeatureGeometryJson(kind: string, coordinates: RawCoordinates)
  datatype FeatureJson = FeatureJson(kind: string, geometry: FeatureGeometryJson, properties: Properties)
  datatype FeatureCollectionJson = FeatureCollectionJson(kind: string, features: seq<FeatureJson>)

  /** The decoded geometry: go-geom's Polygon or MultiPolygon in XY layout. */
  datatype Geometry = Polygon(rings: PolygonCoords) | MultiPolygon(polygons: MultiPolygonCoords)

  /** go-geom's `SetCoords` verdict on coordinates that did unmarshal. The
      library is not part of this model, so its checks are a parameter. */
  datatype GeomLibrary = GeomLibrary(
    acceptsPolygon: PolygonCoords -> bool,
    acceptsMultiPolygon: MultiPolygonCoords -> bool)

  // ---------------------------------------------------------------------
  // Unmarshalling a parsed tree into `[]geom.Coord`, `[][]geom.Coord` and
  // `[][][]geom.Coord`: every level must be an array, positions at the leaves.

  function AsRing(t: CoordTree): Option<Ring> {
    if t.Array? && forall i :: 0 <= i < |t.items| ==> t.items[i].Position? then
      Some(seq(|t.items|, i requires 0 <= i < |t.items| => t.items[i].c))
    else None
  }

  function AsRings(t: CoordTree): Option<PolygonCoords> {
    if t.Array? && forall i :: 0 <= i < |t.items| ==> AsRing(t.items[i]).Some? then
      Some(seq(|t.items|, i requires 0 <= i < |t.items| => AsRing(t.items[i]).value))
    else None
  }

  function AsPolygons(t: CoordTree): Option<MultiPolygonCoords> {
    if t.Array? && forall i :: 0 <= i < |t.items| ==> AsRings(t.items[i]).Some? then
      Some(seq(|t.items|, i requires 0 <= i < |t.items| => AsRings(t.items[i]).value))
    else None
  }

  /** `json.Unmarshal(g.Coordinates, &[][]geom.Coord{})`: only a parsed
      payload can succeed, and what succeeds is the JSON form of its result. */
  function UnmarshalPolygon(raw: RawCoordinates): (r: Option<PolygonCoords>)
    ensures !raw.Parsed? ==> r == None
    ensures r.Some? ==> raw == Parsed(RingsTree(r.value))
  {
    if raw.Parsed? && AsRings(raw.tree).Some? then
      RingsTreeOfAsRings(raw.tree);
      AsRings(raw.tree)
    else None
  }

  /** `json.Unmarshal(g.Coordinates, &[][][]geom.Coord{})`. */
  function UnmarshalMultiPolygon(raw: RawCoordinates): (r: Option<MultiPolygonCoords>)
    ensures !raw.Parsed? ==> r == None
    ensures r.Some? ==> raw == Parsed(PolygonsTree(r.value))
  {
    if raw.Parsed? && AsPolygons(raw.tree).Some? then
      PolygonsTreeOfAsPolygons(raw.tree);
      AsPolygons(raw.tree)
    else None
  }

  // ---------------------------------------------------------------------
  // The inverse direction: the JSON a geometry is written as.

  function RingTree(r: Ring): CoordTree {
    Array(seq(|r|, i requires 0 <= i < |r| => Position(r[i])))
  }

  function RingsTree(rs: PolygonCoords): CoordTree {
    Array(seq(|rs|, i requires 0 <= i < |rs| => RingTree(rs[i])))
  }

  function PolygonsTree(ps: MultiPolygonCoords): CoordTree {
    Array(seq(|ps|, i requires 0 <= i < |ps| => RingsTree(ps[i])))
  }

  function Encode(g: Geometry): FeatureGeometryJson {
    match g
    case Polygon(rs) => FeatureGeometryJson("Polygon", Parsed(RingsTree(rs)))
    case MultiPolygon(ps) => FeatureGeometryJson("MultiPolygon", Parsed(PolygonsTree(ps)))
  }

  // ---------------------------------------------------------------------
  // Emptiness: go-geom's `Empty()` holds when the flat coordinate buffer
  // holds no position.

  /** The length of the flat buffer, in positions: it holds every ring. */
  function CoordCount(rs: PolygonCoords): (n: nat)
    ensures forall i :: 0 <= i < |rs| ==> |rs[i]| <= n
    decreases |rs|
  {
    if rs == [] then 0 else |rs[0]| + CoordCount(rs[1..])
  }

  function MultiCoordCount(ps: MultiPolygonCoords): (n: nat)
    ensures forall i :: 0 <= i < |ps| ==> CoordCount(ps[i]) <= n
    decreases |ps|
  {
    if ps == [] then 0 else CoordCount(ps[0]) + MultiCoordCount(ps[1..])
  }

  /** A geometry the decoder can return: holds a coordinate and the library accepted it. */
  predicate Decodable(g: Geometry, lib: GeomLibrary) {
    match g
    case Polygon(rs) => CoordCount(rs) > 0 && lib.acceptsPolygon(rs)
    case MultiPolygon(ps) => MultiCoordCount(ps) > 0 && lib.acceptsMultiPolygon(ps)
  }

  // ---------------------------------------------------------------------

  /** `FeatureGeometryJSON.Decode`: the kind is checked first, then the
      presence of coordinates, and only then is the kind dispatched. */
  function Decode(g: FeatureGeometryJson, lib: GeomLibrary): (r: Result<Geometry, GeoError>)
    ensures g.kind == "" ==> r == Failure(GeometryTypeIsRequired)
    ensures g.kind != "" && g.coordinates.Missing? ==> r == Failure(CoordinatesIsRequired)
    ensures g.kind == "Polygon" && !g.coordinates.Missing? ==>
              r.Success? || r == Failure(NotValidPolygonCoordinates)
    ensures g.kind == "MultiPolygon" && !g.coordinates.Missing? ==>
              r.Success? || r == Failure(NotValidMultiPolygonCoordinates)
    ensures g.kind !in {"", "Polygon", "MultiPolygon"} && !g.coordinates.Missing? ==>
              r == Failure(UnsupportedGeometryType(g.kind))
    ensures r.Success? ==> Decodable(r.value, lib) && g == Encode(r.value)
  {
    if g.kind == "" then Failure(GeometryTypeIsRequired)
    else if g.coordinates.Missing? then Failure(CoordinatesIsRequired)
    else if g.kind == "Polygon" then
      var coords := UnmarshalPolygon(g.coordinates);
      if coords.None? || !lib.acceptsPolygon(coords.value) || CoordCount(coords.value) == 0 then
        Failure(NotValidPolygonCoordinates)
      else Success(Polygon(coords.value))
    else if g.kind == "MultiPolygon" then
      var coords := UnmarshalMultiPolygon(g.coordinates);
      if coords.None? || !lib.acceptsMultiPolygon(coords.value) || MultiCoordCount(coords.value) == 0 then
        Failure(NotValidMultiPolygonCoordinates)
      else Success(MultiPolygon(coords.value))
    else
      Failure(UnsupportedGeometryType(g.kind))
  }

  // ---------------------------------------------------------------------
  // Unmarshalling and writing out are inverse to each other.

  lemma AsRingOfRingTree(r: Ring)
    ensures AsRing(RingTree(r)) == Some(r)
  {
    var t := RingTree(r);
    assert forall i :: 0 <= i < |t.items| ==> t.items[i].Position?;
    assert seq(|t.items|, i requires 0 <= i < |t.items| => t.items[i].c) == r;
  }

  lemma RingTreeOfAsRing(t: CoordTree)
    requires AsRing(t).Some?
    ensures RingTree(AsRing(t).value) == t
  {
  }

  lemma AsRingsOfRingsTree(rs: PolygonCoords)
    ensures AsRings(RingsTree(rs)) == Some(rs)
  {
    var t := RingsTree(rs);
    forall i | 0 <= i < |rs| ensures AsRing(t.items[i]) == Some(rs[i]) {
      AsRingOfRingTree(rs[i]);
    }
    assert seq(|t.items|, i requires 0 <= i < |t.items| => AsRing(t.items[i]).value) == rs;
  }

  lemma RingsTreeOfAsRings(t: CoordTree)
    requires AsRings(t).Some?
    ensures RingsTree(AsRings(t).value) == t
  {
    var rs := AsRings(t).value;
    forall i | 0 <= i < |t.items| ensures RingTree(rs[i]) == t.items[i] {
      RingTreeOfAsRing(t.items[i]);
    }
    assert RingsTree(rs).items == t.items;
  }

  lemma AsPolygonsOfPolygonsTree(ps: MultiPolygonCoords)
    ensures AsPolygons(PolygonsTree(ps)) == Some(ps)
  {
    var t := PolygonsTree(ps);
    forall i | 0 <= i < |ps| ensures AsRings(t.items[i]) == Some(ps[i]) {
      AsRingsOfRingsTree(ps[i]);
    }
    assert seq(|t.items|, i requires 0 <= i < |t.items| => AsRings(t.items[i]).value) == ps;
  }

  lemma PolygonsTreeOfAsPolygons(t: CoordTree)
    requires AsPolygons(t).Some?
    ensures PolygonsTree(AsPolygons(t).value) == t
  {
    var ps := AsPolygons(t).value;
    forall i | 0 <= i < |t.items| ensures RingsTree(ps[i]) == t.items[i] {
      RingsTreeOfAsRings(t.items[i]);
    }
    assert PolygonsTree(ps).items == t.items;
  }

  /** Structural round trip: every geometry that holds a coordinate and that
      the library accepts decodes back from its JSON form exactly, ring by
      ring and position by position. With the last ensures of `Decode`
      (success only on the JSON form of the result) this makes `Decode` and
      `Encode` inverse bijections between decodable inputs and geometries. */
  lemma DecodeEncode(g: Geometry, lib: GeomLibrary)
    requires Decodable(g, lib)
    ensures Decode(Encode(g), lib) == Success(g)
  {
    match g
    case Polygon(rs) => AsRingsOfRingsTree(rs);
    case MultiPolygon(ps) => AsPolygonsOfPolygonsTree(ps);
  }

  /** "Empty" means no position at all: a polygon whose rings are all empty
      (`[]`, `[[]]`, `[[], []]`) holds nothing. */
  lemma {:induction false} CoordCountZero(rs: PolygonCoords)
    ensures CoordCount(rs) == 0 <==> forall i :: 0 <= i < |rs| ==> rs[i] == []
  {
    if rs != [] {
      CoordCountZero(rs[1..]);
      assert forall i :: 1 <= i < |rs| ==> rs[i] == rs[1..][i - 1];
    }
  }

  lemma {:induction false} MultiCoordCountZero(ps: MultiPolygonCoords)
    ensures MultiCoordCount(ps) == 0 <==>
            forall i, j :: 0 <= i < |ps| && 0 <= j < |ps[i]| ==> ps[i][j] == []
  {
    if ps != [] {
      MultiCoordCountZero(ps[1..]);
      CoordCountZero(ps[0]);
      assert forall i :: 1 <= i < |ps| ==> ps[i] == ps[1..][i - 1];
    }
  }
  /** The payloads `[]` and `[[]]` parse, but hold no position. */
  lemma EmptyPayloadsRejected(lib: GeomLibrary)
    ensures Decode(FeatureGeometryJson("Polygon", Parsed(Array([]))), lib)
            == Failure(NotValidPolygonCoordinates)
    ensures Decode(FeatureGeometryJson("Polygon", Parsed(Array([Array([])]))), lib)
            == Failure(NotValidPolygonCoordinates)
    ensures Decode(FeatureGeometryJson("MultiPolygon", Parsed(Array([]))), lib)
            == Failure(NotValidMultiPolygonCoordinates)
    ensures Decode(FeatureGeometryJson("MultiPolygon", Parsed(Array([Array([])]))), lib)
            == Failure(NotValidMultiPolygonCoordinates)
  {
    assert RingTree([]).items == [];
    assert RingsTree([]).items == [];
    assert RingsTree([[]]).items == [RingTree([])];
    assert PolygonsTree([]).items == [];
    assert PolygonsTree([[]]).items == [RingsTree([])];
    AsRingsOfRingsTree([]);
    AsRingsOfRingsTree([[]]);
    AsPolygonsOfPolygonsTree([]);
    AsPolygonsOfPolygonsTree([[]]);
  }

  /** The number of positions in a ring is not checked at this layer: a
      one-position ring such as `[[[1, 2]]]` decodes whenever the library
      accepts it (the store rejects it later). */
  lemma OnePositionRingDecodes(c: Coord, lib: GeomLibrary)
    requires lib.acceptsPolygon([[c]])
    ensures Decode(FeatureGeometryJson("Polygon", Parsed(Array([Array([Position(c)])]))), lib)
            == Success(Polygon([[c]]))
  {
    DecodeEncode(Polygon([[c]]), lib);
    assert RingTree([c]).items == [Position(c)];
    assert RingsTree([[c]]).items == [RingTree([c])];
  }
}
