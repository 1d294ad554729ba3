# Input validation of the zones service, in Dafny

The zones service stores geofencing zones (GeoJSON polygons and
multi-polygons) in PostGIS and answers "does one of these zones contain this
point" queries, singly and in keyed batches. This project models the layer
that turns untrusted, already-tokenised request data into typed values or a
specific error, and proves what that layer promises:

- `GeoErrors` (geo_errors.dfy): the error set of the `geojson` package and the
  texts `Error()` returns, which clients receive verbatim.
- `GeoJson` (geojson.dfy): the wire shapes of a create-zone request and the
  geometry decoder `FeatureGeometryJSON.Decode`. The coordinate payload
  arrives as the outcome of JSON parsing (`Missing`, `Malformed` or a parsed
  tree of nested arrays with positions at the leaves); unmarshalling into
  `[][]geom.Coord` or `[][][]geom.Coord` is a nesting-depth check. The
  go-geom library's `SetCoords` verdict is a parameter (`GeomLibrary`).
- `FeatureCollections` (feature_collection.dfy): the package-private twin
  decoder `decodeGeometryJson` and the class `FeatureCollection`, whose method
  `FromFeatureCollectionJson` checks the envelope, builds the features in a
  loop, stops at the first geometry that fails, and assigns its two fields
  only on success.
- `Dto` (dto.dfy): package `dto`, i.e. point range checks, zone-id
  positivity, the single containment query and the batch rules (non-empty,
  unique keys recorded in the map `cacheKeys`, first offender wins).
- `HttpHelpers` (http_helpers.dfy): `parseZoneIds`, with `strings.Split` on
  "," and `strconv.Atoi` (64-bit) written out as functions.
- `PsqlErrors` (psql_errors.dfy): `parsePostgisError`, which searches the wrap
  tree of an error the way `errors.As` does and turns a `PgError` with code
  `XX000` into a `PostgisValidationErr` carrying the store's message.
- `Wrappers` (wrappers.dfy): `Option` and `Result`.

Where the code and its tests disagree, the model follows the code:

- `parseZoneIds` keeps duplicate ids. The test case "duplicate ids"
  (internal/app/http/heplers_test.go:47-51) expects "4,4,3,3,1,1,1,2,2,10" to
  give 1, 2, 3, 4, 10, but nothing in helpers.go removes duplicates or sorts.
  `ParseZoneIds` returns one id per segment, in order.
- `ZoneIds.Validate` accepts an empty list. A handler test expects
  "ids cannot be empty" for `ids: []`, but nothing in zone.go returns
  `EmptyIdsErr`; the containment handler that may check it is not part of
  this model.

## Model

| member | source | states |
|---|---|---|
| `GeoErrors.Message` | internal/domain/geojson/errors.go:8-39 | each parameterised error's text is its fixed prefix followed by the echoed type string |
| `GeoErrors.ParameterisedMessageInjective` | internal/domain/geojson/errors.go:12-30 | for one error type, equal messages mean equal echoed strings |
| `GeoErrors.SentinelsHaveNoPrefix` | internal/domain/geojson/errors.go:32-39 | no sentinel message starts with any of the three parameterised prefixes |
| `GeoErrors.MessageInjective` | internal/domain/geojson/errors.go:8-39 | two errors with the same message are the same error, so the six sentinel texts are pairwise distinct and there is no clash with a parameterised text |
| `GeoJson.Decode` | internal/domain/geojson/json.go:26-58 | empty kind gives GeometryTypeIsRequired whatever the coordinates are; then missing coordinates give CoordinatesIsRequired whatever the kind is; Polygon and MultiPolygon give their own invalid-coordinates error or succeed; any other kind gives UnsupportedGeometryType echoing the kind; a success holds a coordinate, was accepted by the library, and its JSON form is exactly the input |
| `GeoJson.DecodeEncode` | internal/domain/geojson/json.go:34-54 | every geometry that holds a coordinate and is accepted by the library decodes back from its JSON form unchanged, ring by ring and position by position |
| `GeoJson.UnmarshalPolygon` | internal/domain/geojson/json.go:35-38 | a payload that is missing or malformed does not unmarshal; one that unmarshals as `[][]geom.Coord` is exactly the JSON form of the rings it gives |
| `GeoJson.UnmarshalMultiPolygon` | internal/domain/geojson/json.go:46-49 | a payload that is missing or malformed does not unmarshal; one that unmarshals as `[][][]geom.Coord` is exactly the JSON form of the polygons it gives |
| `GeoJson.CoordCount` | internal/domain/geojson/json.go:39-40 | the length of the flat coordinate buffer `SetCoords` builds, at least that of every ring; the decoder only tests it for zero, which `CoordCountZero` characterises |
| `GeoJson.MultiCoordCount` | internal/domain/geojson/json.go:50-51 | the flat buffer length of a multi-polygon, at least that of every polygon; the decoder only tests it for zero, which `MultiCoordCountZero` characterises |
| `GeoJson.AsRingsOfRingsTree` | internal/domain/geojson/json.go:35-38 | unmarshalling the JSON form of any ring list as `[][]geom.Coord` yields that ring list |
| `GeoJson.RingsTreeOfAsRings` | internal/domain/geojson/json.go:35-38 | a tree that unmarshals as `[][]geom.Coord` is the JSON form of what it unmarshals to |
| `GeoJson.AsPolygonsOfPolygonsTree` | internal/domain/geojson/json.go:46-49 | unmarshalling the JSON form of any polygon list as `[][][]geom.Coord` yields that polygon list |
| `GeoJson.PolygonsTreeOfAsPolygons` | internal/domain/geojson/json.go:46-49 | a tree that unmarshals as `[][][]geom.Coord` is the JSON form of what it unmarshals to |
| `GeoJson.CoordCountZero` | internal/domain/geojson/json.go:40-42 | a polygon is empty exactly when each of its rings is empty |
| `GeoJson.MultiCoordCountZero` | internal/domain/geojson/json.go:51-53 | a multi-polygon is empty exactly when each ring of each of its polygons is empty |
| `GeoJson.EmptyPayloadsRejected` | internal/domain/geojson/json.go:34-54 | the payloads `[]` and `[[]]` parse but are rejected with the kind's invalid-coordinates error |
| `GeoJson.OnePositionRingDecodes` | internal/domain/geojson/json.go:39-43 | the decoder does not count positions per ring: `[[[x, y]]]` decodes whenever the library accepts it |
| `FeatureCollections.DecodeGeometryJson` | internal/domain/geojson/feature_collection.go:48-80 | returns exactly what `FeatureGeometryJSON.Decode` returns, on every input |
| `FeatureCollections.Assemble` | internal/domain/geojson/feature_collection.go:22-46 | a type other than "FeatureCollection" gives NotValidFeatureCollectionType echoing it, checked before the features; an empty feature list gives FeaturesIsRequired; otherwise the outcome is that of decoding the features |
| `FeatureCollections.DecodeFeatures` | internal/domain/geojson/feature_collection.go:31-42 | the features built by the loop: on success one per input feature; on failure the error is the decoding error of some input feature's geometry |
| `FeatureCollections.DecodeFeaturesFailFast` | internal/domain/geojson/feature_collection.go:31-36 | the features decode exactly when every geometry decodes; otherwise the error is that of the first failing geometry in input order |
| `FeatureCollections.DecodeFeaturesCopies` | internal/domain/geojson/feature_collection.go:31-42 | on success there is one feature per input feature, in order, with type and properties copied verbatim and the geometry the decoder returned |
| `FeatureCollections.FeatureCollection.constructor` | internal/domain/geojson/feature_collection.go:11-14 | the zero value: empty type, no features |
| `FeatureCollections.FeatureCollection.FromFeatureCollectionJson` | internal/domain/geojson/feature_collection.go:22-46 | returns the error of the assembly, leaving the receiver unchanged, or returns no error and has type "FeatureCollection" and the assembled features, as many as the input has, with types and properties copied |
| `Dto.Message` | internal/dto/zone.go:18-23 | each of the texts "ids cannot be empty", "invalid id", "duplicate key", "empty data" and, from internal/dto/geometries.go:8-9, "invalid latitude" and "invalid longitude" is returned by exactly one sentinel |
| `Dto.MessageInjective` | internal/dto/zone.go:18-23 | the sentinel errors of package dto have pairwise distinct texts |
| `Dto.ValidatePoint` | internal/dto/geometries.go:17-25 | no error exactly when -90 <= lat <= 90 and -180 <= lon <= 180 (bounds inclusive); the latitude error exactly when lat is out of range, whatever lon is; the longitude error exactly when lat is in range and lon is not |
| `Dto.PointExamples` | internal/app/http/contains_zone_handler_test.go:178-187 | latitude 91 gives the latitude error; latitude 90 passes, so longitude -181 with it gives the longitude error; with both out of range the latitude error wins; (180, 90) passes |
| `Dto.ValidateZoneIds` | internal/dto/zone.go:9-16 | no error exactly when every id is at least 1 (an empty list passes); the only error is InvalidId |
| `Dto.ValidateContainsQuery` | internal/dto/zone.go:66-72 | invalid ids give InvalidId whatever the point; otherwise the result is the point's result |
| `Dto.ValidateBatch` | internal/dto/zone.go:38-54 | the loop with the `cacheKeys` map returns exactly the batch outcome: EmptyData for an empty batch, else the error of the first offending entry, else none |
| `Dto.BatchOutcome` | internal/dto/zone.go:38-54 | EmptyData exactly when the batch is empty; otherwise the only possible errors are DuplicateKey and InvalidId |
| `Dto.ScanFrom` | internal/dto/zone.go:43-52 | the scan of the entries from one on returns no error, DuplicateKey or InvalidId |
| `Dto.ScanFromFinds` | internal/dto/zone.go:43-52 | the scan from an entry finds nothing exactly when no later entry offends, and otherwise finds the first offender's error |
| `Dto.BatchValid` | internal/dto/zone.go:38-54 | a batch passes exactly when it is non-empty, its keys are pairwise distinct and every entry's ids are all at least 1 |
| `Dto.FirstOffenderWins` | internal/dto/zone.go:43-52 | the error is the earliest offending entry's: DuplicateKey if its key appeared before (checked first), else InvalidId |
| `Dto.PointsIgnored` | internal/dto/zone.go:43-52 | two batches with the same keys and ids in the same order validate alike, whatever their points |
| `Dto.DuplicateKeyExample` | internal/dto/zone.go:44-46 | two entries keyed "a" with valid ids are rejected with DuplicateKey |
| `HttpHelpers.Message` | internal/app/http/helpers.go:11-14 | "invalid zone id" is the text of InvalidZoneId and only of it; "ids is required" is that of EmptyZoneIds and only of it |
| `HttpHelpers.MessagesDistinct` | internal/app/http/helpers.go:11-14 | the two errors of the helpers have distinct texts |
| `HttpHelpers.Split` | internal/app/http/helpers.go:17 | splitting on "," yields at least one segment and no segment holds a comma |
| `HttpHelpers.JoinSplit` | internal/app/http/helpers.go:17 | joining the segments with "," gives back the input |
| `HttpHelpers.SplitJoin` | internal/app/http/helpers.go:17 | splitting comma-free segments joined with "," gives back the segments |
| `HttpHelpers.SplitEmpty` | internal/app/http/helpers.go:17-22 | the input splits into one empty segment exactly when it is empty |
| `HttpHelpers.Atoi` | internal/app/http/helpers.go:26-29 | a parsed value fits in a 64-bit int, and the text it came from holds at least one ASCII digit and nothing but digits apart from a leading '+' or '-' |
| `HttpHelpers.AtoiRejects` | internal/app/http/helpers.go:26-28 | the empty text, a lone sign, a trailing sign, a leading space and a decimal point are all rejected |
| `HttpHelpers.AtoiItoa` | internal/app/http/helpers.go:26-29 | every 64-bit integer's decimal text parses back to it |
| `HttpHelpers.AtoiAccepts` | internal/app/http/helpers.go:26-29 | the converse of `Atoi`'s grammar: digits alone, after '+' or after '-', are accepted with their signed decimal value exactly when that value fits in 64 bits, and rejected otherwise |
| `HttpHelpers.DigitsValueLeadingZero` | internal/app/http/helpers.go:26 | a leading zero does not change the decimal value of a digit string |
| `HttpHelpers.AtoiPlus` | internal/app/http/helpers.go:26-29 | a '+' before digits parses as the digits alone |
| `HttpHelpers.AtoiLeadingZero` | internal/app/http/helpers.go:26-29 | a leading zero before digits is ignored |
| `HttpHelpers.AtoiMinusLeadingZero` | internal/app/http/helpers.go:26-29 | a zero after a '-' is ignored too |
| `HttpHelpers.PlusExample` | internal/app/http/helpers.go:26-34 | "+3" parses to 3, so it is a zone id |
| `HttpHelpers.LeadingZerosExample` | internal/app/http/helpers.go:26-34 | "007" parses to 7 |
| `HttpHelpers.MinusZeroExample` | internal/app/http/helpers.go:26-31 | "-0" parses to 0, which is then rejected as below 1 |
| `HttpHelpers.ParseZoneIds` | internal/app/http/helpers.go:16-36 | "" gives EmptyZoneIds when ids are required and InvalidZoneId when not; otherwise success exactly when every segment is a decimal integer of at least 1, any failure is InvalidZoneId, and the result has one id per segment, in order, each the segment's value |
| `HttpHelpers.ValidIdsExample` | internal/app/http/heplers_test.go:30-34 | "1,2,3,4" splits into the segments 1, 2, 3, 4, each a valid id |
| `HttpHelpers.NonNumericExample` | internal/app/http/heplers_test.go:24-28 | "1,2,a,x,4" holds the segment "a", which is not an id |
| `HttpHelpers.BelowOneExamples` | internal/app/http/heplers_test.go:35-46 | "0,2,3,4" and "-1,2,3,4" start with segments that parse to 0 and -1, so neither is a zone id |
| `PsqlErrors.ValidationTextIsStoreMessage` | internal/repository/psql/errors.go:15-26 | when the first `PgError` of the tree has code XX000, the classified error is a validation error whose `Error()` text (`ValidationErrText`, errors.go:15-17) is exactly that `PgError`'s message |
| `PsqlErrors.FindPgError` | internal/repository/psql/errors.go:20-21 | finds a `PgError` exactly when one occurs in the error's wrap tree, and what it finds is a `PgError` of that tree |
| `PsqlErrors.FindPgErrorIsFirstInPreOrder` | internal/repository/psql/errors.go:20-21 | at any nesting of wrapped and joined errors, what is found is the first `PgError` of the tree's pre-order listing (a node before what it wraps, joined errors left to right) |
| `PsqlErrors.ParsePostgisError` | internal/repository/psql/errors.go:19-27 | an error with no `PgError` in its tree, or whose first one has a code other than XX000, is returned unchanged; otherwise the result is a validation error with that `PgError`'s message |
| `PsqlErrors.ParseIdempotent` | internal/repository/psql/errors.go:19-27 | classifying a classified error changes nothing |
| `PsqlErrors.FoundThroughWrapping` | internal/repository/psql/errors.go:21-26 | an XX000 `PgError` under any number of wrappers becomes a validation error with its message |
| `PsqlErrors.OtherCodesPassThrough` | internal/repository/psql/errors.go:22-23 | a `PgError` with any other code, under any number of wrappers, is passed through unchanged |
| `PsqlErrors.FirstPgErrorDecides` | internal/repository/psql/errors.go:20-23 | in a joined error the first `PgError` in order decides: a non-XX000 one is passed through even if a later one has XX000 |

## Left out

- Byte-level JSON decoding (`json.Unmarshal`, `NewFeatureCollectionJSON`, `MustNewFeatureCollectionJSON`): the parse outcome is an input, and the model does not derive it from the text. Go's decoder leaves a JSON `null` where a slice is expected as an empty slice, and one where a number is expected as 0, so `[[[null,1],[2,3],[4,5],[null,1]]]` unmarshals in Go to a ring starting at (0, 1) and decodes whenever go-geom accepts it. The model sees that payload only as the tree a caller supplies; supplied as `Malformed`, it gives NotValidPolygonCoordinates where Go succeeds. Positions with other than two numbers are not representable.
- go-geom's `SetCoords` checks: the library is not part of this model; its verdict is the `GeomLibrary` parameter.
- EWKB encoding (internal/domain/geojson/postgis_geometries.go) and `Zone.MarshalJSON`: foreign library calls.
- A nil properties map and an empty one are the same value here; Go only tells them apart by reflection.
- Floating point: coordinates and point components are reals; IEEE behaviour such as NaN passing both range comparisons is not modelled.
- HTTP transport (`CreateZone`, `GetZones`, router, app, `writeResponse`), SQL storage, migrations, the Docker test harness, logging, configuration and the service wrapper: I/O and plumbing.
- The concurrent batch worker pool, cancellation, the connection pool and the point-in-polygon predicate: no code of them is part of this model, and the predicate is evaluated by the database.
- `pgconn.PgError.Error()` text: a foreign library's format; only `PostgisValidationErr`'s text is modelled.
- Errors in the tree that define their own `As(any) bool` method, which `errors.As` calls at each node it visits: not modelled; the search is the plain pre-order walk over `Unwrap() error` and `Unwrap() []error`, matching only `PgError` nodes.
