# Tree fall-risk core in Dafny

This project models the georeferencing and risk layer of a tree fall-risk
pipeline. The pipeline detects tree crowns in a satellite tile centred on a
geocoded address. It turns each crown into a located tree with a canopy radius
and a fall radius. Then it flags the trees whose fall circle reaches a
building footprint.

There is one module for each core source file:

- `Imagery` (`imagery.dfy`, pipeline/imagery.py). It holds the Web Mercator
  ground resolution `MetersPerPixel`, which is 156543.03392·cos(lat)/2^zoom.
  It also holds `TileBounds`, the geographic box of a square tile. That box
  uses 111320 m per degree of latitude and 111320·cos(lat) m per degree of
  longitude.
- `Detect` (`detect.dfy`, pipeline/detect.py). It holds the post-processing
  done by `detect_trees` once inference is over. The detector's result is an
  input (`Option<seq<Detection>>`). A boolean-mask selection of data-frame
  rows is modelled as `Select`. The score mask is applied first and the size
  mask second, as in the source. After the final re-indexing, a row's index
  is its position in the sequence. `SelectedPositions` gives the positions,
  in the detector's output, of the rows that survive the masks.
- `Risk` (`risk.dfy`, pipeline/risk.py). It holds `PixelToLatLng`, which
  offsets a pixel from the image centre, scales it to metres and then to
  degrees, and inverts the y axis. It also holds the per-detection record
  `TreeRiskOf`, the loop `ComputeTreeRisks`, the buffer radius `FallDegrees`
  and the loop `ClassifyDanger`. `LatLngToPixel` is the inverse conversion.
  The repository has no such function; it is here as the reference for the
  round-trip property.

Numbers are Dafny `real`s. `cos(radians(lat))` is not computed. For the tile
centre it is the parameter `cosLat`/`cosCenter`. For a tree's own latitude in
`classify_danger` it comes from the function parameter `cosOf`, so the two
cosines stay separate, as they are in the source. The conversions divide by
the cosine, so they require it to be non-zero. A floating-point cosine of a
latitude is never exactly zero. The shapely test "the buffered point
intersects the union of the buildings" is the function parameter
`intersects(lng, lat, radiusDeg, buildings)`. The footprints are a sequence
of a type parameter.

Notes on the source, which the model follows:

- `meters_per_pixel` does not reject latitudes outside ±90°.
- Neither `meters_per_pixel` nor `tile_bounds` takes a device-scale factor.
  The tile request asks for `scale: 2`, but the resolution is still computed
  from the nominal zoom.
- There is no `latLngToPixel` in the source.
- `detect_trees` has one set of defaults (0.3, 30 px, 300 px). There are no
  named presets. These defaults are the constants `Detect.DefaultScoreThreshold`,
  `Detect.DefaultMinBoxPx` and `Detect.DefaultMaxBoxPx`. The default zoom 19 and
  tile size 640 are `Imagery.DefaultZoom` and `Imagery.DefaultSize`, and the
  default fall multiplier 2.0 is `Risk.DefaultFallMultiplier`.

## Model

| member | source | states |
|---|---|---|
| `Imagery.Pow2` | pipeline/imagery.py:19 | 2^zoom is at least 1, so the resolution's divisor is positive |
| `Imagery.MetersPerPixel` | pipeline/imagery.py:17-19 | the resolution is positive exactly when cos(lat) is positive and over reals zero exactly when cos(lat) is zero (the poles) |
| `Imagery.MetersPerPixelHalves` | pipeline/imagery.py:19 | one more zoom level halves the metres per pixel |
| `Imagery.MetersPerPixelDecreasing` | pipeline/imagery.py:19 | with cos(lat) > 0 the resolution strictly decreases as zoom grows |
| `Imagery.TileBounds` | pipeline/imagery.py:22-37 | the box is symmetric about the centre: north − lat = lat − south and east − lng = lng − west |
| `Imagery.TileBoundsSpan` | pipeline/imagery.py:25-36 | north − south = size·mpp/111320, and east − west is that span divided by cos(lat) |
| `Imagery.TileBoundsOrdered` | pipeline/imagery.py:32-37 | for size > 0 and cos(lat) > 0, north > south and east > west |
| `Detect.Select` | pipeline/detect.py:38 | a mask selection keeps only rows that satisfy the mask and come from the input, keeps every input row that satisfies it, and is no longer than the input |
| `Detect.SelectedPositionsMatch` | pipeline/detect.py:47-49 | the k-th row after re-indexing is the input row at the k-th selected position, and there are as many positions as selected rows |
| `Detect.SelectedPositionsIncreasing` | pipeline/detect.py:47-49 | the selected positions are strictly increasing, so the selection keeps input order |
| `Detect.SelectedPositionsExact` | pipeline/detect.py:38-47 | a position is among the selected ones exactly when its row satisfies the mask |
| `Detect.SelectTwice` | pipeline/detect.py:37-47 | applying the score mask and then the size mask selects what their conjunction selects |
| `Detect.SelectAll` | pipeline/detect.py:38-47 | a mask that every row satisfies selects the whole input unchanged |
| `Detect.DetectTrees` | pipeline/detect.py:34-49 | an absent result gives no rows; otherwise every returned detection passes `Kept` (`ScoreOk`: score ≥ threshold, and `SizeOk`: both inclusive size bounds) and comes from the result, and there are at most as many as the result had |
| `Detect.DetectTreesSelectsKept` | pipeline/detect.py:37-49 | the filtered detections are exactly the input rows passing score ≥ threshold and both inclusive size bounds, in input order |
| `Detect.DetectTreesEmpty` | pipeline/detect.py:34-35 | an empty detector result gives no detections (the absent one is covered by `Detect.DetectTrees`) |
| `Detect.DetectTreesSoundAndComplete` | pipeline/detect.py:37-47 | every kept detection has score ≥ threshold and min ≤ width, height ≤ max; every input detection meeting both tests is kept |
| `Detect.DetectTreesSubsequence` | pipeline/detect.py:38-49 | the output is an order-preserving subsequence of the input at strictly increasing positions, exactly the kept ones, with at most as many rows as the input |
| `Detect.DetectTreesIdempotent` | pipeline/detect.py:38-47 | filtering the output again with the same settings returns it unchanged |
| `Detect.SizeBoundsInclusive` | pipeline/detect.py:41-47 | a box whose width equals min_box_px is kept and one a pixel narrower is dropped |
| `Detect.DefaultSizeBounds` | pipeline/detect.py:19-23 | at the default settings a confident box exactly 30 px wide is kept and one 29 px wide is dropped |
| `Risk.PixelToLatLng` | pipeline/risk.py:9-32 | the image-centre pixel maps exactly to the tile centre |
| `Risk.LatLngToPixel` | pipeline/risk.py:19-31 | no counterpart in the source: the inverse of that conversion, stated by converting its pixel back and getting the same position exactly |
| `Risk.PixelAxesIndependent` | pipeline/risk.py:19-31 | latitude depends only on the pixel row and longitude only on the pixel column |
| `Risk.PixelAxesOrientation` | pipeline/risk.py:26-31 | with cos > 0, a larger pixel y gives a strictly smaller latitude and a larger pixel x a strictly larger longitude, in both directions of the equivalence |
| `Risk.PixelRoundTrip` | pipeline/risk.py:19-31 | converting a pixel to lat/lng and back with the inverse gives the same pixel exactly |
| `Risk.PixelToLatLngInjective` | pipeline/risk.py:19-31 | two pixels that map to the same position are the same pixel |
| `Risk.TileCornersMatchBounds` | pipeline/risk.py:16-31 | for a size×size image, pixel (0,0) maps to (north, west) and pixel (size,size) to (south, east) of the tile bounds of pipeline/imagery.py |
| `Risk.TreeRiskOf` | pipeline/risk.py:55-77 | the record built for one detection keeps that detection; a zero multiplier gives fall radius 0; for a well-formed box, cos > 0 and multiplier ≥ 0 both radii are non-negative |
| `Risk.ComputeTreeRisks` | pipeline/risk.py:35-79 | one record per detection, in input order, each carrying its detection unchanged, located at the position of its box midpoint, and equal to the record built for that detection |
| `Risk.TreeRiskRadii` | pipeline/risk.py:56-69 | four times the canopy radius equals the box's north-south plus east-west ground extent in metres, measured between the positions `PixelToLatLng` gives its top-left and bottom-right corners; one more zoom level halves both the canopy and the fall radius |
| `Risk.TreeInsideTileBounds` | pipeline/risk.py:55-62 | the centre of a box lying inside a size×size image is located inside that tile's geographic bounds |
| `Risk.FallDegrees` | pipeline/risk.py:100-105 | a zero fall radius gives a zero buffer; for radius ≥ 0 and 0 < cos ≤ 1 the buffer lies between radius/111320 and radius/(111320·cos) |
| `Risk.ClassifyDanger` | pipeline/risk.py:82-112 | rows and their order and fields are kept; with no buildings every flag is false; otherwise each flag is the intersection test of the circle of FallDegrees radius around (lng, lat) using the tree's own cosine |
| `Risk.ZeroMultiplierZeroBuffer` | pipeline/risk.py:69 | with fall multiplier 0 every tree's buffer radius in degrees is 0, whatever its latitude |
| `Risk.DefaultTileExample` | pipeline/risk.py:35-79 | on a 640×640 tile at zoom 19 with multiplier 2, a 20×20 px box centred 10 px up and left of the image centre gives a tree 10 px of ground north and west of the tile centre, canopy radius 10 px of ground and fall radius 20 px of ground |

## Left out

- Geocoding (pipeline/geocode.py) and tile fetching (`fetch_satellite_tile`) are left out. Both are network I/O with API keys.
- Building retrieval (pipeline/buildings.py) is left out. It is a wrapper over a map-data library with a catch-all fallback to an empty set. Its polygon-type filter depends on library geometry types.
- `get_model` and `predict_tile` are left out. They are the lazily created global detector and its inference. The detector's output is an input of `Detect.DetectTrees`, and `nms_thresh` only configures it.
- notebook.py is left out. It holds UI cells, drawing and display.
- The shapely union, point buffer and intersection are the parameter `intersects`. No property of polygonal circle approximation or of boundary touching is claimed.
- `math.cos`, `math.radians` and IEEE floating point are left out. Arithmetic is exact over reals, and the cosine is a parameter.
- The `scale: 2` tile request is left out. It makes the image twice the nominal pixel size, and the resolution ignores it. The model does not add a scale factor.
- Data-frame machinery is reduced to sequences of fixed-field records. Extra columns a detector might add are not carried. The detector's `label` column is the field `labelName`, because `label` is a Dafny keyword.
- Sequences are values, so no operation can change its input.
- Negative zoom levels are left out. Zoom is a `nat`.
- An empty tree frame gains an empty `danger` column in the source; in the model it is simply an empty sequence of classified trees.
