/**
 * Georeferencing of detections and fall-risk classification
 * (pipeline/risk.py): pixel to latitude/longitude conversion, one risk record
 * per detection, and the danger flag.
 *
 * Pixel coordinates have their origin at the top-left corner of the image
 * with y growing downward; geographic coordinates are WGS84 degrees. The
 * cosine of the tile centre's latitude is the parameter `cosCenter`; the
 * cosine of each tree's own latitude comes from the parameter `cosOf`.
 */
module Risk {
  import opened Imagery
  import opened Detect

  datatype LatLng = LatLng(lat: real, lng: real)
  datatype Pixel = Pixel(x: real, y: real)

  /**
   * The position of pixel (pxX, pxY) of an imgWidth x imgHeight image centred
   * on (centerLat, centerLng): the offset from the image centre in pixels,
   * scaled to metres, then to degrees, with the y axis inverted. The image's
   * centre pixel lies exactly at the tile centre.
   */
  function PixelToLatLng(pxX: real, pxY: real, centerLat: real, centerLng: real, cosCenter: real,
                         imgWidth: int, imgHeight: int, zoom: nat): (g: LatLng)
    requires cosCenter != 0.0
    ensures pxX == imgWidth as real / 2.0 && pxY == imgHeight as real / 2.0 ==>
              g == LatLng(centerLat, centerLng)
  {
    var mpp := MetersPerPixel(cosCenter, zoom);
    var dxPx := pxX - imgWidth as real / 2.0;
    var dyPx := pxY - imgHeight as real / 2.0;
    var dxM := dxPx * mpp;
    var dyM := dyPx * mpp;
    var degPerMLat := 1.0 / MetersPerDegree;
    var degPerMLng := 1.0 / (MetersPerDegree * cosCenter);
    LatLng(centerLat - dyM * degPerMLat, centerLng + dxM * degPerMLng)
  }

  /**
   * The inverse conversion: the pixel of the same image at (lat, lng). The
   * repository has no such function; it is the reference against which
   * PixelToLatLng is shown to be invertible. Converting its pixel back gives
   * the same position.
   */
  function LatLngToPixel(lat: real, lng: real, centerLat: real, centerLng: real, cosCenter: real,
                         imgWidth: int, imgHeight: int, zoom: nat): (p: Pixel)
    requires cosCenter != 0.0
    ensures PixelToLatLng(p.x, p.y, centerLat, centerLng, cosCenter, imgWidth, imgHeight, zoom)
            == LatLng(lat, lng)
  {
    var mpp := MetersPerPixel(cosCenter, zoom);
    Pixel(imgWidth as real / 2.0 + (lng - centerLng) * MetersPerDegree * cosCenter / mpp,
          imgHeight as real / 2.0 + (centerLat - lat) * MetersPerDegree / mpp)
  }

  /** Latitude depends only on the pixel row and longitude only on the pixel column. */
  lemma PixelAxesIndependent(x1: real, y1: real, x2: real, y2: real,
                             centerLat: real, centerLng: real, cosCenter: real,
                             imgWidth: int, imgHeight: int, zoom: nat)
    requires cosCenter != 0.0
    ensures PixelToLatLng(x1, y1, centerLat, centerLng, cosCenter, imgWidth, imgHeight, zoom).lat
            == PixelToLatLng(x2, y1, centerLat, centerLng, cosCenter, imgWidth, imgHeight, zoom).lat
    ensures PixelToLatLng(x1, y1, centerLat, centerLng, cosCenter, imgWidth, imgHeight, zoom).lng
            == PixelToLatLng(x1, y2, centerLat, centerLng, cosCenter, imgWidth, imgHeight, zoom).lng
  {
  }

  /**
   * The y axis is inverted and the x axis is not: a pixel lower in the image
   * is strictly further south, and one further right strictly further east,
   * and conversely.
   */
  lemma PixelAxesOrientation(x1: real, y1: real, x2: real, y2: real,
                             centerLat: real, centerLng: real, cosCenter: real,
                             imgWidth: int, imgHeight: int, zoom: nat)
    requires cosCenter > 0.0
    ensures var p1 := PixelToLatLng(x1, y1, centerLat, centerLng, cosCenter, imgWidth, imgHeight, zoom);
            var p2 := PixelToLatLng(x2, y2, centerLat, centerLng, cosCenter, imgWidth, imgHeight, zoom);
            (y1 < y2 <==> p2.lat < p1.lat) && (x1 < x2 <==> p1.lng < p2.lng)
  {
  }

  /** Converting a pixel to a position and back gives the same pixel. */
  lemma PixelRoundTrip(pxX: real, pxY: real, centerLat: real, centerLng: real, cosCenter: real,
                       imgWidth: int, imgHeight: int, zoom: nat)
    requires cosCenter != 0.0
    ensures var g := PixelToLatLng(pxX, pxY, centerLat, centerLng, cosCenter, imgWidth, imgHeight, zoom);
            LatLngToPixel(g.lat, g.lng, centerLat, centerLng, cosCenter, imgWidth, imgHeight, zoom)
            == Pixel(pxX, pxY)
  {
  }

  /** Distinct pixels are at distinct positions. */
  lemma PixelToLatLngInjective(x1: real, y1: real, x2: real, y2: real,
                               centerLat: real, centerLng: real, cosCenter: real,
                               imgWidth: int, imgHeight: int, zoom: nat)
    requires cosCenter != 0.0
    requires PixelToLatLng(x1, y1, centerLat, centerLng, cosCenter, imgWidth, imgHeight, zoom)
             == PixelToLatLng(x2, y2, centerLat, centerLng, cosCenter, imgWidth, imgHeight, zoom)
    ensures x1 == x2 && y1 == y2
  {
  }

  /**
   * The pixel conversion and the tile bounds agree: for a size x size image
   * with the same centre and zoom, the top-left corner is the north-west
   * corner of the bounds and the bottom-right corner the south-east one.
   */
  lemma TileCornersMatchBounds(lat: real, lng: real, cosLat: real, size: int, zoom: nat)
    requires cosLat != 0.0
    ensures var b := TileBounds(lat, lng, cosLat, size, zoom);
            PixelToLatLng(0.0, 0.0, lat, lng, cosLat, size, size, zoom) == LatLng(b.north, b.west)
            && PixelToLatLng(size as real, size as real, lat, lng, cosLat, size, size, zoom)
               == LatLng(b.south, b.east)
  {
  }

  /** A detection with its georeferenced centre and its canopy and fall radii in metres. */
  datatype TreeRisk = TreeRisk(detection: Detection, treeLat: real, treeLng: real,
                               canopyRadiusM: real, fallRadiusM: real)

  /** The default fall multiplier of compute_tree_risks. */
  const DefaultFallMultiplier: real := 2.0

  /**
   * The tree record compute_tree_risks builds for one detection. It keeps the
   * detection; a zero multiplier gives a zero fall radius; for a well-formed
   * box at a latitude with positive cosine and a non-negative multiplier both
   * radii are non-negative.
   */
  function TreeRiskOf(d: Detection, centerLat: real, centerLng: real, cosCenter: real,
                      imgWidth: int, imgHeight: int, fallMultiplier: real, zoom: nat): (t: TreeRisk)
    requires cosCenter != 0.0
    ensures t.detection == d
    ensures fallMultiplier == 0.0 ==> t.fallRadiusM == 0.0
    ensures cosCenter > 0.0 && Width(d) >= 0.0 && Height(d) >= 0.0 && fallMultiplier >= 0.0
            ==> t.canopyRadiusM >= 0.0 && t.fallRadiusM >= 0.0
  {
    var mpp := MetersPerPixel(cosCenter, zoom);
    var centre := PixelToLatLng((d.xmin + d.xmax) / 2.0, (d.ymin + d.ymax) / 2.0,
                                centerLat, centerLng, cosCenter, imgWidth, imgHeight, zoom);
    var canopy := ((d.xmax - d.xmin) * mpp + (d.ymax - d.ymin) * mpp) / 4.0;
    TreeRisk(d, centre.lat, centre.lng, canopy, canopy * fallMultiplier)
  }

  /**
   * compute_tree_risks: one record per detection, in input order, each
   * carrying its detection unchanged.
   */
  method ComputeTreeRisks(detections: seq<Detection>, centerLat: real, centerLng: real,
                          cosCenter: real, imgWidth: int, imgHeight: int,
                          fallMultiplier: real, zoom: nat)
    returns (rows: seq<TreeRisk>)
    requires cosCenter != 0.0
    ensures |rows| == |detections|
    ensures forall i :: 0 <= i < |detections| ==> rows[i].detection == detections[i]
    ensures forall i :: 0 <= i < |detections| ==>
              LatLng(rows[i].treeLat, rows[i].treeLng)
              == PixelToLatLng((detections[i].xmin + detections[i].xmax) / 2.0,
                               (detections[i].ymin + detections[i].ymax) / 2.0,
                               centerLat, centerLng, cosCenter, imgWidth, imgHeight, zoom)
    ensures forall i :: 0 <= i < |detections| ==>
              rows[i] == TreeRiskOf(detections[i], centerLat, centerLng, cosCenter,
                                    imgWidth, imgHeight, fallMultiplier, zoom)
  {
    var mpp := MetersPerPixel(cosCenter, zoom);
    rows := [];
    var i := 0;
    while i < |detections|
      invariant 0 <= i <= |detections|
      invariant |rows| == i
      invariant forall k :: 0 <= k < i ==>
                  rows[k] == TreeRiskOf(detections[k], centerLat, centerLng, cosCenter,
                                        imgWidth, imgHeight, fallMultiplier, zoom)
    {
      var det := detections[i];
      var cx := (det.xmin + det.xmax) / 2.0;
      var cy := (det.ymin + det.ymax) / 2.0;
      var tree := PixelToLatLng(cx, cy, centerLat, centerLng, cosCenter, imgWidth, imgHeight, zoom);
      var boxW := (det.xmax - det.xmin) * mpp;
      var boxH := (det.ymax - det.ymin) * mpp;
      var canopyRadiusM := (boxW + boxH) / 4.0;
      var fallRadiusM := canopyRadiusM * fallMultiplier;
      rows := rows + [TreeRisk(det, tree.lat, tree.lng, canopyRadiusM, fallRadiusM)];
      i := i + 1;
    }
  }

  /**
   * The canopy radius agrees with the georeferencing: four times it is the
   * box's north-south plus east-west ground extent, measured in metres between
   * the positions of its top-left and bottom-right corners. One more zoom
   * level halves both radii.
   */
  lemma TreeRiskRadii(d: Detection, centerLat: real, centerLng: real, cosCenter: real,
                      imgWidth: int, imgHeight: int, fallMultiplier: real, zoom: nat)
    requires cosCenter != 0.0
    ensures var t := TreeRiskOf(d, centerLat, centerLng, cosCenter, imgWidth, imgHeight,
                                fallMultiplier, zoom);
            var nw := PixelToLatLng(d.xmin, d.ymin, centerLat, centerLng, cosCenter,
                                    imgWidth, imgHeight, zoom);
            var se := PixelToLatLng(d.xmax, d.ymax, centerLat, centerLng, cosCenter,
                                    imgWidth, imgHeight, zoom);
            4.0 * t.canopyRadiusM
            == (nw.lat - se.lat) * MetersPerDegree + (se.lng - nw.lng) * MetersPerDegree * cosCenter
    ensures var t := TreeRiskOf(d, centerLat, centerLng, cosCenter, imgWidth, imgHeight,
                                fallMultiplier, zoom);
            var u := TreeRiskOf(d, centerLat, centerLng, cosCenter, imgWidth, imgHeight,
                                fallMultiplier, zoom + 1);
            u.canopyRadiusM == t.canopyRadiusM / 2.0 && u.fallRadiusM == t.fallRadiusM / 2.0
  {
  }

  /**
   * A detection lying inside a size x size image gives a tree inside the
   * tile's geographic bounds.
   */
  lemma TreeInsideTileBounds(d: Detection, centerLat: real, centerLng: real, cosCenter: real,
                             size: int, fallMultiplier: real, zoom: nat)
    requires cosCenter > 0.0
    requires 0.0 <= d.xmin <= d.xmax <= size as real
    requires 0.0 <= d.ymin <= d.ymax <= size as real
    ensures var t := TreeRiskOf(d, centerLat, centerLng, cosCenter, size, size, fallMultiplier, zoom);
            var b := TileBounds(centerLat, centerLng, cosCenter, size, zoom);
            b.south <= t.treeLat <= b.north && b.west <= t.treeLng <= b.east
  {
    var cx := (d.xmin + d.xmax) / 2.0;
    var cy := (d.ymin + d.ymax) / 2.0;
    var s := size as real;
    TileCornersMatchBounds(centerLat, centerLng, cosCenter, size, zoom);
    PixelAxesOrientation(0.0, 0.0, cx, cy, centerLat, centerLng, cosCenter, size, size, zoom);
    PixelAxesOrientation(cx, cy, s, s, centerLat, centerLng, cosCenter, size, size, zoom);
    if cx == 0.0 || cy == 0.0 || cx == s || cy == s {
      PixelAxesIndependent(0.0, 0.0, cx, cy, centerLat, centerLng, cosCenter, size, size, zoom);
      PixelAxesIndependent(cx, cy, 0.0, 0.0, centerLat, centerLng, cosCenter, size, size, zoom);
      PixelAxesIndependent(s, s, cx, cy, centerLat, centerLng, cosCenter, size, size, zoom);
      PixelAxesIndependent(cx, cy, s, s, centerLat, centerLng, cosCenter, size, size, zoom);
    }
  }

  /**
   * The fall radius in degrees used for the buffer around a tree: the mean of
   * its latitude conversion (radius / 111320) and its longitude conversion
   * (radius / (111320 * cos of the tree's latitude)). A zero radius gives a
   * zero buffer; for a non-negative radius and a cosine in (0, 1] the buffer
   * lies between the two conversions.
   */
  function FallDegrees(fallRadiusM: real, cosTree: real): (r: real)
    requires cosTree != 0.0
    ensures fallRadiusM == 0.0 ==> r == 0.0
    ensures fallRadiusM >= 0.0 && 0.0 < cosTree <= 1.0 ==>
              fallRadiusM / MetersPerDegree <= r <= fallRadiusM / (MetersPerDegree * cosTree)
  {
    var fallDegLat := fallRadiusM / MetersPerDegree;
    var fallDegLng := fallRadiusM / (MetersPerDegree * cosTree);
    assert fallDegLng * cosTree == fallDegLat;
    assert fallRadiusM >= 0.0 && 0.0 < cosTree <= 1.0 ==> fallDegLng >= 0.0;
    assert fallRadiusM >= 0.0 && 0.0 < cosTree <= 1.0 ==> fallDegLng * cosTree <= fallDegLng;
    (fallDegLat + fallDegLng) / 2.0
  }

  /** A tree record with its danger flag. */
  datatype ClassifiedTree = ClassifiedTree(tree: TreeRisk, danger: bool)

  /**
   * classify_danger. With no buildings or no trees every tree is safe and no
   * geometry is consulted. Otherwise a tree is in danger exactly when the
   * circle of FallDegrees radius around (treeLng, treeLat) intersects the
   * merged building footprints; `intersects` stands for that test on the
   * buildings' union. Rows, their order and their fields are kept; only the
   * flag is added.
   */
  method ClassifyDanger<Building>(trees: seq<TreeRisk>, buildings: seq<Building>,
                                  cosOf: real -> real,
                                  intersects: (real, real, real, seq<Building>) -> bool)
    returns (result: seq<ClassifiedTree>)
    requires |buildings| > 0 ==> forall i :: 0 <= i < |trees| ==> cosOf(trees[i].treeLat) != 0.0
    ensures |result| == |trees|
    ensures forall i :: 0 <= i < |trees| ==> result[i].tree == trees[i]
    ensures |buildings| == 0 ==> forall i :: 0 <= i < |result| ==> !result[i].danger
    ensures |buildings| > 0 ==> forall i :: 0 <= i < |trees| ==>
              result[i].danger == intersects(trees[i].treeLng, trees[i].treeLat,
                                             FallDegrees(trees[i].fallRadiusM, cosOf(trees[i].treeLat)),
                                             buildings)
  {
    if |buildings| == 0 || |trees| == 0 {
      result := seq(|trees|, i requires 0 <= i < |trees| => ClassifiedTree(trees[i], false));
      return;
    }
    var dangerFlags: seq<bool> := [];
    var i := 0;
    while i < |trees|
      invariant 0 <= i <= |trees|
      invariant |dangerFlags| == i
      invariant forall k :: 0 <= k < i ==>
                  dangerFlags[k] == intersects(trees[k].treeLng, trees[k].treeLat,
                                               FallDegrees(trees[k].fallRadiusM, cosOf(trees[k].treeLat)),
                                               buildings)
    {
      var tree := trees[i];
      var fallDegLat := tree.fallRadiusM / MetersPerDegree;
      var fallDegLng := tree.fallRadiusM / (MetersPerDegree * cosOf(tree.treeLat));
      var fallDeg := (fallDegLat + fallDegLng) / 2.0;
      dangerFlags := dangerFlags + [intersects(tree.treeLng, tree.treeLat, fallDeg, buildings)];
      i := i + 1;
    }
    result := seq(|trees|, k requires 0 <= k < |trees| => ClassifiedTree(trees[k], dangerFlags[k]));
  }

  /**
   * With a fall multiplier of 0 every tree's buffer has radius 0, whatever
   * the cosine of its latitude.
   */
  lemma ZeroMultiplierZeroBuffer(d: Detection, centerLat: real, centerLng: real, cosCenter: real,
                                 imgWidth: int, imgHeight: int, zoom: nat, cosTree: real)
    requires cosCenter != 0.0
    requires cosTree != 0.0
    ensures var t := TreeRiskOf(d, centerLat, centerLng, cosCenter, imgWidth, imgHeight, 0.0, zoom);
            FallDegrees(t.fallRadiusM, cosTree) == 0.0
  {
  }

  /**
   * A 640 x 640 tile at zoom 19 with the default multiplier: a 20 x 20 px box
   * whose centre is 10 px above and 10 px left of the image centre gives a
   * tree 10 px of ground north and west of the tile centre, a canopy radius
   * of 10 px of ground and a fall radius of 20 px of ground.
   */
  lemma DefaultTileExample(centerLat: real, centerLng: real, cosCenter: real, score: real, name: string)
    requires cosCenter != 0.0
    ensures var mpp := MetersPerPixel(cosCenter, DefaultZoom);
            var t := TreeRiskOf(Detection(300.0, 300.0, 320.0, 320.0, score, name),
                                centerLat, centerLng, cosCenter, DefaultSize, DefaultSize,
                                DefaultFallMultiplier, DefaultZoom);
            t.treeLat == centerLat + 10.0 * mpp / MetersPerDegree
            && t.treeLng == centerLng - 10.0 * mpp / (MetersPerDegree * cosCenter)
            && t.canopyRadiusM == 10.0 * mpp
            && t.fallRadiusM == 20.0 * mpp
  {
  }
}
