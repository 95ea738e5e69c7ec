/**
 * Web Mercator ground resolution and the geographic bounding box of a
 * square satellite tile (pipeline/imagery.py).
 *
 * The cosine of the latitude, cos(radians(lat)), is not computed here: it is
 * passed in as `cosLat`. For a latitude strictly between -90 and 90 degrees it
 * lies in (0, 1]; floating point never makes it exactly 0, which is why the
 * conversions that divide by it ask only for `cosLat != 0.0`.
 */
module Imagery {

  /** Ground resolution at the equator and zoom 0, in metres per pixel. */
  const EquatorMetersPerPixel: real := 156543.03392

  /** Metres in one degree of latitude (and of longitude at the equator). */
  const MetersPerDegree: real := 111320.0

  const DefaultZoom: nat := 19
  const DefaultSize: int := 640

  /** 2^n as a real number. */
  function Pow2(n: nat): (r: real)
    ensures r >= 1.0
  {
    if n == 0 then 1.0 else 2.0 * Pow2(n - 1)
  }

  /**
   * Metres covered by one pixel at a latitude whose cosine is `cosLat`:
   * 156543.03392 * cos(lat) / 2^zoom. Its sign is that of the cosine, so it
   * is positive strictly inside (-90, 90) and, over reals, 0 where the cosine
   * is 0 (the poles).
   */
  function MetersPerPixel(cosLat: real, zoom: nat): (r: real)
    ensures r > 0.0 <==> cosLat > 0.0
    ensures r == 0.0 <==> cosLat == 0.0
  {
    EquatorMetersPerPixel * cosLat / Pow2(zoom)
  }

  /** One zoom level more halves the ground resolution. */
  lemma MetersPerPixelHalves(cosLat: real, zoom: nat)
    ensures MetersPerPixel(cosLat, zoom + 1) == MetersPerPixel(cosLat, zoom) / 2.0
  {
  }

  /** With a positive cosine the ground resolution strictly decreases with zoom. */
  lemma {:induction false} MetersPerPixelDecreasing(cosLat: real, zoom1: nat, zoom2: nat)
    requires cosLat > 0.0
    requires zoom1 < zoom2
    ensures MetersPerPixel(cosLat, zoom2) < MetersPerPixel(cosLat, zoom1)
    decreases zoom2
  {
    MetersPerPixelHalves(cosLat, zoom2 - 1);
    if zoom1 < zoom2 - 1 {
      MetersPerPixelDecreasing(cosLat, zoom1, zoom2 - 1);
    }
  }

  /** A geographic bounding box, in WGS84 degrees. */
  datatype Bounds = Bounds(north: real, south: real, east: real, west: real)

  /**
   * The box covered by a `size` x `size` tile centred on (lat, lng): half the
   * tile in metres, converted with 111320 m per degree of latitude and
   * 111320 * cos(lat) m per degree of longitude. The box is symmetric about
   * its centre.
   */
  function TileBounds(lat: real, lng: real, cosLat: real, size: int, zoom: nat): (b: Bounds)
    requires cosLat != 0.0
    ensures b.north - lat == lat - b.south
    ensures b.east - lng == lng - b.west
  {
    var mpp := MetersPerPixel(cosLat, zoom);
    var halfWidthM := (size as real / 2.0) * mpp;
    var halfHeightM := (size as real / 2.0) * mpp;
    var degPerMLat := 1.0 / MetersPerDegree;
    var degPerMLng := 1.0 / (MetersPerDegree * cosLat);
    Bounds(lat + halfHeightM * degPerMLat,
           lat - halfHeightM * degPerMLat,
           lng + halfWidthM * degPerMLng,
           lng - halfWidthM * degPerMLng)
  }

  /**
   * The latitude span is the tile's width in metres over 111320, and the
   * longitude span is that span stretched by 1 / cos(lat).
   */
  lemma TileBoundsSpan(lat: real, lng: real, cosLat: real, size: int, zoom: nat)
    requires cosLat != 0.0
    ensures var b := TileBounds(lat, lng, cosLat, size, zoom);
            b.north - b.south == size as real * MetersPerPixel(cosLat, zoom) / MetersPerDegree
            && b.east - b.west == (b.north - b.south) / cosLat
  {
  }

  /** A non-empty tile at a latitude with positive cosine has north above south and east of west. */
  lemma TileBoundsOrdered(lat: real, lng: real, cosLat: real, size: int, zoom: nat)
    requires cosLat > 0.0
    requires size > 0
    ensures var b := TileBounds(lat, lng, cosLat, size, zoom);
            b.north > b.south && b.east > b.west
  {
  }
}
