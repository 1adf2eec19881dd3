/** Longitude arithmetic of the antipodal-circle page: wrapping a longitude
    into [-180, 180) and reflecting a point through the centre of the Earth.
    All angles are in degrees and all arithmetic is exact (real numbers). */
module Geodesy {

  /** A point on the sphere as (latitude, longitude), both in degrees. */
  datatype LatLon = LatLon(lat: real, lon: real)

  function Abs(x: real): (r: real)
    ensures r >= 0.0 && (r == x || r == -x)
  {
    if x < 0.0 then -x else x
  }

  /** x is a whole number. */
  predicate IsInteger(x: real)
  {
    x.Floor as real == x
  }

  /** Longitudes a and b name the same meridian: they differ by a whole
      number of full turns (a is congruent to b modulo 360). */
  predicate SameMeridian(a: real, b: real)
  {
    IsInteger((a - b) / 360.0)
  }

  lemma IntegerAsReal(k: int)
    ensures IsInteger(k as real)
  {
    assert (k as real).Floor == k;
  }

  lemma IntegerSum(x: real, y: real)
    requires IsInteger(x) && IsInteger(y)
    ensures IsInteger(x + y)
  {
    var j, k := x.Floor, y.Floor;
    assert x + y == (j + k) as real;
    IntegerAsReal(j + k);
  }

  lemma IntegerNegation(x: real)
    requires IsInteger(x)
    ensures IsInteger(-x)
  {
    var k := x.Floor;
    assert -x == (-k) as real;
    IntegerAsReal(-k);
  }

  lemma SameMeridianSymmetric(a: real, b: real)
    requires SameMeridian(a, b)
    ensures SameMeridian(b, a)
  {
    assert (b - a) / 360.0 == -((a - b) / 360.0);
    IntegerNegation((a - b) / 360.0);
  }

  lemma SameMeridianTransitive(a: real, b: real, c: real)
    requires SameMeridian(a, b) && SameMeridian(b, c)
    ensures SameMeridian(a, c)
  {
    assert (a - c) / 360.0 == (a - b) / 360.0 + (b - c) / 360.0;
    IntegerSum((a - b) / 360.0, (b - c) / 360.0);
  }

  /** Adding a whole number of full turns stays on the same meridian. */
  lemma SameMeridianTurns(a: real, k: int)
    ensures SameMeridian(a + 360.0 * k as real, a)
  {
    assert (a + 360.0 * k as real - a) / 360.0 == k as real;
    IntegerAsReal(k);
  }

  /** Two longitudes of one 360-degree window on the same meridian are equal. */
  lemma SameMeridianInWindow(a: real, b: real, low: real)
    requires low <= a < low + 360.0 && low <= b < low + 360.0
    requires SameMeridian(a, b)
    ensures a == b
  {
    var k := ((a - b) / 360.0).Floor;
    assert -1.0 < (a - b) / 360.0 < 1.0;
    assert k == 0;
  }

  /** Python's `y % 360` on a float: the remainder of a positive divisor is
      never negative, so it is y minus 360 times the floor of y / 360. */
  function FloorMod360(y: real): (r: real)
    ensures 0.0 <= r < 360.0
    ensures SameMeridian(r, y)
  {
    var q := (y / 360.0).Floor;
    assert (y - 360.0 * q as real - y) / 360.0 == (-q) as real;
    y - 360.0 * q as real
  }

  /** normalize_lon: `((lon + 180) % 360) - 180`. The result lies in
      [-180, 180) and is on the meridian of lon. */
  function NormalizeLon(lon: real): (r: real)
    ensures -180.0 <= r < 180.0
    ensures SameMeridian(r, lon)
  {
    FloorMod360(lon + 180.0) - 180.0
  }

  /** NormalizeLon picks the one value of [-180, 180) on lon's meridian. */
  lemma NormalizeLonUnique(lon: real, r: real)
    requires -180.0 <= r < 180.0
    ensures SameMeridian(r, lon) <==> r == NormalizeLon(lon)
  {
    if SameMeridian(r, lon) {
      SameMeridianSymmetric(NormalizeLon(lon), lon);
      SameMeridianTransitive(r, lon, NormalizeLon(lon));
      SameMeridianInWindow(r, NormalizeLon(lon), -180.0);
    }
  }

  /** Longitudes already in [-180, 180) are left unchanged. */
  lemma NormalizeLonFixesRange(lon: real)
    requires -180.0 <= lon < 180.0
    ensures NormalizeLon(lon) == lon
  {
    assert (lon - lon) / 360.0 == 0.0;
    NormalizeLonUnique(lon, lon);
  }

  /** Normalising twice is normalising once. */
  lemma NormalizeLonIdempotent(lon: real)
    ensures NormalizeLon(NormalizeLon(lon)) == NormalizeLon(lon)
  {
    NormalizeLonFixesRange(NormalizeLon(lon));
  }

  /** Two longitudes normalise to the same value exactly when they name the
      same meridian. */
  lemma NormalizeLonSameMeridian(a: real, b: real)
    ensures NormalizeLon(a) == NormalizeLon(b) <==> SameMeridian(a, b)
  {
    if NormalizeLon(a) == NormalizeLon(b) {
      SameMeridianSymmetric(NormalizeLon(a), a);
      SameMeridianTransitive(a, NormalizeLon(a), b);
    } else if SameMeridian(a, b) {
      SameMeridianTransitive(NormalizeLon(a), a, b);
      NormalizeLonUnique(b, NormalizeLon(a));
    }
  }

  /** antipode: flip the latitude and turn the longitude half way round.
      The longitude is normalised and is on the meridian of lon + 180. */
  function Antipode(lat: real, lon: real): (r: LatLon)
    ensures r.lat == -lat
    ensures -180.0 <= r.lon < 180.0
    ensures SameMeridian(r.lon, lon + 180.0)
  {
    var antiLat := -lat;
    var antiLon := NormalizeLon(lon + 180.0);
    LatLon(antiLat, antiLon)
  }

  /** The antipode lies on a different meridian from the point itself. */
  lemma AntipodeOppositeMeridian(lat: real, lon: real)
    ensures !SameMeridian(Antipode(lat, lon).lon, lon)
  {
  }

  /** Taking the antipode twice gives back the latitude and the normalised
      longitude. */
  lemma AntipodeTwice(lat: real, lon: real)
    ensures Antipode(Antipode(lat, lon).lat, Antipode(lat, lon).lon) == LatLon(lat, NormalizeLon(lon))
  {
    var a := Antipode(lat, lon);
    var b := Antipode(a.lat, a.lon);
    SameMeridianTransitive(b.lon, a.lon + 180.0, lon + 360.0);
    SameMeridianTurns(lon, 1);
    SameMeridianTransitive(b.lon, lon + 360.0, lon);
    NormalizeLonUnique(lon, b.lon);
  }

  /** On a normalised point the antipode is an involution. */
  lemma AntipodeInvolution(lat: real, lon: real)
    requires -180.0 <= lon < 180.0
    ensures Antipode(Antipode(lat, lon).lat, Antipode(lat, lon).lon) == LatLon(lat, lon)
  {
    AntipodeTwice(lat, lon);
    NormalizeLonFixesRange(lon);
  }

  /** The page's own example: northern Morocco (34, -6) has its antipode at
      (-34, 174). */
  lemma AntipodeOfNorthernMorocco()
    ensures Antipode(34.0, -6.0) == LatLon(-34.0, 174.0)
  {
    NormalizeLonFixesRange(174.0);
  }
}
