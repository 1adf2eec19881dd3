/** The ring builder of the antipodal-circle page: walk once round a centre
    point, one bearing step at a time, and collect GeoJSON positions
    ([lon, lat]) whose longitudes are unwrapped across the 180-degree seam.
    The spherical trigonometry that finds each point is a parameter. */
module Polygon {
  import opened Geodesy

  /** A GeoJSON position: longitude first, then latitude. */
  datatype Position = Position(lon: real, lat: real)

  datatype Option<T> = None | Some(value: T)

  /** The one failure of the ring builder: `360.0 / n_points` with a zero
      point count. */
  datatype Error = ZeroDivisionError

  datatype Result<T> = Success(value: T) | Failure(error: Error)

  /** destination_point(lat, lon, bearing, distance) -> (lat2, lon2): the
      point reached from (lat, lon) after `distance` metres at initial
      bearing `bearing`. Its longitude is NOT normalised. */
  type Destination = (real, real, real, real) -> LatLon

  /** The bearing of step i when the full turn is cut into nPoints steps:
      for a positive count, passes 0 to nPoints sweep from north round to a
      full turn without leaving [0, 360]. */
  function Bearing(i: int, nPoints: int): (r: real)
    requires nPoints != 0
    ensures nPoints > 0 && 0 <= i <= nPoints ==> 0.0 <= r <= 360.0
  {
    BearingWithinTurn(i, nPoints);
    i as real * (360.0 / nPoints as real)
  }

  lemma BearingWithinTurn(i: int, nPoints: int)
    requires nPoints != 0
    ensures nPoints > 0 && 0 <= i <= nPoints ==> 0.0 <= i as real * (360.0 / nPoints as real) <= 360.0
  {
    if nPoints > 0 && 0 <= i <= nPoints {
      var n := nPoints as real;
      var step := 360.0 / n;
      assert step > 0.0;
      assert n * step == 360.0;
      assert i as real * step <= n * step;
    }
  }

  /** The first bearing is north (0) and the last is a full turn (360). */
  lemma BearingEnds(nPoints: int)
    requires nPoints > 0
    ensures Bearing(0, nPoints) == 0.0
    ensures Bearing(nPoints, nPoints) == 360.0
  {
    var n := nPoints as real;
    assert n * (360.0 / n) == 360.0;
  }

  /** Consecutive bearings are one step of 360 / nPoints apart. */
  lemma BearingStep(i: int, nPoints: int)
    requires nPoints != 0
    ensures Bearing(i + 1, nPoints) - Bearing(i, nPoints) == 360.0 / nPoints as real
  {
    var step := 360.0 / nPoints as real;
    assert (i + 1) as real * step == i as real * step + step;
  }

  /** The number of passes of `range(n_points + 1)`: none for a negative
      point count. */
  function Iterations(nPoints: int): (r: nat)
    ensures r > 0 <==> nPoints >= 0
    ensures nPoints >= 0 ==> r == nPoints + 1
  {
    if nPoints + 1 > 0 then nPoints + 1 else 0
  }

  /** The seam rule: a normalised longitude lon that lies more than 180
      degrees away from the previous emitted longitude prev is moved one
      full turn towards it. */
  function Unwrap(prev: real, lon: real): (r: real)
    ensures r == lon || r == lon - 360.0 || r == lon + 360.0
    ensures r != lon <==> Abs(lon - prev) > 180.0
    ensures r < lon ==> lon > prev
    ensures r > lon ==> lon < prev
    ensures SameMeridian(r, lon)
    ensures Abs(r - prev) <= Abs(lon - prev)
    ensures Abs(lon - prev) < 540.0 ==> Abs(r - prev) <= 180.0
  {
    SameMeridianTurns(lon, -1);
    SameMeridianTurns(lon, 1);
    assert SameMeridian(lon, lon) by { assert (lon - lon) / 360.0 == 0.0; }
    if Abs(lon - prev) > 180.0 then
      if lon > prev then lon - 360.0 else lon + 360.0
    else
      lon
  }

  /** The seam rule puts lon on the copy of its meridian nearest to prev:
      whenever some t on lon's meridian lies less than 180 degrees from prev
      and within [-540, 540), the rule yields exactly t. */
  lemma UnwrapChoosesNearest(prev: real, lon: real, t: real)
    requires -180.0 <= lon < 180.0
    requires -540.0 <= t < 540.0
    requires SameMeridian(t, lon)
    requires Abs(t - prev) < 180.0
    ensures Unwrap(prev, lon) == t
  {
    var k := ((t - lon) / 360.0).Floor;
    assert -2 < k < 2 by {
      assert -720.0 < t - lon < 720.0;
    }
    assert t == lon + 360.0 * k as real;
  }

  /** The destination for step i of the ring round (lat, lon): the first
      step heads due north and, for a positive count, the last one heads
      north again after a full turn. */
  function Sample(lat: real, lon: real, radiusM: real, nPoints: int, dest: Destination, i: int): (r: LatLon)
    requires nPoints != 0
    ensures i == 0 ==> r == dest(lat, lon, 0.0, radiusM)
    ensures nPoints > 0 && i == nPoints ==> r == dest(lat, lon, 360.0, radiusM)
  {
    var bearing := Bearing(i, nPoints);
    assert nPoints > 0 && i == nPoints ==> bearing == 360.0 by {
      if nPoints > 0 && i == nPoints { BearingEnds(nPoints); }
    }
    dest(lat, lon, bearing, radiusM)
  }

  /** coords is a prefix of the ring round (lat, lon): entry i carries the
      latitude of step i unchanged; the first longitude is the normalised
      destination longitude; every later one is that value passed through
      the seam rule against the longitude emitted just before it. */
  ghost predicate FollowsSeamRule(coords: seq<Position>, lat: real, lon: real, radiusM: real, nPoints: int, dest: Destination)
  {
    nPoints != 0 &&
    (forall i :: 0 <= i < |coords| ==> coords[i].lat == Sample(lat, lon, radiusM, nPoints, dest, i).lat) &&
    (|coords| > 0 ==> coords[0].lon == NormalizeLon(Sample(lat, lon, radiusM, nPoints, dest, 0).lon)) &&
    (forall i :: 0 < i < |coords| ==>
       coords[i].lon == Unwrap(coords[i - 1].lon, NormalizeLon(Sample(lat, lon, radiusM, nPoints, dest, i).lon)))
  }

  /** coords is the whole ring: one entry per pass of `range(n_points + 1)`. */
  ghost predicate IsCircleRing(coords: seq<Position>, lat: real, lon: real, radiusM: real, nPoints: int, dest: Destination)
  {
    |coords| == Iterations(nPoints) && FollowsSeamRule(coords, lat, lon, radiusM, nPoints, dest)
  }

  /** circle_polygon_coords: fails exactly when the point count is zero, and
      otherwise returns the ring round (lat, lon). */
  method CirclePolygonCoords(lat: real, lon: real, radiusM: real, nPoints: int, dest: Destination)
    returns (res: Result<seq<Position>>)
    ensures res.Failure? <==> nPoints == 0
    ensures res.Success? ==> IsCircleRing(res.value, lat, lon, radiusM, nPoints, dest)
  {
    if nPoints == 0 {
      return Failure(ZeroDivisionError);
    }
    var coords: seq<Position> := [];
    var step := 360.0 / nPoints as real;
    var prevLon: Option<real> := None;
    for i := 0 to Iterations(nPoints)
      invariant |coords| == i
      invariant prevLon == if i == 0 then None else Some(coords[i - 1].lon)
      invariant FollowsSeamRule(coords, lat, lon, radiusM, nPoints, dest)
    {
      var br := i as real * step;
      assert br == Bearing(i, nPoints);
      var p := dest(lat, lon, br, radiusM);
      assert p == Sample(lat, lon, radiusM, nPoints, dest, i);
      var lat2 := p.lat;
      var lon2 := NormalizeLon(p.lon);
      ghost var normalized := lon2;
      if prevLon.Some? && Abs(lon2 - prevLon.value) > 180.0 {
        if lon2 > prevLon.value {
          lon2 := lon2 - 360.0;
        } else {
          lon2 := lon2 + 360.0;
        }
      }
      assert i > 0 ==> lon2 == Unwrap(coords[i - 1].lon, normalized);
      coords := coords + [Position(lon2, lat2)];
      prevLon := Some(lon2);
    }
    return Success(coords);
  }

  /** Two rings built from the same inputs are equal: the ring is a function
      of centre, radius, point count and destination. */
  lemma {:induction false} RingUnique(a: seq<Position>, b: seq<Position>, lat: real, lon: real, radiusM: real, nPoints: int, dest: Destination)
    requires IsCircleRing(a, lat, lon, radiusM, nPoints, dest)
    requires IsCircleRing(b, lat, lon, radiusM, nPoints, dest)
    ensures a == b
  {
    AgreeUpTo(a, b, lat, lon, radiusM, nPoints, dest, |a|);
  }

  lemma {:induction false} AgreeUpTo(a: seq<Position>, b: seq<Position>, lat: real, lon: real, radiusM: real, nPoints: int, dest: Destination, k: nat)
    requires FollowsSeamRule(a, lat, lon, radiusM, nPoints, dest)
    requires FollowsSeamRule(b, lat, lon, radiusM, nPoints, dest)
    requires k <= |a| == |b|
    ensures forall i :: 0 <= i < k ==> a[i] == b[i]
  {
    if k > 0 {
      AgreeUpTo(a, b, lat, lon, radiusM, nPoints, dest, k - 1);
      if k > 1 {
        assert a[k - 2].lon == b[k - 2].lon;
      }
    }
  }

  /** Every emitted longitude is the normalised destination longitude or that
      value one full turn up or down, so it lies in [-540, 540) and on the
      meridian of the destination; the first one is never moved (the first
      ensures restates that clause of the seam rule for callers). */
  lemma RingLongitudes(coords: seq<Position>, lat: real, lon: real, radiusM: real, nPoints: int, dest: Destination)
    requires FollowsSeamRule(coords, lat, lon, radiusM, nPoints, dest)
    ensures |coords| > 0 ==> coords[0].lon == NormalizeLon(Sample(lat, lon, radiusM, nPoints, dest, 0).lon)
    ensures forall i :: 0 <= i < |coords| ==>
      var n := NormalizeLon(Sample(lat, lon, radiusM, nPoints, dest, i).lon);
      (coords[i].lon == n || coords[i].lon == n - 360.0 || coords[i].lon == n + 360.0) &&
      -540.0 <= coords[i].lon < 540.0 &&
      SameMeridian(coords[i].lon, Sample(lat, lon, radiusM, nPoints, dest, i).lon)
  {
    forall i | 0 <= i < |coords|
      ensures var n := NormalizeLon(Sample(lat, lon, radiusM, nPoints, dest, i).lon);
        (coords[i].lon == n || coords[i].lon == n - 360.0 || coords[i].lon == n + 360.0) &&
        -540.0 <= coords[i].lon < 540.0 &&
        SameMeridian(coords[i].lon, Sample(lat, lon, radiusM, nPoints, dest, i).lon)
    {
      var raw := Sample(lat, lon, radiusM, nPoints, dest, i).lon;
      if i == 0 {
        assert (coords[0].lon - NormalizeLon(raw)) / 360.0 == 0.0;
      } else {
        assert coords[i].lon == Unwrap(coords[i - 1].lon, NormalizeLon(raw));
      }
      SameMeridianTransitive(coords[i].lon, NormalizeLon(raw), raw);
    }
  }

  /** Unwrapping never lengthens a step between consecutive longitudes, and
      an entry that was not moved is followed by one at most 180 degrees
      away. */
  lemma RingSeamSteps(coords: seq<Position>, lat: real, lon: real, radiusM: real, nPoints: int, dest: Destination)
    requires FollowsSeamRule(coords, lat, lon, radiusM, nPoints, dest)
    ensures forall i :: 0 < i < |coords| ==>
      var n := NormalizeLon(Sample(lat, lon, radiusM, nPoints, dest, i).lon);
      Abs(coords[i].lon - coords[i - 1].lon) <= Abs(n - coords[i - 1].lon) &&
      (-180.0 <= coords[i - 1].lon < 180.0 ==> Abs(coords[i].lon - coords[i - 1].lon) <= 180.0)
  {
  }

  /** Along the ring, each longitude is placed on the copy of its meridian
      nearest to the one before, whenever that copy is less than 180 degrees
      away and within [-540, 540). */
  lemma RingFollowsShortArc(coords: seq<Position>, lat: real, lon: real, radiusM: real, nPoints: int, dest: Destination, i: int, t: real)
    requires FollowsSeamRule(coords, lat, lon, radiusM, nPoints, dest)
    requires 0 < i < |coords|
    requires -540.0 <= t < 540.0
    requires SameMeridian(t, Sample(lat, lon, radiusM, nPoints, dest, i).lon)
    requires Abs(t - coords[i - 1].lon) < 180.0
    ensures coords[i].lon == t
  {
    var raw := Sample(lat, lon, radiusM, nPoints, dest, i).lon;
    SameMeridianSymmetric(NormalizeLon(raw), raw);
    SameMeridianTransitive(t, raw, NormalizeLon(raw));
    UnwrapChoosesNearest(coords[i - 1].lon, NormalizeLon(raw), t);
  }
}
