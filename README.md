# Antipodal circle: longitude arithmetic and ring building

This project models the computational core of a small Streamlit page, `k.py`.
On that page the user picks a centre point and a radius. The page then draws
the circle round the antipode of that point on a 3D globe. The core has three
parts:

- `normalize_lon` wraps a longitude into [-180, 180) with Python's
  non-negative `%`;
- `antipode` flips the latitude and turns the longitude half way round;
- `circle_polygon_coords` walks round a centre in `n_points` equal bearing
  steps (`n_points + 1` passes, so bearing 0 and bearing 360 both appear).
  It collects GeoJSON positions `[lon, lat]`. A longitude that jumps more than
  180 degrees from the previous emitted one is moved one full turn back
  towards it (the seam rule).

All arithmetic is exact over `real`. Congruence modulo 360 is the predicate
`Geodesy.SameMeridian` ("(a - b) / 360 is a whole number").
`Geodesy.FloorMod360` models Python's `%` by a positive divisor:
`y - 360 * floor(y / 360)`. The spherical trigonometry of
`destination_point` is a function passed in as a parameter. Its type is
`Polygon.Destination`, taking `(lat, lon, bearing, distance)` and returning
`(lat2, lon2)` with the longitude not normalised. The ring builder is a method
with a `for` loop, a sequence accumulator and an optional `prevLon`, as in the
source. Its postcondition is the predicate `Polygon.IsCircleRing`, which says,
entry by entry, what the ring is. The lemmas beside it derive what the ring
guarantees from that predicate.

Error path: `360.0 / n_points` raises `ZeroDivisionError` when `n_points` is
0. The method returns `Failure(ZeroDivisionError)` in exactly that case. A
negative `n_points` makes `range(n_points + 1)` empty, so the result is an
empty ring, not an error.

Three things the code does that a caller may not expect:

- The code does not validate its inputs. There is no check for a negative
  radius or for a latitude outside [-90, 90], so the model rejects nothing
  except a zero point count.
- `destination_point` returns an unnormalised longitude. Normalisation happens
  in `circle_polygon_coords`.
- Emitted ring longitudes are not kept in [-180, 180). The seam rule places
  them in [-540, 540) (`Polygon.RingLongitudes`).

## Model

| member | source | states |
|---|---|---|
| `Geodesy.FloorMod360` | k.py:38 | Python's `y % 360` is in [0, 360) and congruent to y modulo 360 |
| `Geodesy.NormalizeLon` | k.py:35-38 | the result lies in [-180, 180) and is congruent to the input modulo 360 |
| `Geodesy.NormalizeLonUnique` | k.py:36-38 | a value r in [-180, 180) is congruent to lon exactly when r is `NormalizeLon(lon)`, so the result is the unique representative |
| `Geodesy.NormalizeLonFixesRange` | k.py:36-38 | on [-180, 180) normalisation is the identity |
| `Geodesy.NormalizeLonIdempotent` | k.py:36-38 | normalising twice equals normalising once |
| `Geodesy.NormalizeLonSameMeridian` | k.py:38 | two longitudes normalise to the same value if and only if they are congruent modulo 360 |
| `Geodesy.Antipode` | k.py:40-45 | the latitude is negated; the longitude is in [-180, 180) and congruent to lon + 180 modulo 360 |
| `Geodesy.AntipodeOppositeMeridian` | k.py:41-45 | the antipode's longitude is never congruent to the original longitude |
| `Geodesy.AntipodeTwice` | k.py:41-45 | the antipode of the antipode is (lat, normalize_lon(lon)) for every input |
| `Geodesy.AntipodeInvolution` | k.py:41-45 | on a normalised longitude the antipode is an involution |
| `Geodesy.AntipodeOfNorthernMorocco` | k.py:160 | the page's example: the antipode of (34, -6) is (-34, 174) |
| `Polygon.Bearing` | k.py:51-54 | the bearing `i * (360.0 / n_points)` of pass i; for a positive count every pass 0..n_points has a bearing in [0, 360] |
| `Polygon.Iterations` | k.py:53 | the number of passes of `range(n_points + 1)`: n_points + 1 for a non-negative count, none (an empty range) for a negative one |
| `Polygon.Sample` | k.py:55 | the destination of pass i; pass 0 uses bearing 0 and, for a positive count, pass n_points uses bearing 360 |
| `Polygon.BearingEnds` | k.py:51-54 | the first bearing is 0 and the bearing of pass n_points is 360 |
| `Polygon.BearingStep` | k.py:51-54 | consecutive bearings differ by exactly 360 / n_points |
| `Polygon.Unwrap` | k.py:58-63 | the seam rule moves the value by 0 or by ±360. It moves it exactly when the jump exceeds 180, downwards only when the new value exceeds the previous one and upwards only when it is below it. The result stays congruent modulo 360. The jump never grows, and it is at most 180 when the raw jump is below 540 |
| `Polygon.UnwrapChoosesNearest` | k.py:58-63 | if a copy t of the meridian lies within [-540, 540) and less than 180 from the previous longitude, the seam rule produces exactly t |
| `Polygon.CirclePolygonCoords` | k.py:49-67 | fails exactly when n_points is 0. Otherwise it returns max(n_points + 1, 0) positions. Entry i uses bearing i * (360 / n_points) and copies its latitude from the destination. Entry 0 is the normalised destination longitude, unshifted. Each later longitude is the normalised destination longitude passed through the seam rule against the previously emitted, already adjusted longitude |
| `Polygon.RingUnique` | k.py:49-67 | two rings built from the same centre, radius, point count and destination are equal |
| `Polygon.RingLongitudes` | k.py:55-65 | every emitted longitude is the normalised destination longitude or that value ±360. It lies in [-540, 540) and is congruent to the destination longitude. The first entry is never shifted |
| `Polygon.RingSeamSteps` | k.py:59-66 | unwrapping never lengthens the step from the previous emitted longitude, and an entry inside [-180, 180) is followed by one at most 180 degrees away |
| `Polygon.RingFollowsShortArc` | k.py:59-66 | each ring longitude lands on the copy of its meridian nearest to the previous entry whenever that copy is less than 180 away and inside [-540, 540) |

## Left out

- `destination_point` (k.py:24-33): its trigonometry (`radians`, `asin`,
  `atan2`, `sin`, `cos`) is floating-point numerics. It is the parameter
  `Polygon.Destination`. For the same reason the model says nothing about the
  great-circle distance of ring points from the centre.
- Ring closure (first position equal to the last): it holds only if the
  destination agrees at bearings 0 and 360, which is a trigonometric fact and
  not a property of the loop.
- Floating-point rounding: Python's float `%` can return 360.0 for a tiny
  negative input, making `normalize_lon` return 180. `i * step` need not be
  exactly 360 at the last pass. The model uses exact reals, which have no NaN
  or infinity, so non-finite inputs are not covered (in the source a NaN makes
  the jump test at k.py:59 false and is carried through the ring).
- The second loop after the early `return` (k.py:69-73) is unreachable.
- The default point count of 72 (k.py:49) and the page's choice of 128
  (k.py:124) are constants of the callers. The method takes the count as an
  argument.
- The comments at k.py:48 and k.py:160 promise special handling at the poles.
  No code does this, so there is nothing to model.
- The Streamlit, folium and pydeck user interface (k.py:16-18, k.py:76-164)
  is presentation and I/O through libraries. This covers session state, click
  capture, the GeoJSON dictionary, globe rendering and the download.
