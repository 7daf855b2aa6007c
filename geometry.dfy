/**
 * Segment projection: the flat-plane closest point of a track segment to an
 * insured location, and the intensity interpolated at that point.
 */
module Geometry {
  import opened Basics

  /** A distance in miles, or positive infinity (the `float('inf')` of the source). */
  datatype Miles = Fin(miles: real) | Inf

  /** Python's `a < b` on distances that may be infinite. */
  predicate Less(a: Miles, b: Miles)
  {
    a.Fin? && (b.Inf? || a.miles < b.miles)
  }

  /** Python's `a <= b` on distances that may be infinite. */
  predicate AtMost(a: Miles, b: Miles)
  {
    b.Inf? || (a.Fin? && a.miles <= b.miles)
  }

  /** `d <= radius`: an infinite distance is never inside a radius. */
  predicate Within(d: Miles, radius: real)
  {
    d.Fin? && d.miles <= radius
  }

  /** The update `if d < acc: acc = d` of a running minimum. */
  function Nearer(acc: Miles, d: Miles): (r: Miles)
    ensures AtMost(r, acc) && AtMost(r, d)
    ensures r == acc || r == d
  {
    if Less(d, acc) then d else acc
  }

  /**
   * The geodesic distance in miles between (lat1, lon1) and (lat2, lon2), or
   * infinity for coordinates the geodesic library rejects. It is a library
   * call, so the model takes it as a parameter and assumes nothing about it.
   */
  type DistanceOracle = (real, real, real, real) -> Miles

  /** One observation of a storm track; an absent or NaN reading is `None`. */
  datatype TrackPoint = TrackPoint(lat: real, lon: real, wind: Option<real>, pres: Option<real>)

  /** The record built for a segment whose closest point lies inside the radius. */
  datatype InterpPoint = InterpPoint(lat: real, lon: real, wind: real, pres: real, dist: real)

  /** Standard atmospheric pressure, substituted for a missing pressure reading. */
  const StandardPressure: real := 1013.0

  /** The wind used for interpolation: a missing reading counts as calm. */
  function WindOrCalm(p: TrackPoint): real
  {
    if p.wind.Some? then p.wind.value else 0.0
  }

  /** The pressure used for interpolation: a missing reading counts as standard pressure. */
  function PressureOrStandard(p: TrackPoint): real
  {
    if p.pres.Some? then p.pres.value else StandardPressure
  }

  /** The two endpoints are the same point, so the segment has no direction. */
  predicate Coincident(p1: TrackPoint, p2: TrackPoint)
  {
    p2.lat - p1.lat == 0.0 && p2.lon - p1.lon == 0.0
  }

  /** The squared length of the segment in the flat (lat, lon) plane. */
  function SquaredLength(p1: TrackPoint, p2: TrackPoint): real
  {
    var dx := p2.lat - p1.lat;
    var dy := p2.lon - p1.lon;
    dx * dx + dy * dy
  }

  /** A segment whose endpoints differ has a positive squared length. */
  lemma SquaredLengthPositive(p1: TrackPoint, p2: TrackPoint)
    requires !Coincident(p1, p2)
    ensures SquaredLength(p1, p2) > 0.0
  {
    SumOfSquaresPositive(p2.lat - p1.lat, p2.lon - p1.lon, SquaredLength(p1, p2));
  }

  /** A square is never negative. */
  lemma SquareNonneg(x: real)
    ensures x * x >= 0.0
  {
  }

  /** `s`, the sum of the squares of `x` and `y`, is positive unless both are zero. */
  lemma SumOfSquaresPositive(x: real, y: real, s: real)
    requires s == x * x + y * y
    requires !(x == 0.0 && y == 0.0)
    ensures s > 0.0
  {
    var xx, yy := x * x, y * y;
    if x > 0.0 { ProductPositive(x, x, xx); } else if x < 0.0 { ProductPositive(-x, -x, xx); }
    if y > 0.0 { ProductPositive(y, y, yy); } else if y < 0.0 { ProductPositive(-y, -y, yy); }
  }

  /** `p`, the product of two positive reals, is positive. */
  lemma ProductPositive(a: real, b: real, p: real)
    requires p == a * b && a > 0.0 && b > 0.0
    ensures p > 0.0
  {
  }

  /** A product of two non-negative reals is non-negative. */
  lemma ProductNonneg(x: real, y: real)
    requires x >= 0.0 && y >= 0.0
    ensures x * y >= 0.0
  {
  }

  /** The dot product of (location - p1) with (p2 - p1). */
  function Along(p1: TrackPoint, p2: TrackPoint, lat: real, lon: real): real
  {
    (lat - p1.lat) * (p2.lat - p1.lat) + (lon - p1.lon) * (p2.lon - p1.lon)
  }

  /** The unclamped parameter `t` of the location's projection onto the line through p1 and p2. */
  function ProjectionParam(p1: TrackPoint, p2: TrackPoint, lat: real, lon: real): real
    requires !Coincident(p1, p2)
  {
    SquaredLengthPositive(p1, p2);
    Quotient(Along(p1, p2, lat, lon), SquaredLength(p1, p2))
  }

  /** Real division by a positive divisor. */
  function Quotient(n: real, d: real): real
    requires d > 0.0
  {
    n / d
  }

  /** `max(0, min(1, t))`. */
  function ClampUnit(t: real): (c: real)
    ensures 0.0 <= c <= 1.0
    ensures t <= 0.0 ==> c == 0.0
    ensures t >= 1.0 ==> c == 1.0
    ensures 0.0 <= t <= 1.0 ==> c == t
  {
    if t < 0.0 then 0.0 else if t > 1.0 then 1.0 else t
  }

  /** `a + t * (b - a)`: the value at fraction `t` of the way from `a` to `b`. */
  function Lerp(a: real, b: real, t: real): (r: real)
    requires 0.0 <= t <= 1.0
    ensures Between(r, a, b)
    ensures t == 0.0 ==> r == a
    ensures t == 1.0 ==> r == b
  {
    LerpBetween(a, b, t);
    a + t * (b - a)
  }

  lemma LerpBetween(a: real, b: real, t: real)
    requires 0.0 <= t <= 1.0
    ensures Between(a + t * (b - a), a, b)
  {
    var r := a + t * (b - a);
    if a <= b {
      ProductNonneg(t, b - a);
      ProductNonneg(1.0 - t, b - a);
      assert b - r == (1.0 - t) * (b - a);
    } else {
      ProductNonneg(t, a - b);
      ProductNonneg(1.0 - t, a - b);
      assert t * (b - a) == -(t * (a - b));
      assert r - b == (1.0 - t) * (a - b);
    }
  }

  /** The clamped parameter of the closest point of the segment. */
  function ClosestParam(p1: TrackPoint, p2: TrackPoint, lat: real, lon: real): (t: real)
    requires !Coincident(p1, p2)
    ensures 0.0 <= t <= 1.0
  {
    ClampUnit(ProjectionParam(p1, p2, lat, lon))
  }

  /** The squared flat-plane distance from the location to the point at parameter `s` of the segment. */
  function SquaredGap(p1: TrackPoint, p2: TrackPoint, lat: real, lon: real, s: real): real
    requires 0.0 <= s <= 1.0
  {
    var gLat := lat - Lerp(p1.lat, p2.lat, s);
    var gLon := lon - Lerp(p1.lon, p2.lon, s);
    gLat * gLat + gLon * gLon
  }

  /**
   * Finds the point of segment p1-p2 closest to the location (flat-plane
   * approximation), and when its geodesic distance is within `radius` returns
   * the coordinates, interpolated wind and pressure, and that distance.
   */
  function InterpolateSegment(p1: TrackPoint, p2: TrackPoint, lat: real, lon: real, radius: real,
                              geo: DistanceOracle): (r: Option<InterpPoint>)
    ensures Coincident(p1, p2) ==> r.None?
    ensures !Coincident(p1, p2) ==>
      var t := ClosestParam(p1, p2, lat, lon);
      (r.Some? <==> Within(geo(lat, lon, Lerp(p1.lat, p2.lat, t), Lerp(p1.lon, p2.lon, t)), radius))
    ensures r.Some? ==>
      && r.value.dist <= radius
      && geo(lat, lon, r.value.lat, r.value.lon) == Fin(r.value.dist)
      && Between(r.value.lat, p1.lat, p2.lat)
      && Between(r.value.lon, p1.lon, p2.lon)
      && Between(r.value.wind, WindOrCalm(p1), WindOrCalm(p2))
      && Between(r.value.pres, PressureOrStandard(p1), PressureOrStandard(p2))
    ensures r.Some? && ProjectionParam(p1, p2, lat, lon) <= 0.0 ==>
      r.value.lat == p1.lat && r.value.lon == p1.lon
      && r.value.wind == WindOrCalm(p1) && r.value.pres == PressureOrStandard(p1)
    ensures r.Some? && ProjectionParam(p1, p2, lat, lon) >= 1.0 ==>
      r.value.lat == p2.lat && r.value.lon == p2.lon
      && r.value.wind == WindOrCalm(p2) && r.value.pres == PressureOrStandard(p2)
  {
    if Coincident(p1, p2) then None
    else
      var t := ClosestParam(p1, p2, lat, lon);
      var latC := Lerp(p1.lat, p2.lat, t);
      var lonC := Lerp(p1.lon, p2.lon, t);
      var d := geo(lat, lon, latC, lonC);
      if Within(d, radius) then
        Some(InterpPoint(latC, lonC, Lerp(WindOrCalm(p1), WindOrCalm(p2), t),
                         Lerp(PressureOrStandard(p1), PressureOrStandard(p2), t), d.miles))
      else None
  }

  /** Widening the radius keeps every segment that was already inside it, with the same record. */
  lemma InterpolateSegmentWiderRadius(p1: TrackPoint, p2: TrackPoint, lat: real, lon: real,
                                      radius: real, wider: real, geo: DistanceOracle)
    requires radius <= wider
    requires InterpolateSegment(p1, p2, lat, lon, radius, geo).Some?
    ensures InterpolateSegment(p1, p2, lat, lon, wider, geo) == InterpolateSegment(p1, p2, lat, lon, radius, geo)
  {
  }

  /**
   * A returned record is a point of the segment itself, the one nearest to
   * the location in the flat (lat, lon) plane, with its wind and pressure
   * interpolated at that same point.
   */
  lemma InterpolateSegmentIsNearest(p1: TrackPoint, p2: TrackPoint, lat: real, lon: real, radius: real,
                                    geo: DistanceOracle)
    ensures var r := InterpolateSegment(p1, p2, lat, lon, radius, geo);
      r.Some? ==> exists s ::
        && 0.0 <= s <= 1.0
        && r.value.lat == Lerp(p1.lat, p2.lat, s) && r.value.lon == Lerp(p1.lon, p2.lon, s)
        && r.value.wind == Lerp(WindOrCalm(p1), WindOrCalm(p2), s)
        && r.value.pres == Lerp(PressureOrStandard(p1), PressureOrStandard(p2), s)
        && forall s' :: 0.0 <= s' <= 1.0 ==> SquaredGap(p1, p2, lat, lon, s) <= SquaredGap(p1, p2, lat, lon, s')
  {
    var r := InterpolateSegment(p1, p2, lat, lon, radius, geo);
    if r.Some? {
      var t := ClosestParam(p1, p2, lat, lon);
      forall s' | 0.0 <= s' <= 1.0
        ensures SquaredGap(p1, p2, lat, lon, t) <= SquaredGap(p1, p2, lat, lon, s')
      {
        ClosestPointIsNearest(p1, p2, lat, lon, s');
      }
      assert r.value.lat == Lerp(p1.lat, p2.lat, t) && r.value.lon == Lerp(p1.lon, p2.lon, t);
    }
  }

  /**
   * The point the projection picks is the nearest point of the whole segment
   * to the location, measured in the flat (lat, lon) plane.
   */
  lemma ClosestPointIsNearest(p1: TrackPoint, p2: TrackPoint, lat: real, lon: real, s: real)
    requires !Coincident(p1, p2)
    requires 0.0 <= s <= 1.0
    ensures SquaredGap(p1, p2, lat, lon, ClosestParam(p1, p2, lat, lon)) <= SquaredGap(p1, p2, lat, lon, s)
  {
    var t := ClosestParam(p1, p2, lat, lon);
    var n, d := Along(p1, p2, lat, lon), SquaredLength(p1, p2);
    var c := (lat - p1.lat) * (lat - p1.lat) + (lon - p1.lon) * (lon - p1.lon);
    SquaredLengthPositive(p1, p2);
    assert t == ClampUnit(n / d);
    SquaredGapQuadratic(p1, p2, lat, lon, s);
    SquaredGapQuadratic(p1, p2, lat, lon, t);
    QuadraticMinimum(c, n, d, s);
  }

  /** The quadratic `c - 2*s*n + s*s*d` in `s`. */
  function Quadratic(c: real, n: real, d: real, s: real): real
  {
    c - 2.0 * s * n + s * s * d
  }

  /** The squared gap at parameter `s` is a quadratic in `s`. */
  lemma SquaredGapQuadratic(p1: TrackPoint, p2: TrackPoint, lat: real, lon: real, s: real)
    requires 0.0 <= s <= 1.0
    ensures SquaredGap(p1, p2, lat, lon, s)
         == Quadratic((lat - p1.lat) * (lat - p1.lat) + (lon - p1.lon) * (lon - p1.lon),
                      Along(p1, p2, lat, lon), SquaredLength(p1, p2), s)
  {
    var x, y := lat - p1.lat, lon - p1.lon;
    var dx, dy := p2.lat - p1.lat, p2.lon - p1.lon;
    var gLat, gLon := lat - Lerp(p1.lat, p2.lat, s), lon - Lerp(p1.lon, p2.lon, s);
    assert gLat == x - s * dx;
    assert gLon == y - s * dy;
    assert SquaredGap(p1, p2, lat, lon, s) == gLat * gLat + gLon * gLon;
    GapExpansion(x, y, dx, dy, s);
    assert Along(p1, p2, lat, lon) == x * dx + y * dy;
    assert SquaredLength(p1, p2) == dx * dx + dy * dy;
  }

  /** Expands the squared gap at parameter `s` into a quadratic in `s`. */
  lemma GapExpansion(x: real, y: real, dx: real, dy: real, s: real)
    ensures (x - s * dx) * (x - s * dx) + (y - s * dy) * (y - s * dy)
         == x * x + y * y - 2.0 * s * (x * dx + y * dy) + s * s * (dx * dx + dy * dy)
  {
  }

  /** On [0, 1], the quadratic is smallest at the clamped vertex `n / d`. */
  lemma QuadraticMinimum(c: real, n: real, d: real, s: real)
    requires d > 0.0
    requires 0.0 <= s <= 1.0
    ensures Quadratic(c, n, d, ClampUnit(n / d)) <= Quadratic(c, n, d, s)
  {
    var q := n / d;
    var t := ClampUnit(q);
    assert n == q * d;
    if q <= 0.0 {
      QuotientSign(n, d);
      LowerEndMinimum(n, d, s);
    } else if q >= 1.0 {
      ProductNonneg(q - 1.0, d);
      assert (q - 1.0) * d == q * d - d;
      UpperEndMinimum(n, d, s);
    } else {
      InteriorMinimum(q, d, s);
    }
  }

  lemma QuotientSign(n: real, d: real)
    requires d > 0.0
    ensures n / d <= 0.0 ==> n <= 0.0
    ensures n / d >= 0.0 ==> n >= 0.0
  {
    assert n == (n / d) * d;
  }

  lemma LowerEndMinimum(n: real, d: real, s: real)
    requires d > 0.0 && n <= 0.0 && 0.0 <= s
    ensures 0.0 <= s * s * d - 2.0 * s * n
  {
    SquareNonneg(s);
    ProductNonneg(s * s, d);
    ProductNonneg(s, -n);
    assert 2.0 * s * n == 2.0 * (s * n);
  }

  lemma UpperEndMinimum(n: real, d: real, s: real)
    requires d > 0.0 && n >= d && 0.0 <= s <= 1.0
    ensures d - 2.0 * n <= s * s * d - 2.0 * s * n
  {
    var u := 1.0 - s;
    var v := 2.0 * n - (s + 1.0) * d;
    assert (s + 1.0) * d <= 2.0 * d by { ProductNonneg(u, d); }
    ProductNonneg(u, v);
    assert s * s * d - 2.0 * s * n - (d - 2.0 * n) == u * v;
  }

  lemma InteriorMinimum(t: real, d: real, s: real)
    requires d > 0.0
    ensures t * t * d - 2.0 * t * (t * d) <= s * s * d - 2.0 * s * (t * d)
  {
    SquareNonneg(s - t);
    ProductNonneg((s - t) * (s - t), d);
    assert s * s * d - 2.0 * s * (t * d) - (t * t * d - 2.0 * t * (t * d)) == (s - t) * (s - t) * d;
  }
}
