/**
 * Why the expanded envelope reaches every rule within the distance: from three facts of the sphere, and one about
 * closest points, the pre-filter of a distance query loses nothing but what the wrapped lookups miss.
 */
module Reach {
  import opened Prelude
  import opened Geometry
  import opened SphericalEnvelope
  import opened Distance
  import opened Query
  import opened Ruleset
  import opened Semantics
  import opened Meaning

  predicate OnGlobe(p: Coord) { -90.0 <= p.y <= 90.0 }

  /** The angle between two points, in degrees of a great circle. */
  function AngleBetween(geo: Geo, a: Coord, b: Coord): real { ToDegrees(geo.haversine(a, b) / EARTH_RADIUS_METERS) }

  /** Two points are at least as far apart as their parallels. */
  ghost predicate ParallelsApart(geo: Geo) {
    forall a, b :: OnGlobe(a) && OnGlobe(b) ==> AbsReal(b.y - a.y) <= AngleBetween(geo, a, b)
  }

  /**
   * The way from one point to the other stays between the parallels at
   * `latitude`, and so turns through no more longitude than that parallel
   * allows.
   */
  ghost predicate TurnsWithin(geo: Geo, a: Coord, b: Coord, latitude: real) {
    exists k: int :: AbsReal(Turned(b.x, k) - a.x) * geo.sphere.cosDegrees(latitude) <= AngleBetween(geo, a, b)
  }

  ghost predicate LongitudesApart(geo: Geo) {
    forall a, b, latitude :: OnGlobe(a) && OnGlobe(b) && AbsReal(a.y) + AngleBetween(geo, a, b) <= latitude <= 90.0 ==>
      TurnsWithin(geo, a, b, latitude)
  }

  /** The laws of the sphere: the two distances, and no circle of latitude at the pole. */
  ghost predicate SphereLaws(geo: Geo) {
    ParallelsApart(geo) && LongitudesApart(geo) && geo.sphere.cosDegrees(90.0) <= 0.000001
  }

  /** The point of a rule nearest to `p`, itself or another one on the globe, lies in the rule's effective box. */
  ghost predicate ClosestInBox(geo: Geo, rule: Geometry) {
    forall p ::
      match geo.closestPoint(rule, p)
      case Intersection => EffectiveBox(geo.sphere, rule, PlanarBox(rule)).Has(p)
      case SinglePoint(at) => OnGlobe(at) && EffectiveBox(geo.sphere, rule, PlanarBox(rule)).Has(at)
      case Indeterminate => true
  }

  // ------------------------------------------------ the expansion reaches

  lemma LatitudeReached(geo: Geo, bbox: Rect, p: Coord, at: Coord, meters: real)
    requires SphereLaws(geo) && bbox.Has(p) && OnGlobe(p) && OnGlobe(at)
    requires meters > 0.0 && geo.haversine(p, at) <= meters
    ensures InBand(ExpandEnvelope(geo.sphere, bbox, meters), at.y)
  {
    AngleWithin(geo, p, at, meters);
    ExpansionWidens(geo.sphere, bbox, meters);
  }

  lemma QuotientGrows(a: real, b: real, c: real)
    requires a <= b && c > 0.0
    ensures a / c <= b / c
  {
  }

  /** Every longitude is at most half a turn from any other. */
  lemma HalfATurn(x: real, from: real) returns (k: int)
    ensures AbsReal(Turned(x, k) - from) <= 180.0
  {
    k := ((from - x + 180.0) / 360.0).Floor;
    Scaled360(from - x + 180.0, k);
  }

  lemma Scaled360(x: real, k: int)
    requires k == (x / 360.0).Floor
    ensures 360.0 * k as real <= x < 360.0 * k as real + 360.0
  {
    assert k as real <= x / 360.0 < k as real + 1.0;
  }

  lemma DividedBy(turn: real, cos: real, angle: real)
    requires cos > 0.0 && turn * cos <= angle
    ensures turn <= angle / cos
  {
    assert angle / cos - turn == (angle - turn * cos) / cos;
  }

  /** The parallel the expansion takes its longitude width from. */
  function Farthest(bbox: Rect, d: real): real {
    MinReal(MaxReal(AbsReal(bbox.min.y - d), AbsReal(bbox.max.y + d)), 90.0)
  }

  lemma ExpansionWidth(sphere: Sphere, bbox: Rect, meters: real) returns (half: real)
    requires bbox.Valid() && meters > 0.0
    ensures var e, d := ExpandEnvelope(sphere, bbox, meters), ToDegrees(meters / EARTH_RADIUS_METERS);
      var cos := sphere.cosDegrees(Farthest(bbox, d));
      && e.min.x == bbox.min.x - half && e.max.x == bbox.max.x + half
      && half == if cos > 0.000001 then d / cos else 360.0
  {
    var e := ExpandEnvelope(sphere, bbox, meters);
    ExpansionWidens(sphere, bbox, meters);
    half := bbox.min.x - e.min.x;
    var d := meters / EARTH_RADIUS_METERS;
    var cos := sphere.cosDegrees(Farthest(bbox, ToDegrees(d)));
    PositiveQuotient(meters, EARTH_RADIUS_METERS);
    if cos > 0.000001 {
      PositiveQuotient(d, cos);
      DegreesOver(d, cos);
    }
  }

  /** With the angle added, a point of the envelope stays within that parallel. */
  lemma FarthestIsFar(bbox: Rect, p: Coord, angle: real, d: real)
    requires bbox.Has(p) && OnGlobe(p) && 0.0 <= angle <= d && Farthest(bbox, d) < 90.0
    ensures AbsReal(p.y) + angle <= Farthest(bbox, d)
  {
  }

  lemma TurnOf(geo: Geo, p: Coord, at: Coord, latitude: real, d: real) returns (k: int)
    requires geo.sphere.cosDegrees(latitude) > 0.000001 && AngleBetween(geo, p, at) <= d
    requires TurnsWithin(geo, p, at, latitude)
    ensures AbsReal(Turned(at.x, k) - p.x) <= d / geo.sphere.cosDegrees(latitude)
  {
    hide AngleBetween, Turned;
    k :| AbsReal(Turned(at.x, k) - p.x) * geo.sphere.cosDegrees(latitude) <= AngleBetween(geo, p, at);
    DividedBy(AbsReal(Turned(at.x, k) - p.x), geo.sphere.cosDegrees(latitude), d);
  }

  /** A copy of the point is within the half-width of `p`. */
  lemma CopyNearby(geo: Geo, bbox: Rect, p: Coord, at: Coord, d: real) returns (k: int)
    requires SphereLaws(geo) && bbox.Has(p) && OnGlobe(p) && OnGlobe(at) && 0.0 <= AngleBetween(geo, p, at) <= d
    ensures var cos := geo.sphere.cosDegrees(Farthest(bbox, d));
      AbsReal(Turned(at.x, k) - p.x) <= if cos > 0.000001 then d / cos else 360.0
  {
    var latitude := Farthest(bbox, d);
    assert latitude <= 90.0;
    hide AngleBetween, Turned, Farthest, TurnsWithin;
    if geo.sphere.cosDegrees(latitude) > 0.000001 {
      FarthestIsFar(bbox, p, AngleBetween(geo, p, at), d);
      assert TurnsWithin(geo, p, at, latitude);
      k := TurnOf(geo, p, at, latitude, d);
    } else {
      k := HalfATurn(at.x, p.x);
    }
  }

  lemma AngleWithin(geo: Geo, p: Coord, at: Coord, meters: real)
    requires ParallelsApart(geo) && OnGlobe(p) && OnGlobe(at) && geo.haversine(p, at) <= meters
    ensures 0.0 <= AngleBetween(geo, p, at) <= ToDegrees(meters / EARTH_RADIUS_METERS)
  {
    QuotientGrows(geo.haversine(p, at), meters, EARTH_RADIUS_METERS);
    DegreesGrow(geo.haversine(p, at) / EARTH_RADIUS_METERS, meters / EARTH_RADIUS_METERS);
  }

  /** A near rule's closest point is reached, modulo whole turns. */
  lemma NearIsReached(geo: Geo, bbox: Rect, p: Coord, at: Coord, meters: real)
    requires SphereLaws(geo) && bbox.Has(p) && OnGlobe(p) && OnGlobe(at)
    requires meters > 0.0 && geo.haversine(p, at) <= meters
    ensures ReachedModulo360(ExpandEnvelope(geo.sphere, bbox, meters), at)
  {
    LatitudeReached(geo, bbox, p, at, meters);
    AngleWithin(geo, p, at, meters);
    var k := CopyNearby(geo, bbox, p, at, ToDegrees(meters / EARTH_RADIUS_METERS));
    var half := ExpansionWidth(geo.sphere, bbox, meters);
    var e := ExpandEnvelope(geo.sphere, bbox, meters);
    hide *;
    assert e.min.x <= Turned(at.x, k) <= e.max.x;
  }

  lemma ExpansionHolds(sphere: Sphere, bbox: Rect, meters: real, p: Coord)
    requires bbox.Valid() && meters > 0.0 && bbox.Has(p) && OnGlobe(p)
    ensures ExpandEnvelope(sphere, bbox, meters).Has(p)
  {
    ExpansionWidens(sphere, bbox, meters);
    PositiveQuotient(meters, EARTH_RADIUS_METERS);
  }

  // ------------------------------------------------ the hypothesis on distances, derived

  /** The point of the rule that the library finds nearest to `p`. */
  predicate IsNearest(geo: Geo, p: Coord, rule: Geometry, at: Coord) {
    match geo.closestPoint(rule, p)
    case Intersection => at == p
    case SinglePoint(closest) => at == closest
    case Indeterminate => false
  }

  /** The lookups miss no nearest point: none lies on the seam or needs an unconventional longitude wrapped. */
  ghost predicate NoneMissed(geo: Geo, q: Query, bbox: Rect, candidate: Geometry, rule: Geometry) {
    forall p, at :: HasPoint(candidate, p) && IsNearest(geo, p, rule, at) && Radius(q).Some? ==>
      !Missed(ExpandEnvelope(geo.sphere, bbox, Radius(q).value), at)
  }

  lemma PointInEnvelope(candidate: Geometry, bbox: Rect, p: Coord)
    requires BoundingRect(candidate) == Some(bbox) && HasPoint(candidate, p)
    ensures bbox.Has(p)
  {
    BoundingRectExact(candidate, bbox);
    assert p in PlanarVertices(candidate);
  }

  lemma NearestIsReached(geo: Geo, bbox: Rect, p: Coord, rule: Geometry, at: Coord, meters: real)
    requires SphereLaws(geo) && ClosestInBox(geo, rule) && bbox.Has(p) && OnGlobe(p) && meters > 0.0
    requires IsNearest(geo, p, rule, at) && Near(geo, p, rule, meters)
    ensures ReachedModulo360(ExpandEnvelope(geo.sphere, bbox, meters), at)
    ensures EffectiveBox(geo.sphere, rule, PlanarBox(rule)).Has(at)
  {
    hide SphereLaws, ReachedModulo360, EffectiveBox;
    match geo.closestPoint(rule, p)
    case Intersection =>
      ExpansionHolds(geo.sphere, bbox, meters, p);
      InsideIsReached(ExpandEnvelope(geo.sphere, bbox, meters), p);
    case SinglePoint(closest) => NearIsReached(geo, bbox, p, at, meters);
  }

  /**
   * On the sphere, and with closest points inside the effective boxes, the
   * expanded envelope reaches every rule within the distance, if the lookups
   * miss none of the nearest points.
   */
  lemma DistanceReached(geo: Geo, q: Query, bbox: Rect, candidate: Geometry, rule: Geometry)
    requires SphereLaws(geo) && ClosestInBox(geo, rule) && Validate(q) == None
    requires BoundingRect(candidate) == Some(bbox) && forall p :: HasPoint(candidate, p) ==> OnGlobe(p)
    requires NoneMissed(geo, q, bbox, candidate, rule)
    ensures DistanceReaches(geo, q, bbox, candidate, rule)
  {
    hide SphereLaws, ClosestInBox, ExpandEnvelope, EffectiveBox, Missed, ReachedModulo360;
    if q.spatial.WithinDistance? && SpatialHolds(geo, q, candidate, rule) {
      WithinDistanceMeans(geo, q, candidate, rule);
      var meters := Radius(q).value;
      var p :| HasPoint(candidate, p) && Near(geo, p, rule, meters);
      var at := match geo.closestPoint(rule, p) case Intersection => p case SinglePoint(closest) => closest case _ => p;
      PointInEnvelope(candidate, bbox, p);
      NearestIsReached(geo, bbox, p, rule, at, meters);
      assert Reaches(ExpandEnvelope(geo.sphere, bbox, meters), at);
    }
  }
}
