/** The `withinDistance` pre-filter: the expanded envelope and its longitude wrap. */
module Distance {
  import opened Geometry
  import opened SphericalEnvelope

  const EARTH_RADIUS_METERS := 6371008.8

  function Clamp(x: real, low: real, high: real): real { MaxReal(low, MinReal(x, high)) }

  /**
   * The envelope grown by a distance: degrees of latitude, and degrees of longitude at the
   * latitude farthest from the equator.
   */
  function ExpandEnvelope(sphere: Sphere, bbox: Rect, meters: real): Rect {
    var dLat := ToDegrees(meters / EARTH_RADIUS_METERS);
    var latMin, latMax := bbox.min.y - dLat, bbox.max.y + dLat;
    var farthest := MinReal(MaxReal(AbsReal(latMin), AbsReal(latMax)), 90.0);
    var cos := sphere.cosDegrees(farthest);
    var dLon := if cos > 0.000001 then ToDegrees(meters / EARTH_RADIUS_METERS / cos) else 360.0;
    RectOf(
      Coord(bbox.min.x - dLon, Clamp(latMin, -90.0, 90.0)),
      Coord(bbox.max.x + dLon, Clamp(latMax, -90.0, 90.0)))
  }

  lemma PositiveQuotient(a: real, b: real)
    requires a > 0.0 && b > 0.0
    ensures a / b > 0.0
  {
  }

  /** The expansion widens the longitudes and stays on the globe's latitudes. */
  lemma ExpansionWidens(sphere: Sphere, bbox: Rect, meters: real)
    requires bbox.Valid() && meters > 0.0
    ensures var e := ExpandEnvelope(sphere, bbox, meters);
      e.min.x < bbox.min.x && bbox.max.x < e.max.x && -90.0 <= e.min.y <= e.max.y <= 90.0
  {
    var d := meters / EARTH_RADIUS_METERS;
    PositiveQuotient(meters, EARTH_RADIUS_METERS);
    var latMin, latMax := bbox.min.y - ToDegrees(d), bbox.max.y + ToDegrees(d);
    var cos := sphere.cosDegrees(MinReal(MaxReal(AbsReal(latMin), AbsReal(latMax)), 90.0));
    if cos > 0.000001 {
      PositiveQuotient(d, cos);
    }
  }

  lemma SmallerDivisor(a: real, small: real, large: real)
    requires a > 0.0 && 0.0 < small <= large
    ensures a / small >= a / large
  {
    var q := a / large;
    assert q * small <= q * large == a;
    assert a / small == q + (a - q * small) / small;
  }

  lemma DegreesGrow(a: real, b: real)
    requires a <= b
    ensures ToDegrees(a) <= ToDegrees(b)
  {
  }

  /** From the equator to a pole the cosine falls. */
  ghost predicate CosineFalls(sphere: Sphere) {
    forall a, b :: 0.0 <= a <= b <= 90.0 ==> sphere.cosDegrees(b) <= sphere.cosDegrees(a)
  }

  /**
   * The longitude half-width is conservative: on both sides it is at least what
   * the distance spans at every latitude of the expanded band, or a whole turn.
   */
  lemma WideEnoughAtEveryLatitude(sphere: Sphere, bbox: Rect, meters: real, y: real)
    requires bbox.Valid() && meters > 0.0 && CosineFalls(sphere)
    ensures var e := ExpandEnvelope(sphere, bbox, meters);
      var half, cos := bbox.min.x - e.min.x, sphere.cosDegrees(AbsReal(y));
      && e.max.x - bbox.max.x == half
      && (InBand(e, y) ==>
            half == 360.0 || (cos > 0.000001 && half >= ToDegrees(meters / EARTH_RADIUS_METERS / cos)))
  {
    ExpansionWidens(sphere, bbox, meters);
    var d := meters / EARTH_RADIUS_METERS;
    PositiveQuotient(meters, EARTH_RADIUS_METERS);
    var latMin, latMax := bbox.min.y - ToDegrees(d), bbox.max.y + ToDegrees(d);
    var farthest := MinReal(MaxReal(AbsReal(latMin), AbsReal(latMax)), 90.0);
    var cos := sphere.cosDegrees(farthest);
    if InBand(ExpandEnvelope(sphere, bbox, meters), y) && cos > 0.000001 {
      SmallerDivisor(d, cos, sphere.cosDegrees(AbsReal(y)));
      DegreesGrow(d / sphere.cosDegrees(AbsReal(y)), d / cos);
    }
  }

  /** The rectangles one distance lookup asks the indexes for. */
  function LookupRects(e: Rect): seq<Rect> {
    [e]
    + (if e.min.x < -180.0 then [RectOf(Coord(e.min.x + 360.0, e.min.y), Coord(180.0, e.max.y))] else [])
    + (if e.max.x > 180.0 then [RectOf(Coord(-180.0, e.min.y), Coord(e.max.x - 360.0, e.max.y))] else [])
  }

  predicate InBand(e: Rect, y: real) { e.min.y <= y <= e.max.y }

  /** A longitude moved by `k` whole turns. */
  function Turned(x: real, k: int): real { x + 360.0 * k as real }

  /** Some copy of the point, moved by whole turns, lies in the expanded envelope. */
  ghost predicate ReachedModulo360(e: Rect, p: Coord) {
    InBand(e, p.y) && exists k: int :: e.min.x <= Turned(p.x, k) <= e.max.x
  }

  ghost predicate ReachedStrictly(e: Rect, p: Coord) {
    InBand(e, p.y) && exists k: int :: e.min.x < Turned(p.x, k) < e.max.x
  }

  predicate CoveredBySome(rects: seq<Rect>, p: Coord) {
    exists i | 0 <= i < |rects| :: rects[i].Has(p)
  }

  /** The expansion ends exactly on the antimeridian the point lies on, on the other side. */
  predicate OnSeam(e: Rect, p: Coord) {
    (p.x == -180.0 && e.max.x == 180.0 && e.min.x > -180.0) || (p.x == 180.0 && e.min.x == -180.0 && e.max.x < 180.0)
  }

  /** The range of longitudes the wrapped rectangles are for; coordinates are not normalized to it. */
  predicate Conventional(x: real) { -180.0 <= x <= 180.0 }

  /** A point on the seam, or with an unconventional longitude that only wrapping brings into the expansion. */
  predicate Missed(e: Rect, p: Coord) {
    if Conventional(p.x) then OnSeam(e, p) else !e.Has(p)
  }

  lemma RectsByCases(e: Rect, p: Coord)
    requires e.Valid()
    ensures CoveredBySome(LookupRects(e), p) <==>
      InBand(e, p.y) && (e.min.x <= p.x <= e.max.x
        || (e.min.x < -180.0 && e.min.x + 360.0 <= p.x <= 180.0)
        || (e.max.x > 180.0 && -180.0 <= p.x <= e.max.x - 360.0))
  {
    var rects := LookupRects(e);
    assert rects[0] == e;
    if e.min.x < -180.0 {
      assert rects[1] == RectOf(Coord(e.min.x + 360.0, e.min.y), Coord(180.0, e.max.y));
    }
    if e.max.x > 180.0 {
      assert rects[|rects| - 1] == RectOf(Coord(-180.0, e.min.y), Coord(e.max.x - 360.0, e.max.y));
    }
  }

  /**
   * The envelope lies wholly beyond the antimeridian, where the wrapped rectangle also covers
   * what the envelope leaves out.
   */
  predicate Beyond(e: Rect, p: Coord) {
    InBand(e, p.y)
    && ((e.min.x > 180.0 && -180.0 <= p.x <= e.max.x - 360.0)
        || (e.max.x < -180.0 && e.min.x + 360.0 <= p.x <= 180.0))
  }

  /**
   * The lookup rectangles cover a point exactly when a copy of it lies in the
   * expanded envelope, with these exceptions. On the seam, where the envelope
   * ends exactly on the antimeridian, the point on its other side is not looked
   * up; a longitude outside [-180, 180] is looked up as it is, not wrapped; and
   * beyond the antimeridian more is looked up than needed.
   */
  lemma WrapCoverage(e: Rect, p: Coord)
    requires e.Valid()
    ensures CoveredBySome(LookupRects(e), p) <==> (ReachedModulo360(e, p) && !Missed(e, p)) || Beyond(e, p)
  {
    RectsByCases(e, p);
    if CoveredBySome(LookupRects(e), p) && !Beyond(e, p) {
      if e.min.x <= p.x <= e.max.x {
        assert Turned(p.x, 0) == p.x;
      } else if e.min.x < -180.0 && e.min.x + 360.0 <= p.x {
        assert Turned(p.x, -1) == p.x - 360.0;
      } else {
        assert Turned(p.x, 1) == p.x + 360.0;
      }
    }
    if ReachedModulo360(e, p) && !Missed(e, p) {
      var k: int :| e.min.x <= Turned(p.x, k) <= e.max.x;
    }
  }

  /**
   * A point reached strictly inside the envelope is looked up exactly when its
   * longitude is conventional or needs no wrapping, or the envelope is beyond.
   */
  lemma StrictReachIsCovered(e: Rect, p: Coord)
    requires e.Valid() && ReachedStrictly(e, p)
    ensures CoveredBySome(LookupRects(e), p) <==> Conventional(p.x) || e.Has(p) || Beyond(e, p)
  {
    var k: int :| e.min.x < Turned(p.x, k) < e.max.x;
    assert ReachedModulo360(e, p);
    WrapCoverage(e, p);
  }

  /** A copy of the point lies in the envelope, and the lookups do not miss it. */
  ghost predicate Reaches(e: Rect, p: Coord) {
    ReachedModulo360(e, p) && !Missed(e, p)
  }

  lemma InsideIsReached(e: Rect, p: Coord)
    requires e.Has(p)
    ensures Reaches(e, p)
  {
    assert Turned(p.x, 0) == p.x;
  }

  predicate MeetsSome(rects: seq<Rect>, box: Rect) {
    exists i | 0 <= i < |rects| :: RectsIntersect(box, rects[i])
  }

  /** A box with a reached point is hit by one of the lookups. */
  lemma ReachedBoxIsHit(e: Rect, box: Rect, p: Coord)
    requires e.Valid() && box.Has(p) && Reaches(e, p)
    ensures MeetsSome(LookupRects(e), box)
  {
    WrapCoverage(e, p);
    var rects := LookupRects(e);
    hide LookupRects, Reaches;
    var i :| 0 <= i < |rects| && rects[i].Has(p);
    assert RectsIntersect(box, rects[i]);
  }

  // ------------------------------------------------ what the lookups miss

  /** A degree of latitude, in meters. */
  const DEGREE_METERS := EARTH_RADIUS_METERS * PI / 180.0

  /** About 111.195 kilometers, on a sphere of the Earth's mean radius. */
  lemma DegreeLength()
    ensures 111195.079 < DEGREE_METERS < 111195.081
  {
  }

  lemma DegreesOf(degrees: real)
    ensures ToDegrees(degrees * DEGREE_METERS / EARTH_RADIUS_METERS) == degrees
  {
    assert degrees * DEGREE_METERS / EARTH_RADIUS_METERS == degrees * (PI / 180.0);
  }

  /** Away from the poles, a distance expands by its degrees of latitude, and in longitude by that over the cosine. */
  lemma ExpandsBy(sphere: Sphere, bbox: Rect, degrees: real)
    requires bbox.Valid() && degrees > 0.0
    requires -90.0 <= bbox.min.y - degrees && bbox.max.y + degrees <= 90.0
    requires sphere.cosDegrees(MaxReal(AbsReal(bbox.min.y - degrees), AbsReal(bbox.max.y + degrees))) > 0.000001
    ensures var cos := sphere.cosDegrees(MaxReal(AbsReal(bbox.min.y - degrees), AbsReal(bbox.max.y + degrees)));
      ExpandEnvelope(sphere, bbox, degrees * DEGREE_METERS) == Rect(
        Coord(bbox.min.x - degrees / cos, bbox.min.y - degrees),
        Coord(bbox.max.x + degrees / cos, bbox.max.y + degrees))
  {
    DegreesOf(degrees);
    var d := degrees * DEGREE_METERS / EARTH_RADIUS_METERS;
    var cos := sphere.cosDegrees(MaxReal(AbsReal(bbox.min.y - degrees), AbsReal(bbox.max.y + degrees)));
    PositiveQuotient(degrees, cos);
    DegreesOver(d, cos);
  }

  lemma DegreesOver(d: real, cos: real)
    requires cos > 0.0
    ensures ToDegrees(d / cos) == ToDegrees(d) / cos
  {
  }

  /**
   * The seam is real: this candidate's one-degree expansion ends exactly at
   * longitude 180, and no lookup meets a rule that begins at -180, the same
   * meridian.
   */
  lemma SeamExample(sphere: Sphere)
    requires 0.25 <= sphere.cosDegrees(10.0) <= 1.0
    ensures var d := 1.0 / sphere.cosDegrees(10.0);
      var bbox := BoundingRect(MultiPoint([Coord(170.0 + d, 1.0), Coord(180.0 - d, 9.0)]));
      && bbox.Some?
      && var e := ExpandEnvelope(sphere, bbox.value, DEGREE_METERS);
         var rule, p := Rect(Coord(-180.0, 4.0), Coord(-179.0, 6.0)), Coord(-180.0, 5.0);
         ReachedModulo360(e, p) && rule.Has(p) && !MeetsSome(LookupRects(e), rule)
  {
    var d := 1.0 / sphere.cosDegrees(10.0);
    QuotientWithin(sphere.cosDegrees(10.0));
    var a, b := Coord(170.0 + d, 1.0), Coord(180.0 - d, 9.0);
    assert [a, b][..1] == [a] && [a][..0] == [];
    var bbox := Rect(a, b);
    assert BoxOf([a]).value == Rect(a, a);
    assert BoxOf([a, b]).value == Grow(Rect(a, a), b) == bbox;
    ExpandsBy(sphere, bbox, 1.0);
    hide BoundingRect, ExpandEnvelope;
    assert ExpandEnvelope(sphere, bbox, DEGREE_METERS) == Rect(Coord(170.0, 0.0), Coord(180.0, 10.0));
    assert Turned(-180.0, 1) == 180.0;
  }

  lemma QuotientWithin(c: real)
    requires 0.25 <= c <= 1.0
    ensures 1.0 <= 1.0 / c <= 4.0
  {
  }

  /**
   * Nor is an unconventional longitude wrapped: no lookup of this candidate at
   * -179 meets a rule around 181, the same meridian.
   */
  lemma UnconventionalExample(sphere: Sphere)
    requires 0.25 <= sphere.cosDegrees(0.25) <= 1.0
    ensures var bbox := BoundingRect(Point(Coord(-179.0, 0.0)));
      && bbox.Some?
      && var e := ExpandEnvelope(sphere, bbox.value, 0.25 * DEGREE_METERS);
         var rule, p := Rect(Coord(180.5, -1.0), Coord(181.5, 1.0)), Coord(181.0, 0.0);
         ReachedStrictly(e, p) && rule.Has(p) && !MeetsSome(LookupRects(e), rule)
  {
    var bbox := Rect(Coord(-179.0, 0.0), Coord(-179.0, 0.0));
    ExpandsBy(sphere, bbox, 0.25);
    QuotientWithin(sphere.cosDegrees(0.25));
    assert 0.25 / sphere.cosDegrees(0.25) == 0.25 * (1.0 / sphere.cosDegrees(0.25));
    assert Turned(181.0, -1) == -179.0;
  }
}
