/**
 * The hypotheses about the geometry library hold together: a library that compares bounding
 * boxes obeys all of them.
 */
module Consistency {
  import opened Prelude
  import opened Geometry
  import opened PointSets
  import opened SphericalEnvelope
  import opened Rules
  import opened SpatialIndex
  import opened Query
  import opened Ruleset
  import opened Distance
  import opened Semantics
  import opened Meaning
  import opened Reach

  predicate BoxesMeet(a: Geometry, b: Geometry) {
    BoundingRect(a).Some? && BoundingRect(b).Some? && RectsIntersect(BoundingRect(b).value, BoundingRect(a).value)
  }

  predicate BoxInside(a: Geometry, b: Geometry) {
    BoundingRect(a).Some? ==>
      BoundingRect(b).Some? && ContainsRect(BoundingRect(b).value, BoundingRect(a).value)
  }

  /** A geometry is its box, all of it interior. */
  ghost function BoxRegion(g: Geometry): Region { Region(iset p | InBox(g, p), iset{}) }

  function BoxMatrix(a: Geometry, b: Geometry): Matrix {
    Matrix(
      if BoxesMeet(a, b) then Two else F, F, if BoxInside(a, b) then F else Two,
      F, F, F,
      if BoxInside(b, a) then F else Two, F, Two)
  }

  lemma BoxInsideMeans(a: Geometry, b: Geometry)
    ensures BoxInside(a, b) <==> Inside(BoxRegion(a).interior, BoxRegion(b).Points())
  {
    if BoundingRect(a).Some? {
      var r := BoundingRect(a).value;
      assert r.Has(r.min) && r.Has(r.max);
      if BoxRegion(a).interior <= BoxRegion(b).Points() {
        assert r.min in BoxRegion(a).interior && r.max in BoxRegion(a).interior;
        assert r.min in BoxRegion(b).Points() && r.max in BoxRegion(b).Points();
      }
    }
  }

  /** Far to the north-east lies a point outside both boxes. */
  lemma OutsideBoth(a: Geometry, b: Geometry) returns (p: Coord)
    ensures !InBox(a, p) && !InBox(b, p)
  {
    var x := if BoundingRect(a).Some? then BoundingRect(a).value.max.x else 0.0;
    var y := if BoundingRect(b).Some? then BoundingRect(b).value.max.x else 0.0;
    p := Coord(MaxReal(x, y) + 1.0, 0.0);
  }

  lemma BoxMatrixDescribes(a: Geometry, b: Geometry)
    ensures Describes(BoxMatrix(a, b), BoxRegion(a), BoxRegion(b))
  {
    BoxInsideMeans(a, b);
    BoxInsideMeans(b, a);
    var p := OutsideBoth(a, b);
    assert p !in BoxRegion(a).Points() && p !in BoxRegion(b).Points();
    if BoundingRect(a).Some? && BoundingRect(b).Some? {
      var r, s := BoundingRect(a).value, BoundingRect(b).value;
      RectsIntersectShare(s, r);
      if q :| s.Has(q) && r.Has(q) {
        assert q in BoxRegion(a).interior && q in BoxRegion(b).interior;
      }
    }
  }

  predicate InBox(g: Geometry, p: Coord) { BoundingRect(g).Some? && BoundingRect(g).value.Has(p) }

  /** The largest distance on the sphere, in meters. */
  const HALF_WAY_ROUND := 180.0 * DEGREE_METERS

  function BoxGeo(): Geo {
    Geo(
      (g: Geometry) => RingsHaveEdges(PolygonsOf(g)),
      (a: Geometry, b: Geometry) => BoxMatrix(a, b),
      (a: Geometry, b: Geometry) => BoxMatrix(a, b).IsIntersects(),
      (g: Geometry) => Prepared(g, []),
      (a: Geometry, p: Prepared) => BoxMatrix(a, p.geometry),
      (g: Geometry, p: Coord) => if OnGlobe(p) && InBox(g, p) then Intersection else Indeterminate,
      (a: Coord, b: Coord) => HALF_WAY_ROUND,
      (g: Geometry) => 0.0,
      (a: Geometry, b: Geometry) => 0.0,
      (a: seq<Polygon>, b: seq<Polygon>) => a + b,
      (g: Geometry, polygons: seq<Polygon>) => 0.0,
      Sphere(
        (a: Coord, b: Coord) => 0.0,
        (a: Coord, b: Coord, omega: real, ratio: real) => None,
        (y: real) => if y < 90.0 then 0.5 else 0.0))
  }

  /** A candidate within the distance has a point of its own inside the rule's box. */
  lemma PointInside(candidate: Geometry, rule: Geometry, bbox: Rect, meters: real) returns (p: Coord)
    requires BoundingRect(candidate) == Some(bbox)
    requires AtMostMeters(MinHaversineDistance(BoxGeo(), candidate, rule), meters)
    ensures bbox.Has(p) && OnGlobe(p) && InBox(rule, p)
  {
    if candidate.Point? {
      p := candidate.point;
    } else {
      MultiPointWithin(BoxGeo(), candidate.points, rule, meters);
      var i :| 0 <= i < |candidate.points| && AtMostMeters(PointDistance(BoxGeo(), candidate.points[i], rule), meters);
      BoxOfTight(candidate.points);
      p := candidate.points[i];
    }
  }

  lemma BoxReaches(q: Query, bbox: Rect, candidate: Geometry, rule: Geometry)
    requires BoundingRect(candidate) == Some(bbox) && BoundingRect(rule).Some?
    requires SupportedRuleGeometry(rule) && RingsHaveEdges(PolygonsOf(rule))
    ensures DistanceReaches(BoxGeo(), q, bbox, candidate, rule)
  {
    hide ExpandEnvelope, Reaches, FringeBoxOf, MinHaversineDistance;
    if q.spatial.WithinDistance? && Radius(q).Some? && SpatialHolds(BoxGeo(), q, candidate, rule) {
      var p := PointInside(candidate, rule, bbox, Radius(q).value);
      var sphere := BoxGeo().sphere;
      InsideEffective(rule, p);
      ExpansionHolds(sphere, bbox, Radius(q).value, p);
      InsideIsReached(ExpandEnvelope(sphere, bbox, Radius(q).value), p);
    }
  }

  /** A tree whose lookup enumerates the scan's hits. */
  function ScanningTree(): IndexKind {
    TreeKind((entries: seq<BoxEntry>, envelope: Rect) => Hits(entries, envelope))
  }

  /** The library has no areas, so its polygons cover nothing. */
  ghost function NoPoints(polygons: seq<Polygon>): iset<Coord> { iset{} }

  ghost function NoSize(g: Geometry, points: iset<Coord>): real { 0.0 }

  lemma BoxAngle(a: Coord, b: Coord)
    ensures AngleBetween(BoxGeo(), a, b) == 180.0
  {
    DegreesOf(180.0);
  }

  lemma BoxSphereLaws()
    ensures SphereLaws(BoxGeo())
  {
    forall a, b
      ensures AngleBetween(BoxGeo(), a, b) == 180.0
    {
      BoxAngle(a, b);
    }
    hide AngleBetween;
  }

  lemma InsideEffective(rule: Geometry, p: Coord)
    requires SupportedRuleGeometry(rule) && RingsHaveEdges(PolygonsOf(rule)) && InBox(rule, p)
    ensures EffectiveBox(BoxGeo().sphere, rule, PlanarBox(rule)).Has(p)
  {
    FringeCovers(BoxGeo().sphere, rule, p);
    hide FringeBoxOf, BoundingRect;
  }

  lemma BoxClosest(rule: Geometry)
    requires SupportedRuleGeometry(rule) && RingsHaveEdges(PolygonsOf(rule)) && BoundingRect(rule).Some?
    ensures ClosestInBox(BoxGeo(), rule)
  {
    hide EffectiveBox;
    forall p | InBox(rule, p)
      ensures EffectiveBox(BoxGeo().sphere, rule, PlanarBox(rule)).Has(p)
    {
      InsideEffective(rule, p);
    }
  }

  lemma BoxRelates()
    ensures RelateDescribes(BoxGeo(), BoxRegion) && UnionExact(BoxGeo(), NoPoints, NoSize)
  {
    forall a, b
      ensures Describes(BoxMatrix(a, b), BoxRegion(a), BoxRegion(b))
    {
      BoxMatrixDescribes(a, b);
    }
    hide Describes;
  }

  /** For every ruleset this library accepts, every query and every candidate, all hypotheses hold at once. */
  lemma HypothesesAreConsistent(rules: seq<Rule>, q: Query, c: Candidate)
    requires Buildable(BoxGeo(), rules) && Intake(BoxGeo(), c)
    ensures PreparedAgrees(BoxGeo()) && ScanningTree().Lawful() && ValidRings(BoxGeo())
    ensures RelateDescribes(BoxGeo(), BoxRegion) && SphereLaws(BoxGeo())
    ensures UnionExact(BoxGeo(), NoPoints, NoSize)
    ensures forall i :: 0 <= i < |rules| ==> ClosestInBox(BoxGeo(), rules[i].geometry)
    ensures c.classified.ValidCandidate? ==> LibraryLaws(BoxGeo(), rules, q, c.classified.envelope, c.geometry)
  {
    BoxSphereLaws();
    BoxRelates();
    hide SphereLaws, ClosestInBox, DistanceReaches, RelateDescribes, UnionExact;
    forall i | 0 <= i < |rules|
      ensures ClosestInBox(BoxGeo(), rules[i].geometry)
    {
      BoxClosest(rules[i].geometry);
    }
    if c.classified.ValidCandidate? {
      forall i | 0 <= i < |rules|
        ensures DistanceReaches(BoxGeo(), q, c.classified.envelope, c.geometry, rules[i].geometry)
      {
        BoxReaches(q, c.classified.envelope, c.geometry, rules[i].geometry);
      }
    }
  }
}
