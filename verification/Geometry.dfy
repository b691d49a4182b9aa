/** Coordinates, boxes, geometries and the DE-9IM matrix, with the geometry library as a record of functions. */
module Geometry {
  import opened Prelude
  import opened Doubles

  datatype Coord = Coord(x: real, y: real)

  function MinReal(a: real, b: real): real { if a <= b then a else b }
  function MaxReal(a: real, b: real): real { if a <= b then b else a }
  function AbsReal(a: real): real { if a < 0.0 then -a else a }

  /** An axis-aligned box, `min` below `max` on both axes. */
  datatype Rect = Rect(min: Coord, max: Coord) {
    predicate Valid() { min.x <= max.x && min.y <= max.y }
    predicate Has(p: Coord) { min.x <= p.x <= max.x && min.y <= p.y <= max.y }
  }

  /** `Rect::new` takes any two opposite corners. */
  function RectOf(a: Coord, b: Coord): (r: Rect)
    ensures r.Valid() && r.Has(a) && r.Has(b)
  {
    Rect(Coord(MinReal(a.x, b.x), MinReal(a.y, b.y)), Coord(MaxReal(a.x, b.x), MaxReal(a.y, b.y)))
  }

  predicate RectsIntersect(a: Rect, b: Rect) {
    a.min.x <= b.max.x && a.max.x >= b.min.x && a.min.y <= b.max.y && a.max.y >= b.min.y
  }

  /** The box test is exact: two boxes pass it when they share a point. */
  lemma RectsIntersectShare(a: Rect, b: Rect)
    requires a.Valid() && b.Valid()
    ensures RectsIntersect(a, b) <==> exists p :: a.Has(p) && b.Has(p)
  {
    if RectsIntersect(a, b) {
      var p := Coord(MaxReal(a.min.x, b.min.x), MaxReal(a.min.y, b.min.y));
      assert a.Has(p) && b.Has(p);
    }
  }

  predicate ContainsRect(outer: Rect, inner: Rect) {
    inner.min.x >= outer.min.x && inner.max.x <= outer.max.x && inner.min.y >= outer.min.y && inner.max.y <= outer.max.y
  }

  datatype Polygon = Polygon(exterior: seq<Coord>, interiors: seq<seq<Coord>>)

  datatype Geometry =
    | Point(point: Coord)
    | MultiPoint(points: seq<Coord>)
    | PolygonGeometry(polygon: Polygon)
    | MultiPolygon(polygons: seq<Polygon>)
    | OtherGeometry(name: string)

  predicate IsPoint(g: Geometry) { g.Point? || g.MultiPoint? }

  function PolygonsOf(g: Geometry): seq<Polygon> {
    match g
    case PolygonGeometry(polygon) => [polygon]
    case MultiPolygon(polygons) => polygons
    case _ => []
  }

  // ------------------------------------------------ bounding boxes

  /** `r` is the least box around `points`. */
  ghost predicate TightBox(points: seq<Coord>, r: Rect) {
    && (forall i :: 0 <= i < |points| ==> r.Has(points[i]))
    && (exists i :: 0 <= i < |points| && points[i].x == r.min.x)
    && (exists i :: 0 <= i < |points| && points[i].x == r.max.x)
    && (exists i :: 0 <= i < |points| && points[i].y == r.min.y)
    && (exists i :: 0 <= i < |points| && points[i].y == r.max.y)
  }

  function Grow(r: Rect, p: Coord): Rect {
    Rect(Coord(MinReal(r.min.x, p.x), MinReal(r.min.y, p.y)), Coord(MaxReal(r.max.x, p.x), MaxReal(r.max.y, p.y)))
  }

  lemma GrowTight(points: seq<Coord>, r: Rect, p: Coord)
    requires TightBox(points, r)
    ensures TightBox(points + [p], Grow(r, p))
  {
    var all, g := points + [p], Grow(r, p);
    assert all[|points|] == p;
    forall i | 0 <= i < |all|
      ensures g.Has(all[i])
    {
      assert i < |points| ==> all[i] == points[i];
    }
    var a :| 0 <= a < |points| && points[a].x == r.min.x;
    var b :| 0 <= b < |points| && points[b].x == r.max.x;
    var c :| 0 <= c < |points| && points[c].y == r.min.y;
    var d :| 0 <= d < |points| && points[d].y == r.max.y;
    assert all[a].x == r.min.x && all[b].x == r.max.x && all[c].y == r.min.y && all[d].y == r.max.y;
  }

  function BoxOf(points: seq<Coord>): (r: Option<Rect>)
    ensures r.None? <==> points == []
    ensures r.Some? ==> r.value.Valid()
  {
    if points == [] then None
    else
      match BoxOf(points[..|points| - 1])
      case None => Some(Rect(points[0], points[0]))
      case Some(r) => Some(Grow(r, points[|points| - 1]))
  }

  lemma {:induction false} BoxOfTight(points: seq<Coord>)
    requires points != []
    ensures TightBox(points, BoxOf(points).value)
    decreases |points|
  {
    if |points| == 1 {
      assert points[..0] == [];
    } else {
      var init := points[..|points| - 1];
      BoxOfTight(init);
      GrowTight(init, BoxOf(init).value, points[|points| - 1]);
      assert init + [points[|points| - 1]] == points;
    }
  }

  lemma TightBoxUnique(points: seq<Coord>, r: Rect, s: Rect)
    requires TightBox(points, r) && TightBox(points, s)
    ensures r == s
  {
  }

  /** The running box is the one least box around the points, so every bounding walk has this answer. */
  lemma BoxOfExact(points: seq<Coord>, r: Rect)
    ensures BoxOf(points) == Some(r) <==> TightBox(points, r)
  {
    if points != [] {
      BoxOfTight(points);
      if TightBox(points, r) {
        TightBoxUnique(points, r, BoxOf(points).value);
      }
    }
  }

  function Exteriors(polygons: seq<Polygon>): seq<Coord> {
    if polygons == [] then [] else polygons[0].exterior + Exteriors(polygons[1..])
  }

  /** The planar bounding box: of the exterior rings, or of the points. */
  function BoundingRect(g: Geometry): (r: Option<Rect>)
    ensures r.Some? ==> r.value.Valid()
  {
    match g
    case Point(p) => Some(Rect(p, p))
    case MultiPoint(points) => BoxOf(points)
    case PolygonGeometry(polygon) => BoxOf(polygon.exterior)
    case MultiPolygon(polygons) => BoxOf(Exteriors(polygons))
    case OtherGeometry(_) => None
  }

  /** The points a planar box is around: holes lie inside their exterior ring. */
  function PlanarVertices(g: Geometry): seq<Coord> {
    match g
    case Point(p) => [p]
    case MultiPoint(points) => points
    case PolygonGeometry(polygon) => polygon.exterior
    case MultiPolygon(polygons) => Exteriors(polygons)
    case OtherGeometry(_) => []
  }

  /** The planar box is the least box around the vertices, and there is none exactly when there are no vertices. */
  lemma BoundingRectExact(g: Geometry, r: Rect)
    ensures BoundingRect(g) == Some(r) <==> TightBox(PlanarVertices(g), r)
    ensures BoundingRect(g) == None <==> PlanarVertices(g) == []
  {
    BoxOfExact(PlanarVertices(g), r);
    if g.Point? {
      assert [g.point][..0] == [] && BoxOf([g.point]) == Some(Rect(g.point, g.point));
    }
  }

  // ------------------------------------------------ the DE-9IM matrix

  datatype Dim = F | Zero | One | Two {
    predicate T() { !F? }
  }

  /** Dimension of interior/boundary/exterior intersections, first operand first (OGC 06-103r4, section 6.1.15.2). */
  datatype Matrix = Matrix(ii: Dim, ib: Dim, ie: Dim, bi: Dim, bb: Dim, be: Dim, ei: Dim, eb: Dim, ee: Dim) {
    predicate IsDisjoint() { ii.F? && ib.F? && bi.F? && bb.F? }
    predicate IsIntersects() { !IsDisjoint() }
    predicate IsContains() { ii.T() && ei.F? && eb.F? }
    predicate IsWithin() { ii.T() && ie.F? && be.F? }
    predicate IsCovers() { (ii.T() || ib.T() || bi.T() || bb.T()) && ei.F? && eb.F? }
    predicate IsCoveredBy() { (ii.T() || ib.T() || bi.T() || bb.T()) && ie.F? && be.F? }
    predicate IsTouches() { ii.F? && (ib.T() || bi.T() || bb.T()) }
    predicate IsOverlaps() { if ii.One? then ie.T() && ei.T() else ii.T() && ie.T() && ei.T() }
    function Transpose(): Matrix { Matrix(ii, bi, ei, ib, bb, eb, ie, be, ee) }
  }

  datatype SpatialPredicate = Intersects | Contains | Within | Covers | CoveredBy | Touches | Overlaps | WithinDistance

  /** The answer of a DE-9IM predicate; `WithinDistance` never comes here. */
  predicate PredicateHolds(predicate_: SpatialPredicate, m: Matrix)
    requires !predicate_.WithinDistance?
  {
    match predicate_
    case Intersects => m.IsIntersects()
    case Contains => m.IsContains()
    case Within => m.IsWithin()
    case Covers => m.IsCovers()
    case CoveredBy => m.IsCoveredBy()
    case Touches => m.IsTouches()
    case Overlaps => m.IsOverlaps()
  }

  function Converse(p: SpatialPredicate): SpatialPredicate {
    match p
    case Contains => Within
    case Within => Contains
    case Covers => CoveredBy
    case CoveredBy => Covers
    case _ => p
  }

  /** Every DE-9IM predicate implies intersection, and swapping the operands gives the converse predicate. */
  lemma MatrixLaws(p: SpatialPredicate, m: Matrix)
    requires !p.WithinDistance?
    ensures PredicateHolds(p, m) ==> m.IsIntersects()
    ensures PredicateHolds(p, m) <==> PredicateHolds(Converse(p), m.Transpose())
    ensures m.IsContains() ==> m.IsCovers()
  {
  }

  // ------------------------------------------------ the geometry library

  /** A prepared geometry: the owned geometry and its edge index. */
  datatype Prepared = Prepared(geometry: Geometry, edges: seq<(Coord, Coord)>)

  datatype Closest = Intersection | SinglePoint(at: Coord) | Indeterminate

  /** Spherical trigonometry, used by the fringe boxes and the distance pre-filter. */
  datatype Sphere = Sphere(
    centralAngle: (Coord, Coord) -> real,
    interpolate: (Coord, Coord, real, real) -> Option<Coord>,
    cosDegrees: real -> real)

  /** The library calls the engine makes. */
  datatype Geo = Geo(
    isValid: Geometry -> bool,
    relate: (Geometry, Geometry) -> Matrix,
    intersects: (Geometry, Geometry) -> bool,
    prepare: Geometry -> Prepared,
    relatePrepared: (Geometry, Prepared) -> Matrix,
    closestPoint: (Geometry, Coord) -> Closest,
    haversine: (Coord, Coord) -> real,
    area: Geometry -> real,
    intersectionArea: (Geometry, Geometry) -> real,
    union: (seq<Polygon>, seq<Polygon>) -> seq<Polygon>,
    coveredArea: (Geometry, seq<Polygon>) -> real,
    sphere: Sphere)

  /** For valid geometries, relating against a prepared form equals relating against the plain geometry. */
  ghost predicate PreparedAgrees(geo: Geo) {
    forall c, g :: geo.isValid(c) && geo.isValid(g) ==> geo.relatePrepared(c, geo.prepare(g)) == geo.relate(c, g)
  }

  /** For valid geometries, the boolean test is the matrix test, and those that intersect have boxes that intersect. */
  ghost predicate IntersectsPlanar(geo: Geo) {
    && (forall c, g :: geo.isValid(c) && geo.isValid(g) ==>
          (geo.intersects(c, g) <==> geo.relate(c, g).IsIntersects()))
    && (forall c, g :: geo.isValid(c) && geo.isValid(g) && geo.relate(c, g).IsIntersects() ==>
          BoundingRect(c).Some? && BoundingRect(g).Some? ==>
            RectsIntersect(BoundingRect(g).value, BoundingRect(c).value))
  }

  /** Distance from a point to a rule in meters: 0 inside, infinite when there is no closest point. */
  function PointDistance(geo: Geo, p: Coord, rule: Geometry): Extended {
    match geo.closestPoint(rule, p)
    case Intersection => Proper(0.0)
    case SinglePoint(at) => Proper(geo.haversine(p, at))
    case Indeterminate => PlusInfinity
  }

  /** The fold of `f64::min` over the points, from infinity. */
  function MinPointDistance(geo: Geo, points: seq<Coord>, rule: Geometry): (d: Extended)
    ensures d.Proper? || d.PlusInfinity?
  {
    if points == [] then PlusInfinity
    else MinOf(MinPointDistance(geo, points[..|points| - 1], rule), PointDistance(geo, points[|points| - 1], rule))
  }

  function MinHaversineDistance(geo: Geo, candidate: Geometry, rule: Geometry): Extended {
    match candidate
    case Point(p) => PointDistance(geo, p, rule)
    case MultiPoint(points) => MinPointDistance(geo, points, rule)
    case _ => PlusInfinity
  }

  predicate AtMostMeters(d: Extended, meters: real) { d.Proper? && d.value <= meters }

  /** A multipoint is within a distance of a rule when one of its points is. */
  lemma {:induction false} MultiPointWithin(geo: Geo, points: seq<Coord>, rule: Geometry, meters: real)
    ensures AtMostMeters(MinPointDistance(geo, points, rule), meters)
       <==> exists i :: 0 <= i < |points| && AtMostMeters(PointDistance(geo, points[i], rule), meters)
    decreases |points|
  {
    if points != [] {
      var init := points[..|points| - 1];
      MultiPointWithin(geo, init, rule, meters);
      if i :| 0 <= i < |init| && AtMostMeters(PointDistance(geo, init[i], rule), meters) {
        assert points[i] == init[i];
      }
      if i :| 0 <= i < |points| - 1 && AtMostMeters(PointDistance(geo, points[i], rule), meters) {
        assert init[i] == points[i];
      }
    }
  }
}
