/** The fringe box of a rule: the box of its sampled great-circle arcs, when they escape the planar box. */
module SphericalEnvelope {
  import opened Prelude
  import opened Doubles
  import opened Geometry

  const SAMPLE_STEP_DEGREES := 0.1
  const MARGIN_DEGREES := 0.0001
  const PI := 3.141592653589793

  function ToDegrees(radians: real): real { radians * 180.0 / PI }

  function Ceil(r: real): int { -((-r).Floor) }

  /** Number of sub-arcs of an edge; 0 for coincident and antipodal endpoints. */
  function Steps(omega: real): nat {
    if !(0.000000000001 <= omega < PI - 0.000000000001) then 0
    else
      var n := Ceil(ToDegrees(omega) / SAMPLE_STEP_DEGREES);
      if n < 0 then 0 else n
  }

  /** The sub-arcs are the fewest equal ones of at most a tenth of a degree. */
  lemma SubArcsAreShort(omega: real)
    requires 0.000000000001 <= omega < PI - 0.000000000001
    ensures Steps(omega) >= 1
    ensures ToDegrees(omega) <= Steps(omega) as real * 0.1
    ensures (Steps(omega) - 1) as real * 0.1 < ToDegrees(omega)
  {
    var quotient := ToDegrees(omega) / SAMPLE_STEP_DEGREES;
    assert quotient * SAMPLE_STEP_DEGREES == ToDegrees(omega) > 0.0;
    assert quotient > 0.0;
    assert (Ceil(quotient) - 1) as real < quotient <= Ceil(quotient) as real;
  }

  // ------------------------------------------------ the sampled points

  /** The samples with index 1 to `count`, where the library finds a point. */
  function Samples(sphere: Sphere, start: Coord, end: Coord, omega: real, steps: nat, count: nat): seq<Coord>
    requires count == 0 || count < steps
  {
    if count == 0 then []
    else
      Samples(sphere, start, end, omega, steps, count - 1)
      + match sphere.interpolate(start, end, omega, count as real / steps as real)
        case Some(p) => [p]
        case None => []
  }

  function ArcPoints(sphere: Sphere, start: Coord, end: Coord): seq<Coord> {
    var omega := sphere.centralAngle(start, end);
    var steps := Steps(omega);
    [start, end] + Samples(sphere, start, end, omega, steps, if steps == 0 then 0 else steps - 1)
  }

  /** The points of the first `count` edges of a ring. */
  function RingPrefix(sphere: Sphere, ring: seq<Coord>, count: nat): seq<Coord>
    requires count == 0 || count < |ring|
  {
    if count == 0 then []
    else RingPrefix(sphere, ring, count - 1) + ArcPoints(sphere, ring[count - 1], ring[count])
  }

  function RingPoints(sphere: Sphere, ring: seq<Coord>): seq<Coord> {
    RingPrefix(sphere, ring, if ring == [] then 0 else |ring| - 1)
  }

  function HolesPrefix(sphere: Sphere, holes: seq<seq<Coord>>, count: nat): seq<Coord>
    requires count <= |holes|
  {
    if count == 0 then [] else HolesPrefix(sphere, holes, count - 1) + RingPoints(sphere, holes[count - 1])
  }

  function PolygonPoints(sphere: Sphere, polygon: Polygon): seq<Coord> {
    RingPoints(sphere, polygon.exterior) + HolesPrefix(sphere, polygon.interiors, |polygon.interiors|)
  }

  function PolygonsPrefix(sphere: Sphere, polygons: seq<Polygon>, count: nat): seq<Coord>
    requires count <= |polygons|
  {
    if count == 0 then [] else PolygonsPrefix(sphere, polygons, count - 1) + PolygonPoints(sphere, polygons[count - 1])
  }

  /** Every point the walk samples; empty for the types that are never rules. */
  function SampledPoints(sphere: Sphere, g: Geometry): seq<Coord> {
    match g
    case PolygonGeometry(polygon) => PolygonPoints(sphere, polygon)
    case MultiPolygon(polygons) => PolygonsPrefix(sphere, polygons, |polygons|)
    case _ => []
  }

  function Widen(r: Rect, margin: real): Rect {
    Rect(Coord(r.min.x - margin, r.min.y - margin), Coord(r.max.x + margin, r.max.y + margin))
  }

  /** The fringe box by its definition: the widened box of the samples, unless the planar box already holds them. */
  function FringeBoxOf(sphere: Sphere, g: Geometry, planar: Rect): Option<Rect> {
    match BoxOf(SampledPoints(sphere, g))
    case None => None
    case Some(arcs) => if ContainsRect(planar, arcs) then None else Some(Widen(arcs, MARGIN_DEGREES))
  }

  // ------------------------------------------------ the walk

  lemma BoxGrows(points: seq<Coord>, p: Coord)
    ensures BoxOf(points + [p]) ==
      match BoxOf(points) case None => Some(Rect(p, p)) case Some(r) => Some(Grow(r, p))
  {
    assert (points + [p])[..|points|] == points;
  }

  lemma RunningExtremes(least: Extended, greatest: Extended, x: real)
    ensures least == PlusInfinity ==> MinOf(least, Proper(x)) == Proper(x)
    ensures greatest == MinusInfinity ==> MaxOf(greatest, Proper(x)) == Proper(x)
    ensures least.Proper? ==> MinOf(least, Proper(x)) == Proper(MinReal(least.value, x))
    ensures greatest.Proper? ==> MaxOf(greatest, Proper(x)) == Proper(MaxReal(greatest.value, x))
  {
  }

  /** A running minimum and maximum over the sampled points. */
  class Bounds {
    var minX: Extended
    var minY: Extended
    var maxX: Extended
    var maxY: Extended
    var empty: bool
    ghost var points: seq<Coord>

    ghost predicate Valid()
      reads this
    {
      && (empty <==> points == [])
      && (empty ==> minX == minY == PlusInfinity && maxX == maxY == MinusInfinity)
      && (!empty ==>
            && minX.Proper? && minY.Proper? && maxX.Proper? && maxY.Proper?
            && BoxOf(points) == Some(Rect(Coord(minX.value, minY.value), Coord(maxX.value, maxY.value))))
    }

    constructor Empty()
      ensures Valid() && points == []
    {
      minX, minY, maxX, maxY := PlusInfinity, PlusInfinity, MinusInfinity, MinusInfinity;
      empty, points := true, [];
    }

    method Add(p: Coord)
      requires Valid()
      modifies this
      ensures Valid() && points == old(points) + [p]
    {
      BoxGrows(points, p);
      RunningExtremes(minX, maxX, p.x);
      RunningExtremes(minY, maxY, p.y);
      hide BoxOf, MinOf, MaxOf;
      minX := MinOf(minX, Proper(p.x));
      minY := MinOf(minY, Proper(p.y));
      maxX := MaxOf(maxX, Proper(p.x));
      maxY := MaxOf(maxY, Proper(p.y));
      empty := false;
      points := points + [p];
    }

    method AddArc(sphere: Sphere, start: Coord, end: Coord)
      requires Valid()
      modifies this
      ensures Valid() && points == old(points) + ArcPoints(sphere, start, end)
    {
      hide BoxOf;
      ghost var before := points;
      Add(start);
      Add(end);
      assert points == before + [start, end];
      var omega := sphere.centralAngle(start, end);
      if !(0.000000000001 <= omega < PI - 0.000000000001) {
        assert ArcPoints(sphere, start, end) == [start, end];
        return;
      }
      var steps := Steps(omega);
      var index := 1;
      while index < steps
        invariant Valid()
        invariant index == 1 || 1 <= index <= steps
        invariant points == before + ([start, end] + Samples(sphere, start, end, omega, steps, index - 1))
      {
        ghost var base := [start, end] + Samples(sphere, start, end, omega, steps, index - 1);
        var sample := sphere.interpolate(start, end, omega, index as real / steps as real);
        if sample.Some? {
          Add(sample.value);
          assert points == before + (base + [sample.value]);
          assert base + [sample.value] == [start, end] + Samples(sphere, start, end, omega, steps, index);
        } else {
          assert base == [start, end] + Samples(sphere, start, end, omega, steps, index);
        }
        index := index + 1;
      }
    }

    method AddRing(sphere: Sphere, ring: seq<Coord>)
      requires Valid()
      modifies this
      ensures Valid() && points == old(points) + RingPoints(sphere, ring)
    {
      hide ArcPoints, BoxOf;
      ghost var before := points;
      var i := 0;
      while i + 1 < |ring|
        invariant Valid()
        invariant i == 0 || i < |ring|
        invariant points == before + RingPrefix(sphere, ring, i)
      {
        ghost var prefix := RingPrefix(sphere, ring, i);
        AddArc(sphere, ring[i], ring[i + 1]);
        i := i + 1;
        assert RingPrefix(sphere, ring, i) == prefix + ArcPoints(sphere, ring[i - 1], ring[i]);
        assert points == before + (prefix + ArcPoints(sphere, ring[i - 1], ring[i]));
      }
    }

    method AddPolygon(sphere: Sphere, polygon: Polygon)
      requires Valid()
      modifies this
      ensures Valid() && points == old(points) + PolygonPoints(sphere, polygon)
    {
      ghost var before := points;
      AddRing(sphere, polygon.exterior);
      ghost var outer := RingPoints(sphere, polygon.exterior);
      for i := 0 to |polygon.interiors|
        invariant Valid()
        invariant points == before + (outer + HolesPrefix(sphere, polygon.interiors, i))
      {
        ghost var holes := HolesPrefix(sphere, polygon.interiors, i);
        AddRing(sphere, polygon.interiors[i]);
        assert points == before + (outer + (holes + RingPoints(sphere, polygon.interiors[i])));
      }
    }

    /** The accumulated box widened by `margin`. */
    method ToRect(margin: real) returns (r: Option<Rect>)
      requires Valid() && margin >= 0.0
      ensures r == match BoxOf(points) case None => None case Some(b) => Some(Widen(b, margin))
    {
      if empty {
        return None;
      }
      return Some(RectOf(
        Coord(minX.value - margin, minY.value - margin), Coord(maxX.value + margin, maxY.value + margin)));
    }
  }

  method FringeBox(sphere: Sphere, g: Geometry, planar: Rect) returns (r: Option<Rect>)
    ensures r == FringeBoxOf(sphere, g, planar)
  {
    var bounds := new Bounds.Empty();
    match g {
      case PolygonGeometry(polygon) =>
        bounds.AddPolygon(sphere, polygon);
      case MultiPolygon(polygons) =>
        for i := 0 to |polygons|
          invariant bounds.Valid() && fresh(bounds)
          invariant bounds.points == PolygonsPrefix(sphere, polygons, i)
        {
          bounds.AddPolygon(sphere, polygons[i]);
        }
      case _ =>
        return None;
    }
    assert bounds.points == SampledPoints(sphere, g);
    var arcs := bounds.ToRect(0.0);
    if arcs.None? {
      return None;
    }
    assert Widen(BoxOf(bounds.points).value, 0.0) == BoxOf(bounds.points).value;
    if ContainsRect(planar, arcs.value) {
      return None;
    }
    r := bounds.ToRect(MARGIN_DEGREES);
  }

  // ------------------------------------------------ what the boxes cover

  /** Rings are closed lines: an exterior ring with a point has an edge. */
  predicate RingsHaveEdges(polygons: seq<Polygon>) {
    forall p :: p in polygons ==> |p.exterior| != 1
  }

  /** A valid geometry has no exterior ring of a single point. */
  ghost predicate ValidRings(geo: Geo) {
    forall g :: geo.isValid(g) ==> RingsHaveEdges(PolygonsOf(g))
  }

  lemma {:induction false} RingVerticesSampled(sphere: Sphere, ring: seq<Coord>, count: nat, i: nat)
    requires count < |ring| && count >= 1 && i <= count
    ensures ring[i] in RingPrefix(sphere, ring, count)
    decreases count
  {
    var arc := ArcPoints(sphere, ring[count - 1], ring[count]);
    assert arc[0] == ring[count - 1] && arc[1] == ring[count];
    if i < count - 1 {
      RingVerticesSampled(sphere, ring, count - 1, i);
    } else if i == count - 1 {
      assert ring[i] in arc;
    } else {
      assert ring[i] in arc;
    }
  }

  lemma {:induction false} ExteriorsSampled(sphere: Sphere, polygons: seq<Polygon>, v: Coord)
    requires RingsHaveEdges(polygons) && v in Exteriors(polygons)
    ensures v in PolygonsPrefix(sphere, polygons, |polygons|)
  {
    var k, i := ExteriorOwner(polygons, v);
    RingVerticesSampled(sphere, polygons[k].exterior, |polygons[k].exterior| - 1, i);
    PrefixHas(sphere, polygons, |polygons|, k, v);
  }

  lemma {:induction false} ExteriorOwner(polygons: seq<Polygon>, v: Coord) returns (k: nat, i: nat)
    requires v in Exteriors(polygons)
    ensures k < |polygons| && i < |polygons[k].exterior| && polygons[k].exterior[i] == v
  {
    if v in polygons[0].exterior {
      k := 0;
      i :| 0 <= i < |polygons[0].exterior| && polygons[0].exterior[i] == v;
    } else {
      k, i := ExteriorOwner(polygons[1..], v);
      k := k + 1;
    }
  }

  lemma {:induction false} PrefixHas(sphere: Sphere, polygons: seq<Polygon>, count: nat, k: nat, v: Coord)
    requires k < count <= |polygons| && v in PolygonPoints(sphere, polygons[k])
    ensures v in PolygonsPrefix(sphere, polygons, count)
    decreases count
  {
    hide PolygonPoints;
    if k < count - 1 {
      PrefixHas(sphere, polygons, count - 1, k, v);
    }
  }

  /** The box of the samples contains the planar box of the geometry. */
  lemma SamplesCoverPlanar(sphere: Sphere, g: Geometry)
    requires g.PolygonGeometry? || g.MultiPolygon?
    requires RingsHaveEdges(PolygonsOf(g)) && BoundingRect(g).Some?
    ensures BoxOf(SampledPoints(sphere, g)).Some?
    ensures ContainsRect(BoxOf(SampledPoints(sphere, g)).value, BoundingRect(g).value)
  {
    var vertices := if g.PolygonGeometry? then g.polygon.exterior else Exteriors(g.polygons);
    BoxOfTight(vertices);
    var points, planar := SampledPoints(sphere, g), BoundingRect(g).value;
    forall v | v in vertices
      ensures v in points
    {
      if g.MultiPolygon? {
        ExteriorsSampled(sphere, g.polygons, v);
      } else {
        assert g.polygon in PolygonsOf(g);
        var i :| 0 <= i < |vertices| && vertices[i] == v;
        RingVerticesSampled(sphere, vertices, |vertices| - 1, i);
      }
    }
    assert vertices[0] in points;
    BoxOfTight(points);
    CornersCovered(vertices, points, planar, BoxOf(points).value);
  }

  lemma CornersCovered(vertices: seq<Coord>, points: seq<Coord>, planar: Rect, arcs: Rect)
    requires TightBox(vertices, planar) && TightBox(points, arcs)
    requires forall v :: v in vertices ==> v in points
    ensures ContainsRect(arcs, planar)
  {
    forall i | 0 <= i < |vertices|
      ensures arcs.Has(vertices[i])
    {
      assert vertices[i] in points;
    }
  }

  /** An emitted fringe box is the least box around the sampled points, widened by the margin. */
  lemma FringeIsTight(sphere: Sphere, g: Geometry, planar: Rect)
    requires FringeBoxOf(sphere, g, planar).Some?
    ensures TightBox(SampledPoints(sphere, g), Widen(FringeBoxOf(sphere, g, planar).value, -0.0001))
  {
    var points := SampledPoints(sphere, g);
    BoxOfTight(points);
    var box := BoxOf(points).value;
    assert Widen(Widen(box, MARGIN_DEGREES), -0.0001) == box;
    hide BoxOf, TightBox, SampledPoints;
  }

  /** It holds every sampled point and the planar box widened by the margin on all sides. */
  lemma FringeCovers(sphere: Sphere, g: Geometry, p: Coord)
    requires g.PolygonGeometry? || g.MultiPolygon?
    requires RingsHaveEdges(PolygonsOf(g)) && BoundingRect(g).Some?
    ensures FringeBoxOf(sphere, g, BoundingRect(g).value).Some? ==>
      var fringe := FringeBoxOf(sphere, g, BoundingRect(g).value).value;
      && fringe.Valid()
      && ContainsRect(fringe, Widen(BoundingRect(g).value, 0.0001))
      && (p in SampledPoints(sphere, g) ==> fringe.Has(p))
    ensures FringeBoxOf(sphere, g, BoundingRect(g).value).None? ==>
      (p in SampledPoints(sphere, g) ==> BoundingRect(g).value.Has(p))
  {
    SamplesCoverPlanar(sphere, g);
    BoxOfTight(SampledPoints(sphere, g));
    if p in SampledPoints(sphere, g) {
      var i :| 0 <= i < |SampledPoints(sphere, g)| && SampledPoints(sphere, g)[i] == p;
    }
  }

  /** The one box the distance lookup sees: the fringe if there is one, else the planar box. */
  function EffectiveBox(sphere: Sphere, g: Geometry, planar: Rect): Rect {
    match FringeBoxOf(sphere, g, planar)
    case Some(fringe) => fringe
    case None => planar
  }

  /** Looking a rectangle up in both indexes and merging equals one lookup on the effective box. */
  lemma TwoIndexesActAsOne(sphere: Sphere, g: Geometry, query: Rect)
    requires g.PolygonGeometry? || g.MultiPolygon?
    requires RingsHaveEdges(PolygonsOf(g)) && BoundingRect(g).Some?
    ensures var planar := BoundingRect(g).value;
      RectsIntersect(EffectiveBox(sphere, g, planar), query) <==>
      RectsIntersect(planar, query)
      || (FringeBoxOf(sphere, g, planar).Some? && RectsIntersect(FringeBoxOf(sphere, g, planar).value, query))
  {
    FringeCovers(sphere, g, Coord(0.0, 0.0));
  }
}
