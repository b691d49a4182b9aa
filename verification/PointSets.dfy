/** What the DE-9IM predicates say about the point sets a matrix describes. */
module PointSets {
  import opened Geometry

  /** A geometry as points: its interior and its boundary; all other points are its exterior. */
  datatype Region = Region(interior: iset<Coord>, boundary: iset<Coord>) {
    ghost function Points(): iset<Coord> { interior + boundary }
  }

  ghost predicate Meet(a: iset<Coord>, b: iset<Coord>) { exists p :: p in a && p in b }

  ghost predicate Inside(a: iset<Coord>, b: iset<Coord>) { a <= b }

  /** Every entry of the matrix is `F` exactly when the two parts it stands for have no point in common. */
  ghost predicate Describes(m: Matrix, a: Region, b: Region) {
    && (m.ii != F <==> Meet(a.interior, b.interior))
    && (m.ib != F <==> Meet(a.interior, b.boundary))
    && (m.ie != F <==> !Inside(a.interior, b.Points()))
    && (m.bi != F <==> Meet(a.boundary, b.interior))
    && (m.bb != F <==> Meet(a.boundary, b.boundary))
    && (m.be != F <==> !Inside(a.boundary, b.Points()))
    && (m.ei != F <==> !Inside(b.interior, a.Points()))
    && (m.eb != F <==> !Inside(b.boundary, a.Points()))
    && (m.ee != F <==> SomeOutside(a, b))
  }

  ghost predicate SomeOutside(a: Region, b: Region) { exists p :: p !in a.Points() && p !in b.Points() }

  /** The named spatial relations, as relations between point sets. */
  ghost predicate Related(p: SpatialPredicate, a: Region, b: Region)
    requires !p.WithinDistance?
  {
    match p
    case Intersects => Meet(a.Points(), b.Points())
    case Contains => Inside(b.Points(), a.Points()) && Meet(a.interior, b.interior)
    case Within => Inside(a.Points(), b.Points()) && Meet(a.interior, b.interior)
    case Covers => Inside(b.Points(), a.Points()) && Meet(a.Points(), b.Points())
    case CoveredBy => Inside(a.Points(), b.Points()) && Meet(a.Points(), b.Points())
    case Touches => Meet(a.Points(), b.Points()) && !Meet(a.interior, b.interior)
    case Overlaps =>
      Meet(a.interior, b.interior) && !Inside(a.interior, b.Points()) && !Inside(b.interior, a.Points())
  }

  /** Inclusion and meeting, part by part. */
  lemma ByParts(a: Region, b: Region)
    ensures Inside(a.Points(), b.Points()) <==> Inside(a.interior, b.Points()) && Inside(a.boundary, b.Points())
    ensures Meet(a.Points(), b.Points()) <==>
      || Meet(a.interior, b.interior) || Meet(a.interior, b.boundary)
      || Meet(a.boundary, b.interior) || Meet(a.boundary, b.boundary)
  {
    if Meet(a.Points(), b.Points()) {
      var p :| p in a.Points() && p in b.Points();
    }
  }

  lemma IntersectionsRelate(m: Matrix, a: Region, b: Region)
    requires Describes(m, a, b)
    ensures m.ii != F <==> Meet(a.interior, b.interior)
    ensures m.ii != F || m.ib != F || m.bi != F || m.bb != F <==> Meet(a.Points(), b.Points())
  {
    ByParts(a, b);
    hide Meet, Inside, SomeOutside, Region.Points;
  }

  lemma InclusionsRelate(m: Matrix, a: Region, b: Region)
    requires Describes(m, a, b)
    ensures m.ie == F <==> Inside(a.interior, b.Points())
    ensures m.ei == F <==> Inside(b.interior, a.Points())
    ensures m.ie == m.be == F <==> Inside(a.Points(), b.Points())
    ensures m.ei == m.eb == F <==> Inside(b.Points(), a.Points())
  {
    ByParts(a, b);
    ByParts(b, a);
    hide Meet, Inside, SomeOutside, Region.Points;
  }

  /** On a matrix that describes two point sets, every predicate holds exactly when the sets are so related. */
  lemma PredicatesRelate(p: SpatialPredicate, m: Matrix, a: Region, b: Region)
    requires !p.WithinDistance? && Describes(m, a, b)
    ensures PredicateHolds(p, m) <==> Related(p, a, b)
  {
    hide Describes, Meet, Inside, Region.Points;
    IntersectionsRelate(m, a, b);
    InclusionsRelate(m, a, b);
  }

  /** A set whose interior reaches into whatever its boundary reaches into, as a closed area does. */
  ghost predicate Solid(a: Region, other: Region) {
    Inside(a.interior, other.Points()) ==> Inside(a.boundary, other.Points())
  }

  /** Overlapping sets each have a point the other lacks; for solid sets with meeting interiors that is all it takes. */
  lemma OverlapsLacks(m: Matrix, a: Region, b: Region)
    requires Describes(m, a, b)
    ensures PredicateHolds(Overlaps, m) ==>
      Meet(a.interior, b.interior) && !Inside(a.Points(), b.Points()) && !Inside(b.Points(), a.Points())
    ensures Solid(a, b) && Solid(b, a) ==>
      (PredicateHolds(Overlaps, m) <==>
        Meet(a.interior, b.interior) && !Inside(a.Points(), b.Points()) && !Inside(b.Points(), a.Points()))
  {
    ByParts(a, b);
    ByParts(b, a);
    hide Describes, Meet, Inside, Region.Points;
    IntersectionsRelate(m, a, b);
    InclusionsRelate(m, a, b);
  }
}
