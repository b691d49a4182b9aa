/**
 * What answers mean, in terms of point sets, distances and the two parts of a query, without the functions that
 * compute them.
 */
module Meaning {
  import opened Prelude
  import opened Doubles
  import opened Sequences
  import opened WhereExpr
  import opened Geometry
  import opened PointSets
  import opened Rules
  import opened Query
  import opened Ruleset
  import opened Aggregates
  import opened Semantics
  import opened Session

  /** For valid geometries the library's matrix describes the point sets the geometries stand for. */
  ghost predicate RelateDescribes(geo: Geo, region: Geometry -> Region) {
    forall c, g :: geo.isValid(c) && geo.isValid(g) ==> Describes(geo.relate(c, g), region(c), region(g))
  }

  /** A point of a `Point` or `MultiPoint` geometry. */
  predicate HasPoint(g: Geometry, p: Coord) {
    match g
    case Point(at) => p == at
    case MultiPoint(points) => p in points
    case _ => false
  }

  /** The point lies in the rule, or the rule's closest point is at most `meters` away. */
  predicate Near(geo: Geo, p: Coord, rule: Geometry, meters: real) {
    match geo.closestPoint(rule, p)
    case Intersection => true
    case SinglePoint(at) => geo.haversine(p, at) <= meters
    case Indeterminate => false
  }

  ghost predicate SomePointNear(geo: Geo, candidate: Geometry, rule: Geometry, meters: real) {
    exists p :: HasPoint(candidate, p) && Near(geo, p, rule, meters)
  }

  /** A validated `withinDistance` holds when some point of the candidate lies in the rule or near enough to it. */
  lemma WithinDistanceMeans(geo: Geo, q: Query, candidate: Geometry, rule: Geometry)
    requires q.spatial.WithinDistance? && Validate(q) == None
    ensures q.distanceMeters.Some? && q.distanceMeters.value.Finite? && q.distanceMeters.value.value > 0.0
    ensures SpatialHolds(geo, q, candidate, rule)
       <==> SomePointNear(geo, candidate, rule, q.distanceMeters.value.value)
  {
    var meters := q.distanceMeters.value.value;
    if candidate.Point? {
      assert HasPoint(candidate, candidate.point);
    } else if candidate.MultiPoint? {
      var points := candidate.points;
      MultiPointWithin(geo, points, rule, meters);
      if SomePointNear(geo, candidate, rule, meters) {
        var p :| HasPoint(candidate, p) && Near(geo, p, rule, meters);
        var i :| 0 <= i < |points| && points[i] == p;
        assert AtMostMeters(PointDistance(geo, points[i], rule), meters);
      }
      if i :| 0 <= i < |points| && AtMostMeters(PointDistance(geo, points[i], rule), meters) {
        assert HasPoint(candidate, points[i]) && Near(geo, points[i], rule, meters);
      }
    }
  }

  /** The spatial part of a query, between a candidate and a rule. */
  ghost predicate SpatiallyMeans(geo: Geo, region: Geometry -> Region, q: Query, candidate: Geometry, rule: Geometry) {
    if q.spatial.WithinDistance? then
      && q.distanceMeters.Some? && q.distanceMeters.value.Finite?
      && SomePointNear(geo, candidate, rule, q.distanceMeters.value.value)
    else Related(q.spatial, region(candidate), region(rule))
  }

  lemma SpatialHoldsMeans(geo: Geo, region: Geometry -> Region, q: Query, candidate: Geometry, rule: Geometry)
    requires Validate(q) == None && RelateDescribes(geo, region) && geo.isValid(candidate) && geo.isValid(rule)
    ensures SpatialHolds(geo, q, candidate, rule) <==> SpatiallyMeans(geo, region, q, candidate, rule)
  {
    if q.spatial.WithinDistance? {
      WithinDistanceMeans(geo, q, candidate, rule);
    } else {
      PredicatesRelate(q.spatial, geo.relate(candidate, rule), region(candidate), region(rule));
    }
  }

  /** The ids admitted by `withinDistance`: not excluded, admitted by `where`, near enough, and looked up. */
  lemma AdmittedWithinDistance(geo: Geo, rules: seq<Rule>, owner: nat, q: Query, c: Candidate, i: nat)
    requires q.spatial.WithinDistance? && Validate(q) == None && c.classified.ValidCandidate? && i < |rules|
    ensures RuleId(i, owner) in AdmittedIds(geo, rules, owner, q, c) <==>
      && rules[i].id !in q.excludeRuleIds
      && (q.whereClause.None? || Eval(q.whereClause.value, rules[i].properties, q.at))
      && SomePointNear(geo, c.geometry, rules[i].geometry, q.distanceMeters.value.value)
      && Located(geo, q, c.classified.envelope, rules[i].geometry)
  {
    hide Eval, Located, SpatialHolds, SomePointNear;
    WithinDistanceMeans(geo, q, c.geometry, rules[i].geometry);
    MintMembers(owner, |rules|, PipelineTest(geo, rules, q, c.classified.envelope, c.geometry));
  }

  // ------------------------------------------------ rulesets and queries

  /** A float that is neither infinite nor undefined. */
  predicate FiniteFloat(f: Float64) { f.Finite? || f == NegativeZero }

  /** A rule that can be built: an areal, valid geometry with vertices, no negative priority, and finite properties. */
  ghost predicate Acceptable(geo: Geo, rule: Rule) {
    && (rule.geometry.PolygonGeometry? || rule.geometry.MultiPolygon?)
    && geo.isValid(rule.geometry) && PlanarVertices(rule.geometry) != []
    && rule.priority >= 0
    && forall entry :: entry in rule.properties && entry.value.Float? ==> FiniteFloat(entry.value.f)
  }

  lemma BuildableMeans(geo: Geo, rules: seq<Rule>)
    ensures Buildable(geo, rules) <==>
      && (forall rule :: rule in rules ==> Acceptable(geo, rule))
      && (forall i, j :: 0 <= i < j < |rules| ==> rules[i].id != rules[j].id)
  {
    forall i | 0 <= i < |rules|
      ensures Acceptable(geo, rules[i]) <==>
        && SupportedRuleGeometry(rules[i].geometry) && geo.isValid(rules[i].geometry)
        && rules[i].priority >= 0 && SerializableProperties(rules[i].properties)
        && BoundingRect(rules[i].geometry).Some?
    {
      BoundingRectExact(rules[i].geometry, Rect(Coord(0.0, 0.0), Coord(0.0, 0.0)));
    }
  }

  /** The check a rule fails is the first of these, in this order. */
  lemma RuleErrorsMean(geo: Geo, rules: seq<Rule>, i: nat)
    requires i < |rules|
    ensures var rule := rules[i];
      var areal := rule.geometry.PolygonGeometry? || rule.geometry.MultiPolygon?;
      var finite := forall entry :: entry in rule.properties && entry.value.Float? ==> FiniteFloat(entry.value.f);
      var taken := exists j :: 0 <= j < i && rules[j].id == rule.id;
      match RuleError(geo, rules, i)
      case Some(UnsupportedGeometry) => !areal
      case Some(InvalidGeometry) => areal && !geo.isValid(rule.geometry)
      case Some(NegativePriority) => areal && geo.isValid(rule.geometry) && rule.priority < 0
      case Some(NonFiniteProperty) => areal && geo.isValid(rule.geometry) && rule.priority >= 0 && !finite
      case Some(DuplicateId) => areal && geo.isValid(rule.geometry) && rule.priority >= 0 && finite && taken
      case Some(_) => false
      case None => areal && geo.isValid(rule.geometry) && rule.priority >= 0 && finite && !taken
  {
    if exists k :: 0 <= k < |rules[i].properties| && !rules[i].properties[k].value.IsSerializable() {
      var k :| 0 <= k < |rules[i].properties| && !rules[i].properties[k].value.IsSerializable();
      assert rules[i].properties[k] in rules[i].properties;
    }
  }

  const NOTHING := AggregateSpec(false, None, None, None, None, false)

  /** Which queries are well formed, and what is wrong with the others, the radius first. */
  lemma ValidateMeans(q: Query)
    ensures Validate(q) == None <==>
      && (q.spatial == WithinDistance <==> q.distanceMeters.Some?)
      && (q.distanceMeters.Some? ==> q.distanceMeters.value.Finite? && q.distanceMeters.value.value > 0.0)
      && (q.at.None? && q.whereClause.Some? ==> !HasActiveAt(q.whereClause.value))
      && q.aggregate != Some(NOTHING)
    ensures Validate(q) == Some(PositiveDistanceRequired) <==>
      q.spatial == WithinDistance && forall d :: q.distanceMeters == Some(Finite(d)) ==> d <= 0.0
    ensures Validate(q) == Some(DistanceNotAllowed) <==> q.spatial != WithinDistance && q.distanceMeters.Some?
    ensures Validate(q) in {Some(PositiveDistanceRequired), Some(DistanceNotAllowed), Some(ReferenceTimeRequired),
      Some(NothingRequested), None}
    ensures Validate(q) == Some(NothingRequested) ==> q.aggregate == Some(NOTHING)
    ensures Validate(q) == Some(ReferenceTimeRequired) ==> q.at.None? && q.whereClause.Some?
  {
  }

  /** A rule a query selects for a candidate. */
  ghost predicate Selected(geo: Geo, region: Geometry -> Region, q: Query, candidate: Geometry, rule: Rule) {
    && rule.id !in q.excludeRuleIds
    && (q.whereClause.None? || Eval(q.whereClause.value, rule.properties, q.at))
    && SpatiallyMeans(geo, region, q, candidate, rule.geometry)
  }

  /** A candidate that can be queried: supported, valid and with a bounding box. */
  predicate Queryable(geo: Geo, g: Geometry) {
    !g.OtherGeometry? && geo.isValid(g) && PlanarVertices(g) != []
  }

  /** Why a pair of query and candidate is invalid: the query first, then the candidate, then the two together. */
  lemma InvalidMeans(geo: Geo, q: Query, c: Candidate)
    requires Intake(geo, c)
    ensures Validate(q).Some? ==> InvalidReason(q, c) == Validate(q)
    ensures Validate(q) == None && !Queryable(geo, c.geometry) ==>
      InvalidReason(q, c).Some? && InvalidReason(q, c).value.BadCandidate?
    ensures Validate(q) == None && Queryable(geo, c.geometry) ==>
      InvalidReason(q, c) ==
        if q.spatial == WithinDistance && !c.geometry.Point? && !c.geometry.MultiPoint?
        then Some(PointCandidateRequired) else None
  {
    BoundingRectExact(c.geometry, Rect(Coord(0.0, 0.0), Coord(0.0, 0.0)));
  }

  /**
   * The program's matches, under the library laws: a valid pair matches
   * exactly the selected rules, each once, ascending; it is reported as not
   * matched when there are none.
   */
  lemma MatchesMean(geo: Geo, region: Geometry -> Region, h: HandleView, c: Candidate)
    requires Buildable(geo, h.ruleset.rules) && LawsFor(geo, h, c) && RelateDescribes(geo, region)
    requires InvalidReason(h.query, c) == None
    ensures Evaluated(geo, h, Match, c).MatchAnswer?
    ensures var rules, outcome := h.ruleset.rules, Evaluated(geo, h, Match, c).outcome;
      && (outcome.NotMatched? <==> forall rule :: rule in rules ==> !Selected(geo, region, h.query, c.geometry, rule))
      && (!outcome.NotMatched? ==> outcome.Matched? && MatchedMeans(geo, region, h, c, outcome.ruleIds))
  {
    var rules, q := h.ruleset.rules, h.query;
    EvaluatedIsDefined(geo, h, Match, c);
    var p := Applies(geo, rules, q, c.geometry);
    var ids := Mint(Select(|rules|, p), h.ruleset.id);
    MintMembers(h.ruleset.id, |rules|, p);
    forall i: nat | i < |rules|
      ensures RuleId(i, h.ruleset.id) in ids <==> Selected(geo, region, q, c.geometry, rules[i])
    {
      SpatialHoldsMeans(geo, region, q, c.geometry, rules[i].geometry);
    }
    hide Selected, Evaluated, Applies, LawsFor, RelateDescribes;
    if ids == [] {
      forall rule | rule in rules
        ensures !Selected(geo, region, q, c.geometry, rule)
      {
        var i :| 0 <= i < |rules| && rules[i] == rule;
        assert RuleId(i, h.ruleset.id) !in ids;
      }
    } else {
      var i := ids[0].index;
      assert RuleId(i, h.ruleset.id) in ids && rules[i] in rules;
    }
  }

  ghost predicate MatchedMeans(geo: Geo, region: Geometry -> Region, h: HandleView, c: Candidate, ids: seq<RuleId>) {
    && IdsAscending(ids) && AllOwned(ids, h.ruleset.id)
    && forall i: nat :: RuleId(i, h.ruleset.id) in ids <==>
         i < |h.ruleset.rules| && Selected(geo, region, h.query, c.geometry, h.ruleset.rules[i])
  }

  // ------------------------------------------------ areas

  /** `part` out of `whole`, as magnitudes; nothing has no parts. */
  ghost predicate Fraction(part: real, whole: real, r: real) {
    if whole == 0.0 then r == 0.0 else r * AbsReal(whole) == AbsReal(part)
  }

  /** A fraction of something at least as large lies between 0 and 1. */
  lemma FractionRange(part: real, whole: real, r: real)
    requires Fraction(part, whole, r) && AbsReal(part) <= AbsReal(whole)
    ensures 0.0 <= r <= 1.0
  {
    if whole != 0.0 {
      assert r == AbsReal(part) / AbsReal(whole);
    }
  }

  lemma QuotientIsFraction(part: real, whole: real)
    requires whole != 0.0
    ensures Fraction(part, whole, AbsReal(part) / AbsReal(whole))
  {
  }

  /** The metric of one rule: the size of the shared area and its fraction of the candidate; points have neither. */
  ghost predicate MetricMeans(geo: Geo, candidate: Geometry, rule: Geometry, o: OverlapMetric) {
    if candidate.Point? || candidate.MultiPoint? then o.area == o.ratio == 0.0
    else
      && o.area == AbsReal(geo.intersectionArea(candidate, rule))
      && Fraction(geo.intersectionArea(candidate, rule), geo.area(candidate), o.ratio)
  }

  lemma OverlapMeans(geo: Geo, candidate: Geometry, rule: Geometry)
    ensures MetricMeans(geo, candidate, rule, Overlap(geo, candidate, rule))
  {
    if !IsPoint(candidate) && geo.area(candidate) != 0.0 {
      QuotientIsFraction(geo.intersectionArea(candidate, rule), geo.area(candidate));
    }
  }

  /** Metrics come exactly when asked for and not for distances, one for each matched rule, in the order of the ids. */
  lemma OverlapsMean(geo: Geo, rules: seq<Rule>, q: Query, c: Candidate, ids: seq<RuleId>)
    requires InRange(rules, ids) && MatchOutcome(geo, rules, q, c, ids).Matched?
    ensures var o := MatchOutcome(geo, rules, q, c, ids);
      && o.ruleIds == ids
      && (o.overlaps.Some? <==> q.includeOverlap && q.spatial != WithinDistance)
      && (o.overlaps.Some? ==>
            && |o.overlaps.value| == |ids|
            && forall k :: 0 <= k < |ids| ==>
                 MetricMeans(geo, c.geometry, rules[ids[k].index].geometry, o.overlaps.value[k]))
  {
    hide MetricMeans, Overlap;
    forall k | 0 <= k < |ids|
      ensures MetricMeans(geo, c.geometry, rules[ids[k].index].geometry,
        Overlap(geo, c.geometry, rules[ids[k].index].geometry))
    {
      OverlapMeans(geo, c.geometry, rules[ids[k].index].geometry);
    }
  }

  /** The library joins areas exactly, and measures what of a geometry a set of points covers. */
  ghost predicate UnionExact(geo: Geo, points: seq<Polygon> -> iset<Coord>, size: (Geometry, iset<Coord>) -> real) {
    && (forall a, b :: points(geo.union(a, b)) == points(a) + points(b))
    && (forall g, a :: geo.coveredArea(g, a) == size(g, points(a)))
  }

  /** The points of some of the rules. */
  ghost function PointsOfAll(points: seq<Polygon> -> iset<Coord>, applicable: seq<Rule>): iset<Coord> {
    iset p | SomeRuleHas(points, applicable, p)
  }

  ghost predicate SomeRuleHas(points: seq<Polygon> -> iset<Coord>, applicable: seq<Rule>, p: Coord) {
    exists rule :: rule in applicable && p in points(PolygonsOf(rule.geometry))
  }

  lemma {:induction false} UnionPoints(
      geo: Geo, points: seq<Polygon> -> iset<Coord>, size: (Geometry, iset<Coord>) -> real, applicable: seq<Rule>)
    requires UnionExact(geo, points, size) && applicable != []
    ensures points(UnionOf(geo, applicable)) == PointsOfAll(points, applicable)
    decreases |applicable|
  {
    var init, last := applicable[..|applicable| - 1], applicable[|applicable| - 1];
    assert applicable == init + [last];
    if init != [] {
      UnionPoints(geo, points, size, init);
      assert PointsOfAll(points, applicable) == PointsOfAll(points, init) + points(PolygonsOf(last.geometry));
    } else {
      assert PointsOfAll(points, applicable) == points(PolygonsOf(last.geometry));
    }
  }

  /**
   * The coverage is the fraction of the candidate that the rules' points cover, whatever the order of the rules, when
   * the library joins areas exactly; points are not covered, and no rule covers nothing.
   */
  lemma CoverageMeans(
      geo: Geo, points: seq<Polygon> -> iset<Coord>, size: (Geometry, iset<Coord>) -> real,
      candidate: Geometry, applicable: seq<Rule>)
    requires UnionExact(geo, points, size)
    ensures candidate.Point? || candidate.MultiPoint? || applicable == [] ==>
      Coverage(geo, candidate, applicable) == 0.0
    ensures !candidate.Point? && !candidate.MultiPoint? && applicable != [] ==>
      Fraction(size(candidate, PointsOfAll(points, applicable)), geo.area(candidate),
        Coverage(geo, candidate, applicable))
  {
    if !IsPoint(candidate) && applicable != [] {
      UnionPoints(geo, points, size, applicable);
      if geo.area(candidate) != 0.0 {
        QuotientIsFraction(geo.coveredArea(candidate, UnionOf(geo, applicable)), geo.area(candidate));
      }
    }
  }
}
