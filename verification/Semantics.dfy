/** What a query means: one ascending filter over the rules, and the outcomes built on it. */
module Semantics {
  import opened Prelude
  import opened Sequences
  import opened Properties
  import opened WhereExpr
  import opened Geometry
  import opened SphericalEnvelope
  import opened Rules
  import opened Query
  import opened Ruleset
  import opened Aggregates
  import opened Distance

  // ------------------------------------------------ candidates

  datatype CandidateClass = ValidCandidate(envelope: Rect) | InvalidCandidate(reason: string)

  datatype Candidate = Candidate(id: string, geometry: Geometry, classified: CandidateClass)

  /** Classification at intake: a supported, valid geometry with a bounding box. */
  function Classify(geo: Geo, g: Geometry): CandidateClass {
    if g.OtherGeometry? then InvalidCandidate("unsupported geometry type: " + g.name)
    else if !geo.isValid(g) then InvalidCandidate("invalid geometry")
    else
      match BoundingRect(g)
      case Some(envelope) => ValidCandidate(envelope)
      case None => InvalidCandidate("geometry has no bounding rectangle")
  }

  /** A candidate's class is the one its geometry was given at intake. */
  predicate Intake(geo: Geo, c: Candidate) { c.classified == Classify(geo, c.geometry) }

  // ------------------------------------------------ the filter

  predicate AdmittedByProperties(q: Query, rule: Rule) {
    && rule.id !in q.excludeRuleIds
    && (q.whereClause.Some? ==> Eval(q.whereClause.value, rule.properties, q.at))
  }

  function Radius(q: Query): Option<real> {
    match q.distanceMeters
    case Some(d) => if PositiveFinite(d) then Some(d.value) else None
    case None => None
  }

  /** The spatial predicate between a candidate and a rule, by definition. */
  predicate SpatialHolds(geo: Geo, q: Query, candidate: Geometry, rule: Geometry) {
    if q.spatial.WithinDistance? then
      Radius(q).Some? && AtMostMeters(MinHaversineDistance(geo, candidate, rule), Radius(q).value)
    else PredicateHolds(q.spatial, geo.relate(candidate, rule))
  }

  function Applies(geo: Geo, rules: seq<Rule>, q: Query, candidate: Geometry): nat -> bool {
    (i: nat) => i < |rules| && AdmittedByProperties(q, rules[i]) && SpatialHolds(geo, q, candidate, rules[i].geometry)
  }

  /** The applicable rules: predicate holds, `where` admits, not excluded; ascending. */
  function ApplicablePositions(geo: Geo, rules: seq<Rule>, q: Query, candidate: Geometry): seq<nat> {
    Select(|rules|, Applies(geo, rules, q, candidate))
  }

  // ------------------------------------------------ the pipeline's filter

  /** Some lookup meets the planar box or the fringe box of the rule. */
  predicate LooksUp(geo: Geo, rects: seq<Rect>, rule: Geometry) {
    var fringe := FringeBoxOf(geo.sphere, rule, PlanarBox(rule));
    MeetsSome(rects, PlanarBox(rule)) || (fringe.Some? && MeetsSome(rects, fringe.value))
  }

  /** Whether the index lookups of the pipeline reach the rule's boxes. */
  predicate Located(geo: Geo, q: Query, bbox: Rect, rule: Geometry) {
    if q.spatial.WithinDistance? then
      Radius(q).Some? && LooksUp(geo, LookupRects(ExpandEnvelope(geo.sphere, bbox, Radius(q).value)), rule)
    else RectsIntersect(PlanarBox(rule), bbox)
  }

  /** The exact check of the pipeline: `intersects` uses the boolean test. */
  predicate Confirmed(geo: Geo, q: Query, candidate: Geometry, rule: Geometry) {
    if q.spatial.Intersects? then geo.intersects(candidate, rule) else SpatialHolds(geo, q, candidate, rule)
  }

  function PipelineTest(geo: Geo, rules: seq<Rule>, q: Query, bbox: Rect, candidate: Geometry): nat -> bool {
    (i: nat) => i < |rules| && Located(geo, q, bbox, rules[i].geometry)
      && AdmittedByProperties(q, rules[i]) && Confirmed(geo, q, candidate, rules[i].geometry)
  }

  function PipelinePositions(geo: Geo, rules: seq<Rule>, q: Query, bbox: Rect, candidate: Geometry): seq<nat> {
    Select(|rules|, PipelineTest(geo, rules, q, bbox, candidate))
  }

  /**
   * A rule within the distance has a point in its effective box that the expanded envelope
   * reaches, modulo whole turns.
   */
  ghost predicate DistanceReaches(geo: Geo, q: Query, bbox: Rect, candidate: Geometry, rule: Geometry) {
    q.spatial.WithinDistance? && Radius(q).Some? && SpatialHolds(geo, q, candidate, rule) ==>
      exists p ::
        && EffectiveBox(geo.sphere, rule, PlanarBox(rule)).Has(p)
        && Reaches(ExpandEnvelope(geo.sphere, bbox, Radius(q).value), p)
  }

  /** The hypotheses about the geometry library under which the pipeline computes the definition. */
  ghost predicate LibraryLaws(geo: Geo, rules: seq<Rule>, q: Query, bbox: Rect, candidate: Geometry) {
    && IntersectsPlanar(geo)
    && forall i :: 0 <= i < |rules| ==> DistanceReaches(geo, q, bbox, candidate, rules[i].geometry)
  }

  lemma LocatedWhenHolds(geo: Geo, q: Query, bbox: Rect, candidate: Geometry, rule: Geometry)
    requires IntersectsPlanar(geo) && DistanceReaches(geo, q, bbox, candidate, rule)
    requires geo.isValid(candidate) && geo.isValid(rule)
    requires BoundingRect(candidate) == Some(bbox) && BoundingRect(rule).Some?
    ensures SpatialHolds(geo, q, candidate, rule) <==> Located(geo, q, bbox, rule) && Confirmed(geo, q, candidate, rule)
  {
    if q.spatial.WithinDistance? {
      if SpatialHolds(geo, q, candidate, rule) {
        var e := ExpandEnvelope(geo.sphere, bbox, Radius(q).value);
        var p: Coord :| EffectiveBox(geo.sphere, rule, PlanarBox(rule)).Has(p) && Reaches(e, p);
        ReachedBoxIsHit(e, EffectiveBox(geo.sphere, rule, PlanarBox(rule)), p);
      }
    } else {
      MatrixLaws(q.spatial, geo.relate(candidate, rule));
    }
  }

  /** The index pre-filter drops no applicable rule and the exact check admits no other. */
  lemma PipelineIsDefinition(geo: Geo, rules: seq<Rule>, q: Query, bbox: Rect, candidate: Geometry)
    requires Buildable(geo, rules) && geo.isValid(candidate) && BoundingRect(candidate) == Some(bbox)
    requires LibraryLaws(geo, rules, q, bbox, candidate)
    ensures PipelinePositions(geo, rules, q, bbox, candidate) == ApplicablePositions(geo, rules, q, candidate)
  {
    var p, a := PipelineTest(geo, rules, q, bbox, candidate), Applies(geo, rules, q, candidate);
    forall i: nat | i < |rules|
      ensures p(i) == a(i)
    {
      LocatedWhenHolds(geo, q, bbox, candidate, rules[i].geometry);
    }
    SelectCongruent(|rules|, p, a);
  }

  // ------------------------------------------------ outcomes

  /** Why a candidate is invalid for a query: the query, the candidate, or the pair. */
  function InvalidReason(q: Query, c: Candidate): Option<Reason> {
    if Validate(q).Some? then Validate(q)
    else if c.classified.InvalidCandidate? then Some(BadCandidate(c.classified.reason))
    else if q.spatial.WithinDistance? && !IsPoint(c.geometry) then Some(PointCandidateRequired)
    else None
  }

  datatype OverlapMetric = OverlapMetric(area: real, ratio: real)

  function CandidateArea(geo: Geo, g: Geometry): real {
    if IsPoint(g) then 0.0 else AbsReal(geo.area(g))
  }

  function Overlap(geo: Geo, candidate: Geometry, rule: Geometry): OverlapMetric {
    if IsPoint(candidate) then OverlapMetric(0.0, 0.0)
    else
      var area := AbsReal(geo.intersectionArea(candidate, rule));
      OverlapMetric(area, if CandidateArea(geo, candidate) > 0.0 then area / CandidateArea(geo, candidate) else 0.0)
  }

  function OverlapsOf(geo: Geo, rules: seq<Rule>, candidate: Geometry, ids: seq<RuleId>): seq<OverlapMetric>
    requires forall k :: 0 <= k < |ids| ==> ids[k].index < |rules|
  {
    seq(|ids|, k requires 0 <= k < |ids| => Overlap(geo, candidate, rules[ids[k].index].geometry))
  }

  function PropertiesOf(rules: seq<Rule>, ids: seq<RuleId>): seq<Properties>
    requires forall k :: 0 <= k < |ids| ==> ids[k].index < |rules|
  {
    seq(|ids|, k requires 0 <= k < |ids| => rules[ids[k].index].properties)
  }

  datatype CandidateOutcome =
    | Matched(ruleIds: seq<RuleId>, overlaps: Option<seq<OverlapMetric>>, aggregate: Option<Aggregate>)
    | NotMatched
    | Invalid(reason: Reason)

  function RulesOf(rules: seq<Rule>, ids: seq<RuleId>): (r: seq<Rule>)
    requires forall k :: 0 <= k < |ids| ==> ids[k].index < |rules|
    ensures |r| == |ids| && forall k :: 0 <= k < |r| ==> r[k] == rules[ids[k].index]
  {
    seq(|ids|, k requires 0 <= k < |ids| => rules[ids[k].index])
  }

  predicate InRange(rules: seq<Rule>, ids: seq<RuleId>) {
    forall k :: 0 <= k < |ids| ==> ids[k].index < |rules|
  }

  lemma MintInRange(rules: seq<Rule>, owner: nat, p: nat -> bool)
    ensures InRange(rules, Mint(Select(|rules|, p), owner))
  {
    var s := Select(|rules|, p);
    forall k | 0 <= k < |s|
      ensures s[k] < |rules|
    {
      assert s[k] in s;
    }
  }

  /** The match outcome of a candidate with these admitted ids. */
  function MatchOutcome(geo: Geo, rules: seq<Rule>, q: Query, c: Candidate, ids: seq<RuleId>): CandidateOutcome
    requires InRange(rules, ids)
  {
    match InvalidReason(q, c)
    case Some(reason) => Invalid(reason)
    case None =>
      if ids == [] then NotMatched
      else
        Matched(ids,
          if q.includeOverlap && !q.spatial.WithinDistance?
            then Some(OverlapsOf(geo, rules, c.geometry, ids)) else None,
          match q.aggregate
          case Some(spec) => Some(Computed(geo, spec, c.geometry, RulesOf(rules, ids)))
          case None => None)
  }

  /** The outcome by definition: the naive filter over the rules. */
  function Outcome(geo: Geo, rules: seq<Rule>, owner: nat, q: Query, c: Candidate): CandidateOutcome {
    MintInRange(rules, owner, Applies(geo, rules, q, c.geometry));
    MatchOutcome(geo, rules, q, c, Mint(ApplicablePositions(geo, rules, q, c.geometry), owner))
  }

  /** The compact form: 0 no match, 1 match, 2 invalid. */
  function MaskOf(q: Query, c: Candidate, ids: seq<RuleId>): nat {
    if InvalidReason(q, c).Some? then 2 else if ids == [] then 0 else 1
  }

  /** The ids the pipeline admits for a candidate: its filter, minted for `owner`. */
  function AdmittedIds(geo: Geo, rules: seq<Rule>, owner: nat, q: Query, c: Candidate): (r: seq<RuleId>)
    ensures InRange(rules, r)
  {
    match c.classified
    case InvalidCandidate(_) => []
    case ValidCandidate(bbox) =>
      MintInRange(rules, owner, PipelineTest(geo, rules, q, bbox, c.geometry));
      Mint(PipelinePositions(geo, rules, q, bbox, c.geometry), owner)
  }

  /** Under the library laws the pipeline's outcome is the outcome by definition. */
  lemma PipelineOutcome(geo: Geo, rules: seq<Rule>, owner: nat, q: Query, c: Candidate)
    requires Buildable(geo, rules) && Intake(geo, c)
    requires c.classified.ValidCandidate? ==> LibraryLaws(geo, rules, q, c.classified.envelope, c.geometry)
    ensures MatchOutcome(geo, rules, q, c, AdmittedIds(geo, rules, owner, q, c)) == Outcome(geo, rules, owner, q, c)
    ensures MaskOf(q, c, AdmittedIds(geo, rules, owner, q, c)) ==
      MaskOf(q, c, Mint(ApplicablePositions(geo, rules, q, c.geometry), owner))
  {
    if c.classified.ValidCandidate? {
      PipelineIsDefinition(geo, rules, q, c.classified.envelope, c.geometry);
    }
  }

  /**
   * In a built ruleset every numeric property contributes a finite number, so the aggregate
   * obeys the laws of averages.
   */
  lemma BuiltAggregateLaws(geo: Geo, rules: seq<Rule>, spec: AggregateSpec, candidate: Geometry, ids: seq<RuleId>,
      field: string)
    requires Buildable(geo, rules) && InRange(rules, ids)
    requires spec.min == spec.max == spec.sum == spec.avg == Some(field)
    ensures var a, n := Computed(geo, spec, candidate, RulesOf(rules, ids)), |Contributors(field, RulesOf(rules, ids))|;
      if n == 0 then a.min == a.max == a.sum == a.avg == None
      else Averaged(n, a.min, a.avg, a.max, a.sum)
  {
    hide Computed, Averaged, Contributors;
    var applicable := RulesOf(rules, ids);
    forall k | 0 <= k < |applicable|
      ensures FiniteAt(applicable[k].properties, field)
    {
      var p := applicable[k].properties;
      assert SerializableProperties(p);
      if Get(p, field).Some? {
        var i :| 0 <= i < |p| && p[i].name == field;
        assert p[i].value.IsSerializable();
      }
    }
    AverageLaws(geo, spec, candidate, applicable, field);
  }
}
