/** Prepared queries: the evaluation pipeline over reusable buffers and the lazy memo. */
module Evaluate {
  import opened Prelude
  import opened Sequences
  import opened Properties
  import opened WhereExpr
  import opened Geometry
  import opened SphericalEnvelope
  import opened Distance
  import opened Rules
  import opened SpatialIndex
  import opened PropertyIndex
  import opened PreparedCache
  import opened Query
  import opened Ruleset
  import opened Aggregates
  import opened Semantics
  import opened Resolution

  // ------------------------------------------------ the distance lookup

  /** The planar hits and the fringe hits of one rectangle. */
  function RectHits(geo: Geo, rules: seq<Rule>, owner: nat, rect: Rect): seq<RuleId> {
    Lookup(owner, PlanarBoxes(rules), rect) + Lookup(owner, FringeBoxes(geo, rules), rect)
  }

  function AllHits(geo: Geo, rules: seq<Rule>, owner: nat, rects: seq<Rect>): seq<RuleId> {
    if rects == [] then []
    else AllHits(geo, rules, owner, rects[..|rects| - 1]) + RectHits(geo, rules, owner, rects[|rects| - 1])
  }

  lemma AllHitsNext(geo: Geo, rules: seq<Rule>, owner: nat, rects: seq<Rect>, rect: Rect, before: seq<RuleId>)
    requires before == AllHits(geo, rules, owner, rects)
    ensures (before + Lookup(owner, PlanarBoxes(rules), rect)) + Lookup(owner, FringeBoxes(geo, rules), rect)
         == AllHits(geo, rules, owner, rects + [rect])
  {
    assert (rects + [rect])[..|rects|] == rects;
    var planar, fringe := Lookup(owner, PlanarBoxes(rules), rect), Lookup(owner, FringeBoxes(geo, rules), rect);
    assert (before + planar) + fringe == before + (planar + fringe);
  }

  lemma RectHitsMembers(geo: Geo, rules: seq<Rule>, owner: nat, rect: Rect)
    ensures AllOwned(RectHits(geo, rules, owner, rect), owner)
    ensures forall i: nat :: RuleId(i, owner) in RectHits(geo, rules, owner, rect) <==>
      i < |rules| && LooksUp(geo, [rect], rules[i].geometry)
  {
    MintMembers(owner, |rules|, Touching(PlanarBoxes(rules), rect));
    MintMembers(owner, |rules|, Touching(FringeBoxes(geo, rules), rect));
    forall i: nat | i < |rules|
      ensures LooksUp(geo, [rect], rules[i].geometry)
         <==> BoxMeets(PlanarBoxes(rules), rect, i) || BoxMeets(FringeBoxes(geo, rules), rect, i)
    {
      OneRect(rect, PlanarBox(rules[i].geometry));
      if FringeBoxes(geo, rules)[i].Some? {
        OneRect(rect, FringeBoxes(geo, rules)[i].value);
      }
    }
  }

  lemma OneRect(rect: Rect, box: Rect)
    ensures MeetsSome([rect], box) <==> RectsIntersect(box, rect)
  {
    assert [rect][0] == rect;
  }

  lemma MeetsSomeSplit(rects: seq<Rect>, last: Rect, box: Rect)
    ensures MeetsSome(rects + [last], box) <==> MeetsSome(rects, box) || MeetsSome([last], box)
  {
    OneRect(last, box);
    var all := rects + [last];
    assert all[|rects|] == last;
    if i :| 0 <= i < |rects| && RectsIntersect(box, rects[i]) {
      assert all[i] == rects[i];
    }
    if i :| 0 <= i < |all| && RectsIntersect(box, all[i]) {
      assert i < |rects| ==> rects[i] == all[i];
    }
  }

  lemma {:induction false} AllHitsMembers(geo: Geo, rules: seq<Rule>, owner: nat, rects: seq<Rect>)
    ensures AllOwned(AllHits(geo, rules, owner, rects), owner)
    ensures forall i: nat :: RuleId(i, owner) in AllHits(geo, rules, owner, rects) <==>
      i < |rules| && LooksUp(geo, rects, rules[i].geometry)
    decreases |rects|
  {
    if rects != [] {
      var init, last := rects[..|rects| - 1], rects[|rects| - 1];
      assert rects == init + [last];
      AllHitsMembers(geo, rules, owner, init);
      RectHitsMembers(geo, rules, owner, last);
      forall i: nat | i < |rules|
        ensures LooksUp(geo, rects, rules[i].geometry)
           <==> LooksUp(geo, init, rules[i].geometry) || LooksUp(geo, [last], rules[i].geometry)
      {
        MeetsSomeSplit(init, last, PlanarBox(rules[i].geometry));
        if FringeBoxes(geo, rules)[i].Some? {
          MeetsSomeSplit(init, last, FringeBoxes(geo, rules)[i].value);
        }
      }
    }
  }

  /** Sorted and deduplicated, the hits of all lookups enumerate the rules some lookup meets. */
  lemma SortedHits(geo: Geo, rules: seq<Rule>, owner: nat, rects: seq<Rect>, p: nat -> bool)
    requires forall i: nat | i < |rules| :: p(i) <==> LooksUp(geo, rects, rules[i].geometry)
    ensures SortDedup(AllHits(geo, rules, owner, rects)) == Mint(Select(|rules|, p), owner)
  {
    var hits := AllHits(geo, rules, owner, rects);
    AllHitsMembers(geo, rules, owner, rects);
    SortDedupEnumerates(hits, owner);
    MintUnique(SortDedup(hits), owner, |rules|, p);
  }

  /** The box a rule would be entered with in one index: the fringe box if it has one, else the planar box. */
  function EffectiveBoxOf(geo: Geo, rule: Rule): Rect {
    EffectiveBox(geo.sphere, rule.geometry, PlanarBox(rule.geometry))
  }

  function EffectiveBoxes(geo: Geo, rules: seq<Rule>): (r: seq<Option<Rect>>)
    ensures |r| == |rules| && forall i :: 0 <= i < |rules| ==> r[i] == Some(EffectiveBoxOf(geo, rules[i]))
  {
    seq(|rules|, i requires 0 <= i < |rules| => Some(EffectiveBoxOf(geo, rules[i])))
  }

  function EffectivelyMeets(geo: Geo, rules: seq<Rule>, rects: seq<Rect>): nat -> bool {
    (i: nat) => i < |rules| && MeetsSome(rects, EffectiveBoxOf(geo, rules[i]))
  }

  lemma MeetsEffective(geo: Geo, rects: seq<Rect>, rule: Rule)
    requires SupportedRuleGeometry(rule.geometry) && RingsHaveEdges(PolygonsOf(rule.geometry))
    requires BoundingRect(rule.geometry).Some?
    ensures MeetsSome(rects, EffectiveBoxOf(geo, rule)) <==> LooksUp(geo, rects, rule.geometry)
  {
    forall k | 0 <= k < |rects|
      ensures RectsIntersect(EffectiveBoxOf(geo, rule), rects[k]) <==>
        || RectsIntersect(PlanarBox(rule.geometry), rects[k])
        || (FringeBoxOf(geo.sphere, rule.geometry, PlanarBox(rule.geometry)).Some?
            && RectsIntersect(FringeBoxOf(geo.sphere, rule.geometry, PlanarBox(rule.geometry)).value, rects[k]))
    {
      TwoIndexesActAsOne(geo.sphere, rule.geometry, rects[k]);
    }
  }

  /**
   * In a built ruleset, appending the planar and the fringe hits of all lookups
   * and sorting and deduplicating them finds the rules whose effective box some
   * lookup meets, as one index over effective boxes would.
   */
  lemma TwoIndexLookup(geo: Geo, rules: seq<Rule>, owner: nat, rects: seq<Rect>)
    requires Buildable(geo, rules) && ValidRings(geo)
    ensures SortDedup(AllHits(geo, rules, owner, rects))
         == Mint(Select(|rules|, EffectivelyMeets(geo, rules, rects)), owner)
  {
    var p := EffectivelyMeets(geo, rules, rects);
    forall i: nat | i < |rules|
      ensures p(i) <==> LooksUp(geo, rects, rules[i].geometry)
    {
      MeetsEffective(geo, rects, rules[i]);
    }
    SortedHits(geo, rules, owner, rects, p);
  }

  /** For one rectangle: the merged hits of the two indexes are one lookup in the effective one. */
  lemma OneEffectiveLookup(geo: Geo, rules: seq<Rule>, owner: nat, rect: Rect)
    requires Buildable(geo, rules) && ValidRings(geo)
    ensures SortDedup(RectHits(geo, rules, owner, rect)) == Lookup(owner, EffectiveBoxes(geo, rules), rect)
  {
    assert [rect][..0] == [];
    assert AllHits(geo, rules, owner, [rect]) == RectHits(geo, rules, owner, rect);
    TwoIndexLookup(geo, rules, owner, [rect]);
    var p, q := EffectivelyMeets(geo, rules, [rect]), Touching(EffectiveBoxes(geo, rules), rect);
    forall i: nat | i < |rules|
      ensures p(i) == q(i)
    {
      OneRect(rect, EffectiveBoxOf(geo, rules[i]));
    }
    SelectCongruent(|rules|, p, q);
  }

  // ------------------------------------------------ the prepared query

  datatype EvalResult = EvalResult(
    matched: bool, invalid: Option<Reason>, ruleIds: seq<RuleId>, overlaps: Option<seq<OverlapMetric>>)

  /** The ids a list of application ids denotes; unknown ids denote none. */
  ghost function ExcludedIds(rules: seq<Rule>, owner: nat, names: seq<string>): set<RuleId> {
    set i: nat | i < |rules| && rules[i].id in names :: RuleId(i, owner)
  }

  class PreparedQuery {
    const ruleset: Ruleset
    const query: Query
    const excluded: set<RuleId>
    const memo: PreparedMemo
    const whereFilter: Option<set<RuleId>>
    const invalidQueryReason: Option<Reason>
    const scratch: IdBuffer
    const fringeScratch: IdBuffer

    /** What planning established. */
    ghost predicate Planned() {
      && ruleset.Built() && PreparedAgrees(ruleset.geo)
      && memo.rules == ruleset.rules
      && excluded == ExcludedIds(ruleset.rules, ruleset.id, query.excludeRuleIds)
      && (whereFilter.Some? ==>
            && query.whereClause.Some? && Indexable(query.whereClause.value)
            && whereFilter.value == Admitted(query.whereClause.value, ruleset.rules, ruleset.id, None))
      && invalidQueryReason == Validate(query)
      && scratch != fringeScratch
    }

    /** The buffers may hold anything; the slots and the fringe index are sound. */
    ghost predicate Valid()
      reads ruleset, memo.slots
    {
      && Planned() && ruleset.Valid()
      && SlotsHold(ruleset.geo, ruleset.rules, memo.slots)
    }

    constructor (ruleset: Ruleset, query: Query, excluded: set<RuleId>, memo: PreparedMemo,
        whereFilter: Option<set<RuleId>>)
      requires ruleset.Valid() && PreparedAgrees(ruleset.geo)
      requires memo.rules == ruleset.rules && SlotsHold(ruleset.geo, ruleset.rules, memo.slots)
      requires excluded == ExcludedIds(ruleset.rules, ruleset.id, query.excludeRuleIds)
      requires whereFilter.Some? ==>
        && query.whereClause.Some? && Indexable(query.whereClause.value)
        && whereFilter.value == Admitted(query.whereClause.value, ruleset.rules, ruleset.id, None)
      ensures Valid()
      ensures this.ruleset == ruleset && this.query == query && this.memo == memo
      ensures fresh(scratch) && fresh(fringeScratch)
    {
      this.ruleset, this.query, this.excluded, this.memo := ruleset, query, excluded, memo;
      this.whereFilter, invalidQueryReason := whereFilter, Validate(query);
      var first := new IdBuffer();
      var second := new IdBuffer();
      scratch, fringeScratch := first, second;
    }

    /** The ids the pipeline admits for a candidate. */
    ghost function PipelineIds(c: Candidate): (r: seq<RuleId>)
      ensures InRange(ruleset.rules, r)
    {
      AdmittedIds(ruleset.geo, ruleset.rules, ruleset.id, query, c)
    }

    // ---------------------------------------------- the property step

    /** The unchecked accessors index with the position, so callers pass ids in range. */
    predicate AdmittedId(ruleId: RuleId)
      requires ruleId.index < |ruleset.rules|
    {
      if HasId(excluded, ruleId) then false
      else
        match whereFilter
        case Some(filter) => HasId(filter, ruleId)
        case None =>
          match query.whereClause
          case Some(clause) => Eval(clause, ruleset.rules[ruleId.index].properties, query.at)
          case None => true
    }

    function Keep(): RuleId --> bool {
      (id: RuleId) requires id.index < |ruleset.rules| => AdmittedId(id)
    }

    /** The index filter and tree evaluation admit the same rules. */
    lemma AdmittedIdMeans(i: nat)
      requires Planned() && i < |ruleset.rules|
      ensures AdmittedId(RuleId(i, ruleset.id)) <==> AdmittedByProperties(query, ruleset.rules[i])
    {
      OwnedSetsExact(excluded, excluded, ruleset.id, RuleId(i, ruleset.id));
      assert RuleId(i, ruleset.id) in excluded <==> ruleset.rules[i].id in query.excludeRuleIds;
      if whereFilter.Some? {
        IndexRefinesEval(query.whereClause.value, ruleset.rules, ruleset.id, query.at, i);
      }
    }

    /** The rules found by `located` and admitted by their properties. */
    ghost function Kept(located: nat -> bool): nat -> bool {
      (i: nat) => i < |ruleset.rules| && located(i) && AdmittedByProperties(query, ruleset.rules[i])
    }

    lemma KeepKept(located: nat -> bool)
      requires Planned()
      ensures var ids := Mint(Select(|ruleset.rules|, located), ruleset.id);
        && (forall id :: id in ids ==> Keep().requires(id))
        && Filter(ids, Keep()) == Mint(Select(|ruleset.rules|, Kept(located)), ruleset.id)
    {
      forall i: nat | i < |ruleset.rules|
        ensures Keep().requires(RuleId(i, ruleset.id))
        ensures Keep()(RuleId(i, ruleset.id)) <==> AdmittedByProperties(query, ruleset.rules[i])
      {
        AdmittedIdMeans(i);
      }
      FilterMint(ruleset.id, |ruleset.rules|, located, Keep(), Kept(located));
    }

    // ---------------------------------------------- the exact check

    ghost function Confirms(c: Geometry): RuleId --> bool {
      (id: RuleId) requires id.index < |ruleset.rules| =>
        Confirmed(ruleset.geo, query, c, ruleset.rules[id.index].geometry)
    }

    lemma ConfirmKept(located: nat -> bool, c: Geometry, final: nat -> bool)
      requires forall i: nat | i < |ruleset.rules| ::
        final(i) <==> Kept(located)(i) && Confirmed(ruleset.geo, query, c, ruleset.rules[i].geometry)
      ensures var ids := Mint(Select(|ruleset.rules|, Kept(located)), ruleset.id);
        && (forall id :: id in ids ==> Confirms(c).requires(id))
        && Filter(ids, Confirms(c)) == Mint(Select(|ruleset.rules|, final), ruleset.id)
    {
      FilterMint(ruleset.id, |ruleset.rules|, Kept(located), Confirms(c), final);
    }

    lemma ConfirmNext(ids: seq<RuleId>, k: nat, c: Geometry)
      requires k < |ids| && forall id :: id in ids ==> id.index < |ruleset.rules|
      ensures Filter(ids[..k + 1], Confirms(c))
        == Filter(ids[..k], Confirms(c)) + if Confirms(c)(ids[k]) then [ids[k]] else []
    {
      assert ids[..k + 1] == ids[..k] + [ids[k]];
      FilterConcat(ids[..k], [ids[k]], Confirms(c));
    }

    /** The boolean `intersects` on the plain geometries. */
    method ConfirmIntersects(c: Geometry, ids: seq<RuleId>) returns (admitted: seq<RuleId>)
      requires query.spatial.Intersects?
      requires forall id :: id in ids ==> id.index < |ruleset.rules|
      ensures admitted == Filter(ids, Confirms(c))
    {
      admitted := [];
      var k := 0;
      while k < |ids|
        invariant 0 <= k <= |ids| && admitted == Filter(ids[..k], Confirms(c))
      {
        ConfirmNext(ids, k, c);
        if ruleset.geo.intersects(c, ruleset.rules[ids[k].index].geometry) {
          admitted := admitted + [ids[k]];
        }
        k := k + 1;
      }
      assert ids[..k] == ids;
    }

    /** Relates against the prepared forms, which `Ensure` has filled in. */
    method ConfirmPrepared(c: Geometry, ids: seq<RuleId>) returns (admitted: seq<RuleId>)
      requires !query.spatial.Intersects? && !query.spatial.WithinDistance?
      requires Planned() && SlotsHold(ruleset.geo, ruleset.rules, memo.slots) && ruleset.geo.isValid(c)
      requires forall id :: id in ids ==> id.index < |ruleset.rules| && memo.slots[id.index].Some?
      ensures admitted == Filter(ids, Confirms(c))
    {
      assert forall id :: id in ids ==> ruleset.geo.isValid(ruleset.rules[id.index].geometry);
      hide Ruleset.Built, Planned;
      admitted := [];
      var k := 0;
      while k < |ids|
        invariant 0 <= k <= |ids| && admitted == Filter(ids[..k], Confirms(c))
      {
        ConfirmNext(ids, k, c);
        assert ids[k] in ids;
        var matrix := ruleset.geo.relatePrepared(c, memo.slots[ids[k].index].value);
        if PredicateHolds(query.spatial, matrix) {
          admitted := admitted + [ids[k]];
        }
        k := k + 1;
      }
      assert ids[..k] == ids;
    }

    method ConfirmDistance(c: Geometry, ids: seq<RuleId>, distance: real) returns (admitted: seq<RuleId>)
      requires query.spatial.WithinDistance? && Radius(query) == Some(distance)
      requires forall id :: id in ids ==> id.index < |ruleset.rules|
      ensures admitted == Filter(ids, Confirms(c))
    {
      admitted := [];
      var k := 0;
      while k < |ids|
        invariant 0 <= k <= |ids| && admitted == Filter(ids[..k], Confirms(c))
      {
        ConfirmNext(ids, k, c);
        if AtMostMeters(MinHaversineDistance(ruleset.geo, c, ruleset.rules[ids[k].index].geometry), distance) {
          admitted := admitted + [ids[k]];
        }
        k := k + 1;
      }
      assert ids[..k] == ids;
    }

    // ---------------------------------------------- the DE-9IM pipeline

    ghost function Near(bbox: Rect): nat -> bool { Touching(PlanarBoxes(ruleset.rules), bbox) }

    /** Fills the scratch buffer with the touching, property-admitted ids. */
    method FillScratch(bbox: Rect)
      requires Planned()
      modifies scratch
      ensures scratch.ids == Mint(Select(|ruleset.rules|, Kept(Near(bbox))), ruleset.id)
      ensures InRange(ruleset.rules, scratch.ids)
    {
      ruleset.QueryPlanarInto(bbox, scratch);
      KeepKept(Near(bbox));
      scratch.Retain(Keep());
      MintInRange(ruleset.rules, ruleset.id, Kept(Near(bbox)));
    }

    lemma NearFinal(c: Candidate, bbox: Rect)
      requires !query.spatial.WithinDistance? && c.classified == ValidCandidate(bbox)
      ensures InRange(ruleset.rules, Mint(Select(|ruleset.rules|, Kept(Near(bbox))), ruleset.id))
      ensures Filter(Mint(Select(|ruleset.rules|, Kept(Near(bbox))), ruleset.id), Confirms(c.geometry))
        == PipelineIds(c)
    {
      MintInRange(ruleset.rules, ruleset.id, Kept(Near(bbox)));
      var final := PipelineTest(ruleset.geo, ruleset.rules, query, bbox, c.geometry);
      ConfirmKept(Near(bbox), c.geometry, final);
    }

    /** The ids the callback sees, in order, for a DE-9IM predicate. */
    method ForEachAdmitted(c: Candidate, bbox: Rect) returns (admitted: seq<RuleId>)
      requires Intake(ruleset.geo, c)
      requires Valid() && !query.spatial.WithinDistance? && c.classified == ValidCandidate(bbox)
      modifies scratch, memo.slots
      ensures Valid() && FilledKept()
      ensures admitted == PipelineIds(c)
    {
      hide Kept, Near, AdmittedIds, Ruleset.Built;
      FillScratch(bbox);
      NearFinal(c, bbox);
      if scratch.ids == [] {
        return [];
      }
      if query.spatial.Intersects? {
        admitted := ConfirmIntersects(c.geometry, scratch.ids);
        return;
      }
      ghost var ids := scratch.ids;
      Ensure(ruleset.geo, memo, scratch.ids);
      assert scratch.ids == ids;
      forall id | id in ids
        ensures id.index < |ruleset.rules| && memo.slots[id.index].Some?
      {
        var k :| 0 <= k < |ids| && ids[k] == id;
        assert Requested(ids, id.index);
      }
      admitted := ConfirmPrepared(c.geometry, scratch.ids);
    }

    /** Filled slots keep their value. */
    twostate predicate FilledKept()
      reads memo.slots
    {
      forall i :: 0 <= i < memo.slots.Length && old(memo.slots[i]).Some? ==> memo.slots[i] == old(memo.slots[i])
    }

    // ---------------------------------------------- the distance pipeline

    /** Appends the planar and the fringe hits of one rectangle. */
    method ExtendDistanceHits(envelope: Rect, ghost rects: seq<Rect>)
      requires Planned() && ruleset.Valid()
      requires scratch.ids == AllHits(ruleset.geo, ruleset.rules, ruleset.id, rects)
      modifies scratch, fringeScratch, ruleset`fringeIndex
      ensures ruleset.Valid()
      ensures scratch.ids == AllHits(ruleset.geo, ruleset.rules, ruleset.id, rects + [envelope])
    {
      AllHitsNext(ruleset.geo, ruleset.rules, ruleset.id, rects, envelope, scratch.ids);
      ruleset.QueryPlanarInto(envelope, fringeScratch);
      scratch.Append(fringeScratch);
      ruleset.QueryFringeInto(envelope, fringeScratch);
      scratch.Append(fringeScratch);
    }

    ghost function Far(rects: seq<Rect>): nat -> bool {
      (i: nat) => i < |ruleset.rules| && LooksUp(ruleset.geo, rects, ruleset.rules[i].geometry)
    }

    /** The accumulated hits of the main rectangle and of the wrapped ones. */
    method CollectDistanceHits(e: Rect)
      requires Planned() && ruleset.Valid()
      modifies scratch, fringeScratch, ruleset`fringeIndex
      ensures ruleset.Valid()
      ensures scratch.ids == AllHits(ruleset.geo, ruleset.rules, ruleset.id, LookupRects(e))
    {
      scratch.Clear();
      ExtendDistanceHits(e, []);
      ghost var rects := [e];
      assert [] + [e] == rects;
      if e.min.x < -180.0 {
        var west := RectOf(Coord(e.min.x + 360.0, e.min.y), Coord(180.0, e.max.y));
        ExtendDistanceHits(west, rects);
        rects := rects + [west];
      }
      if e.max.x > 180.0 {
        var east := RectOf(Coord(-180.0, e.min.y), Coord(e.max.x - 360.0, e.max.y));
        ExtendDistanceHits(east, rects);
        rects := rects + [east];
      }
      assert rects == LookupRects(e);
    }

    lemma FarFinal(c: Candidate, bbox: Rect, distance: real)
      requires query.spatial.WithinDistance? && Radius(query) == Some(distance) && c.classified == ValidCandidate(bbox)
      ensures var located := Far(LookupRects(ExpandEnvelope(ruleset.geo.sphere, bbox, distance)));
        var ids := Mint(Select(|ruleset.rules|, Kept(located)), ruleset.id);
        InRange(ruleset.rules, ids) && Filter(ids, Confirms(c.geometry)) == PipelineIds(c)
    {
      var located := Far(LookupRects(ExpandEnvelope(ruleset.geo.sphere, bbox, distance)));
      MintInRange(ruleset.rules, ruleset.id, Kept(located));
      ConfirmKept(located, c.geometry, PipelineTest(ruleset.geo, ruleset.rules, query, bbox, c.geometry));
    }

    /** Rule `i` applies, by definition, and some lookup of the distance query meets its boxes. */
    ghost predicate FarApplies(c: Candidate, bbox: Rect, i: nat)
      requires Radius(query).Some?
    {
      && i in ApplicablePositions(ruleset.geo, ruleset.rules, query, c.geometry)
      && LooksUp(ruleset.geo, LookupRects(ExpandEnvelope(ruleset.geo.sphere, bbox, Radius(query).value)),
                 ruleset.rules[i].geometry)
    }

    lemma FarMembers(c: Candidate, bbox: Rect)
      requires query.spatial.WithinDistance? && Radius(query).Some? && c.classified == ValidCandidate(bbox)
      ensures forall i: nat :: RuleId(i, ruleset.id) in PipelineIds(c) <==> FarApplies(c, bbox, i)
    {
      MintMembers(ruleset.id, |ruleset.rules|, PipelineTest(ruleset.geo, ruleset.rules, query, bbox, c.geometry));
    }

    /**
     * The ids admitted for `withinDistance`, each once, ascending. With no
     * hypothesis on the library they are the applicable rules whose boxes some
     * lookup meets.
     */
    method AdmitWithinDistance(c: Candidate, bbox: Rect, distance: real) returns (admitted: seq<RuleId>)
      requires Planned() && ruleset.Valid()
      requires query.spatial.WithinDistance? && Radius(query) == Some(distance) && c.classified == ValidCandidate(bbox)
      modifies scratch, fringeScratch, ruleset`fringeIndex
      ensures ruleset.Valid()
      ensures admitted == PipelineIds(c)
      ensures forall i: nat :: RuleId(i, ruleset.id) in admitted <==> FarApplies(c, bbox, i)
    {
      var expanded := ExpandEnvelope(ruleset.geo.sphere, bbox, distance);
      ghost var located := Far(LookupRects(expanded));
      CollectDistanceHits(expanded);
      SortedHits(ruleset.geo, ruleset.rules, ruleset.id, LookupRects(expanded), located);
      scratch.SortUnstable();
      scratch.DedupInPlace();
      KeepKept(located);
      scratch.Retain(Keep());
      FarFinal(c, bbox, distance);
      admitted := ConfirmDistance(c.geometry, scratch.ids, distance);
      FarMembers(c, bbox);
    }

    /** The one seam both match and resolution gather through. */
    method AdmitByPredicate(c: Candidate, bbox: Rect) returns (admitted: seq<RuleId>)
      requires Intake(ruleset.geo, c)
      requires Valid() && Validate(query) == None && c.classified == ValidCandidate(bbox)
      modifies scratch, fringeScratch, memo.slots, ruleset`fringeIndex
      ensures Valid() && FilledKept()
      ensures admitted == PipelineIds(c)
    {
      if query.spatial.WithinDistance? {
        admitted := AdmitWithinDistance(c, bbox, Radius(query).value);
      } else {
        admitted := ForEachAdmitted(c, bbox);
      }
    }

    // ---------------------------------------------- outcomes

    /** Why `withinDistance` cannot evaluate the candidate; a bad candidate is not reported here. */
    function WithinDistanceInvalidReason(c: Candidate): Option<Reason> {
      if c.classified.InvalidCandidate? then None
      else if !IsPoint(c.geometry) then Some(PointCandidateRequired)
      else if Radius(query).None? then Some(PositiveDistanceRequired)
      else None
    }

    /** Overlap metrics aligned with the ids, the candidate's area computed once. */
    method CollectOverlaps(c: Geometry, ids: seq<RuleId>) returns (overlaps: seq<OverlapMetric>)
      requires InRange(ruleset.rules, ids)
      ensures overlaps == OverlapsOf(ruleset.geo, ruleset.rules, c, ids)
    {
      overlaps := [];
      for k := 0 to |ids|
        invariant |overlaps| == k
        invariant forall j :: 0 <= j < k ==>
          overlaps[j] == Overlap(ruleset.geo, c, ruleset.rules[ids[j].index].geometry)
      {
        overlaps := overlaps + [Overlap(ruleset.geo, c, ruleset.rules[ids[k].index].geometry)];
      }
    }

    method EvaluateResult(c: Candidate, collectIds: bool) returns (r: EvalResult)
      requires Intake(ruleset.geo, c)
      requires Valid() && Validate(query) == None
      modifies scratch, fringeScratch, memo.slots, ruleset`fringeIndex
      ensures Valid() && FilledKept()
      ensures r.invalid == InvalidReason(query, c)
      ensures r.invalid == None ==>
        && (r.matched <==> PipelineIds(c) != [])
        && r.ruleIds == (if collectIds then PipelineIds(c) else [])
        && r.overlaps == if collectIds && query.includeOverlap && !query.spatial.WithinDistance?
                         then Some(OverlapsOf(ruleset.geo, ruleset.rules, c.geometry, PipelineIds(c))) else None
    {
      match c.classified {
        case InvalidCandidate(reason) =>
          return EvalResult(false, Some(BadCandidate(reason)), [], None);
        case ValidCandidate(bbox) =>
          if query.spatial.WithinDistance? {
            var reason := WithinDistanceInvalidReason(c);
            if reason.Some? {
              return EvalResult(false, reason, [], None);
            }
            var near := AdmitWithinDistance(c, bbox, Radius(query).value);
            return EvalResult(near != [], None, if collectIds then near else [], None);
          }
          var admitted := ForEachAdmitted(c, bbox);
          var overlaps: Option<seq<OverlapMetric>> := None;
          if collectIds && query.includeOverlap {
            var metrics := CollectOverlaps(c.geometry, admitted);
            overlaps := Some(metrics);
          }
          return EvalResult(admitted != [], None, if collectIds then admitted else [], overlaps);
      }
    }

    /** The rich match path. */
    method Evaluate(c: Candidate) returns (outcome: CandidateOutcome)
      requires Intake(ruleset.geo, c)
      requires Valid()
      modifies scratch, fringeScratch, memo.slots, ruleset`fringeIndex
      ensures Valid() && FilledKept()
      ensures outcome == MatchOutcome(ruleset.geo, ruleset.rules, query, c, PipelineIds(c))
    {
      if invalidQueryReason.Some? {
        return CandidateOutcome.Invalid(invalidQueryReason.value);
      }
      var result := EvaluateResult(c, true);
      if result.invalid.Some? {
        return CandidateOutcome.Invalid(result.invalid.value);
      }
      if !result.matched {
        return CandidateOutcome.NotMatched;
      }
      var aggregate: Option<Aggregate> := None;
      if query.aggregate.Some? {
        var a := Compute(ruleset.geo, query.aggregate.value, c.geometry, RulesOf(ruleset.rules, result.ruleIds));
        aggregate := Some(a);
      }
      outcome := Matched(result.ruleIds, result.overlaps, aggregate);
    }

    /** A batch over the shared buffers and memo is pointwise: no candidate sees what an earlier one left behind. */
    method EvaluateAll(candidates: seq<Candidate>) returns (outcomes: seq<CandidateOutcome>)
      requires forall c :: c in candidates ==> Intake(ruleset.geo, c)
      requires Valid()
      modifies scratch, fringeScratch, memo.slots, ruleset`fringeIndex
      ensures Valid() && FilledKept()
      ensures |outcomes| == |candidates|
      ensures forall k :: 0 <= k < |outcomes| ==>
        outcomes[k] == MatchOutcome(ruleset.geo, ruleset.rules, query, candidates[k], PipelineIds(candidates[k]))
    {
      hide Planned, MatchOutcome, AdmittedIds;
      outcomes := [];
      for k := 0 to |candidates|
        invariant Valid() && FilledKept()
        invariant |outcomes| == k
        invariant forall j :: 0 <= j < k ==>
          outcomes[j] == MatchOutcome(ruleset.geo, ruleset.rules, query, candidates[j], PipelineIds(candidates[j]))
      {
        var outcome := Evaluate(candidates[k]);
        outcomes := outcomes + [outcome];
      }
    }

    /** The mask of `intersects`: stops at the first admitted rule. */
    method EvaluateMaskIntersects(c: Candidate) returns (mask: nat)
      requires Planned() && Validate(query) == None && query.spatial.Intersects?
      modifies scratch
      ensures mask == MaskOf(query, c, PipelineIds(c))
    {
      hide Planned, Kept, Near, AdmittedIds;
      match c.classified {
        case InvalidCandidate(_) => return 2;
        case ValidCandidate(bbox) =>
          FillScratch(bbox);
          NearFinal(c, bbox);
          var ids := scratch.ids;
          var k := 0;
          while k < |ids|
            invariant 0 <= k <= |ids| && Filter(ids[..k], Confirms(c.geometry)) == []
          {
            ConfirmNext(ids, k, c.geometry);
            if ruleset.geo.intersects(c.geometry, ruleset.rules[ids[k].index].geometry) {
              assert ids[k] in ids && Confirms(c.geometry)(ids[k]);
              assert ids[k] in Filter(ids, Confirms(c.geometry));
              return 1;
            }
            k := k + 1;
          }
          assert ids[..k] == ids;
          return 0;
      }
    }

    method EvaluateMask(c: Candidate) returns (mask: nat)
      requires Intake(ruleset.geo, c)
      requires Valid()
      modifies scratch, fringeScratch, memo.slots, ruleset`fringeIndex
      ensures Valid() && FilledKept()
      ensures mask == MaskOf(query, c, PipelineIds(c))
    {
      if invalidQueryReason.Some? {
        return 2;
      }
      if query.spatial.Intersects? {
        mask := EvaluateMaskIntersects(c);
        return;
      }
      var result := EvaluateResult(c, false);
      mask := if result.invalid.Some? then 2 else if result.matched then 1 else 0;
    }

    /** The explanation records, with the hoisted priorities. */
    method ExplainAll(ids: seq<RuleId>) returns (records: seq<ApplicableRule>)
      requires ruleset.Built() && InRange(ruleset.rules, ids)
      ensures records == Map(ids, Explain(ruleset.rules))
    {
      records := [];
      for k := 0 to |ids|
        invariant |records| == k
        invariant forall j :: 0 <= j < k ==> records[j] == Explain(ruleset.rules)(ids[j])
      {
        records := records + [ApplicableRule(ids[k], ruleset.priorities[ids[k].index], true, true)];
      }
    }

    /** The first-provider-wins merge down the precedence order. */
    method MergeValues(providers: seq<Properties>) returns (values: map<string, PropertyValue>)
      ensures values == Merged(providers)
    {
      values := map[];
      for k := 0 to |providers|
        invariant values == Merged(providers[..k])
      {
        ghost var start := values;
        var entries := providers[k];
        for j := 0 to |entries|
          invariant values == Filled(start, entries, j)
        {
          values := OrInsert(values, entries[j].name, entries[j].value);
        }
        assert providers[..k + 1][..k] == providers[..k];
      }
      assert providers[..|providers|] == providers;
    }

    /** Collect, then resolve. */
    method EvaluateResolve(c: Candidate) returns (outcome: ResolutionOutcome)
      requires Intake(ruleset.geo, c)
      requires Valid()
      modifies scratch, fringeScratch, memo.slots, ruleset`fringeIndex
      ensures Valid() && FilledKept()
      ensures outcome == ResolveOutcome(ruleset.geo, ruleset.rules, query, c, PipelineIds(c))
    {
      if invalidQueryReason.Some? {
        return ResolutionOutcome.Invalid(invalidQueryReason.value);
      }
      if query.spatial.WithinDistance? && WithinDistanceInvalidReason(c).Some? {
        return ResolutionOutcome.Invalid(WithinDistanceInvalidReason(c).value);
      }
      match c.classified {
        case InvalidCandidate(reason) =>
          return ResolutionOutcome.Invalid(BadCandidate(reason));
        case ValidCandidate(bbox) =>
          var ids := AdmitByPredicate(c, bbox);
          if ids == [] {
            return ResolutionOutcome.NotMatched;
          }
          outcome := Resolve(c, ids);
      }
    }

    method Resolve(c: Candidate, ids: seq<RuleId>) returns (outcome: ResolutionOutcome)
      requires ruleset.Built() && InvalidReason(query, c) == None
      requires ids != [] && InRange(ruleset.rules, ids)
      ensures outcome == ResolveOutcome(ruleset.geo, ruleset.rules, query, c, ids)
    {
      var records := ExplainAll(ids);
      var applicable := Sort(records, Precedes);
      OrderedInRange(ruleset.rules, ids);
      WinnerIsGreatest(ruleset.rules, ids);
      var winner := applicable[0].ruleId;
      var providers := PropertiesOf(ruleset.rules, RuleIdsOf(applicable));
      var values := MergeValues(providers);
      var aggregate: Option<Aggregate> := None;
      if query.aggregate.Some? {
        var a := Compute(ruleset.geo, query.aggregate.value, c.geometry, RulesOf(ruleset.rules, RuleIdsOf(applicable)));
        aggregate := Some(a);
      }
      outcome := Resolved(winner, values, applicable, aggregate);
    }

    method EvaluateResolveMask(c: Candidate) returns (mask: nat)
      requires Intake(ruleset.geo, c)
      requires Valid()
      modifies scratch, fringeScratch, memo.slots, ruleset`fringeIndex
      ensures Valid() && FilledKept()
      ensures mask == MaskOf(query, c, PipelineIds(c))
    {
      if invalidQueryReason.Some? {
        return 2;
      }
      if query.spatial.WithinDistance? && WithinDistanceInvalidReason(c).Some? {
        return 2;
      }
      match c.classified {
        case InvalidCandidate(_) => return 2;
        case ValidCandidate(bbox) =>
          var admitted := AdmitByPredicate(c, bbox);
          mask := if admitted != [] then 1 else 0;
      }
    }
  }
}
