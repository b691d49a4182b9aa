/** What a resolution means: its explanation, its winner and its values, rule by rule. */
module Precedence {
  import opened Prelude
  import opened Sequences
  import opened Properties
  import opened Geometry
  import opened PointSets
  import opened Rules
  import opened Ruleset
  import opened Semantics
  import opened Resolution
  import opened Exclusion
  import opened Session
  import opened Meaning

  /** Position `i` comes before position `j`: higher priority, or the same and declared earlier. */
  predicate Outranks(rules: seq<Rule>, i: nat, j: nat)
    requires i < |rules| && j < |rules|
  {
    rules[i].priority > rules[j].priority || (rules[i].priority == rules[j].priority && i < j)
  }

  /** The explanation lists rules of the ruleset with their priorities, each before those it outranks. */
  ghost predicate Explains(rules: seq<Rule>, owner: nat, order: seq<ApplicableRule>) {
    && (forall k :: 0 <= k < |order| ==>
          && order[k].ruleId.index < |rules| && order[k].ruleId.owner == owner
          && order[k].priority == rules[order[k].ruleId.index].priority
          && order[k].spatialMatched && order[k].propertyMatched)
    && (forall k, l :: 0 <= k < l < |order| ==> Outranks(rules, order[k].ruleId.index, order[l].ruleId.index))
  }

  /** A merged value: some listed rule defines the key, and the value is that of the first one that does. */
  ghost predicate FirstDefines(
      rules: seq<Rule>, order: seq<ApplicableRule>, key: string, value: PropertyValue, k: nat)
  {
    && k < |order| && (forall l :: 0 <= l <= k ==> order[l].ruleId.index < |rules|)
    && Get(rules[order[k].ruleId.index].properties, key) == Some(value)
    && forall l :: 0 <= l < k ==> Get(rules[order[l].ruleId.index].properties, key).None?
  }

  ghost predicate NobodyDefines(rules: seq<Rule>, order: seq<ApplicableRule>, key: string) {
    forall k :: 0 <= k < |order| && order[k].ruleId.index < |rules| ==>
      Get(rules[order[k].ruleId.index].properties, key).None?
  }

  ghost predicate MergedMeans(rules: seq<Rule>, order: seq<ApplicableRule>, values: map<string, PropertyValue>) {
    && (forall key :: key in values ==> exists k :: FirstDefines(rules, order, key, values[key], k))
    && (forall key :: key !in values ==> NobodyDefines(rules, order, key))
  }

  lemma KeyMeans(rules: seq<Rule>, order: seq<ApplicableRule>, providers: seq<Properties>, key: string)
    requires |providers| == |order|
    requires forall k :: 0 <= k < |order| ==>
      order[k].ruleId.index < |rules| && providers[k] == rules[order[k].ruleId.index].properties
    ensures match FirstProvider(providers, key)
      case None => NobodyDefines(rules, order, key)
      case Some(k) => FirstDefines(rules, order, key, Get(providers[k], key).value, k)
  {
    hide FirstProvider, Get;
  }

  lemma MergeMeans(rules: seq<Rule>, order: seq<ApplicableRule>, values: map<string, PropertyValue>)
    requires forall k :: 0 <= k < |order| ==> order[k].ruleId.index < |rules|
    requires Merges(values, ProvidersOf(rules, order))
    ensures MergedMeans(rules, order, values)
  {
    var providers := ProvidersOf(rules, order);
    assert forall k :: 0 <= k < |order| ==> providers[k] == rules[order[k].ruleId.index].properties;
    hide ProvidersOf, Get, FirstProvider, FirstDefines, NobodyDefines;
    forall key
      ensures key in values ==> exists k :: FirstDefines(rules, order, key, values[key], k)
      ensures key !in values ==> NobodyDefines(rules, order, key)
    {
      KeyMeans(rules, order, providers, key);
    }
  }

  lemma OrderExplains(rules: seq<Rule>, owner: nat, ids: seq<RuleId>)
    requires InRange(rules, ids) && IdsAscending(ids) && AllOwned(ids, owner)
    ensures Explains(rules, owner, Ordered(rules, ids))
  {
    var order := Ordered(rules, ids);
    OrderedMembers(rules, ids);
    OrderedInPrecedenceOrder(rules, ids);
    OrderedIdsPermute(rules, ids);
    DistinctPermutation(RuleIdsOf(order), ids);
    hide Ordered, IdsAscending;
    forall k | 0 <= k < |order|
      ensures order[k].ruleId in ids && order[k] == Explain(rules)(order[k].ruleId)
    {
      assert order[k] in order;
    }
    forall k, l | 0 <= k < l < |order|
      ensures Outranks(rules, order[k].ruleId.index, order[l].ruleId.index)
    {
      assert Precedes(order[k], order[l]);
      assert RuleIdsOf(order)[k] != RuleIdsOf(order)[l];
    }
  }

  /**
   * The program's resolutions, under the library laws: a valid pair resolves
   * exactly when some rule is selected; the explanation lists exactly the
   * selected rules, by rank; its head wins; and every key some selected rule
   * defines has the value of the first that does.
   */
  lemma ResolutionsMean(geo: Geo, region: Geometry -> Region, h: HandleView, c: Candidate)
    requires Buildable(geo, h.ruleset.rules) && LawsFor(geo, h, c) && RelateDescribes(geo, region)
    requires InvalidReason(h.query, c) == None
    ensures Evaluated(geo, h, Resolve, c).ResolveAnswer?
    ensures var rules, r := h.ruleset.rules, Evaluated(geo, h, Resolve, c).resolution;
      && (r.NotMatched? <==> forall rule :: rule in rules ==> !Selected(geo, region, h.query, c.geometry, rule))
      && (!r.NotMatched? ==>
            && r.Resolved? && r.applicable != [] && r.winner == r.applicable[0].ruleId
            && Explains(rules, h.ruleset.id, r.applicable)
            && MatchedMeans(geo, region, h, c, Evaluated(geo, h, Match, c).outcome.ruleIds)
            && multiset(RuleIdsOf(r.applicable)) == multiset(Evaluated(geo, h, Match, c).outcome.ruleIds)
            && MergedMeans(rules, r.applicable, r.values))
  {
    var rules, q := h.ruleset.rules, h.query;
    hide Selected, LawsFor, RelateDescribes, Buildable, MergedMeans, Explains, AdmittedIds, InvalidReason, Ordered;
    var ids := IdsFor(geo, h, c);
    MatchesMean(geo, region, h, c);
    if ids != [] {
      OrderExplains(rules, h.ruleset.id, ids);
      OrderedIdsPermute(rules, ids);
      ResolvedParts(geo, rules, q, c, ids);
      MergeMeans(rules, Ordered(rules, ids), ResolveOutcome(geo, rules, q, c, ids).values);
    }
  }
}
