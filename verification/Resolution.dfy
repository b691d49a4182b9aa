/** Resolution: the precedence order, its winner and the first-provider-wins merge. */
module Resolution {
  import opened Prelude
  import opened Sequences
  import opened Properties
  import opened Geometry
  import opened Rules
  import opened Ruleset
  import opened Query
  import opened Aggregates
  import opened Semantics

  datatype ApplicableRule = ApplicableRule(ruleId: RuleId, priority: int, spatialMatched: bool, propertyMatched: bool)

  /** Priority descending, ties by declaration order. */
  predicate Precedes(a: ApplicableRule, b: ApplicableRule) {
    a.priority > b.priority || (a.priority == b.priority && a.ruleId.index <= b.ruleId.index)
  }

  function Explain(rules: seq<Rule>): RuleId -> ApplicableRule {
    (id: RuleId) => ApplicableRule(id, if id.index < |rules| then rules[id.index].priority else 0, true, true)
  }

  /** The applicable rules in precedence order. */
  function Ordered(rules: seq<Rule>, ids: seq<RuleId>): seq<ApplicableRule> {
    Sort(Map(ids, Explain(rules)), Precedes)
  }

  /** `order` is the applicable set of `ids`, each rule once, in precedence order. */
  ghost predicate InPrecedenceOrder(rules: seq<Rule>, ids: seq<RuleId>, order: seq<ApplicableRule>) {
    && SortedBy(order, Precedes)
    && multiset(order) == multiset(Map(ids, Explain(rules)))
  }

  lemma OrderedInPrecedenceOrder(rules: seq<Rule>, ids: seq<RuleId>)
    ensures InPrecedenceOrder(rules, ids, Ordered(rules, ids))
  {
    SortSorts(Map(ids, Explain(rules)), Precedes);
  }

  /** The precedence order of ids of one owner is unique, whatever order the ids were gathered in. */
  lemma PrecedenceOrderUnique(rules: seq<Rule>, owner: nat, ids: seq<RuleId>, gathered: seq<RuleId>,
      order: seq<ApplicableRule>)
    requires AllOwned(ids, owner) && multiset(gathered) == multiset(ids)
    requires InPrecedenceOrder(rules, gathered, order)
    ensures order == Ordered(rules, ids)
  {
    OrderedInPrecedenceOrder(rules, ids);
    MapPermute(gathered, ids, Explain(rules));
    SameMembers(order, Map(ids, Explain(rules)));
    forall x, y | x in order && y in order && Precedes(x, y) && Precedes(y, x)
      ensures x == y
    {
      ExplainedBy(rules, ids, x);
      ExplainedBy(rules, ids, y);
    }
    SortedPermutationUnique(order, Ordered(rules, ids), Precedes);
  }

  lemma ExplainedBy(rules: seq<Rule>, ids: seq<RuleId>, x: ApplicableRule)
    requires x in Map(ids, Explain(rules))
    ensures x.ruleId in ids && x == Explain(rules)(x.ruleId)
  {
    var k :| 0 <= k < |ids| && Map(ids, Explain(rules))[k] == x;
  }

  lemma OrderedMembers(rules: seq<Rule>, ids: seq<RuleId>)
    ensures |Ordered(rules, ids)| == |ids|
    ensures forall x :: x in Ordered(rules, ids) <==> x.ruleId in ids && x == Explain(rules)(x.ruleId)
  {
    var mapped := Map(ids, Explain(rules));
    SameMembers(Ordered(rules, ids), mapped);
    forall x
      ensures x in mapped <==> x.ruleId in ids && x == Explain(rules)(x.ruleId)
    {
      if x in mapped {
        ExplainedBy(rules, ids, x);
      }
      if x.ruleId in ids && x == Explain(rules)(x.ruleId) {
        var k :| 0 <= k < |ids| && ids[k] == x.ruleId;
        assert mapped[k] == x;
      }
    }
  }

  /** The winner has the highest priority of the applicable rules and, among those, the first position. */
  lemma WinnerIsGreatest(rules: seq<Rule>, ids: seq<RuleId>)
    requires ids != [] && InRange(rules, ids)
    ensures Ordered(rules, ids) != []
    ensures var winner := Ordered(rules, ids)[0].ruleId;
      winner in ids && forall id :: id in ids ==>
        rules[winner.index].priority > rules[id.index].priority
        || (rules[winner.index].priority == rules[id.index].priority && winner.index <= id.index)
  {
    var order := Ordered(rules, ids);
    OrderedMembers(rules, ids);
    OrderedInPrecedenceOrder(rules, ids);
    assert order[0] in order;
    forall id | id in ids
      ensures Precedes(order[0], Explain(rules)(id))
    {
      assert Explain(rules)(id) in order;
      var k :| 0 <= k < |order| && order[k] == Explain(rules)(id);
      assert k > 0 ==> Precedes(order[0], order[k]);
    }
  }

  // ------------------------------------------------ the merge

  /** The first of the property maps that defines `key`. */
  function FirstProvider(providers: seq<Properties>, key: string): (r: Option<nat>)
    ensures r.None? ==> forall i :: 0 <= i < |providers| ==> !ContainsKey(providers[i], key)
    ensures r.Some? ==> r.value < |providers| && ContainsKey(providers[r.value], key)
    ensures r.Some? ==> forall i :: 0 <= i < r.value ==> !ContainsKey(providers[i], key)
  {
    if providers == [] then None
    else
      match FirstProvider(providers[..|providers| - 1], key)
      case Some(i) => Some(i)
      case None => if ContainsKey(providers[|providers| - 1], key) then Some(|providers| - 1) else None
  }

  /** `values` has exactly the keys some provider defines, each with its first provider's value. */
  ghost predicate Merges(values: map<string, PropertyValue>, providers: seq<Properties>) {
    forall key ::
      && (key in values <==> FirstProvider(providers, key).Some?)
      && (key in values ==> Get(providers[FirstProvider(providers, key).value], key) == Some(values[key]))
  }

  lemma MergeUnique(a: map<string, PropertyValue>, b: map<string, PropertyValue>, providers: seq<Properties>)
    requires Merges(a, providers) && Merges(b, providers)
    ensures a == b
  {
    hide FirstProvider, Get;
    forall key
      ensures key in a <==> key in b
      ensures key in a ==> a[key] == b[key]
    {
      assert key in a <==> FirstProvider(providers, key).Some?;
    }
    assert a.Keys == b.Keys;
  }

  /** `or_insert`: keeps a value that is already there. */
  function OrInsert(values: map<string, PropertyValue>, key: string, value: PropertyValue): map<string, PropertyValue> {
    if key in values then values else values[key := value]
  }

  /** The first `n` entries of one provider, inserted where absent. */
  function Filled(values: map<string, PropertyValue>, entries: Properties, n: nat): map<string, PropertyValue>
    requires n <= |entries|
  {
    if n == 0 then values else OrInsert(Filled(values, entries, n - 1), entries[n - 1].name, entries[n - 1].value)
  }

  function Merged(providers: seq<Properties>): map<string, PropertyValue> {
    if providers == [] then map[]
    else Filled(Merged(providers[..|providers| - 1]), providers[|providers| - 1], |providers[|providers| - 1]|)
  }

  lemma {:induction false} FilledLookup(values: map<string, PropertyValue>, entries: Properties, n: nat, key: string)
    requires n <= |entries|
    ensures key in Filled(values, entries, n) <==>
      key in values || exists i :: 0 <= i < n && entries[i].name == key
    ensures key in values ==> Filled(values, entries, n)[key] == values[key]
    ensures key !in values && key in Filled(values, entries, n)
      ==> Get(entries, key) == Some(Filled(values, entries, n)[key])
  {
    if n > 0 {
      FilledLookup(values, entries, n - 1, key);
    }
  }

  lemma {:induction false} MergedMerges(providers: seq<Properties>)
    ensures Merges(Merged(providers), providers)
  {
    if providers != [] {
      var init, last := providers[..|providers| - 1], providers[|providers| - 1];
      MergedMerges(init);
      var values := Merged(providers);
      forall key
        ensures key in values <==> FirstProvider(providers, key).Some?
        ensures key in values ==> Get(providers[FirstProvider(providers, key).value], key) == Some(values[key])
      {
        FilledLookup(Merged(init), last, |last|, key);
        assert ContainsKey(last, key) <==> exists i :: 0 <= i < |last| && last[i].name == key;
      }
    }
  }

  // ------------------------------------------------ outcomes

  datatype ResolutionOutcome =
    | Resolved(winner: RuleId, values: map<string, PropertyValue>, applicable: seq<ApplicableRule>,
      aggregate: Option<Aggregate>)
    | NotMatched
    | Invalid(reason: Reason)

  function RuleIdsOf(order: seq<ApplicableRule>): (r: seq<RuleId>)
    ensures |r| == |order| && forall k :: 0 <= k < |r| ==> r[k] == order[k].ruleId
  {
    seq(|order|, k requires 0 <= k < |order| => order[k].ruleId)
  }

  lemma OrderedInRange(rules: seq<Rule>, ids: seq<RuleId>)
    requires InRange(rules, ids)
    ensures InRange(rules, RuleIdsOf(Ordered(rules, ids)))
  {
    OrderedMembers(rules, ids);
    var order := Ordered(rules, ids);
    forall k | 0 <= k < |order|
      ensures order[k].ruleId.index < |rules|
    {
      assert order[k] in order;
    }
  }

  /** The resolution of a candidate with these admitted ids. */
  function ResolveOutcome(geo: Geo, rules: seq<Rule>, q: Query, c: Candidate, ids: seq<RuleId>): ResolutionOutcome
    requires InRange(rules, ids)
  {
    match InvalidReason(q, c)
    case Some(reason) => ResolutionOutcome.Invalid(reason)
    case None =>
      if ids == [] then ResolutionOutcome.NotMatched
      else
        OrderedInRange(rules, ids);
        WinnerIsGreatest(rules, ids);
        var order := Ordered(rules, ids);
        var providers := PropertiesOf(rules, RuleIdsOf(order));
        Resolved(order[0].ruleId, Merged(providers), order,
          match q.aggregate
          case Some(spec) => Some(Computed(geo, spec, c.geometry, RulesOf(rules, RuleIdsOf(order))))
          case None => None)
  }

  /** The resolution by definition. */
  function ResolutionOf(geo: Geo, rules: seq<Rule>, owner: nat, q: Query, c: Candidate): ResolutionOutcome {
    MintInRange(rules, owner, Applies(geo, rules, q, c.geometry));
    ResolveOutcome(geo, rules, q, c, Mint(ApplicablePositions(geo, rules, q, c.geometry), owner))
  }

  /** Under the library laws the pipeline's resolution is the resolution by definition. */
  lemma PipelineResolution(geo: Geo, rules: seq<Rule>, owner: nat, q: Query, c: Candidate)
    requires Buildable(geo, rules) && Intake(geo, c)
    requires c.classified.ValidCandidate? ==> LibraryLaws(geo, rules, q, c.classified.envelope, c.geometry)
    ensures ResolveOutcome(geo, rules, q, c, AdmittedIds(geo, rules, owner, q, c))
      == ResolutionOf(geo, rules, owner, q, c)
  {
    hide Buildable;
    if c.classified.ValidCandidate? {
      PipelineIsDefinition(geo, rules, q, c.classified.envelope, c.geometry);
    }
  }

  lemma RulesPermute(rules: seq<Rule>, a: seq<RuleId>, b: seq<RuleId>)
    requires rules != [] && InRange(rules, a) && InRange(rules, b) && multiset(a) == multiset(b)
    ensures multiset(RulesOf(rules, a)) == multiset(RulesOf(rules, b))
  {
    var f := (id: RuleId) => if id.index < |rules| then rules[id.index] else rules[0];
    MapPermute(a, b, f);
    assert Map(a, f) == RulesOf(rules, a) && Map(b, f) == RulesOf(rules, b);
  }

  lemma OrderedIdsPermute(rules: seq<Rule>, ids: seq<RuleId>)
    ensures multiset(RuleIdsOf(Ordered(rules, ids))) == multiset(ids)
  {
    var f := (x: ApplicableRule) => x.ruleId;
    var mapped := Map(ids, Explain(rules));
    MapPermute(Ordered(rules, ids), mapped, f);
    assert Map(Ordered(rules, ids), f) == RuleIdsOf(Ordered(rules, ids));
    assert Map(mapped, f) == ids;
  }

  predicate SameAggregate(a: Option<Aggregate>, b: Option<Aggregate>) {
    match (a, b)
    case (Some(x), Some(y)) => SameUpToCoverage(x, y)
    case _ => a == b
  }

  /**
   * The match path and the resolution path agree: same invalid reason, same no-match, same
   * rules, and same aggregate but for the covered area.
   */
  lemma PathsAgree(geo: Geo, rules: seq<Rule>, q: Query, c: Candidate, ids: seq<RuleId>)
    requires InRange(rules, ids)
    ensures MatchOutcome(geo, rules, q, c, ids).Invalid? <==> ResolveOutcome(geo, rules, q, c, ids).Invalid?
    ensures MatchOutcome(geo, rules, q, c, ids).Invalid? ==>
      MatchOutcome(geo, rules, q, c, ids).reason == ResolveOutcome(geo, rules, q, c, ids).reason
    ensures MatchOutcome(geo, rules, q, c, ids).Matched? <==> ResolveOutcome(geo, rules, q, c, ids).Resolved?
    ensures MatchOutcome(geo, rules, q, c, ids).Matched? ==>
      && multiset(RuleIdsOf(ResolveOutcome(geo, rules, q, c, ids).applicable))
        == multiset(MatchOutcome(geo, rules, q, c, ids).ruleIds)
      && SameAggregate(ResolveOutcome(geo, rules, q, c, ids).aggregate, MatchOutcome(geo, rules, q, c, ids).aggregate)
    ensures MaskOf(q, c, ids) ==
      match MatchOutcome(geo, rules, q, c, ids)
      case Invalid(_) => 2
      case NotMatched => 0
      case Matched(_, _, _) => 1
  {
    if InvalidReason(q, c) == None && ids != [] {
      OrderedIdsPermute(rules, ids);
      OrderedInRange(rules, ids);
      assert ids[0].index < |rules|;
      RulesPermute(rules, ids, RuleIdsOf(Ordered(rules, ids)));
      if q.aggregate.Some? {
        OrderIrrelevant(geo, q.aggregate.value, c.geometry, RulesOf(rules, RuleIdsOf(Ordered(rules, ids))),
          RulesOf(rules, ids));
      }
    }
  }
}
