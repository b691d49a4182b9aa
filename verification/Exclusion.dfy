/** What excluding one more rule id changes: that rule, and only what it contributed. */
module Exclusion {
  import opened Prelude
  import opened Sequences
  import opened Properties
  import opened Geometry
  import opened Rules
  import opened Query
  import opened Semantics
  import opened Resolution

  function Excluding(q: Query, name: string): Query {
    q.(excludeRuleIds := q.excludeRuleIds + [name])
  }

  function IsOther(rules: seq<Rule>, name: string): RuleId -> bool {
    (id: RuleId) => id.index < |rules| ==> rules[id.index].id != name
  }

  function IsOtherRule(rules: seq<Rule>, name: string): ApplicableRule -> bool {
    (x: ApplicableRule) => IsOther(rules, name)(x.ruleId)
  }

  function ApplicableIds(geo: Geo, rules: seq<Rule>, owner: nat, q: Query, c: Candidate): (ids: seq<RuleId>)
    ensures InRange(rules, ids)
  {
    MintInRange(rules, owner, Applies(geo, rules, q, c.geometry));
    Mint(ApplicablePositions(geo, rules, q, c.geometry), owner)
  }

  /** The applicable ids lose exactly the excluded rule; the rest keep their order. */
  lemma ExclusionFilters(geo: Geo, rules: seq<Rule>, owner: nat, q: Query, name: string, c: Candidate)
    ensures ApplicableIds(geo, rules, owner, Excluding(q, name), c)
         == Filter(ApplicableIds(geo, rules, owner, q, c), IsOther(rules, name))
    ensures InvalidReason(Excluding(q, name), c) == InvalidReason(q, c)
  {
    var p, p' := Applies(geo, rules, q, c.geometry), Applies(geo, rules, Excluding(q, name), c.geometry);
    FilterMint(owner, |rules|, p, IsOther(rules, name), p');
  }

  // ------------------------------------------------ the order

  lemma {:induction false} FilterMap(rules: seq<Rule>, ids: seq<RuleId>, name: string)
    ensures Filter(Map(ids, Explain(rules)), IsOtherRule(rules, name))
      == Map(Filter(ids, IsOther(rules, name)), Explain(rules))
  {
    if ids != [] {
      FilterMap(rules, ids[1..], name);
      assert Map(ids, Explain(rules)) == [Explain(rules)(ids[0])] + Map(ids[1..], Explain(rules));
      assert Map(ids, Explain(rules))[1..] == Map(ids[1..], Explain(rules));
    }
  }

  /** The precedence order without a rule is the precedence order with it, that rule struck out. */
  lemma OrderFilters(rules: seq<Rule>, owner: nat, ids: seq<RuleId>, name: string)
    requires AllOwned(ids, owner)
    ensures Ordered(rules, Filter(ids, IsOther(rules, name))) == Filter(Ordered(rules, ids), IsOtherRule(rules, name))
  {
    var rest := Filter(ids, IsOther(rules, name));
    var struck := Filter(Ordered(rules, ids), IsOtherRule(rules, name));
    OrderedInPrecedenceOrder(rules, ids);
    FilterSorted(Ordered(rules, ids), IsOtherRule(rules, name), Precedes);
    FilterPermute(Ordered(rules, ids), Map(ids, Explain(rules)), IsOtherRule(rules, name));
    FilterMap(rules, ids, name);
    PrecedenceOrderUnique(rules, owner, rest, rest, struck);
  }

  // ------------------------------------------------ the merge

  function ProvidersOf(rules: seq<Rule>, order: seq<ApplicableRule>): (r: seq<Properties>)
    requires forall k :: 0 <= k < |order| ==> order[k].ruleId.index < |rules|
    ensures |r| == |order|
    ensures forall k :: 0 <= k < |r| ==> r[k] == rules[order[k].ruleId.index].properties
  {
    PropertiesOf(rules, RuleIdsOf(order))
  }

  lemma FirstProviderIs(providers: seq<Properties>, key: string, i: nat)
    requires i < |providers| && ContainsKey(providers[i], key)
    requires forall j :: 0 <= j < i ==> !ContainsKey(providers[j], key)
    ensures FirstProvider(providers, key) == Some(i)
  {
    var f := FirstProvider(providers, key);
    assert f.Some?;
  }

  /** If the first provider of a key stays, it is still the first provider. */
  lemma FirstProviderStays(rules: seq<Rule>, order: seq<ApplicableRule>, name: string, key: string, i: nat)
    requires forall k :: 0 <= k < |order| ==> order[k].ruleId.index < |rules|
    requires FirstProvider(ProvidersOf(rules, order), key) == Some(i) && IsOtherRule(rules, name)(order[i])
    ensures var rest := Filter(order, IsOtherRule(rules, name));
      && (forall k :: 0 <= k < |rest| ==> rest[k].ruleId.index < |rules|)
      && FirstProvider(ProvidersOf(rules, rest), key).Some?
      && rest[FirstProvider(ProvidersOf(rules, rest), key).value] == order[i]
  {
    hide ContainsKey, FirstProvider, PropertiesOf;
    var keep := IsOtherRule(rules, name);
    var rest, before := Filter(order, keep), Filter(order[..i], keep);
    assert order == order[..i] + ([order[i]] + order[i + 1..]);
    FilterConcat(order[..i], [order[i]] + order[i + 1..], keep);
    FilterConcat([order[i]], order[i + 1..], keep);
    assert rest == before + ([order[i]] + Filter(order[i + 1..], keep));
    StillInRange(rules, order, name);
    forall j | 0 <= j < |before|
      ensures !ContainsKey(ProvidersOf(rules, rest)[j], key)
    {
      assert rest[j] == before[j] && before[j] in before;
      var k :| 0 <= k < i && order[k] == before[j];
      assert !ContainsKey(ProvidersOf(rules, order)[k], key);
    }
    FirstProviderIs(ProvidersOf(rules, rest), key, |before|);
  }

  lemma StillInRange(rules: seq<Rule>, order: seq<ApplicableRule>, name: string)
    requires forall k :: 0 <= k < |order| ==> order[k].ruleId.index < |rules|
    ensures forall k :: 0 <= k < |Filter(order, IsOtherRule(rules, name))| ==>
      Filter(order, IsOtherRule(rules, name))[k].ruleId.index < |rules|
  {
    var rest := Filter(order, IsOtherRule(rules, name));
    forall k | 0 <= k < |rest|
      ensures rest[k].ruleId.index < |rules|
    {
      assert rest[k] in rest;
    }
  }

  /** Without a provider no rule can become one by removing others. */
  lemma NoProviderStays(rules: seq<Rule>, order: seq<ApplicableRule>, name: string, key: string)
    requires forall k :: 0 <= k < |order| ==> order[k].ruleId.index < |rules|
    requires FirstProvider(ProvidersOf(rules, order), key) == None
    ensures forall k :: 0 <= k < |Filter(order, IsOtherRule(rules, name))| ==>
      Filter(order, IsOtherRule(rules, name))[k].ruleId.index < |rules|
    ensures FirstProvider(ProvidersOf(rules, Filter(order, IsOtherRule(rules, name))), key) == None
  {
    hide ContainsKey, FirstProvider, PropertiesOf;
    StillInRange(rules, order, name);
    var rest := Filter(order, IsOtherRule(rules, name));
    forall k | 0 <= k < |rest|
      ensures !ContainsKey(ProvidersOf(rules, rest)[k], key)
    {
      assert rest[k] in rest;
      var j :| 0 <= j < |order| && order[j] == rest[k];
      assert !ContainsKey(ProvidersOf(rules, order)[j], key);
    }
  }

  // ------------------------------------------------ locality

  lemma ResolvedParts(geo: Geo, rules: seq<Rule>, q: Query, c: Candidate, ids: seq<RuleId>)
    requires InRange(rules, ids) && ResolveOutcome(geo, rules, q, c, ids).Resolved?
    ensures var r := ResolveOutcome(geo, rules, q, c, ids);
      && r.applicable == Ordered(rules, ids) && r.applicable != [] && r.winner == r.applicable[0].ruleId
      && (forall k :: 0 <= k < |r.applicable| ==> r.applicable[k].ruleId.index < |rules|)
      && Merges(r.values, ProvidersOf(rules, r.applicable))
  {
    OrderedInRange(rules, ids);
    WinnerIsGreatest(rules, ids);
    var order := Ordered(rules, ids);
    forall k | 0 <= k < |order|
      ensures order[k].ruleId.index < |rules|
    {
      assert RuleIdsOf(order)[k].index < |rules|;
    }
    MergedMerges(ProvidersOf(rules, order));
  }

  /** The rule that provides a merged value. */
  ghost function Provider(rules: seq<Rule>, order: seq<ApplicableRule>, key: string): Option<RuleId>
    requires forall k :: 0 <= k < |order| ==> order[k].ruleId.index < |rules|
  {
    match FirstProvider(ProvidersOf(rules, order), key)
    case Some(i) => Some(order[i].ruleId)
    case None => None
  }

  /**
   * `after` is `before` without the rule called `name`: the same order, and the same winner
   * unless it was that rule.
   */
  predicate StrikesOut(rules: seq<Rule>, name: string, before: ResolutionOutcome, after: ResolutionOutcome)
    requires before.Resolved?
  {
    var rest := Filter(before.applicable, IsOtherRule(rules, name));
    && (if rest == [] then after.NotMatched? else after.Resolved? && after.applicable == rest)
    && (IsOther(rules, name)(before.winner) ==> after.Resolved? && after.winner == before.winner)
  }

  /** Every key keeps its value unless the rule called `name` provided it, and no key appears. */
  ghost predicate KeepsOtherValues(rules: seq<Rule>, name: string, before: ResolutionOutcome, after: ResolutionOutcome)
    requires before.Resolved? && after.Resolved?
    requires forall k :: 0 <= k < |before.applicable| ==> before.applicable[k].ruleId.index < |rules|
  {
    forall key ::
      match Provider(rules, before.applicable, key)
      case None => key !in before.values && key !in after.values
      case Some(id) =>
        && key in before.values
        && (IsOther(rules, name)(id) ==> key in after.values && after.values[key] == before.values[key])
  }

  lemma FilteredOrder(geo: Geo, rules: seq<Rule>, q: Query, q': Query, c: Candidate, owner: nat, ids: seq<RuleId>,
      name: string)
    requires AllOwned(ids, owner) && InRange(rules, ids) && InRange(rules, Filter(ids, IsOther(rules, name)))
    requires InvalidReason(q, c) == InvalidReason(q', c) && ResolveOutcome(geo, rules, q, c, ids).Resolved?
    ensures StrikesOut(rules, name,
      ResolveOutcome(geo, rules, q, c, ids), ResolveOutcome(geo, rules, q', c, Filter(ids, IsOther(rules, name))))
  {
    hide Ordered, Merged;
    var rest := Filter(ids, IsOther(rules, name));
    OrderFilters(rules, owner, ids, name);
    ResolvedParts(geo, rules, q, c, ids);
    OrderedMembers(rules, rest);
    if rest != [] {
      ResolvedParts(geo, rules, q', c, rest);
    }
    var order := Ordered(rules, ids);
    assert order == [order[0]] + order[1..];
  }

  /** Excluding a name strikes that rule out of the order, and moves the winner only if it was the winner. */
  lemma ExclusionKeepsOrder(geo: Geo, rules: seq<Rule>, owner: nat, q: Query, name: string, c: Candidate)
    ensures var before := ResolutionOf(geo, rules, owner, q, c);
      before.Resolved? ==> StrikesOut(rules, name, before, ResolutionOf(geo, rules, owner, Excluding(q, name), c))
  {
    var ids := ApplicableIds(geo, rules, owner, q, c);
    ExclusionFilters(geo, rules, owner, q, name, c);
    if ResolutionOf(geo, rules, owner, q, c).Resolved? {
      FilteredOrder(geo, rules, q, Excluding(q, name), c, owner, ids, name);
    }
  }

  lemma FilteredValues(rules: seq<Rule>, name: string, before: ResolutionOutcome, after: ResolutionOutcome)
    requires before.Resolved? && after.Resolved?
    requires after.applicable == Filter(before.applicable, IsOtherRule(rules, name))
    requires forall k :: 0 <= k < |before.applicable| ==> before.applicable[k].ruleId.index < |rules|
    requires forall k :: 0 <= k < |after.applicable| ==> after.applicable[k].ruleId.index < |rules|
    requires Merges(before.values, ProvidersOf(rules, before.applicable))
    requires Merges(after.values, ProvidersOf(rules, after.applicable))
    ensures KeepsOtherValues(rules, name, before, after)
  {
    forall key
      ensures match Provider(rules, before.applicable, key)
        case None => key !in before.values && key !in after.values
        case Some(id) =>
          && key in before.values
          && (IsOther(rules, name)(id) ==> key in after.values && after.values[key] == before.values[key])
    {
      match FirstProvider(ProvidersOf(rules, before.applicable), key)
      case Some(i) =>
        if IsOtherRule(rules, name)(before.applicable[i]) {
          FirstProviderStays(rules, before.applicable, name, key, i);
        }
      case None =>
        NoProviderStays(rules, before.applicable, name, key);
    }
  }

  /** A merged value changes only when the excluded rule was its first provider; a key nobody provided stays absent. */
  lemma ExclusionKeepsValues(geo: Geo, rules: seq<Rule>, owner: nat, q: Query, name: string, c: Candidate)
    ensures var before := ResolutionOf(geo, rules, owner, q, c);
      var after := ResolutionOf(geo, rules, owner, Excluding(q, name), c);
      before.Resolved? && after.Resolved? ==>
        && (forall k :: 0 <= k < |before.applicable| ==> before.applicable[k].ruleId.index < |rules|)
        && KeepsOtherValues(rules, name, before, after)
  {
    hide StrikesOut, KeepsOtherValues;
    var before := ResolutionOf(geo, rules, owner, q, c);
    var after := ResolutionOf(geo, rules, owner, Excluding(q, name), c);
    if before.Resolved? && after.Resolved? {
      ExclusionKeepsOrder(geo, rules, owner, q, name, c);
      ResolvedParts(geo, rules, q, c, ApplicableIds(geo, rules, owner, q, c));
      ResolvedParts(geo, rules, Excluding(q, name), c, ApplicableIds(geo, rules, owner, Excluding(q, name), c));
      StruckOut(rules, name, before, after);
      FilteredValues(rules, name, before, after);
    }
  }

  /** Excluding a name no rule has changes nothing. */
  lemma UnknownExclusion(geo: Geo, rules: seq<Rule>, owner: nat, q: Query, name: string, c: Candidate)
    requires forall i :: 0 <= i < |rules| ==> rules[i].id != name
    ensures ResolutionOf(geo, rules, owner, Excluding(q, name), c) == ResolutionOf(geo, rules, owner, q, c)
    ensures Outcome(geo, rules, owner, Excluding(q, name), c) == Outcome(geo, rules, owner, q, c)
  {
    var p, p' := Applies(geo, rules, q, c.geometry), Applies(geo, rules, Excluding(q, name), c.geometry);
    SelectCongruent(|rules|, p, p');
  }

  // ------------------------------------------------ locality of the program's answers

  lemma SameReason(q: Query, name: string, c: Candidate)
    ensures InvalidReason(Excluding(q, name), c) == InvalidReason(q, c)
  {
  }

  lemma OnlyExclusionDiffers(geo: Geo, q: Query, name: string, bbox: Rect, candidate: Geometry, rule: Rule)
    ensures Located(geo, Excluding(q, name), bbox, rule.geometry) == Located(geo, q, bbox, rule.geometry)
    ensures Confirmed(geo, Excluding(q, name), candidate, rule.geometry) == Confirmed(geo, q, candidate, rule.geometry)
    ensures AdmittedByProperties(Excluding(q, name), rule) <==> AdmittedByProperties(q, rule) && rule.id != name
  {
  }

  /** With no hypothesis on the library: the ids the pipeline admits lose exactly the excluded rule. */
  lemma AdmittedFilters(geo: Geo, rules: seq<Rule>, owner: nat, q: Query, name: string, c: Candidate)
    ensures AdmittedIds(geo, rules, owner, Excluding(q, name), c)
         == Filter(AdmittedIds(geo, rules, owner, q, c), IsOther(rules, name))
    ensures InvalidReason(Excluding(q, name), c) == InvalidReason(q, c)
    ensures AllOwned(AdmittedIds(geo, rules, owner, q, c), owner)
  {
    hide Located, Confirmed, AdmittedByProperties, InvalidReason;
    SameReason(q, name, c);
    match c.classified
    case InvalidCandidate(_) =>
    case ValidCandidate(bbox) =>
      var p := PipelineTest(geo, rules, q, bbox, c.geometry);
      var p' := PipelineTest(geo, rules, Excluding(q, name), bbox, c.geometry);
      forall i: nat | i < |rules|
        ensures p'(i) <==> p(i) && IsOther(rules, name)(RuleId(i, owner))
      {
        OnlyExclusionDiffers(geo, q, name, bbox, c.geometry, rules[i]);
      }
      MintMembers(owner, |rules|, p);
      FilterMint(owner, |rules|, p, IsOther(rules, name), p');
  }

  /** The resolution the program gives, on the ids its pipeline admits. */
  function ProgramResolution(geo: Geo, rules: seq<Rule>, owner: nat, q: Query, c: Candidate): ResolutionOutcome {
    ResolveOutcome(geo, rules, q, c, AdmittedIds(geo, rules, owner, q, c))
  }

  /** The program's resolution loses the excluded rule and keeps the order of the rest, and their winner. */
  lemma ProgramKeepsOrder(geo: Geo, rules: seq<Rule>, owner: nat, q: Query, name: string, c: Candidate)
    ensures var before := ProgramResolution(geo, rules, owner, q, c);
      before.Resolved? ==>
        StrikesOut(rules, name, before, ProgramResolution(geo, rules, owner, Excluding(q, name), c))
  {
    hide AdmittedIds, ResolveOutcome, StrikesOut;
    AdmittedFilters(geo, rules, owner, q, name, c);
    if ProgramResolution(geo, rules, owner, q, c).Resolved? {
      FilteredOrder(geo, rules, q, Excluding(q, name), c, owner, AdmittedIds(geo, rules, owner, q, c), name);
    }
  }

  /** The program's merged values change only for keys the excluded rule was first to provide. */
  lemma ProgramKeepsValues(geo: Geo, rules: seq<Rule>, owner: nat, q: Query, name: string, c: Candidate)
    ensures var before := ProgramResolution(geo, rules, owner, q, c);
      var after := ProgramResolution(geo, rules, owner, Excluding(q, name), c);
      before.Resolved? && after.Resolved? ==>
        && (forall k :: 0 <= k < |before.applicable| ==> before.applicable[k].ruleId.index < |rules|)
        && KeepsOtherValues(rules, name, before, after)
  {
    hide AdmittedIds, ResolveOutcome, StrikesOut, KeepsOtherValues;
    var before := ProgramResolution(geo, rules, owner, q, c);
    var after := ProgramResolution(geo, rules, owner, Excluding(q, name), c);
    if before.Resolved? && after.Resolved? {
      ProgramKeepsOrder(geo, rules, owner, q, name, c);
      ResolvedParts(geo, rules, q, c, AdmittedIds(geo, rules, owner, q, c));
      ResolvedParts(geo, rules, Excluding(q, name), c, AdmittedIds(geo, rules, owner, Excluding(q, name), c));
      StruckOut(rules, name, before, after);
      FilteredValues(rules, name, before, after);
    }
  }

  lemma StruckOut(rules: seq<Rule>, name: string, before: ResolutionOutcome, after: ResolutionOutcome)
    requires before.Resolved? && after.Resolved? && StrikesOut(rules, name, before, after)
    ensures after.applicable == Filter(before.applicable, IsOtherRule(rules, name))
  {
  }

  /** Excluding a name no rule has changes no answer of the program. */
  lemma ProgramUnknownExclusion(geo: Geo, rules: seq<Rule>, owner: nat, q: Query, name: string, c: Candidate)
    requires forall i :: 0 <= i < |rules| ==> rules[i].id != name
    ensures AdmittedIds(geo, rules, owner, Excluding(q, name), c) == AdmittedIds(geo, rules, owner, q, c)
  {
    if c.classified.ValidCandidate? {
      var bbox := c.classified.envelope;
      SelectCongruent(|rules|,
        PipelineTest(geo, rules, Excluding(q, name), bbox, c.geometry), PipelineTest(geo, rules, q, bbox, c.geometry));
    }
  }
}
