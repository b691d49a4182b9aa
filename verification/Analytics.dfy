/** What a reported aggregate means, number by number, for the properties of the applicable rules. */
module Analytics {
  import opened Prelude
  import opened Doubles
  import opened Sequences
  import opened Properties
  import opened Geometry
  import opened Rules
  import opened Averages
  import opened Query
  import opened Ruleset
  import opened Aggregates
  import opened Semantics

  /** The number a property holds: integers as doubles; text, flags, nulls and missing properties hold none. */
  function NumberAt(p: Properties, field: string): Option<real> {
    match Get(p, field)
    case Some(Int(i)) => Some(Rounded(i) as real)
    case Some(Float(Finite(x))) => Some(x)
    case Some(Float(NegativeZero)) => Some(0.0)
    case _ => None
  }

  /** The numbers of the rules that hold one, in order. */
  function NumbersAt(field: string, applicable: seq<Rule>): seq<real> {
    if applicable == [] then []
    else
      NumbersAt(field, applicable[..|applicable| - 1])
      + match NumberAt(applicable[|applicable| - 1].properties, field)
        case Some(x) => [x]
        case None => []
  }

  /** No infinite or undefined number there, as in every built ruleset. */
  predicate FiniteNumber(p: Properties, field: string) {
    match Get(p, field)
    case Some(Float(f)) => f.Finite? || f == NegativeZero
    case _ => true
  }

  ghost predicate FiniteNumbers(field: string, applicable: seq<Rule>) {
    forall rule :: rule in applicable ==> FiniteNumber(rule.properties, field)
  }

  /** Whether the result reports nothing for no field and no numbers, and otherwise a number as described. */
  ghost predicate Reports(
      field: Option<string>, applicable: seq<Rule>, result: Option<Extended>, describes: (seq<real>, real) -> bool)
  {
    match field
    case None => result == None
    case Some(name) =>
      var xs := NumbersAt(name, applicable);
      if xs == [] then result == None
      else result.Some? && result.value.Proper? && describes(xs, result.value.value)
  }

  predicate IsSum(xs: seq<real>, x: real) { x == Total(xs) }

  predicate IsMean(xs: seq<real>, x: real) { x * |xs| as real == Total(xs) }

  predicate IsLeast(xs: seq<real>, x: real) { x in xs && forall y :: y in xs ==> x <= y }

  predicate IsGreatest(xs: seq<real>, x: real) { x in xs && forall y :: y in xs ==> y <= x }

  function Propers(xs: seq<real>): (r: seq<Extended>)
    ensures |r| == |xs| && forall i :: 0 <= i < |r| ==> r[i] == Proper(xs[i])
  {
    seq(|xs|, i requires 0 <= i < |xs| => Proper(xs[i]))
  }

  lemma ContributionIsNumber(p: Properties, field: string)
    requires FiniteNumber(p, field)
    ensures NumericOf(Get(p, field)) ==
      match NumberAt(p, field) case None => None case Some(x) => Some(Proper(x))
  {
    hide Get, Rounded;
  }

  /** The contributions are these numbers. */
  lemma {:induction false} ValuesAreNumbers(field: string, applicable: seq<Rule>)
    requires FiniteNumbers(field, applicable)
    ensures NumericValues(field, applicable) == Propers(NumbersAt(field, applicable))
    decreases |applicable|
  {
    hide Get, NumericOf, NumberAt, FiniteNumber;
    if applicable != [] {
      var init, last := applicable[..|applicable| - 1], applicable[|applicable| - 1];
      assert last in applicable && forall rule :: rule in init ==> rule in applicable;
      ValuesAreNumbers(field, init);
      ContributionIsNumber(last.properties, field);
      assert Contributions(field, applicable)[..|applicable| - 1] == Contributions(field, init);
    }
  }

  lemma SumOfNumbers(xs: seq<real>)
    ensures Fold(Propers(xs), Proper(0.0), Add) == Proper(Total(xs))
  {
    SumOfReals(Propers(xs));
    assert RealsOf(Propers(xs)) == xs;
  }

  lemma MeanOfNumbers(xs: seq<real>)
    requires xs != []
    ensures Reduced(Propers(xs), Sum) == Some(Proper(Total(xs)))
    ensures Reduced(Propers(xs), Avg) == Some(Proper(Mean(Total(xs), |xs|))) && IsMean(xs, Mean(Total(xs), |xs|))
  {
    SumOfNumbers(xs);
    MeanIsMean(xs);
    hide Fold, Total, IsMean, Add, MinOf, MaxOf;
    assert |Propers(xs)| == |xs|;
    hide Propers;
  }

  lemma MeanIsMean(xs: seq<real>)
    requires xs != []
    ensures IsMean(xs, Mean(Total(xs), |xs|))
  {
    hide Total;
    QuotientTimes(Total(xs), |xs| as real);
  }

  lemma ExtremesOfNumbers(xs: seq<real>)
    requires xs != []
    ensures var least, greatest := Reduced(Propers(xs), Min), Reduced(Propers(xs), Max);
      && least.Some? && least.value.Proper? && IsLeast(xs, least.value.value)
      && greatest.Some? && greatest.value.Proper? && IsGreatest(xs, greatest.value.value)
  {
    ExtremesOfValues(Propers(xs));
    assert Propers(xs)[0] in Propers(xs);
    hide Fold, Propers, IsLeast, IsGreatest;
    LeastNumber(xs, Reduced(Propers(xs), Min).value);
    GreatestNumber(xs, Reduced(Propers(xs), Max).value);
  }

  lemma LeastNumber(xs: seq<real>, least: Extended)
    requires least in Propers(xs) && forall x :: x in Propers(xs) ==> !IsBelow(x, least)
    ensures least.Proper? && IsLeast(xs, least.value)
  {
    var i :| 0 <= i < |xs| && Propers(xs)[i] == least;
    assert xs[i] == least.value;
    forall y | y in xs
      ensures least.value <= y
    {
      var k :| 0 <= k < |xs| && xs[k] == y;
      assert Propers(xs)[k] in Propers(xs);
    }
  }

  lemma GreatestNumber(xs: seq<real>, greatest: Extended)
    requires greatest in Propers(xs) && forall x :: x in Propers(xs) ==> !IsBelow(greatest, x)
    ensures greatest.Proper? && IsGreatest(xs, greatest.value)
  {
    var i :| 0 <= i < |xs| && Propers(xs)[i] == greatest;
    assert xs[i] == greatest.value;
    forall y | y in xs
      ensures y <= greatest.value
    {
      var k :| 0 <= k < |xs| && xs[k] == y;
      assert Propers(xs)[k] in Propers(xs);
    }
  }

  lemma RequestMeans(field: Option<string>, applicable: seq<Rule>)
    requires field.Some? ==> FiniteNumbers(field.value, applicable)
    ensures Reports(field, applicable, NumericRequested(field, applicable, Sum), IsSum)
    ensures Reports(field, applicable, NumericRequested(field, applicable, Avg), IsMean)
    ensures Reports(field, applicable, NumericRequested(field, applicable, Min), IsLeast)
    ensures Reports(field, applicable, NumericRequested(field, applicable, Max), IsGreatest)
  {
    if field.Some? {
      ValuesAreNumbers(field.value, applicable);
      if NumbersAt(field.value, applicable) != [] {
        MeanOfNumbers(NumbersAt(field.value, applicable));
        ExtremesOfNumbers(NumbersAt(field.value, applicable));
      }
      hide Reduced, NumericValues, NumbersAt, IsMean, IsLeast, IsGreatest;
    }
  }

  /**
   * Each field of an aggregate is reported exactly when it is asked for and
   * some applicable rule holds a number there: the count of the rules, and the
   * least, the greatest, the sum and the mean of the numbers.
   */
  ghost predicate AggregateReports(spec: AggregateSpec, applicable: seq<Rule>, a: Aggregate) {
    && a.count == (if spec.count then Some(|applicable|) else None)
    && Reports(spec.min, applicable, a.min, IsLeast) && Reports(spec.max, applicable, a.max, IsGreatest)
    && Reports(spec.sum, applicable, a.sum, IsSum) && Reports(spec.avg, applicable, a.avg, IsMean)
    && (a.coverage.Some? <==> spec.coverage)
  }

  lemma AggregateMeans(geo: Geo, spec: AggregateSpec, candidate: Geometry, applicable: seq<Rule>)
    requires forall field :: Some(field) in {spec.min, spec.max, spec.sum, spec.avg} ==>
      FiniteNumbers(field, applicable)
    ensures AggregateReports(spec, applicable, Computed(geo, spec, candidate, applicable))
  {
    hide FiniteNumbers, Reports, NumericRequested, Coverage;
    RequestMeans(spec.min, applicable);
    RequestMeans(spec.max, applicable);
    RequestMeans(spec.sum, applicable);
    RequestMeans(spec.avg, applicable);
  }

  /** A match on a built ruleset reports the aggregate asked for, over exactly the matched rules. */
  lemma MatchedAggregateMeans(geo: Geo, rules: seq<Rule>, q: Query, c: Candidate, ids: seq<RuleId>)
    requires Buildable(geo, rules) && InRange(rules, ids) && MatchOutcome(geo, rules, q, c, ids).Matched?
    ensures var aggregate := MatchOutcome(geo, rules, q, c, ids).aggregate;
      if q.aggregate.None? then aggregate == None
      else aggregate.Some? && AggregateReports(q.aggregate.value, RulesOf(rules, ids), aggregate.value)
  {
    var applicable := RulesOf(rules, ids);
    forall field
      ensures FiniteNumbers(field, applicable)
    {
    }
    hide FiniteNumbers, AggregateReports, Computed, RulesOf;
    if q.aggregate.Some? {
      AggregateMeans(geo, q.aggregate.value, c.geometry, applicable);
    }
  }

}
