/** Per-candidate analytics over the applicable rules. */
module Aggregates {
  import opened Prelude
  import opened Doubles
  import opened Sequences
  import opened Properties
  import opened Geometry
  import opened Rules
  import opened Averages
  import opened Query

  datatype Aggregate = Aggregate(
    count: Option<nat>,
    min: Option<Extended>,
    max: Option<Extended>,
    sum: Option<Extended>,
    avg: Option<Extended>,
    coverage: Option<real>)

  datatype NumericOp = Min | Max | Sum | Avg

  /** The number a property contributes; missing and non-numeric properties contribute nothing. */
  function NumericOf(v: Option<PropertyValue>): Option<Extended> {
    match v
    case Some(Int(i)) => Some(ValueOf(ToDouble(i)))
    case Some(Float(f)) => Some(ValueOf(f))
    case _ => None
  }

  function ContributionOf(field: string): Rule -> Option<Extended> {
    (rule: Rule) => NumericOf(Get(rule.properties, field))
  }

  function Contributions(field: string, applicable: seq<Rule>): (r: seq<Option<Extended>>)
    ensures |r| == |applicable|
    ensures forall i :: 0 <= i < |r| ==> r[i] == NumericOf(Get(applicable[i].properties, field))
  {
    Map(applicable, ContributionOf(field))
  }

  function Present(contributions: seq<Option<Extended>>): seq<Extended> {
    if contributions == [] then []
    else
      var last := contributions[|contributions| - 1];
      Present(contributions[..|contributions| - 1]) + if last.Some? then [last.value] else []
  }

  /** The contributed numbers of the rules, in order. */
  function NumericValues(field: string, applicable: seq<Rule>): seq<Extended> {
    Present(Contributions(field, applicable))
  }

  /** One pass over the values. */
  method NumericSumCount(values: seq<Extended>) returns (sum: Extended, count: nat)
    ensures sum == Fold(values, Proper(0.0), Add) && count == |values|
  {
    sum, count := Proper(0.0), 0;
    while count < |values|
      invariant count <= |values| && sum == Fold(values[..count], Proper(0.0), Add)
    {
      assert values[..count + 1][..count] == values[..count];
      sum := Add(sum, values[count]);
      count := count + 1;
    }
    assert values[..count] == values;
  }

  /** The fold of `f64::min` or `f64::max` from the first value. */
  method FoldFromFirst(values: seq<Extended>, op: (Extended, Extended) -> Extended) returns (r: Extended)
    requires values != [] && forall x :: op(Undefined, x) == x
    ensures r == Fold(values, Undefined, op)
  {
    r := values[0];
    assert values[..1][..0] == [];
    for k := 1 to |values|
      invariant r == Fold(values[..k], Undefined, op)
    {
      assert values[..k + 1][..k] == values[..k];
      r := op(r, values[k]);
    }
    assert values[..|values|] == values;
  }

  function Reduced(values: seq<Extended>, op: NumericOp): Option<Extended> {
    if values == [] then None
    else
      match op
      case Min => Some(Fold(values, Undefined, MinOf))
      case Max => Some(Fold(values, Undefined, MaxOf))
      case Sum => Some(Fold(values, Proper(0.0), Add))
      case Avg => Some(Divide(Fold(values, Proper(0.0), Add), |values|))
  }

  function NumericResult(field: string, applicable: seq<Rule>, op: NumericOp): Option<Extended> {
    Reduced(NumericValues(field, applicable), op)
  }

  method Numeric(field: string, applicable: seq<Rule>, op: NumericOp) returns (r: Option<Extended>)
    ensures r == NumericResult(field, applicable, op)
  {
    var values := NumericValues(field, applicable);
    if (op.Min? || op.Max?) && values == [] {
      return None;
    }
    match op {
      case Min =>
        var least := FoldFromFirst(values, MinOf);
        return Some(least);
      case Max =>
        var greatest := FoldFromFirst(values, MaxOf);
        return Some(greatest);
      case Sum =>
        var sum, count := NumericSumCount(values);
        return if count > 0 then Some(sum) else None;
      case Avg =>
        var sum, count := NumericSumCount(values);
        return if count > 0 then Some(Divide(sum, count)) else None;
    }
  }

  // ------------------------------------------------ coverage

  /** The union of the rules' areas, joined in order. */
  function UnionOf(geo: Geo, applicable: seq<Rule>): seq<Polygon>
    requires applicable != []
  {
    var last := PolygonsOf(applicable[|applicable| - 1].geometry);
    if |applicable| == 1 then last else geo.union(UnionOf(geo, applicable[..|applicable| - 1]), last)
  }

  /** The covered fraction of the candidate's area; a point has none. */
  function Coverage(geo: Geo, candidate: Geometry, applicable: seq<Rule>): real {
    if IsPoint(candidate) || applicable == [] then 0.0
    else
      var area := AbsReal(geo.area(candidate));
      if area > 0.0 then AbsReal(geo.coveredArea(candidate, UnionOf(geo, applicable))) / area else 0.0
  }

  method CoverageRatio(geo: Geo, candidate: Geometry, applicable: seq<Rule>) returns (r: real)
    ensures r == Coverage(geo, candidate, applicable)
  {
    if IsPoint(candidate) {
      return 0.0;
    }
    var union: Option<seq<Polygon>> := None;
    for k := 0 to |applicable|
      invariant k == 0 ==> union == None
      invariant k > 0 ==> union == Some(UnionOf(geo, applicable[..k]))
    {
      var polygons := PolygonsOf(applicable[k].geometry);
      assert applicable[..k + 1][..k] == applicable[..k];
      union := Some(match union case None => polygons case Some(acc) => geo.union(acc, polygons));
    }
    if union.None? {
      return 0.0;
    }
    assert applicable[..|applicable|] == applicable;
    var covered := AbsReal(geo.coveredArea(candidate, union.value));
    var area := AbsReal(geo.area(candidate));
    r := if area > 0.0 then covered / area else 0.0;
  }

  // ------------------------------------------------ the aggregate

  function NumericRequested(field: Option<string>, applicable: seq<Rule>, op: NumericOp): Option<Extended> {
    match field
    case None => None
    case Some(name) => NumericResult(name, applicable, op)
  }

  function Computed(geo: Geo, spec: AggregateSpec, candidate: Geometry, applicable: seq<Rule>): Aggregate {
    Aggregate(
      if spec.count then Some(|applicable|) else None,
      NumericRequested(spec.min, applicable, Min),
      NumericRequested(spec.max, applicable, Max),
      NumericRequested(spec.sum, applicable, Sum),
      NumericRequested(spec.avg, applicable, Avg),
      if spec.coverage then Some(Coverage(geo, candidate, applicable)) else None)
  }

  method Compute(geo: Geo, spec: AggregateSpec, candidate: Geometry, applicable: seq<Rule>) returns (a: Aggregate)
    ensures a == Computed(geo, spec, candidate, applicable)
  {
    var min, max, sum, avg: Option<Extended> := None, None, None, None;
    if spec.min.Some? { min := Numeric(spec.min.value, applicable, Min); }
    if spec.max.Some? { max := Numeric(spec.max.value, applicable, Max); }
    if spec.sum.Some? { sum := Numeric(spec.sum.value, applicable, Sum); }
    if spec.avg.Some? { avg := Numeric(spec.avg.value, applicable, Avg); }
    var coverage: Option<real> := None;
    if spec.coverage {
      var ratio := CoverageRatio(geo, candidate, applicable);
      coverage := Some(ratio);
    }
    a := Aggregate(if spec.count then Some(|applicable|) else None, min, max, sum, avg, coverage);
  }

  // ------------------------------------------------ order does not matter

  lemma {:induction false} PresentConcat(a: seq<Option<Extended>>, b: seq<Option<Extended>>)
    ensures Present(a + b) == Present(a) + Present(b)
    decreases |b|
  {
    if b == [] {
      assert a + b == a;
    } else {
      PresentConcat(a, b[..|b| - 1]);
      assert (a + b)[..|a + b| - 1] == a + b[..|b| - 1];
    }
  }

  lemma PresentRemove(b: seq<Option<Extended>>, k: nat)
    requires k < |b|
    ensures multiset(Present(b)) == multiset(Present(b[..k] + b[k + 1..])) + multiset(Present([b[k]]))
  {
    hide Present;
    var x, y, z := Present(b[..k]), Present([b[k]]), Present(b[k + 1..]);
    assert Present(b) == x + (y + z) by {
      assert b == b[..k] + ([b[k]] + b[k + 1..]);
      PresentConcat(b[..k], [b[k]] + b[k + 1..]);
      PresentConcat([b[k]], b[k + 1..]);
    }
    PresentConcat(b[..k], b[k + 1..]);
  }

  lemma {:induction false} PresentPermute(a: seq<Option<Extended>>, b: seq<Option<Extended>>)
    requires multiset(a) == multiset(b)
    ensures multiset(Present(a)) == multiset(Present(b))
    decreases |a|
  {
    hide Present;
    SameMembers(a, b);
    if a == [] {
      assert a == b;
    } else {
      var k := RemoveHead(a, b);
      PresentPermute(a[1..], b[..k] + b[k + 1..]);
      assert a[..0] + a[1..] == a[1..];
      PresentRemove(a, 0);
      PresentRemove(b, k);
    }
  }

  lemma OperationsCommute()
    ensures RightCommutes(MinOf) && RightCommutes(MaxOf) && RightCommutes(Add)
  {
  }

  lemma ReducedPermute(x: seq<Extended>, y: seq<Extended>, op: NumericOp)
    requires multiset(x) == multiset(y)
    ensures Reduced(x, op) == Reduced(y, op)
  {
    hide MinOf, MaxOf, Add;
    SameMembers(x, y);
    OperationsCommute();
    FoldPermute(x, y, Undefined, MinOf);
    FoldPermute(x, y, Undefined, MaxOf);
    FoldPermute(x, y, Proper(0.0), Add);
  }

  lemma NumericPermute(field: string, a: seq<Rule>, b: seq<Rule>, op: NumericOp)
    requires multiset(a) == multiset(b)
    ensures NumericResult(field, a, op) == NumericResult(field, b, op)
  {
    MapPermute(a, b, ContributionOf(field));
    PresentPermute(Contributions(field, a), Contributions(field, b));
    ReducedPermute(NumericValues(field, a), NumericValues(field, b), op);
  }

  /**
   * Every result but the covered area depends on the applicable set only, so
   * the match order and the precedence order report the same.
   */
  lemma OrderIrrelevant(geo: Geo, spec: AggregateSpec, candidate: Geometry, a: seq<Rule>, b: seq<Rule>)
    requires multiset(a) == multiset(b)
    ensures SameUpToCoverage(Computed(geo, spec, candidate, a), Computed(geo, spec, candidate, b))
  {
    SameMembers(a, b);
    if spec.min.Some? { NumericPermute(spec.min.value, a, b, Min); }
    if spec.max.Some? { NumericPermute(spec.max.value, a, b, Max); }
    if spec.sum.Some? { NumericPermute(spec.sum.value, a, b, Sum); }
    if spec.avg.Some? { NumericPermute(spec.avg.value, a, b, Avg); }
  }

  predicate SameUpToCoverage(a: Aggregate, b: Aggregate) {
    a.(coverage := None) == b.(coverage := None) && a.coverage.Some? == b.coverage.Some?
  }

  // ------------------------------------------------ what the numbers mean

  /** The rules that contribute a number. */
  ghost function Contributors(field: string, applicable: seq<Rule>): set<nat> {
    set k: nat | k < |applicable| && NumericOf(Get(applicable[k].properties, field)).Some?
  }

  ghost function Somes(cs: seq<Option<Extended>>): set<nat> {
    set k: nat | k < |cs| && cs[k].Some?
  }

  lemma {:induction false} PresentCounts(cs: seq<Option<Extended>>)
    ensures |Present(cs)| == |Somes(cs)|
    decreases |cs|
  {
    if cs != [] {
      var init, n := cs[..|cs| - 1], |cs| - 1;
      PresentCounts(init);
      assert Somes(cs) == Somes(init) + if cs[n].Some? then {n} else {};
    }
  }

  /** One number per contributing rule; so a result is present exactly when some applicable rule contributes. */
  lemma PresentIffContributed(field: string, applicable: seq<Rule>, op: NumericOp)
    ensures |NumericValues(field, applicable)| == |Contributors(field, applicable)|
    ensures NumericResult(field, applicable, op).Some? <==> Contributors(field, applicable) != {}
  {
    var cs := Contributions(field, applicable);
    PresentCounts(cs);
    assert Somes(cs) == Contributors(field, applicable);
  }

  /**
   * The minimum is a contribution that none lies below, and undefined only when every
   * contribution is; dually the maximum.
   */
  lemma {:induction false} ExtremesOfValues(values: seq<Extended>)
    ensures var least, greatest := Fold(values, Undefined, MinOf), Fold(values, Undefined, MaxOf);
      && (least.Undefined? ==> forall x :: x in values ==> x.Undefined?)
      && (greatest.Undefined? ==> forall x :: x in values ==> x.Undefined?)
      && (!least.Undefined? ==> least in values && forall x :: x in values ==> !IsBelow(x, least))
      && (!greatest.Undefined? ==> greatest in values && forall x :: x in values ==> !IsBelow(greatest, x))
    decreases |values|
  {
    if values != [] {
      var init, last := values[..|values| - 1], values[|values| - 1];
      assert values == init + [last];
      ExtremesOfValues(init);
    }
  }

  function RealsOf(values: seq<Extended>): (r: seq<real>)
    requires forall x :: x in values ==> x.Proper?
    ensures |r| == |values| && forall i :: 0 <= i < |r| ==> r[i] == values[i].value
  {
    seq(|values|, i requires 0 <= i < |values| => values[i].value)
  }

  lemma {:induction false} SumOfReals(values: seq<Extended>)
    requires forall x :: x in values ==> x.Proper?
    ensures Fold(values, Proper(0.0), Add) == Proper(Total(RealsOf(values)))
    decreases |values|
  {
    if values != [] {
      var init := values[..|values| - 1];
      assert forall x :: x in init ==> x in values;
      SumOfReals(init);
      assert RealsOf(values)[..|values| - 1] == RealsOf(init);
      assert values[|values| - 1] in values;
    }
  }

  /** Minimum <= average <= maximum, and the average times the number of contributors is the sum. */
  predicate Averaged(n: nat, min: Option<Extended>, avg: Option<Extended>, max: Option<Extended>,
      sum: Option<Extended>) {
    match (min, avg, max, sum)
    case (Some(Proper(least)), Some(Proper(mean)), Some(Proper(greatest)), Some(Proper(total))) =>
      least <= mean <= greatest && mean * n as real == total
    case _ => false
  }

  lemma ReducedLaws(values: seq<Extended>)
    requires values != [] && forall x :: x in values ==> x.Proper?
    ensures Averaged(|values|, Reduced(values, Min), Reduced(values, Avg), Reduced(values, Max), Reduced(values, Sum))
  {
    hide Fold, MinOf, MaxOf, Add, Total;
    var least, greatest := Fold(values, Undefined, MinOf), Fold(values, Undefined, MaxOf);
    var reals := RealsOf(values);
    ExtremesOfValues(values);
    SumOfReals(values);
    assert values[0] in values;
    assert least.Proper? && greatest.Proper?;
    forall x | x in reals
      ensures least.value <= x <= greatest.value
    {
      var i :| 0 <= i < |values| && reals[i] == x;
      assert values[i] in values;
    }
    MeanBetween(reals, least.value, greatest.value);
    QuotientTimes(Total(reals), |values| as real);
  }

  lemma {:induction false} PresentFinite(cs: seq<Option<Extended>>)
    requires forall k :: 0 <= k < |cs| && cs[k].Some? ==> cs[k].value.Proper?
    ensures forall x :: x in Present(cs) ==> x.Proper?
    decreases |cs|
  {
    if cs != [] {
      PresentFinite(cs[..|cs| - 1]);
    }
  }

  /**
   * The numbers reported for one field: none without contributors; otherwise
   * minimum <= average <= maximum, and the average times the number of
   * contributing rules is the sum.
   */
  lemma AverageLaws(geo: Geo, spec: AggregateSpec, candidate: Geometry, applicable: seq<Rule>, field: string)
    requires spec.min == spec.max == spec.sum == spec.avg == Some(field)
    requires forall k :: 0 <= k < |applicable| ==> FiniteAt(applicable[k].properties, field)
    ensures var a, n := Computed(geo, spec, candidate, applicable), |Contributors(field, applicable)|;
      if n == 0 then a.min == a.max == a.sum == a.avg == None
      else Averaged(n, a.min, a.avg, a.max, a.sum)
  {
    hide Fold, Present, Averaged, Contributors, Coverage;
    var values := NumericValues(field, applicable);
    PresentIffContributed(field, applicable, Avg);
    PresentFinite(Contributions(field, applicable));
    if values != [] {
      ReducedLaws(values);
    }
  }

  predicate FiniteAt(p: Properties, field: string) {
    match NumericOf(Get(p, field)) case Some(x) => x.Proper? case None => true
  }
}
