/** The equality index over rule properties and the `where` trees it answers exactly. */
module PropertyIndex {
  import opened Prelude
  import opened Sequences
  import opened Properties
  import opened Temporal
  import opened WhereExpr
  import opened Rules

  /** Property name to value to ascending rule positions, all bound to `owner`. */
  datatype EqualityIndex = EqualityIndex(owner: nat, equality: map<string, map<PropertyValue, seq<nat>>>)

  type Buckets = map<string, map<PropertyValue, seq<nat>>>

  function Matching(equality: Buckets, name: string, value: PropertyValue): seq<nat> {
    if name in equality && value in equality[name] then equality[name][value] else []
  }

  predicate Defines(rules: seq<Rule>, name: string, value: PropertyValue, i: nat) {
    i < |rules| && Get(rules[i].properties, name) == Some(value)
  }

  function Defining(rules: seq<Rule>, name: string, value: PropertyValue): nat -> bool {
    (i: nat) => Defines(rules, name, value, i)
  }

  /** Every bucket lists exactly the rules with that property value, once, ascending. */
  ghost predicate Exact(index: EqualityIndex, rules: seq<Rule>) {
    forall name, value ::
      Matching(index.equality, name, value) == Select(|rules|, Defining(rules, name, value))
  }

  // ------------------------------------------------ building

  /** Buckets after the first `n` rules and the first `k` properties of the next one. */
  ghost predicate BuiltTo(equality: Buckets, rules: seq<Rule>, n: nat, k: nat)
    requires n <= |rules| && (k > 0 ==> n < |rules| && k <= |rules[n].properties|)
  {
    forall name, value ::
      Matching(equality, name, value) == Select(n, Defining(rules, name, value))
        + if k > 0 && Entry(name, value) in rules[n].properties[..k] then [n] else []
  }

  function Push(equality: Buckets, name: string, value: PropertyValue, i: nat): (r: Buckets)
    ensures forall n, v :: Matching(r, n, v) == Matching(equality, n, v) + if n == name && v == value then [i] else []
  {
    var byValue := if name in equality then equality[name] else map[];
    var ids := if value in byValue then byValue[value] + [i] else [i];
    equality[name := byValue[value := ids]]
  }

  lemma PropertiesSeen(p: Properties, name: string, value: PropertyValue)
    ensures Entry(name, value) in p <==> Get(p, name) == Some(value)
  {
    if Entry(name, value) in p {
      var i :| 0 <= i < |p| && p[i] == Entry(name, value);
    }
    if Get(p, name) == Some(value) {
      var i :| 0 <= i < |p| && p[i].name == name;
      assert p[i] == Entry(name, value);
    }
  }

  lemma RuleDone(equality: Buckets, rules: seq<Rule>, n: nat)
    requires n < |rules| && BuiltTo(equality, rules, n, |rules[n].properties|)
    ensures BuiltTo(equality, rules, n + 1, 0)
  {
    var p := rules[n].properties;
    assert p[..|p|] == p;
    forall name, value
      ensures Matching(equality, name, value) == Select(n + 1, Defining(rules, name, value))
    {
      PropertiesSeen(p, name, value);
    }
  }

  lemma PropertySeenOnce(p: Properties, k: nat, entry: Entry)
    requires k < |p|
    ensures entry in p[..k + 1] <==> entry in p[..k] || p[k] == entry
    ensures !(entry in p[..k] && p[k] == entry)
  {
    KeysDistinct(p, k);
    assert p[..k + 1] == p[..k] + [p[k]];
  }

  lemma PropertyPushed(equality: Buckets, rules: seq<Rule>, n: nat, k: nat)
    requires n < |rules| && k < |rules[n].properties| && BuiltTo(equality, rules, n, k)
    ensures BuiltTo(Push(equality, rules[n].properties[k].name, rules[n].properties[k].value, n), rules, n, k + 1)
  {
    hide Push, Matching, Select, Defining;
    var p := rules[n].properties;
    var after := Push(equality, p[k].name, p[k].value, n);
    forall name, value
      ensures Matching(after, name, value) == Select(n, Defining(rules, name, value))
        + if Entry(name, value) in p[..k + 1] then [n] else []
    {
      PropertySeenOnce(p, k, Entry(name, value));
      var below := Select(n, Defining(rules, name, value));
      assert Matching(equality, name, value) == below + if k > 0 && Entry(name, value) in p[..k] then [n] else [];
      assert below + [] + [n] == below + [n] && below + [n] + [] == below + [n] && below + [] + [] == below + [];
    }
  }

  lemma NothingBuilt(rules: seq<Rule>)
    ensures BuiltTo(map[], rules, 0, 0)
  {
  }

  lemma AllBuilt(equality: Buckets, owner: nat, rules: seq<Rule>)
    requires BuiltTo(equality, rules, |rules|, 0)
    ensures Exact(EqualityIndex(owner, equality), rules)
  {
    forall name, value
      ensures Matching(equality, name, value) == Select(|rules|, Defining(rules, name, value))
    {
      assert Matching(equality, name, value) == Select(|rules|, Defining(rules, name, value)) + [];
    }
  }

  /** One rule's visit: its properties go to their buckets. */
  method AddRule(equality: Buckets, rules: seq<Rule>, i: nat) returns (after: Buckets)
    requires i < |rules| && BuiltTo(equality, rules, i, 0)
    ensures BuiltTo(after, rules, i + 1, 0)
  {
    var properties := rules[i].properties;
    after := equality;
    var k := 0;
    while k < |properties|
      invariant 0 <= k <= |properties|
      invariant BuiltTo(after, rules, i, k)
    {
      PropertyPushed(after, rules, i, k);
      after := Push(after, properties[k].name, properties[k].value, i);
      k := k + 1;
    }
    RuleDone(after, rules, i);
  }

  method Build(rules: seq<Rule>, owner: nat) returns (index: EqualityIndex)
    ensures index.owner == owner && Exact(index, rules)
  {
    hide BuiltTo, Exact;
    var equality: Buckets := map[];
    NothingBuilt(rules);
    for i := 0 to |rules|
      invariant BuiltTo(equality, rules, i, 0)
    {
      equality := AddRule(equality, rules, i);
    }
    AllBuilt(equality, owner, rules);
    index := EqualityIndex(owner, equality);
  }

  // ------------------------------------------------ looking up

  /** The trees the index answers: equality and `$in` leaves, and non-empty conjunctions of them. */
  predicate Indexable(expr: WhereExpr) {
    match expr
    case Predicate(p) => ToIndexQuery(p).Some?
    case And(exprs) => exprs != [] && forall e | e in exprs :: Indexable(e)
    case _ => false
  }

  /** The ids of the rules a tree admits. */
  ghost function Admitted(expr: WhereExpr, rules: seq<Rule>, owner: nat, at: Option<TemporalInstant>): set<RuleId> {
    set i: nat | i < |rules| && Eval(expr, rules[i].properties, at) :: RuleId(i, owner)
  }

  lemma {:induction false} IndexableTimeless(expr: WhereExpr)
    requires Indexable(expr)
    ensures !HasActiveAt(expr)
    decreases expr
  {
    if expr.And? {
      forall e | e in expr.exprs
        ensures !HasActiveAt(e)
      {
        IndexableTimeless(e);
      }
    }
  }

  lemma BucketMembers(index: EqualityIndex, rules: seq<Rule>, name: string, value: PropertyValue)
    requires Exact(index, rules)
    ensures forall i: nat :: i in Matching(index.equality, name, value) <==>
      i < |rules| && Get(rules[i].properties, name) == Some(value)
  {
    assert Matching(index.equality, name, value) == Select(|rules|, Defining(rules, name, value));
  }

  /** `$in`: the union of the buckets, ascending and deduplicated. */
  method MatchingIn(index: EqualityIndex, name: string, values: seq<PropertyValue>, ghost rules: seq<Rule>)
    returns (ids: seq<RuleId>)
    requires Exact(index, rules)
    ensures IdsAscending(ids) && AllOwned(ids, index.owner)
    ensures forall i: nat :: RuleId(i, index.owner) in ids <==>
      i < |rules| && Get(rules[i].properties, name).Some? && Get(rules[i].properties, name).value in values
  {
    var found: seq<RuleId> := [];
    for k := 0 to |values|
      invariant AllOwned(found, index.owner)
      invariant forall i: nat :: RuleId(i, index.owner) in found <==>
        i < |rules| && Get(rules[i].properties, name).Some? && Get(rules[i].properties, name).value in values[..k]
    {
      BucketMembers(index, rules, name, values[k]);
      var bucket := Matching(index.equality, name, values[k]);
      var minted := Mint(bucket, index.owner);
      assert forall i: nat :: RuleId(i, index.owner) in minted <==> i in bucket by {
        forall i: nat
          ensures RuleId(i, index.owner) in minted <==> i in bucket
        {
          if i in bucket {
            var j :| 0 <= j < |bucket| && bucket[j] == i;
            assert minted[j] == RuleId(i, index.owner);
          }
        }
      }
      assert values[..k + 1] == values[..k] + [values[k]];
      found := found + minted;
    }
    assert values[..|values|] == values;
    SortDedupEnumerates(found, index.owner);
    ids := SortDedup(found);
  }

  method PredicateMatches(index: EqualityIndex, p: FieldPredicate, ghost rules: seq<Rule>)
    returns (r: Option<set<RuleId>>)
    requires Exact(index, rules)
    ensures r.Some? <==> Indexable(Predicate(p))
    ensures r.Some? ==> r.value == Admitted(Predicate(p), rules, index.owner, None)
  {
    match ToIndexQuery(p) {
      case None => return None;
      case Some(EqQuery(field, value)) =>
        BucketMembers(index, rules, field, value);
        var bucket := Matching(index.equality, field, value);
        return Some(set i | i in bucket :: RuleId(i, index.owner));
      case Some(InQuery(field, values)) =>
        var ids := MatchingIn(index, field, values, rules);
        InMatches(p, ids, rules, index.owner);
        return Some(set id | id in ids);
    }
  }

  lemma InMatches(p: FieldPredicate, ids: seq<RuleId>, rules: seq<Rule>, owner: nat)
    requires p.op.In? && AllOwned(ids, owner)
    requires forall i: nat :: RuleId(i, owner) in ids <==>
      i < |rules| && Get(rules[i].properties, p.field).Some? && Get(rules[i].properties, p.field).value in p.op.values
    ensures (set id | id in ids) == Admitted(Predicate(p), rules, owner, None)
  {
    forall id
      ensures id in ids <==> id in Admitted(Predicate(p), rules, owner, None)
    {
      assert id == RuleId(id.index, id.owner);
      if id in Admitted(Predicate(p), rules, owner, None) {
        assert RuleId(id.index, owner) in ids;
      }
      if id in ids {
        assert Eval(Predicate(p), rules[id.index].properties, None);
      }
    }
  }

  /** The ids admitted by the first `n` members of a conjunction. */
  ghost function AdmittedByAll(exprs: seq<WhereExpr>, n: nat, rules: seq<Rule>, owner: nat): set<RuleId>
    requires n <= |exprs|
  {
    set i: nat
      | i < |rules| && (forall k :: 0 <= k < n ==> Eval(exprs[k], rules[i].properties, None))
      :: RuleId(i, owner)
  }

  lemma ConjunctionStep(exprs: seq<WhereExpr>, n: nat, rules: seq<Rule>, owner: nat)
    requires n < |exprs|
    ensures IntersectIds(AdmittedByAll(exprs, n, rules, owner), Admitted(exprs[n], rules, owner, None))
         == AdmittedByAll(exprs, n + 1, rules, owner)
    ensures AdmittedByAll(exprs, 1, rules, owner) == Admitted(exprs[0], rules, owner, None)
  {
    var a, b := AdmittedByAll(exprs, n, rules, owner), Admitted(exprs[n], rules, owner, None);
    OwnedSetsExact(a, b, owner, RuleId(0, owner));
    var c := AdmittedByAll(exprs, n + 1, rules, owner);
    forall id
      ensures id in a * b <==> id in c
    {
      if id in a * b {
        assert forall k :: 0 <= k < n + 1 ==> Eval(exprs[k], rules[id.index].properties, None);
      }
      if id in c {
        assert Eval(exprs[n], rules[id.index].properties, None);
      }
    }
    assert a * b == c;
    assert AdmittedByAll(exprs, 1, rules, owner) == Admitted(exprs[0], rules, owner, None);
  }

  lemma ConjunctionDone(exprs: seq<WhereExpr>, rules: seq<Rule>, owner: nat)
    ensures AdmittedByAll(exprs, |exprs|, rules, owner) == Admitted(And(exprs), rules, owner, None)
  {
    forall i: nat | i < |rules|
      ensures (forall k :: 0 <= k < |exprs| ==> Eval(exprs[k], rules[i].properties, None))
         <==> Eval(And(exprs), rules[i].properties, None)
    {
    }
  }

  method IndexableMatches(index: EqualityIndex, expr: WhereExpr, ghost rules: seq<Rule>)
    returns (r: Option<set<RuleId>>)
    requires Exact(index, rules)
    ensures r.Some? <==> Indexable(expr)
    ensures r.Some? ==> r.value == Admitted(expr, rules, index.owner, None)
    decreases expr
  {
    match expr {
      case Predicate(p) => r := PredicateMatches(index, p, rules);
      case And(exprs) =>
        if exprs == [] {
          return None;
        }
        var result: Option<set<RuleId>> := None;
        var k := 0;
        while k < |exprs|
          invariant 0 <= k <= |exprs|
          invariant forall j :: 0 <= j < k ==> Indexable(exprs[j])
          invariant result.Some? <==> k > 0
          invariant k > 0 ==> result.value == AdmittedByAll(exprs, k, rules, index.owner)
        {
          var s := IndexableMatches(index, exprs[k], rules);
          if s.None? {
            assert exprs[k] in exprs;
            return None;
          }
          ConjunctionStep(exprs, k, rules, index.owner);
          result := match result case None => s case Some(acc) => Some(IntersectIds(acc, s.value));
          k := k + 1;
        }
        ConjunctionDone(exprs, rules, index.owner);
        r := result;
      case _ => r := None;
    }
  }

  /**
   * When the index answers a tree, its set holds exactly the rules on which
   * the tree evaluates to true, at every reference time.
   */
  lemma IndexRefinesEval(expr: WhereExpr, rules: seq<Rule>, owner: nat, at: Option<TemporalInstant>, i: nat)
    requires Indexable(expr) && i < |rules|
    ensures HasId(Admitted(expr, rules, owner, None), RuleId(i, owner)) <==> Eval(expr, rules[i].properties, at)
  {
    IndexableTimeless(expr);
    TimelessEval(expr, rules[i].properties, at, None);
    var ids := Admitted(expr, rules, owner, None);
    OwnedSetsExact(ids, ids, owner, RuleId(i, owner));
  }
}
