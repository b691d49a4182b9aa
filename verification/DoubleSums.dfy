/** Sums as doubles compute them, on integer contributions: when they are exact, and that order can matter when not. */
module DoubleSums {
  import opened Prelude
  import opened Doubles
  import opened Sequences
  import opened Rules
  import opened Aggregates

  /** Addition of integer-valued doubles. */
  function AddDoubles(a: int, b: int): int { Rounded(a + b) }

  function AddInts(a: int, b: int): int { a + b }

  function AddMagnitude(a: nat, b: int): nat { a + Magnitude(b) }

  /** `sum += value` over the values, each rounded to a double and every partial sum again. */
  function DoubleSum(values: seq<int>): int { Fold(values, 0, AddDoubles) }

  function ExactSum(values: seq<int>): int { Fold(values, 0, AddInts) }

  function Magnitudes(values: seq<int>): nat { Fold(values, 0, AddMagnitude) }

  /** While the magnitudes add up to at most 2^53, no partial sum is rounded. */
  lemma {:induction false} SumIsExact(values: seq<int>)
    requires Magnitudes(values) <= EXACT_LIMIT
    ensures DoubleSum(values) == ExactSum(values)
    ensures Magnitude(ExactSum(values)) <= Magnitudes(values)
    decreases |values|
  {
    if values != [] {
      SumIsExact(values[..|values| - 1]);
      RoundedIsNearest(ExactSum(values));
    }
  }

  /** With one more, only the whole sum can be. */
  lemma {:induction false} SumIsRounded(values: seq<int>)
    requires Magnitudes(values) <= EXACT_LIMIT + 1
    ensures DoubleSum(values) == Rounded(ExactSum(values))
    ensures Magnitude(ExactSum(values)) <= Magnitudes(values)
    decreases |values|
  {
    if values == [] {
      RoundedIsNearest(0);
    } else if values[|values| - 1] == 0 {
      SumIsRounded(values[..|values| - 1]);
      RoundedTwice(ExactSum(values));
    } else {
      SumIsExact(values[..|values| - 1]);
    }
  }

  lemma RoundedTwice(i: int)
    requires Magnitude(i) <= EXACT_LIMIT + 1
    ensures Rounded(Rounded(i)) == Rounded(i)
  {
    RoundedAbove();
    RoundedIsNearest(i);
    RoundedIsNearest(EXACT_LIMIT);
    RoundedIsNearest(-EXACT_LIMIT);
    assert i == -(EXACT_LIMIT + 1) ==> Rounded(i) == -Rounded(EXACT_LIMIT + 1);
  }

  predicate SameInAnyOrder(a: seq<int>, b: seq<int>) {
    multiset(a) == multiset(b) ==> DoubleSum(a) == DoubleSum(b)
  }

  lemma DoubleSumPermutes(a: seq<int>, b: seq<int>)
    requires multiset(a) == multiset(b) && Magnitudes(a) <= EXACT_LIMIT + 1
    ensures DoubleSum(a) == DoubleSum(b)
  {
    FoldPermute(a, b, 0, AddInts);
    FoldPermute(a, b, 0, AddMagnitude);
    SumIsRounded(a);
    SumIsRounded(b);
  }

  /**
   * The sum of doubles does not depend on the order of integer contributions
   * whose magnitudes add up to at most `m`, if and only if `m` is at most
   * 2^53 + 1.
   */
  lemma OrderIrrelevantUpTo(m: nat)
    ensures (forall a, b :: Magnitudes(a) <= m ==> SameInAnyOrder(a, b)) <==> m <= EXACT_LIMIT + 1
  {
    if m <= EXACT_LIMIT + 1 {
      forall a, b | Magnitudes(a) <= m
        ensures SameInAnyOrder(a, b)
      {
        if multiset(a) == multiset(b) {
          DoubleSumPermutes(a, b);
        }
      }
    } else {
      OrderCanMatter();
      assert !SameInAnyOrder([EXACT_LIMIT, 1, 1], [1, 1, EXACT_LIMIT]);
    }
  }

  /** Beyond, it can: the same three contributions sum to 2^53 in one order and to 2^53 + 2 in the other. */
  lemma OrderCanMatter()
    ensures var a, b := [EXACT_LIMIT, 1, 1], [1, 1, EXACT_LIMIT];
      && multiset(a) == multiset(b) && Magnitudes(a) == EXACT_LIMIT + 2
      && DoubleSum(a) == EXACT_LIMIT && DoubleSum(b) == EXACT_LIMIT + 2
  {
    MagnitudesOfThree(EXACT_LIMIT, 1, 1);
    hide DoubleSum, Rounded, Magnitudes;
    SumOfThree(EXACT_LIMIT, 1, 1);
    SumOfThree(1, 1, EXACT_LIMIT);
    RoundedIsNearest(EXACT_LIMIT);
    RoundedIsNearest(1);
    RoundedIsNearest(2);
    RoundedAbove();
  }

  lemma MagnitudesOfThree(a: int, b: int, c: int)
    ensures Magnitudes([a, b, c]) == Magnitude(a) + Magnitude(b) + Magnitude(c)
  {
    assert [a, b, c][..2] == [a, b] && [a, b][..1] == [a] && [a][..0] == [];
    assert Magnitudes([]) == 0;
    assert Magnitudes([a]) == AddMagnitude(Magnitudes([]), a);
    assert Magnitudes([a, b]) == AddMagnitude(Magnitudes([a]), b);
    assert Magnitudes([a, b, c]) == AddMagnitude(Magnitudes([a, b]), c);
  }

  lemma SumOfThree(a: int, b: int, c: int)
    ensures DoubleSum([a, b, c]) == Rounded(Rounded(Rounded(a) + b) + c)
  {
    hide Rounded;
    assert [a, b, c][..2] == [a, b] && [a, b][..1] == [a] && [a][..0] == [];
    assert DoubleSum([]) == 0;
    assert DoubleSum([a]) == AddDoubles(DoubleSum([]), a);
    assert DoubleSum([a, b]) == AddDoubles(DoubleSum([a]), b);
    assert DoubleSum([a, b, c]) == AddDoubles(DoubleSum([a, b]), c);
  }

  lemma RoundedAbove()
    ensures Rounded(EXACT_LIMIT + 1) == EXACT_LIMIT && Rounded(EXACT_LIMIT + 2) == EXACT_LIMIT + 2
  {
    assert SpacingFrom(EXACT_LIMIT + 1, 2) == SpacingFrom(EXACT_LIMIT + 2, 2) == 2;
    assert Spacing(EXACT_LIMIT + 1) == Spacing(EXACT_LIMIT + 2) == 2;
  }

  function ProperInts(ints: seq<int>): (r: seq<Extended>)
    ensures |r| == |ints| && forall i :: 0 <= i < |r| ==> r[i] == Proper(ints[i] as real)
  {
    seq(|ints|, i requires 0 <= i < |ints| => Proper(ints[i] as real))
  }

  /** The reported sum is the double sum when the contributions are integers of at most 2^53 in all. */
  lemma ReportedSumIsDoubleSum(field: string, applicable: seq<Rule>, ints: seq<int>)
    requires ints != [] && NumericValues(field, applicable) == ProperInts(ints) && Magnitudes(ints) <= EXACT_LIMIT
    ensures NumericResult(field, applicable, Sum) == Some(Proper(DoubleSum(ints) as real))
  {
    SumIsExact(ints);
    ProperSum(ints);
  }

  lemma {:induction false} ProperSum(ints: seq<int>)
    ensures Fold(ProperInts(ints), Proper(0.0), Add) == Proper(ExactSum(ints) as real)
    decreases |ints|
  {
    if ints != [] {
      var init := ints[..|ints| - 1];
      ProperSum(init);
      assert ProperInts(ints)[..|ints| - 1] == ProperInts(init);
    }
  }
}
