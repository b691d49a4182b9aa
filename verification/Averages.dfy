/** Sums and means of sequences of reals. */
module Averages {

  function Total(values: seq<real>): real {
    if values == [] then 0.0 else Total(values[..|values| - 1]) + values[|values| - 1]
  }

  function Mean(total: real, n: nat): real
    requires n > 0
  {
    total / n as real
  }

  lemma OneMore(x: real, n: nat)
    ensures x * (n + 1) as real == x * n as real + x
  {
    assert (n + 1) as real == n as real + 1.0;
  }

  lemma {:induction false} TotalBounds(values: seq<real>, low: real, high: real)
    requires forall x :: x in values ==> low <= x <= high
    ensures low * |values| as real <= Total(values) <= high * |values| as real
    decreases |values|
  {
    if values != [] {
      var init := values[..|values| - 1];
      assert forall x :: x in init ==> x in values;
      TotalBounds(init, low, high);
      assert values[|values| - 1] in values;
      OneMore(low, |init|);
      OneMore(high, |init|);
    }
  }

  lemma AverageBetween(total: real, n: real, low: real, high: real)
    requires n > 0.0 && low * n <= total <= high * n
    ensures low <= total / n <= high && total / n * n == total
  {
    QuotientTimes(total, n);
    CancelFactor(low, total / n, n);
    CancelFactor(total / n, high, n);
  }

  lemma QuotientTimes(total: real, n: real)
    requires n > 0.0
    ensures total / n * n == total
  {
  }

  lemma CancelFactor(x: real, y: real, n: real)
    requires n > 0.0 && x * n <= y * n
    ensures x <= y
  {
  }

  lemma MeanBetween(values: seq<real>, min: real, max: real)
    requires values != []
    requires forall x :: x in values ==> min <= x <= max
    ensures min <= Mean(Total(values), |values|) <= max
  {
    TotalBounds(values, min, max);
    AverageBetween(Total(values), |values| as real, min, max);
  }
}
