/** The memory-boundedness verdict of the benchmark, over exact arithmetic. */
module Heuristics {
  import opened Prelude
  import opened Geometry
  import opened Averages

  const BOUNDED_TOLERANCE_RATIO := 0.05
  const PLATEAU_RANGE_RATIO := 0.02
  const MIN_RESET_PLATEAU_SAMPLES := 16

  function Reals(s: seq<nat>): (r: seq<real>)
    ensures |r| == |s| && forall i :: 0 <= i < |s| ==> r[i] == s[i] as real
  {
    seq(|s|, i requires 0 <= i < |s| => s[i] as real)
  }

  function MeanOf(s: seq<nat>): real
    requires s != []
  {
    Mean(Total(Reals(s)), |s|)
  }

  function LeastOf(s: seq<nat>): (r: nat)
    requires s != []
    ensures r in s && forall x :: x in s ==> r <= x
  {
    if |s| == 1 then s[0]
    else
      assert s == s[..|s| - 1] + [s[|s| - 1]];
      var m := LeastOf(s[..|s| - 1]);
      if m <= s[|s| - 1] then m else s[|s| - 1]
  }

  function GreatestOf(s: seq<nat>): (r: nat)
    requires s != []
    ensures r in s && forall x :: x in s ==> x <= r
  {
    if |s| == 1 then s[0]
    else
      assert s == s[..|s| - 1] + [s[|s| - 1]];
      var m := GreatestOf(s[..|s| - 1]);
      if m >= s[|s| - 1] then m else s[|s| - 1]
  }

  function Steady(second: seq<nat>, fourth: seq<nat>): bool
    requires second != [] && fourth != []
  {
    AbsReal(MeanOf(fourth) - MeanOf(second)) <= BOUNDED_TOLERANCE_RATIO * MaxReal(MeanOf(second), 1.0)
  }

  function Reset(second: seq<nat>, fourth: seq<nat>): bool
    requires second != [] && fourth != []
  {
    LeastOf(fourth) as real <= (1.0 + BOUNDED_TOLERANCE_RATIO) * MaxReal(LeastOf(second) as real, 1.0)
  }

  function TailPlateau(fourth: seq<nat>): bool
    requires fourth != []
  {
    (GreatestOf(fourth) - LeastOf(fourth)) as real <= PLATEAU_RANGE_RATIO * MaxReal(MeanOf(fourth), 1.0)
  }

  function IsBoundedSeries(samples: seq<nat>): Option<bool> {
    if |samples| < 4 then None
    else
      var quarter := |samples| / 4;
      var second, fourth := samples[quarter..2 * quarter], samples[3 * quarter..];
      if Steady(second, fourth) then Some(true)
      else if |samples| < MIN_RESET_PLATEAU_SAMPLES then Some(false)
      else Some(Reset(second, fourth) || TailPlateau(fourth))
  }

  // ------------------------------------------------ means

  lemma MeanWithin(s: seq<nat>, low: real, high: real)
    requires s != [] && forall i :: 0 <= i < |s| ==> low <= s[i] as real <= high
    ensures low <= MeanOf(s) <= high
  {
    MeanBetween(Reals(s), low, high);
  }

  lemma {:induction false} TotalShift(a: seq<real>, b: seq<real>, delta: real)
    requires |a| == |b| && forall i :: 0 <= i < |a| ==> b[i] >= a[i] + delta
    ensures Total(b) >= Total(a) + delta * |a| as real
    decreases |a|
  {
    if a != [] {
      TotalShift(a[..|a| - 1], b[..|b| - 1], delta);
      OneMore(delta, |a| - 1);
    }
  }

  lemma {:induction false} TotalConcat(a: seq<real>, b: seq<real>)
    ensures Total(a + b) == Total(a) + Total(b)
    decreases |b|
  {
    if b == [] {
      assert a + b == a;
    } else {
      TotalConcat(a, b[..|b| - 1]);
      assert (a + b)[..|a + b| - 1] == a + b[..|b| - 1];
    }
  }

  lemma {:induction false} TotalAtLeast(values: seq<real>, low: real)
    requires forall i :: 0 <= i < |values| ==> low <= values[i]
    ensures low * |values| as real <= Total(values)
    decreases |values|
  {
    if values != [] {
      TotalAtLeast(values[..|values| - 1], low);
      OneMore(low, |values| - 1);
    }
  }

  lemma MeanIsLeast(total: real, n: nat, low: real)
    requires n > 0 && low * n as real <= total
    ensures low <= Mean(total, n)
  {
    QuotientTimes(total, n as real);
    CancelFactor(low, Mean(total, n), n as real);
  }

  /** Elements at least the mean of what came before do not lower the mean. */
  lemma LongerMean(head: seq<real>, tail: seq<real>, mean: real)
    requires head != [] && mean * |head| as real <= Total(head)
    requires forall i :: 0 <= i < |tail| ==> mean <= tail[i]
    ensures mean <= Mean(Total(head + tail), |head + tail|)
  {
    TotalConcat(head, tail);
    TotalAtLeast(tail, mean);
    Distribute(mean, |head|, |tail|);
    MeanIsLeast(Total(head + tail), |head + tail|, mean);
  }

  lemma Distribute(x: real, m: nat, n: nat)
    ensures x * (m + n) as real == x * m as real + x * n as real
  {
    assert (m + n) as real == m as real + n as real;
  }

  // ------------------------------------------------ climbing series

  ghost predicate Climbs(samples: seq<nat>, d: nat) {
    forall i :: 0 <= i < |samples| - 1 ==> samples[i + 1] >= samples[i] + d
  }

  lemma {:induction false} ClimbBetween(samples: seq<nat>, d: nat, i: nat, j: nat)
    requires Climbs(samples, d) && i <= j < |samples|
    ensures samples[j] >= samples[i] + (j - i) * d
    decreases j
  {
    if i < j {
      ClimbBetween(samples, d, i, j - 1);
      assert samples[j - 1 + 1] >= samples[j - 1] + d;
      assert (j - i) * d == (j - 1 - i) * d + d;
    }
  }

  lemma NeverFalls(samples: seq<nat>, d: nat, i: nat, j: nat)
    requires Climbs(samples, d) && i <= j < |samples|
    ensures samples[j] >= samples[i]
  {
    ClimbBetween(samples, d, i, j);
    assert (j - i) * d >= 0;
  }

  /** The extremes of a stretch of a climbing series are its ends. */
  lemma ClimbingEnds(samples: seq<nat>, d: nat, from: nat, to: nat)
    requires Climbs(samples, d) && from < to <= |samples|
    ensures LeastOf(samples[from..to]) == samples[from] && GreatestOf(samples[from..to]) == samples[to - 1]
  {
    var s := samples[from..to];
    forall i | 0 <= i < |s|
      ensures s[0] <= s[i] <= s[|s| - 1]
    {
      NeverFalls(samples, d, from, from + i);
      NeverFalls(samples, d, from + i, to - 1);
    }
    assert s[0] in s && s[|s| - 1] in s;
  }

  lemma LastQuarterEnds(samples: seq<nat>, d: nat, q: nat)
    requires Climbs(samples, d) && q >= 1 && 4 * q <= |samples|
    ensures LeastOf(samples[3 * q..]) == samples[3 * q] && GreatestOf(samples[3 * q..]) == samples[|samples| - 1]
  {
    ClimbingEnds(samples, d, 3 * q, |samples|);
    assert samples[3 * q..|samples|] == samples[3 * q..];
  }

  /** `rise` is what the series climbs in two quarters. */
  lemma TwoQuarters(samples: seq<nat>, d: nat, q: nat, rise: nat, i: nat)
    requires Climbs(samples, d) && i < q && 4 * q <= |samples| && rise == 2 * q * d
    ensures samples[3 * q + i] >= samples[q + i] + rise
  {
    ClimbBetween(samples, d, q + i, 3 * q + i);
    assert (3 * q + i - (q + i)) * d == rise;
  }

  lemma SecondBelow(samples: seq<nat>, d: nat, q: nat)
    requires Climbs(samples, d) && q >= 1 && 4 * q <= |samples|
    ensures samples[q] as real <= MeanOf(samples[q..2 * q]) <= samples[2 * q - 1] as real
  {
    var s := samples[q..2 * q];
    forall i | 0 <= i < |s|
      ensures samples[q] as real <= s[i] as real <= samples[2 * q - 1] as real
    {
      NeverFalls(samples, d, q, q + i);
      NeverFalls(samples, d, q + i, 2 * q - 1);
    }
    MeanWithin(s, samples[q] as real, samples[2 * q - 1] as real);
  }

  lemma RaisedMean(low: real, high: real, rise: real, n: nat)
    requires n > 0 && high >= low + rise * n as real
    ensures (Mean(low, n) + rise) * n as real <= high
  {
    QuotientTimes(low, n as real);
    Together(Mean(low, n), rise, n as real);
  }

  lemma Together(x: real, y: real, n: real)
    ensures (x + y) * n == x * n + y * n
  {
  }

  /** Each sample of the tail beyond the first `q` is at least the second quarter's mean plus the rise. */
  lemma TailAbove(samples: seq<nat>, d: nat, q: nat, rise: nat, i: nat)
    requires Climbs(samples, d) && q >= 1 && 4 * q + i < |samples| && rise == 2 * q * d
    ensures MeanOf(samples[q..2 * q]) + rise as real <= samples[4 * q + i] as real
  {
    SecondBelow(samples, d, q);
    TwoQuarters(samples, d, q, rise, q - 1);
    NeverFalls(samples, d, 4 * q - 1, 4 * q + i);
  }

  /**
   * The first `q` samples of the last quarter, each `gap` above its partner in the second,
   * total `gap` per sample more.
   */
  lemma HeadAbove(second: seq<real>, head: seq<real>, gap: real)
    requires second != [] && |second| == |head|
    requires forall i :: 0 <= i < |second| ==> head[i] >= second[i] + gap
    ensures (Mean(Total(second), |second|) + gap) * |head| as real <= Total(head)
  {
    hide Total, Mean;
    var low, high, n := Total(second), Total(head), |second|;
    TotalShift(second, head, gap);
    assert |head| == n && high >= low + gap * n as real;
    RaisedMean(low, high, gap, n);
  }

  /** The last quarter of a climbing series averages at least two quarters of climbing above the second. */
  lemma ClimbingMeans(samples: seq<nat>, d: nat, q: nat, rise: nat)
    requires Climbs(samples, d) && q >= 1 && 4 * q <= |samples| && rise == 2 * q * d
    ensures MeanOf(samples[3 * q..]) >= MeanOf(samples[q..2 * q]) + rise as real
  {
    var second, fourth := Reals(samples[q..2 * q]), Reals(samples[3 * q..]);
    var head, tail := fourth[..q], fourth[q..];
    forall i | 0 <= i < q
      ensures head[i] >= second[i] + rise as real
    {
      TwoQuarters(samples, d, q, rise, i);
    }
    forall i | 0 <= i < |tail|
      ensures MeanOf(samples[q..2 * q]) + rise as real <= tail[i]
    {
      TailAbove(samples, d, q, rise, i);
    }
    MeansFromParts(samples[q..2 * q], samples[3 * q..], head, tail, rise as real);
  }

  lemma MeansFromParts(second: seq<nat>, fourth: seq<nat>, head: seq<real>, tail: seq<real>, gap: real)
    requires second != [] && |head| == |second| && Reals(fourth) == head + tail
    requires forall i :: 0 <= i < |second| ==> head[i] >= Reals(second)[i] + gap
    requires forall i :: 0 <= i < |tail| ==> MeanOf(second) + gap <= tail[i]
    ensures fourth != [] && MeanOf(fourth) >= MeanOf(second) + gap
  {
    assert |fourth| == |Reals(fourth)| == |head| + |tail|;
    HeadAbove(Reals(second), head, gap);
    LongerMean(head, tail, MeanOf(second) + gap);
  }

  /**
   * A leak of at least `d` per sample is rejected once two quarters of it
   * exceed 5% of the second quarter's mean and a quarter of it exceeds 2% of
   * the last quarter's mean.
   */
  lemma LeakRejected(samples: seq<nat>, d: nat)
    requires |samples| >= 16 && d >= 1 && Climbs(samples, d)
    requires var q := |samples| / 4;
      && (2 * q * d) as real > 0.05 * MaxReal(MeanOf(samples[q..2 * q]), 1.0)
      && ((q - 1) * d) as real > 0.02 * MaxReal(MeanOf(samples[3 * q..]), 1.0)
    ensures IsBoundedSeries(samples) == Some(false)
  {
    hide MeanOf, Reset, TailPlateau, Climbs;
    var q := |samples| / 4;
    var rise, tailRise := 2 * q * d, (q - 1) * d;
    ClimbingMeans(samples, d, q, rise);
    LeakNotReset(samples, d, q, rise);
    LeakNotFlat(samples, d, q, tailRise);
  }

  lemma LeakNotReset(samples: seq<nat>, d: nat, q: nat, rise: nat)
    requires Climbs(samples, d) && d >= 1 && q >= 4 && 4 * q <= |samples| && rise == 2 * q * d
    requires rise as real > BOUNDED_TOLERANCE_RATIO * MaxReal(MeanOf(samples[q..2 * q]), 1.0)
    ensures !Reset(samples[q..2 * q], samples[3 * q..])
  {
    ClimbingEnds(samples, d, q, 2 * q);
    LastQuarterEnds(samples, d, q);
    TwoQuarters(samples, d, q, rise, 0);
    SecondBelow(samples, d, q);
    AtLeastEight(q, d);
  }

  lemma AtLeastEight(q: nat, d: nat)
    requires q >= 4 && d >= 1
    ensures 2 * q * d >= 8
  {
    assert 2 * q * d >= 2 * q;
  }

  lemma OneQuarter(samples: seq<nat>, d: nat, q: nat, tailRise: nat)
    requires Climbs(samples, d) && q >= 1 && 4 * q <= |samples| && tailRise == (q - 1) * d
    ensures samples[|samples| - 1] >= samples[3 * q] + tailRise
  {
    ClimbBetween(samples, d, 3 * q, 4 * q - 1);
    assert 4 * q - 1 - 3 * q == q - 1;
    NeverFalls(samples, d, 4 * q - 1, |samples| - 1);
  }

  lemma LeakNotFlat(samples: seq<nat>, d: nat, q: nat, tailRise: nat)
    requires Climbs(samples, d) && q >= 4 && 4 * q <= |samples| && tailRise == (q - 1) * d
    requires tailRise as real > PLATEAU_RANGE_RATIO * MaxReal(MeanOf(samples[3 * q..]), 1.0)
    ensures !TailPlateau(samples[3 * q..])
  {
    LastQuarterEnds(samples, d, q);
    OneQuarter(samples, d, q, tailRise);
  }

  /** Below a mean of one, small series are compared by absolute difference. */
  lemma FloorOfOne(second: seq<nat>, fourth: seq<nat>)
    requires second != [] && fourth != [] && MeanOf(second) <= 1.0
    ensures Steady(second, fourth) <==> MeanOf(second) - 0.05 <= MeanOf(fourth) <= MeanOf(second) + 0.05
  {
    hide MeanOf;
  }

  /** A series that stays within 5% of a floor of at least 1 is accepted, however short. */
  lemma WobbleAccepted(samples: seq<nat>, m: real)
    requires |samples| >= 4 && m >= 1.0
    requires forall i :: 0 <= i < |samples| ==> m <= samples[i] as real <= 1.05 * m
    ensures IsBoundedSeries(samples) == Some(true)
  {
    var q := |samples| / 4;
    MeanWithin(samples[q..2 * q], m, 1.05 * m);
    MeanWithin(samples[3 * q..], m, 1.05 * m);
  }

  /**
   * A series of at least 16 samples whose last quarter stays within 2% above
   * some level is accepted, whatever it climbed before, as one that steps up
   * and then stays flat.
   */
  lemma PlateauAccepted(samples: seq<nat>, level: nat)
    requires |samples| >= 16
    requires forall i :: 3 * (|samples| / 4) <= i < |samples| ==>
      level <= samples[i] && 50 * (samples[i] - level) <= level
    ensures IsBoundedSeries(samples) == Some(true)
  {
    var fourth := samples[3 * (|samples| / 4)..];
    var high := GreatestOf(fourth);
    forall i | 0 <= i < |fourth|
      ensures level <= fourth[i] <= high
    {
      assert fourth[i] in fourth;
    }
    MeanWithin(fourth, level as real, high as real);
  }

  /** So is one that comes back: some sample of the last quarter within 5% of every sample of the second. */
  lemma SawtoothAccepted(samples: seq<nat>, i: nat)
    requires |samples| >= 16 && 3 * (|samples| / 4) <= i < |samples|
    requires forall j :: |samples| / 4 <= j < 2 * (|samples| / 4) ==> 20 * samples[i] <= 21 * samples[j]
    ensures IsBoundedSeries(samples) == Some(true)
  {
    var q := |samples| / 4;
    RevisitResets(samples, q, i);
    hide Steady, Reset, TailPlateau;
  }

  lemma RevisitResets(samples: seq<nat>, q: nat, i: nat)
    requires 1 <= q && 4 * q <= |samples| && 3 * q <= i < |samples|
    requires forall j :: q <= j < 2 * q ==> 20 * samples[i] <= 21 * samples[j]
    ensures Reset(samples[q..2 * q], samples[3 * q..])
  {
    var second, fourth := samples[q..2 * q], samples[3 * q..];
    assert fourth[i - 3 * q] == samples[i];
    var j :| 0 <= j < |second| && second[j] == LeastOf(second);
    assert second[j] == samples[q + j];
    assert samples[i] in fourth;
    WithinTolerance(samples[i], LeastOf(second));
  }

  lemma WithinTolerance(x: nat, y: nat)
    requires 20 * x <= 21 * y
    ensures x as real <= (1.0 + BOUNDED_TOLERANCE_RATIO) * MaxReal(y as real, 1.0)
  {
    assert 20.0 * x as real <= 21.0 * y as real;
  }

  /** A shorter series that steps up by more than the tolerance is rejected, however flat it then is. */
  lemma ShortStepRejected(samples: seq<nat>, low: nat, high: nat)
    requires 4 <= |samples| < 16 && low >= 1 && 100 * high > 105 * low
    requires forall i :: 0 <= i < 2 * (|samples| / 4) ==> samples[i] == low
    requires forall i :: 3 * (|samples| / 4) <= i < |samples| ==> samples[i] == high
    ensures IsBoundedSeries(samples) == Some(false)
  {
    var q := |samples| / 4;
    MeanWithin(samples[q..2 * q], low as real, low as real);
    MeanWithin(samples[3 * q..], high as real, high as real);
  }

  /**
   * On a series that never falls, the reset signal compares two samples: the first of the last
   * and of the second quarter.
   */
  lemma ResetOfMonotone(samples: seq<nat>, q: nat)
    requires Climbs(samples, 0) && q >= 1 && 4 * q <= |samples|
    ensures Reset(samples[q..2 * q], samples[3 * q..])
       <==> samples[3 * q] as real <= 1.05 * MaxReal(samples[q] as real, 1.0)
  {
    ClimbingEnds(samples, 0, q, 2 * q);
    LastQuarterEnds(samples, 0, q);
  }

  /** So a series that only climbs can be called bounded: this one jumps late and never comes back. */
  lemma ResetIsNotLeakProof(samples: seq<nat>)
    requires samples == [100, 101, 102, 103, 1000, 1001, 1002, 1003, 1004, 1005, 1006, 1007, 1008, 5000, 6000, 7000]
    ensures Climbs(samples, 1) && IsBoundedSeries(samples) == Some(true)
  {
    hide MeanOf, LeastOf, GreatestOf, TailPlateau;
    assert Climbs(samples, 0);
    ResetOfMonotone(samples, 4);
  }
}
