/** Doubles as the engine uses them: their bit order, their value, and the rounding of integers. */
module Doubles {
  import opened Prelude

  /** A double by its bits, with the finite values other than `-0.0` as exact reals. */
  datatype Float64 =
    | Finite(value: real)
    | NegativeZero
    | PositiveInfinity
    | NegativeInfinity
    | NaN(negative: bool, payload: nat)
  {
    predicate IsFinite() { Finite? || NegativeZero? }
  }

  // ------------------------------------------------ bits

  /** Position of a double among the bit patterns: sign bit clear first, and by magnitude within a sign. */
  function BitClass(f: Float64): nat {
    match f
    case Finite(v) => if v >= 0.0 then 0 else 4
    case PositiveInfinity => 1
    case NaN(negative, _) => if negative then 6 else 2
    case NegativeZero => 3
    case NegativeInfinity => 5
  }

  /** `to_bits().cmp(..)`: patterns of negative numbers grow with the magnitude. */
  function CompareBits(a: Float64, b: Float64): Ordering {
    if BitClass(a) != BitClass(b) then CompareInt(BitClass(a), BitClass(b))
    else
      match (a, b)
      case (Finite(x), Finite(y)) => if x == y then Equal else if (x < y) == (x >= 0.0) then Less else Greater
      case (NaN(_, m), NaN(_, n)) => CompareInt(m, n)
      case _ => Equal
  }

  /**
   * As bit patterns: the non-negative numbers ascending, infinity, NaNs, then
   * with the sign bit set zero, the negative numbers descending, infinity and
   * NaNs.
   */
  lemma BitOrder(x: real, y: real, n: nat, m: nat)
    ensures 0.0 <= x < y ==> CompareBits(Finite(x), Finite(y)) == Less
    ensures x >= 0.0 ==> CompareBits(Finite(x), PositiveInfinity) == Less
    ensures CompareBits(PositiveInfinity, NaN(false, n)) == CompareBits(NaN(false, n), NegativeZero) == Less
    ensures y < 0.0 ==> CompareBits(NegativeZero, Finite(y)) == CompareBits(Finite(y), NegativeInfinity) == Less
    ensures y < x < 0.0 ==> CompareBits(Finite(x), Finite(y)) == Less
    ensures CompareBits(NegativeInfinity, NaN(true, n)) == Less
    ensures n < m ==> CompareBits(NaN(true, n), NaN(true, m)) == CompareBits(NaN(false, n), NaN(false, m)) == Less
  {
  }

  // ------------------------------------------------ values

  /** The value of a double: `-0.0` is zero, and all NaNs are alike. */
  datatype Extended = Proper(value: real) | PlusInfinity | MinusInfinity | Undefined

  function ValueOf(f: Float64): Extended {
    match f
    case Finite(v) => Proper(v)
    case NegativeZero => Proper(0.0)
    case PositiveInfinity => PlusInfinity
    case NegativeInfinity => MinusInfinity
    case NaN(_, _) => Undefined
  }

  /** `a < b` on the extended line; nothing is below or above an undefined value. */
  predicate IsBelow(a: Extended, b: Extended) {
    && !a.Undefined? && !b.Undefined? && a != b
    && (a.MinusInfinity? || b.PlusInfinity? || (a.Proper? && b.Proper? && a.value < b.value))
  }

  /** The order of two values, `None` when one is undefined. */
  function CompareValuesOf(x: Extended, y: Extended): Option<Ordering> {
    if x.Undefined? || y.Undefined? then None
    else if x == y then Some(Equal)
    else if IsBelow(x, y) then Some(Less)
    else Some(Greater)
  }

  /** `partial_cmp`. */
  function PartialCompare(a: Float64, b: Float64): Option<Ordering> {
    CompareValuesOf(ValueOf(a), ValueOf(b))
  }

  /** Doubles compare as their values on the real line, between the infinities; nothing compares with a NaN. */
  lemma DoublesCompare(a: Float64, b: Float64, x: real, y: real)
    ensures PartialCompare(Finite(x), Finite(y)) == Some(if x < y then Less else if x > y then Greater else Equal)
    ensures PartialCompare(NegativeZero, Finite(y)) == PartialCompare(Finite(0.0), Finite(y))
    ensures PartialCompare(Finite(x), PositiveInfinity) == PartialCompare(NegativeInfinity, Finite(x)) == Some(Less)
    ensures PartialCompare(NegativeInfinity, PositiveInfinity) == Some(Less)
    ensures PartialCompare(a, b).None? <==> a.NaN? || b.NaN?
    ensures PartialCompare(a, b).Some? ==> PartialCompare(b, a) == Some(PartialCompare(a, b).value.Reverse())
    ensures !a.NaN? ==> PartialCompare(a, a) == Some(Equal)
  {
  }

  /** `f64::min` and `f64::max` prefer the operand that is a number. */
  function MinOf(a: Extended, b: Extended): Extended {
    if a.Undefined? then b else if b.Undefined? || IsBelow(a, b) then a else b
  }

  function MaxOf(a: Extended, b: Extended): Extended {
    if a.Undefined? then b else if b.Undefined? || IsBelow(b, a) then a else b
  }

  /** Addition without rounding: opposite infinities have no sum. */
  function Add(a: Extended, b: Extended): Extended {
    match (a, b)
    case (Proper(x), Proper(y)) => Proper(x + y)
    case (Undefined, _) => Undefined
    case (_, Undefined) => Undefined
    case (Proper(_), _) => b
    case (_, Proper(_)) => a
    case _ => if a == b then a else Undefined
  }

  /** An infinity absorbs every number, and opposite infinities leave nothing defined. */
  lemma InfiniteSums(x: real, y: real, a: Extended)
    ensures Add(Proper(x), Proper(y)) == Proper(x + y)
    ensures Add(Proper(x), PlusInfinity) == Add(PlusInfinity, Proper(x)) == Add(PlusInfinity, PlusInfinity)
         == PlusInfinity
    ensures Add(Proper(x), MinusInfinity) == Add(MinusInfinity, Proper(x)) == Add(MinusInfinity, MinusInfinity)
         == MinusInfinity
    ensures Add(PlusInfinity, MinusInfinity) == Add(MinusInfinity, PlusInfinity) == Undefined
    ensures Add(a, Undefined) == Add(Undefined, a) == Undefined
  {
  }

  function Divide(a: Extended, n: nat): Extended
    requires n > 0
  {
    if a.Proper? then Proper(a.value / n as real) else a
  }

  // ------------------------------------------------ integers

  const EXACT_LIMIT := 0x20_0000_0000_0000

  /** The spacing of doubles at magnitude `m`, a power of two of at least `u`. */
  function SpacingFrom(m: nat, u: nat): (r: nat)
    requires u >= 1
    ensures r >= u && m < r * EXACT_LIMIT
    decreases m - u
  {
    if m < u * EXACT_LIMIT then u else SpacingFrom(m, 2 * u)
  }

  function Spacing(m: nat): (r: nat)
    ensures r >= 1
  {
    SpacingFrom(m, 1)
  }

  /** The multiple of `u` nearest to `m`, of two the even one. */
  function NearestMultiple(m: nat, u: nat): nat
    requires u >= 1
  {
    var q, r := m / u, m % u;
    if 2 * r < u || (2 * r == u && q % 2 == 0) then m - r else m - r + u
  }

  function Magnitude(i: int): nat { if i < 0 then -i else i }

  /** `i as f64`, an integer again at every magnitude. */
  function Rounded(i: int): int {
    var m: int := NearestMultiple(Magnitude(i), Spacing(Magnitude(i)));
    if i < 0 then -m else m
  }

  function ToDouble(i: int): Float64 { Finite(Rounded(i) as real) }

  /** Integers up to 2^53 convert exactly; beyond, the double is at most half a spacing away. */
  lemma RoundedIsNearest(i: int)
    ensures -EXACT_LIMIT <= i <= EXACT_LIMIT ==> Rounded(i) == i
    ensures var u: int := Spacing(Magnitude(i));
      -u <= 2 * (Rounded(i) - i) <= u
  {
    var m := Magnitude(i);
    NearestIsNear(m, Spacing(m));
    if m < EXACT_LIMIT {
      assert Spacing(m) == 1;
    } else if m == EXACT_LIMIT {
      assert Spacing(m) == 2;
    }
  }

  lemma NearestIsNear(m: int, u: int)
    requires m >= 0 && u >= 1
    ensures -u <= 2 * (NearestMultiple(m, u) - m) <= u
    ensures m % u == 0 ==> NearestMultiple(m, u) == m
  {
  }

  predicate PowerOfTwo(u: nat) { u == 1 || (u > 1 && u % 2 == 0 && PowerOfTwo(u / 2)) }

  lemma TwiceIsPower(u: nat)
    requires PowerOfTwo(u)
    ensures PowerOfTwo(2 * u)
  {
    assert 2 * u / 2 == u;
  }

  lemma {:induction false} SpacingFromExact(m: nat, u: nat)
    requires u >= 1 && PowerOfTwo(u) && (u == 1 || u * EXACT_LIMIT <= 2 * m)
    ensures var r := SpacingFrom(m, u);
      PowerOfTwo(r) && m < r * EXACT_LIMIT && (r == 1 || r * EXACT_LIMIT <= 2 * m)
    decreases m - u
  {
    if m >= u * EXACT_LIMIT {
      TwiceIsPower(u);
      hide PowerOfTwo;
      SpacingFromExact(m, 2 * u);
    }
  }

  /**
   * The double of an integer is a multiple of the spacing, the one power of
   * two that leaves it 53 significant bits, and of two equally near multiples
   * the even one.
   */
  lemma RoundsToEven(i: int)
    ensures var u, d := Spacing(Magnitude(i)), Magnitude(Rounded(i));
      && PowerOfTwo(u) && Magnitude(i) < u * EXACT_LIMIT && (u == 1 || u * EXACT_LIMIT <= 2 * Magnitude(i))
      && d % u == 0 && (2 * Magnitude(Rounded(i) - i) == u ==> d / u % 2 == 0)
      && (Rounded(i) == 0 || (Rounded(i) < 0 <==> i < 0))
  {
    var m := Magnitude(i);
    SpacingFromExact(m, 1);
    MultipleIsEven(m, Spacing(m));
    NearestIsNear(m, Spacing(m));
  }

  lemma MultipleIsEven(m: nat, u: nat)
    requires u >= 1
    ensures var d := NearestMultiple(m, u);
      d % u == 0 && (2 * Magnitude(d - m) == u ==> d / u % 2 == 0)
  {
    var q, r := m / u, m % u;
    assert m == u * q + r;
    QuotientIs(u * q, u, q, 0);
    QuotientIs(u * (q + 1), u, q + 1, 0);
    assert u * (q + 1) == u * q + u;
  }

  lemma QuotientIs(n: int, d: int, q: int, r: int)
    requires 0 <= r < d && n == d * q + r
    ensures n / d == q
  {
    assert d * (n / d) == d * q + d * (n / d - q);
    NoSmallMultiple(d, n / d - q);
  }

  lemma NoSmallMultiple(d: int, k: int)
    requires d > 0
    ensures k >= 1 ==> d * k >= d
    ensures k <= -1 ==> d * k <= -d
  {
  }

  /** The greatest `i64` and its successor have the same double. */
  lemma RoundsAtI64Limit()
    ensures Rounded(0x7FFF_FFFF_FFFF_FFFF) == 0x8000_0000_0000_0000
    ensures Rounded(0x8000_0000_0000_0000) == 0x8000_0000_0000_0000
  {
    SpacingIs(0x7FFF_FFFF_FFFF_FFFF, 1024);
    SpacingIs(0x8000_0000_0000_0000, 2048);
  }

  /** `u`, a power of two reached by doubling, is the spacing of magnitudes between half of it and it, times 2^53. */
  lemma SpacingIs(m: nat, u: nat)
    requires u in {1024, 2048} && u * EXACT_LIMIT / 2 <= m < u * EXACT_LIMIT
    ensures Spacing(m) == u
  {
    assert SpacingFrom(m, 2048) == 2048;
    assert SpacingFrom(m, 1024) == u;
    assert SpacingFrom(m, 256) == SpacingFrom(m, 512) == u;
    assert SpacingFrom(m, 64) == SpacingFrom(m, 128) == u;
    assert SpacingFrom(m, 16) == SpacingFrom(m, 32) == u;
    assert SpacingFrom(m, 4) == SpacingFrom(m, 8) == u;
    assert SpacingFrom(m, 1) == SpacingFrom(m, 2) == u;
  }
}
