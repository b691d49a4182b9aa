/** What an `$activeAt` clause means for a week of days and a clock of hours, without bit arithmetic. */
module Windows {
  import opened Prelude
  import opened Doubles
  import opened Properties
  import opened Temporal
  import opened WhereExpr
  import opened Json
  import opened WhereParser

  /** The mask of a set of weekdays: Monday is 1, Tuesday 2, and so on to Sunday, 64. */
  function DayMask(days: set<int>): int {
    (if 1 in days then 1 else 0) + (if 2 in days then 2 else 0) + (if 3 in days then 4 else 0)
    + (if 4 in days then 8 else 0) + (if 5 in days then 16 else 0) + (if 6 in days then 32 else 0)
    + (if 7 in days then 64 else 0)
  }

  lemma Powers()
    ensures Pow2(0) == 1 && Pow2(1) == 2 && Pow2(2) == 4 && Pow2(3) == 8
    ensures Pow2(4) == 16 && Pow2(5) == 32 && Pow2(6) == 64
  {
    assert Pow2(3) == 2 * Pow2(2);
    assert Pow2(5) == 2 * Pow2(4);
  }

  /** `mask` is the mask of these days, whatever its bits above the lowest seven are. */
  predicate IsMask(mask: int, days: set<int>, high: int) { mask == 128 * high + DayMask(days) }

  /** The bit above `low` and below `rest`. */
  lemma BitBetween(n: int, k: nat, rest: int, b: int, low: int)
    requires 0 <= b <= 1 && 0 <= low < Pow2(k) && n == Pow2(k) * (2 * rest + b) + low
    ensures Bit(n, k) <==> b == 1
  {
    QuotientIs(n, Pow2(k), 2 * rest + b, low);
  }

  lemma SevenBits(n: int, high: int, b: seq<int>)
    requires |b| == 7 && forall k :: 0 <= k < 7 ==> 0 <= b[k] <= 1
    requires n == 128 * high + b[0] + 2 * b[1] + 4 * b[2] + 8 * b[3] + 16 * b[4] + 32 * b[5] + 64 * b[6]
    ensures forall k :: 0 <= k < 7 ==> (Bit(n, k) <==> b[k] == 1)
  {
    Powers();
    hide Bit, Pow2;
    var b0, b1, b2, b3, b4, b5, b6 := b[0], b[1], b[2], b[3], b[4], b[5], b[6];
    BitBetween(n, 0, 64 * high + b1 + 2 * b2 + 4 * b3 + 8 * b4 + 16 * b5 + 32 * b6, b0, 0);
    BitBetween(n, 1, 32 * high + b2 + 2 * b3 + 4 * b4 + 8 * b5 + 16 * b6, b1, b0);
    BitBetween(n, 2, 16 * high + b3 + 2 * b4 + 4 * b5 + 8 * b6, b2, b0 + 2 * b1);
    BitBetween(n, 3, 8 * high + b4 + 2 * b5 + 4 * b6, b3, b0 + 2 * b1 + 4 * b2);
    BitBetween(n, 4, 4 * high + b5 + 2 * b6, b4, b0 + 2 * b1 + 4 * b2 + 8 * b3);
    BitBetween(n, 5, 2 * high + b6, b5, b0 + 2 * b1 + 4 * b2 + 8 * b3 + 16 * b4);
    BitBetween(n, 6, high, b6, b0 + 2 * b1 + 4 * b2 + 8 * b3 + 16 * b4 + 32 * b5);
  }

  lemma BitIsDay(mask: int, days: set<int>, high: int, day: int)
    requires 1 <= day <= 7 && IsMask(mask, days, high)
    ensures Bit(mask, day - 1) <==> day in days
  {
    hide Bit;
    var b := seq(7, k requires 0 <= k < 7 => if k + 1 in days then 1 else 0);
    SevenBits(mask, high, b);
    assert b[day - 1] == 1 <==> day in days;
  }

  /** Every integer is the mask of some set of weekdays, and a multiple of 128. */
  lemma EveryIntegerIsMask(mask: int)
    ensures exists days, high :: IsMask(mask, days, high)
  {
    var n1 := mask / 2;
    var n2 := n1 / 2;
    var n3 := n2 / 2;
    var n4 := n3 / 2;
    var n5 := n4 / 2;
    var n6 := n5 / 2;
    var b := [mask % 2, n1 % 2, n2 % 2, n3 % 2, n4 % 2, n5 % 2, n6 % 2];
    var days := set k | 0 <= k < 7 && b[k] == 1 :: k + 1;
    DayMaskSum(days, b);
    assert IsMask(mask, days, n6 / 2);
  }

  lemma DayMaskSum(days: set<int>, b: seq<int>)
    requires |b| == 7 && forall k :: 0 <= k < 7 ==> 0 <= b[k] <= 1
    requires forall k :: 0 <= k < 7 ==> (k + 1 in days <==> b[k] == 1)
    ensures DayMask(days) == b[0] + 2 * b[1] + 4 * b[2] + 8 * b[3] + 16 * b[4] + 32 * b[5] + 64 * b[6]
  {
  }

  predicate InHours(hour: int, start: int, end: int) {
    if start <= end then start <= hour < end else !(end <= hour < start)
  }

  /** The mask, start and end a rule's properties give for a window clause. */
  ghost predicate Scheduled(j: Json, properties: Properties, mask: int, start: int, end: int)
    requires WellFormedWindow(j)
  {
    && (exists name :: Lookup(j.members, "daysOfWeek") == Some(Text(name))
          && Get(properties, name) == Some(Int(mask)))
    && (exists name :: Lookup(j.members, "startHour") == Some(Text(name)) && Get(properties, name) == Some(Int(start)))
    && (exists name :: Lookup(j.members, "endHour") == Some(Text(name)) && Get(properties, name) == Some(Int(end)))
  }

  /**
   * A clause on a rule scheduled for a set of weekdays admits it exactly on
   * those days, from the start hour up to the end hour, past midnight when it
   * ends before it starts; the higher bits of the mask do not matter.
   */
  lemma ActiveOnDays(j: Json, properties: Properties, mask: int, days: set<int>, high: int, start: int, end: int,
      at: TemporalInstant)
    requires WellFormedWindow(j) && Scheduled(j, properties, mask, start, end) && IsMask(mask, days, high)
    ensures var clause := Parse(Object([Member("$activeAt", j)]));
      && clause.Ok?
      && (Eval(clause.value, properties, Some(at))
          <==> 1 <= at.dayOfWeek <= 7 && at.dayOfWeek in days && InHours(at.hour, start, end))
      && !Eval(clause.value, properties, None)
  {
    hide Get, Pow2, Bit, Lookup, IsMask;
    if 1 <= at.dayOfWeek <= 7 {
      BitIsDay(mask, days, high, at.dayOfWeek);
    }
    WindowMeaning(j, properties, Some(at));
    WindowMeaning(j, properties, None);
    hide ParseActiveAt, EvalActiveAt;
  }

  /** A rule whose three properties are not all integers is never admitted. */
  lemma UnscheduledNever(j: Json, properties: Properties, key: string, at: Option<TemporalInstant>)
    requires WellFormedWindow(j) && key in {"daysOfWeek", "startHour", "endHour"}
    requires forall name, i :: Lookup(j.members, key) == Some(Text(name)) ==> Get(properties, name) != Some(Int(i))
    ensures var clause := Parse(Object([Member("$activeAt", j)]));
      clause.Ok? && !Eval(clause.value, properties, at)
  {
    hide Get, Lookup;
    WindowMeaning(j, properties, at);
    hide ParseActiveAt, EvalActiveAt, WindowAdmits;
  }
}
