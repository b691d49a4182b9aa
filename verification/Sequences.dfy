/**
 * Ascending selections and sorting, the two sequence notions every index and every result of
 * the engine is stated in.
 */
module Sequences {

  ghost predicate Ascending(s: seq<nat>) {
    forall i, j :: 0 <= i < j < |s| ==> s[i] < s[j]
  }

  /** The positions below `n` that satisfy `p`, in ascending order. */
  function Select(n: nat, p: nat -> bool): (r: seq<nat>)
    ensures Ascending(r)
    ensures forall i: nat :: i in r <==> i < n && p(i)
  {
    if n == 0 then []
    else
      var below := Select(n - 1, p);
      assert forall k :: 0 <= k < |below| ==> below[k] in below;
      if p(n - 1) then below + [n - 1] else below
  }

  /** An ascending sequence is determined by its members. */
  lemma {:induction false} AscendingUnique(a: seq<nat>, b: seq<nat>)
    requires Ascending(a) && Ascending(b)
    requires forall x: nat :: x in a <==> x in b
    ensures a == b
    decreases |a|
  {
    assert b != [] ==> b[0] in b;
    if a != [] {
      var last := a[|a| - 1];
      assert last in a;
      assert b != [];
      var lastB := b[|b| - 1];
      assert lastB in b;
      assert last == lastB;
      var a', b' := a[..|a| - 1], b[..|b| - 1];
      forall x: nat
        ensures x in a' <==> x in b'
      {
        assert x in a' <==> x in a && x != last;
        assert x in b' <==> x in b && x != lastB;
      }
      AscendingUnique(a', b');
      assert a == a' + [last] && b == b' + [lastB];
    }
  }

  lemma SelectUnique(s: seq<nat>, n: nat, p: nat -> bool)
    requires Ascending(s)
    requires forall i: nat :: i in s <==> i < n && p(i)
    ensures s == Select(n, p)
  {
    AscendingUnique(s, Select(n, p));
  }

  lemma SelectCongruent(n: nat, p: nat -> bool, q: nat -> bool)
    requires forall i: nat | i < n :: p(i) == q(i)
    ensures Select(n, p) == Select(n, q)
  {
    AscendingUnique(Select(n, p), Select(n, q));
  }

  /** The elements of `s` that satisfy `keep`, in order (`Vec::retain`). */
  function Filter<T(!new)>(s: seq<T>, keep: T --> bool): (r: seq<T>)
    requires forall x :: x in s ==> keep.requires(x)
    ensures forall x :: x in r <==> x in s && keep(x)
  {
    if s == [] then []
    else if keep(s[0]) then [s[0]] + Filter(s[1..], keep)
    else Filter(s[1..], keep)
  }

  lemma {:induction false} FilterConcat<T(!new)>(a: seq<T>, b: seq<T>, keep: T --> bool)
    requires forall x :: x in a + b ==> keep.requires(x)
    ensures Filter(a + b, keep) == Filter(a, keep) + Filter(b, keep)
  {
    if a == [] {
      assert a + b == b;
    } else {
      FilterConcat(a[1..], b, keep);
      assert (a + b)[1..] == a[1..] + b;
    }
  }

  function Map<A, B>(s: seq<A>, f: A -> B): (r: seq<B>)
    ensures |r| == |s|
    ensures forall i :: 0 <= i < |s| ==> r[i] == f(s[i])
  {
    seq(|s|, i requires 0 <= i < |s| => f(s[i]))
  }

  // ---------------------------------------------------------------- sorting

  ghost predicate TotalPreorder<T(!new)>(le: (T, T) -> bool) {
    && (forall x, y :: le(x, y) || le(y, x))
    && (forall x, y, z :: le(x, y) && le(y, z) ==> le(x, z))
  }

  ghost predicate SortedBy<T>(s: seq<T>, le: (T, T) -> bool) {
    forall i, j :: 0 <= i < j < |s| ==> le(s[i], s[j])
  }

  function InsertSorted<T>(x: T, s: seq<T>, le: (T, T) -> bool): (r: seq<T>)
    ensures multiset(r) == multiset{x} + multiset(s)
  {
    if s == [] || le(x, s[0]) then [x] + s
    else
      assert s == [s[0]] + s[1..];
      [s[0]] + InsertSorted(x, s[1..], le)
  }

  function Sort<T>(s: seq<T>, le: (T, T) -> bool): (r: seq<T>)
    ensures multiset(r) == multiset(s)
  {
    if s == [] then []
    else
      assert s == [s[0]] + s[1..];
      InsertSorted(s[0], Sort(s[1..], le), le)
  }

  lemma {:induction false} InsertSortedSorted<T(!new)>(x: T, s: seq<T>, le: (T, T) -> bool)
    requires TotalPreorder(le) && SortedBy(s, le)
    ensures SortedBy(InsertSorted(x, s, le), le)
  {
    if s != [] && !le(x, s[0]) {
      InsertSortedSorted(x, s[1..], le);
      var tail := InsertSorted(x, s[1..], le);
      forall j | 0 <= j < |tail|
        ensures le(s[0], tail[j])
      {
        assert tail[j] in multiset(tail);
        assert tail[j] == x || tail[j] in s[1..];
      }
    }
  }

  /** `Sort` sorts: with its own `ensures`, a sorted permutation. */
  lemma {:induction false} SortSorts<T(!new)>(s: seq<T>, le: (T, T) -> bool)
    requires TotalPreorder(le)
    ensures SortedBy(Sort(s, le), le)
  {
    if s != [] {
      SortSorts(s[1..], le);
      InsertSortedSorted(s[0], Sort(s[1..], le), le);
    }
  }

  lemma SameMembers<T(!new)>(a: seq<T>, b: seq<T>)
    requires multiset(a) == multiset(b)
    ensures |a| == |b|
    ensures forall x :: x in a <==> x in b
  {
    assert |multiset(a)| == |a| && |multiset(b)| == |b|;
    forall x
      ensures x in a <==> x in b
    {
      assert x in multiset(a) <==> x in a;
      assert x in multiset(b) <==> x in b;
    }
  }

  /** Sorted permutations are unique when ties in `le` are equal elements, so an unstable sort has one answer. */
  lemma {:induction false} SortedPermutationUnique<T(!new)>(a: seq<T>, b: seq<T>, le: (T, T) -> bool)
    requires SortedBy(a, le) && SortedBy(b, le)
    requires multiset(a) == multiset(b)
    requires forall x, y :: x in a && y in a && le(x, y) && le(y, x) ==> x == y
    ensures a == b
    decreases |a|
  {
    hide SortedBy;
    SameMembers(a, b);
    if a != [] {
      SameHead(a, b, le);
      SortedTail(a, le);
      SortedTail(b, le);
      assert multiset(a[1..]) == multiset(a) - multiset{a[0]};
      assert multiset(b[1..]) == multiset(b) - multiset{b[0]};
      SortedPermutationUnique(a[1..], b[1..], le);
    }
  }

  lemma SameHead<T(!new)>(a: seq<T>, b: seq<T>, le: (T, T) -> bool)
    requires SortedBy(a, le) && SortedBy(b, le) && a != [] && b != []
    requires forall x :: x in a <==> x in b
    requires forall x, y :: x in a && y in a && le(x, y) && le(y, x) ==> x == y
    ensures a[0] == b[0]
  {
    assert a[0] in a && b[0] in b;
  }

  lemma SortedTail<T(!new)>(s: seq<T>, le: (T, T) -> bool)
    requires SortedBy(s, le) && s != []
    ensures SortedBy(s[1..], le) && s == [s[0]] + s[1..]
    ensures forall x :: x in s[1..] ==> x in s
  {
  }

  ghost predicate Distinct<T>(s: seq<T>) {
    forall i, j :: 0 <= i < j < |s| ==> s[i] != s[j]
  }

  lemma {:induction false} DistinctCounts<T(!new)>(s: seq<T>)
    ensures Distinct(s) <==> forall x :: multiset(s)[x] <= 1
    decreases |s|
  {
    if s != [] {
      var last, init := s[|s| - 1], s[..|s| - 1];
      DistinctCounts(init);
      assert s == init + [last];
      assert multiset(s) == multiset(init) + multiset{last};
      if last in init {
        var i :| 0 <= i < |init| && init[i] == last;
        assert s[i] == s[|s| - 1];
        assert multiset(s)[last] >= 2;
      } else {
        assert multiset(init)[last] == 0;
        assert forall x :: multiset(s)[x] == multiset(init)[x] + if x == last then 1 else 0;
        if forall x :: multiset(init)[x] <= 1 {
          assert Distinct(s);
        } else {
          var x :| multiset(init)[x] > 1;
          assert multiset(s)[x] > 1;
        }
      }
    }
  }

  lemma DistinctPermutation<T(!new)>(a: seq<T>, b: seq<T>)
    requires multiset(a) == multiset(b) && Distinct(b)
    ensures Distinct(a)
  {
    DistinctCounts(a);
    DistinctCounts(b);
  }

  /** Taking the head of one permutation out of the other leaves permutations. */
  lemma RemoveHead<T(!new)>(a: seq<T>, b: seq<T>) returns (k: nat)
    requires a != [] && multiset(a) == multiset(b)
    ensures k < |b| && b[k] == a[0]
    ensures multiset(a[1..]) == multiset(b[..k] + b[k + 1..])
  {
    SameMembers(a, b);
    assert a[0] in b;
    k :| 0 <= k < |b| && b[k] == a[0];
    assert a == [a[0]] + a[1..];
    assert b == b[..k] + ([b[k]] + b[k + 1..]);
    assert multiset(b) == multiset(b[..k] + b[k + 1..]) + multiset{b[k]};
    assert multiset(a) == multiset(a[1..]) + multiset{a[0]};
    assert multiset(a[1..]) == multiset(a) - multiset{a[0]};
  }

  lemma {:induction false} MapPermute<A(!new), B>(a: seq<A>, b: seq<A>, f: A -> B)
    requires multiset(a) == multiset(b)
    ensures multiset(Map(a, f)) == multiset(Map(b, f))
    decreases |a|
  {
    SameMembers(a, b);
    if a != [] {
      var k := RemoveHead(a, b);
      var b' := b[..k] + b[k + 1..];
      MapPermute(a[1..], b', f);
      assert Map(a, f) == [f(a[0])] + Map(a[1..], f);
      assert Map(b, f) == Map(b[..k], f) + [f(b[k])] + Map(b[k + 1..], f);
      assert Map(b', f) == Map(b[..k], f) + Map(b[k + 1..], f);
    }
  }

  // ---------------------------------------------------------------- folding permutations

  /** `Iterator::fold`. */
  function Fold<A, T>(s: seq<T>, unit: A, op: (A, T) -> A): A {
    if s == [] then unit else op(Fold(s[..|s| - 1], unit, op), s[|s| - 1])
  }

  /** Two operands can be taken in either order. */
  ghost predicate RightCommutes<A(!new), T(!new)>(op: (A, T) -> A) {
    forall a, x, y :: op(op(a, x), y) == op(op(a, y), x)
  }

  lemma {:induction false} FoldRemove<A(!new), T(!new)>(s: seq<T>, k: nat, unit: A, op: (A, T) -> A)
    requires k < |s| && RightCommutes(op)
    ensures Fold(s, unit, op) == op(Fold(s[..k] + s[k + 1..], unit, op), s[k])
    decreases |s|
  {
    var init, last := s[..|s| - 1], s[|s| - 1];
    if k == |s| - 1 {
      assert s[..k] + s[k + 1..] == init;
    } else {
      FoldRemove(init, k, unit, op);
      var rest := s[..k] + s[k + 1..];
      assert rest[..|rest| - 1] == init[..k] + init[k + 1..] && rest[|rest| - 1] == last;
    }
  }

  lemma {:induction false} FoldPermute<A(!new), T(!new)>(a: seq<T>, b: seq<T>, unit: A, op: (A, T) -> A)
    requires multiset(a) == multiset(b) && RightCommutes(op)
    ensures Fold(a, unit, op) == Fold(b, unit, op)
    decreases |a|
  {
    SameMembers(a, b);
    if a != [] {
      var k := RemoveHead(a, b);
      assert a[..0] + a[1..] == a[1..];
      FoldRemove(a, 0, unit, op);
      FoldRemove(b, k, unit, op);
      FoldPermute(a[1..], b[..k] + b[k + 1..], unit, op);
    }
  }

  // ---------------------------------------------------------------- filtering permutations

  lemma {:induction false} FilterSorted<T(!new)>(s: seq<T>, keep: T -> bool, le: (T, T) -> bool)
    requires SortedBy(s, le)
    ensures SortedBy(Filter(s, keep), le)
  {
    if s != [] {
      FilterSorted(s[1..], keep, le);
      var rest := Filter(s[1..], keep);
      forall j | 0 <= j < |rest|
        ensures le(s[0], rest[j])
      {
        assert rest[j] in rest && rest[j] in s[1..];
      }
    }
  }

  lemma {:induction false} FilterPermute<T(!new)>(a: seq<T>, b: seq<T>, keep: T -> bool)
    requires multiset(a) == multiset(b)
    ensures multiset(Filter(a, keep)) == multiset(Filter(b, keep))
    decreases |a|
  {
    SameMembers(a, b);
    if a != [] {
      var k := RemoveHead(a, b);
      FilterPermute(a[1..], b[..k] + b[k + 1..], keep);
      FilterRemove(a, 0, keep);
      FilterRemove(b, k, keep);
      assert a[..0] + a[1..] == a[1..];
    }
  }

  lemma FilterRemove<T(!new)>(b: seq<T>, k: nat, keep: T -> bool)
    requires k < |b|
    ensures multiset(Filter(b, keep)) == multiset(Filter(b[..k] + b[k + 1..], keep)) + multiset(Filter([b[k]], keep))
  {
    hide Filter;
    var x, y, z := Filter(b[..k], keep), Filter([b[k]], keep), Filter(b[k + 1..], keep);
    assert Filter(b, keep) == x + (y + z) by {
      assert b == b[..k] + ([b[k]] + b[k + 1..]);
      FilterConcat(b[..k], [b[k]] + b[k + 1..], keep);
      FilterConcat([b[k]], b[k + 1..], keep);
    }
    FilterConcat(b[..k], b[k + 1..], keep);
  }
}
