/** Rules, rule ids and the reusable id buffer of a query. */
module Rules {
  import opened Sequences
  import opened Properties
  import opened Geometry

  datatype Rule = Rule(id: string, properties: Properties, geometry: Geometry, priority: int)

  /** A position bound to the ruleset that minted it; the owner takes no part in comparisons. */
  datatype RuleId = RuleId(index: nat, owner: nat)

  predicate SameId(a: RuleId, b: RuleId) { a.index == b.index }

  predicate IdAtMost(a: RuleId, b: RuleId) { a.index <= b.index }

  /** `HashSet::contains`, with the owner-insensitive equality. */
  predicate HasId(ids: set<RuleId>, id: RuleId) {
    exists e | e in ids :: SameId(e, id)
  }

  /** `HashSet::intersection`: the left elements the right set contains. */
  function IntersectIds(a: set<RuleId>, b: set<RuleId>): set<RuleId> {
    set e | e in a && HasId(b, e)
  }

  predicate AllOwned(ids: seq<RuleId>, owner: nat) {
    forall id :: id in ids ==> id.owner == owner
  }

  predicate SetOwned(ids: set<RuleId>, owner: nat) {
    forall id :: id in ids ==> id.owner == owner
  }

  /** Ids with one owner behave as their positions: owner-insensitive set operations are exact on them. */
  lemma OwnedSetsExact(a: set<RuleId>, b: set<RuleId>, owner: nat, id: RuleId)
    requires SetOwned(a, owner) && SetOwned(b, owner) && id.owner == owner
    ensures HasId(a, id) <==> id in a
    ensures IntersectIds(a, b) == a * b
  {
  }

  function Mint(positions: seq<nat>, owner: nat): (r: seq<RuleId>)
    ensures |r| == |positions| && forall i :: 0 <= i < |r| ==> r[i] == RuleId(positions[i], owner)
  {
    seq(|positions|, i requires 0 <= i < |positions| => RuleId(positions[i], owner))
  }

  predicate IdsAscending(ids: seq<RuleId>) {
    forall i, j :: 0 <= i < j < |ids| ==> ids[i].index < ids[j].index
  }

  /** Ascending ids of one owner are the minted selection of the positions they hold. */
  lemma MintUnique(ids: seq<RuleId>, owner: nat, n: nat, p: nat -> bool)
    requires IdsAscending(ids) && AllOwned(ids, owner)
    requires forall i: nat :: RuleId(i, owner) in ids <==> i < n && p(i)
    ensures ids == Mint(Select(n, p), owner)
  {
    var positions := seq(|ids|, i requires 0 <= i < |ids| => ids[i].index);
    forall x: nat
      ensures x in positions <==> x < n && p(x)
    {
      if x in positions {
        var k :| 0 <= k < |positions| && positions[k] == x;
        assert ids[k] in ids && ids[k] == RuleId(x, owner);
      }
      if RuleId(x, owner) in ids {
        var k :| 0 <= k < |ids| && ids[k] == RuleId(x, owner);
        assert positions[k] == x;
      }
    }
    SelectUnique(positions, n, p);
    forall k | 0 <= k < |ids|
      ensures ids[k] == Mint(positions, owner)[k]
    {
      assert ids[k] in ids;
    }
  }

  lemma MintMembers(owner: nat, n: nat, p: nat -> bool)
    ensures IdsAscending(Mint(Select(n, p), owner)) && AllOwned(Mint(Select(n, p), owner), owner)
    ensures forall i: nat :: RuleId(i, owner) in Mint(Select(n, p), owner) <==> i < n && p(i)
  {
    var s := Select(n, p);
    var ids := Mint(s, owner);
    forall i: nat
      ensures RuleId(i, owner) in ids <==> i < n && p(i)
    {
      if i in s {
        var k :| 0 <= k < |s| && s[k] == i;
        assert ids[k] == RuleId(i, owner);
      }
      if RuleId(i, owner) in ids {
        var k :| 0 <= k < |ids| && ids[k] == RuleId(i, owner);
        assert s[k] in s;
      }
    }
  }

  lemma {:induction false} FilterAscending(ids: seq<RuleId>, keep: RuleId --> bool)
    requires IdsAscending(ids) && forall id :: id in ids ==> keep.requires(id)
    ensures IdsAscending(Filter(ids, keep))
  {
    if ids != [] {
      FilterAscending(ids[1..], keep);
      var rest := Filter(ids[1..], keep);
      forall j | 0 <= j < |rest|
        ensures ids[0].index < rest[j].index
      {
        assert rest[j] in rest && rest[j] in ids[1..];
      }
    }
  }

  /** Retaining a minted selection selects the positions that pass both tests. */
  lemma FilterMint(owner: nat, n: nat, p: nat -> bool, keep: RuleId --> bool, q: nat -> bool)
    requires forall i: nat | i < n && p(i) :: keep.requires(RuleId(i, owner))
    requires forall i: nat | i < n :: q(i) <==> p(i) && keep(RuleId(i, owner))
    ensures forall id :: id in Mint(Select(n, p), owner) ==> keep.requires(id)
    ensures Filter(Mint(Select(n, p), owner), keep) == Mint(Select(n, q), owner)
  {
    var ids := Mint(Select(n, p), owner);
    MintMembers(owner, n, p);
    forall id | id in ids
      ensures keep.requires(id)
    {
      assert id == RuleId(id.index, owner);
    }
    FilterAscending(ids, keep);
    MintUnique(Filter(ids, keep), owner, n, q);
  }

  // ------------------------------------------------ sort and dedup

  /** `Vec::dedup`: of each run of equal ids, the first. */
  function Dedup(s: seq<RuleId>): (r: seq<RuleId>)
    ensures s != [] ==> r != [] && SameId(r[|r| - 1], s[|s| - 1])
  {
    if s == [] then []
    else
      var init := Dedup(s[..|s| - 1]);
      if init != [] && SameId(init[|init| - 1], s[|s| - 1]) then init else init + [s[|s| - 1]]
  }

  lemma {:induction false} DedupSorted(s: seq<RuleId>, owner: nat)
    requires SortedBy(s, IdAtMost) && AllOwned(s, owner)
    ensures IdsAscending(Dedup(s))
    ensures forall id :: id in Dedup(s) <==> id in s
    decreases |s|
  {
    if s != [] {
      var init := s[..|s| - 1];
      assert s == init + [s[|s| - 1]];
      DedupSorted(init, owner);
      DedupStep(s, Dedup(init), owner);
    }
  }

  lemma DedupStep(s: seq<RuleId>, d: seq<RuleId>, owner: nat)
    requires s != [] && SortedBy(s, IdAtMost) && AllOwned(s, owner)
    requires IdsAscending(d) && forall id :: id in d <==> id in s[..|s| - 1]
    requires |s| > 1 ==> d != [] && SameId(d[|d| - 1], s[|s| - 2])
    ensures var last := s[|s| - 1];
      var next := if d != [] && SameId(d[|d| - 1], last) then d else d + [last];
      IdsAscending(next) && forall id :: id in next <==> id in s
  {
    hide Dedup;
    var last := s[|s| - 1];
    assert s == s[..|s| - 1] + [last];
    if d != [] {
      assert d[|d| - 1] in d;
      assert d[|d| - 1] in s[..|s| - 1];
      assert IdAtMost(s[|s| - 2], last);
      assert SameId(d[|d| - 1], last) ==> d[|d| - 1] == last;
    }
  }

  function SortDedup(s: seq<RuleId>): seq<RuleId> { Dedup(Sort(s, IdAtMost)) }

  /** Sorting then deduplicating ids of one owner yields the ascending enumeration of the set they form. */
  lemma SortDedupEnumerates(s: seq<RuleId>, owner: nat)
    requires AllOwned(s, owner)
    ensures IdsAscending(SortDedup(s)) && AllOwned(SortDedup(s), owner)
    ensures forall id :: id in SortDedup(s) <==> id in s
  {
    SortSorts(s, IdAtMost);
    SameMembers(Sort(s, IdAtMost), s);
    DedupSorted(Sort(s, IdAtMost), owner);
  }

  /** The reusable `Vec<RuleId>` a batch query fills and filters in place. */
  class IdBuffer {
    var ids: seq<RuleId>

    constructor ()
      ensures ids == []
    {
      ids := [];
    }

    method Clear()
      modifies this
      ensures ids == []
    {
      ids := [];
    }

    method Extend(more: seq<RuleId>)
      modifies this
      ensures ids == old(ids) + more
    {
      ids := ids + more;
    }

    method SortUnstable()
      modifies this
      ensures ids == Sort(old(ids), IdAtMost)
    {
      ids := Sort(ids, IdAtMost);
    }

    /** The loop of `Vec::dedup`, over the retained prefix. */
    method DedupInPlace()
      modifies this
      ensures ids == Dedup(old(ids))
    {
      var kept: seq<RuleId> := [];
      var i := 0;
      while i < |ids|
        invariant 0 <= i <= |ids| && ids == old(ids)
        invariant kept == Dedup(ids[..i])
      {
        assert ids[..i + 1][..i] == ids[..i];
        if !(kept != [] && SameId(kept[|kept| - 1], ids[i])) {
          kept := kept + [ids[i]];
        }
        i := i + 1;
      }
      assert ids[..i] == ids;
      ids := kept;
    }

    method Retain(keep: RuleId --> bool)
      requires forall id :: id in ids ==> keep.requires(id)
      modifies this
      ensures ids == Filter(old(ids), keep)
    {
      ids := Filter(ids, keep);
    }

    /** `Vec::append`: moves the elements of `other` here. */
    method Append(other: IdBuffer)
      requires other != this
      modifies this, other
      ensures ids == old(ids) + old(other.ids) && other.ids == []
    {
      ids := ids + other.ids;
      other.ids := [];
    }
  }
}
