/** The per-thread memo of prepared geometries: shared slots, keyed by ruleset identity. */
module PreparedCache {
  import opened Prelude
  import opened Geometry
  import opened Rules

  type Slots = array<Option<Prepared>>

  /** Source of ruleset identities: each call returns a number no earlier call returned. */
  class IdSource {
    var next: nat

    constructor ()
      ensures next == 1
    {
      next := 1;
    }

    method NextId() returns (id: nat)
      modifies this
      ensures id == old(next) && next == old(next) + 1
    {
      id := next;
      next := next + 1;
    }
  }

  datatype CacheEntry = CacheEntry(id: nat, slots: Slots)

  /** The one cache cell of a thread. */
  class ThreadCache {
    var entry: Option<CacheEntry>

    constructor ()
      ensures entry == None
    {
      entry := None;
    }
  }

  /** Every slot is empty or holds the prepared form of its own rule. */
  ghost predicate SlotsHold(geo: Geo, rules: seq<Rule>, slots: Slots)
    reads slots
  {
    && slots.Length == |rules|
    && forall i :: 0 <= i < slots.Length ==> slots[i] == None || slots[i] == Some(geo.prepare(rules[i].geometry))
  }

  /** A handle on the shared slots of one ruleset; it may outlive the cache entry it came from. */
  datatype PreparedMemo = PreparedMemo(rules: seq<Rule>, slots: Slots)

  /** The memo for `id`: the cached slots, or empty ones that replace the cache entry. */
  method ForRuleset(cache: ThreadCache, rules: seq<Rule>, id: nat) returns (memo: PreparedMemo)
    modifies cache
    ensures memo.rules == rules
    ensures old(cache.entry.Some? && cache.entry.value.id == id) ==>
      memo.slots == old(cache.entry.value.slots) && cache.entry == old(cache.entry)
    ensures !old(cache.entry.Some? && cache.entry.value.id == id) ==>
      && fresh(memo.slots) && memo.slots.Length == |rules|
      && (forall i :: 0 <= i < |rules| ==> memo.slots[i] == None)
      && cache.entry == Some(CacheEntry(id, memo.slots))
  {
    if cache.entry.Some? && cache.entry.value.id == id {
      return PreparedMemo(rules, cache.entry.value.slots);
    }
    var slots := new Option<Prepared>[|rules|](_ => None);
    cache.entry := Some(CacheEntry(id, slots));
    memo := PreparedMemo(rules, slots);
  }

  predicate Requested(ids: seq<RuleId>, i: int) {
    exists k | 0 <= k < |ids| :: ids[k].index == i
  }

  /** Prepares exactly the requested rules whose slot is empty; filled slots keep their value. */
  method Ensure(geo: Geo, memo: PreparedMemo, ids: seq<RuleId>)
    requires SlotsHold(geo, memo.rules, memo.slots)
    modifies memo.slots
    ensures SlotsHold(geo, memo.rules, memo.slots)
    ensures forall i :: 0 <= i < memo.slots.Length ==>
      memo.slots[i] == if old(memo.slots[i]).None? && Requested(ids, i) then Some(geo.prepare(memo.rules[i].geometry))
                       else old(memo.slots[i])
  {
    var k := 0;
    while k < |ids|
      invariant 0 <= k <= |ids|
      invariant forall i :: 0 <= i < memo.slots.Length ==>
        memo.slots[i] ==
          if old(memo.slots[i]).None? && Requested(ids[..k], i) then Some(geo.prepare(memo.rules[i].geometry))
          else old(memo.slots[i])
    {
      var index := ids[k].index;
      assert forall i :: Requested(ids[..k + 1], i) <==> Requested(ids[..k], i) || i == index by {
        forall i
          ensures Requested(ids[..k + 1], i) <==> Requested(ids[..k], i) || i == index
        {
          if Requested(ids[..k], i) {
            var j :| 0 <= j < k && ids[..k][j].index == i;
            assert ids[..k + 1][j].index == i;
          }
          if Requested(ids[..k + 1], i) {
            var j :| 0 <= j < k + 1 && ids[..k + 1][j].index == i;
            if j < k {
              assert ids[..k][j].index == i;
            }
          }
          assert ids[..k + 1][k].index == index;
        }
      }
      if index < |memo.rules| && memo.slots[index].None? {
        memo.slots[index] := Some(geo.prepare(memo.rules[index].geometry));
      }
      k := k + 1;
    }
    assert ids[..k] == ids;
  }

  /** The eager form: every slot filled, copied out in rule order. */
  method SnapshotAll(geo: Geo, memo: PreparedMemo, owner: nat) returns (dense: seq<Prepared>)
    requires SlotsHold(geo, memo.rules, memo.slots)
    modifies memo.slots
    ensures SlotsHold(geo, memo.rules, memo.slots)
    ensures |dense| == |memo.rules| && forall i :: 0 <= i < |dense| ==> dense[i] == geo.prepare(memo.rules[i].geometry)
  {
    var all := seq(|memo.rules|, i requires 0 <= i < |memo.rules| => RuleId(i, owner));
    Ensure(geo, memo, all);
    forall i | 0 <= i < |memo.rules|
      ensures memo.slots[i].Some?
    {
      assert all[i].index == i;
    }
    dense := [];
    for i := 0 to memo.slots.Length
      invariant |dense| == i
      invariant forall j :: 0 <= j < i ==> dense[j] == geo.prepare(memo.rules[j].geometry)
    {
      dense := dense + [memo.slots[i].value];
    }
  }
}
