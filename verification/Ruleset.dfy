/** The compiled ruleset: its build gate, its id lookups and its indexes. */
module Ruleset {
  import opened Prelude
  import opened Sequences
  import opened Properties
  import opened Geometry
  import opened SphericalEnvelope
  import opened Rules
  import opened SpatialIndex
  import opened PropertyIndex
  import opened PreparedCache
  import Text

  // ------------------------------------------------ the build gate

  datatype BuildError =
    | UnsupportedGeometry
    | InvalidGeometry
    | NegativePriority
    | NonFiniteProperty
    | DuplicateId
    | NoBoundingRect

  predicate SupportedRuleGeometry(g: Geometry) { g.PolygonGeometry? || g.MultiPolygon? }

  predicate SerializableProperties(p: Properties) {
    forall k :: 0 <= k < |p| ==> p[k].value.IsSerializable()
  }

  /** The first check rule `i` fails, given the rules before it. */
  function RuleError(geo: Geo, rules: seq<Rule>, i: nat): Option<BuildError>
    requires i < |rules|
  {
    var rule := rules[i];
    if !SupportedRuleGeometry(rule.geometry) then Some(UnsupportedGeometry)
    else if !geo.isValid(rule.geometry) then Some(InvalidGeometry)
    else if rule.priority < 0 then Some(NegativePriority)
    else if !SerializableProperties(rule.properties) then Some(NonFiniteProperty)
    else if exists j | 0 <= j < i :: rules[j].id == rule.id then Some(DuplicateId)
    else None
  }

  /** What a rule list must satisfy to become a ruleset. */
  ghost predicate Buildable(geo: Geo, rules: seq<Rule>) {
    && (forall i :: 0 <= i < |rules| ==>
          && SupportedRuleGeometry(rules[i].geometry) && geo.isValid(rules[i].geometry)
          && rules[i].priority >= 0 && SerializableProperties(rules[i].properties)
          && BoundingRect(rules[i].geometry).Some?)
    && (forall i, j :: 0 <= i < j < |rules| ==> rules[i].id != rules[j].id)
  }

  /** `error` is what the first failing rule, in list order, fails with. */
  ghost predicate FirstError(geo: Geo, rules: seq<Rule>, error: BuildError) {
    exists i :: 0 <= i < |rules| && FailsFirstAt(geo, rules, i, error)
  }

  ghost predicate FailsFirstAt(geo: Geo, rules: seq<Rule>, i: nat, error: BuildError)
    requires i < |rules|
  {
    RuleError(geo, rules, i) == Some(error) && forall j :: 0 <= j < i ==> RuleError(geo, rules, j) == None
  }

  method CheckRules(geo: Geo, rules: seq<Rule>) returns (error: Option<BuildError>)
    ensures error == None <==> forall i :: 0 <= i < |rules| ==> RuleError(geo, rules, i) == None
    ensures error.Some? ==> FirstError(geo, rules, error.value)
  {
    var seen: set<string> := {};
    for i := 0 to |rules|
      invariant seen == set j | 0 <= j < i :: rules[j].id
      invariant forall j :: 0 <= j < i ==> RuleError(geo, rules, j) == None
    {
      var rule := rules[i];
      if !SupportedRuleGeometry(rule.geometry) {
        assert FailsFirstAt(geo, rules, i, UnsupportedGeometry);
        return Some(UnsupportedGeometry);
      }
      if !geo.isValid(rule.geometry) {
        assert FailsFirstAt(geo, rules, i, InvalidGeometry);
        return Some(InvalidGeometry);
      }
      if rule.priority < 0 {
        assert FailsFirstAt(geo, rules, i, NegativePriority);
        return Some(NegativePriority);
      }
      if !SerializableProperties(rule.properties) {
        assert FailsFirstAt(geo, rules, i, NonFiniteProperty);
        return Some(NonFiniteProperty);
      }
      if rule.id in seen {
        assert FailsFirstAt(geo, rules, i, DuplicateId);
        return Some(DuplicateId);
      }
      seen := seen + {rule.id};
    }
    error := None;
  }

  // ------------------------------------------------ the id table

  function IdAt(rules: seq<Rule>, i: nat): string { if i < |rules| then rules[i].id else "" }

  function IdOrderLess(rules: seq<Rule>): (nat, nat) -> bool {
    (a: nat, b: nat) => Text.AtMost(IdAt(rules, a), IdAt(rules, b))
  }

  /** The positions in ascending order of their string ids, each once. */
  ghost predicate IdOrdered(rules: seq<Rule>, order: seq<nat>) {
    && (forall i: nat :: i in order <==> i < |rules|)
    && (forall a, b :: 0 <= a < b < |order| ==> Text.Compare(IdAt(rules, order[a]), IdAt(rules, order[b])) == Less)
  }

  function Positions(n: nat): (r: seq<nat>)
    ensures |r| == n && forall i :: 0 <= i < n ==> r[i] == i
  {
    seq(n, i => i)
  }

  lemma SortedPositions(rules: seq<Rule>)
    requires forall i, j :: 0 <= i < j < |rules| ==> rules[i].id != rules[j].id
    ensures IdOrdered(rules, Sort(Positions(|rules|), IdOrderLess(rules)))
  {
    var le, all := IdOrderLess(rules), Positions(|rules|);
    var order := Sort(all, le);
    Text.AtMostTotal();
    SortSorts(all, le);
    SameMembers(order, all);
    forall i: nat
      ensures i in order <==> i < |rules|
    {
      assert i < |rules| ==> all[i] == i;
    }
    DistinctPermutation(order, all);
    forall a, b | 0 <= a < b < |order|
      ensures Text.Compare(IdAt(rules, order[a]), IdAt(rules, order[b])) == Less
    {
      assert le(order[a], order[b]);
      assert order[a] in order && order[b] in order && order[a] != order[b];
      Text.CompareEqual(IdAt(rules, order[a]), IdAt(rules, order[b]));
    }
  }

  /** Binary search of the id table between `lo` and `hi`. */
  function SearchIds(rules: seq<Rule>, order: seq<nat>, s: string, lo: nat, hi: nat): (r: Option<nat>)
    requires IdOrdered(rules, order) && lo <= hi <= |order|
    requires forall k :: 0 <= k < lo ==> IdAt(rules, order[k]) != s
    requires forall k :: hi <= k < |order| ==> IdAt(rules, order[k]) != s
    ensures r.Some? ==> r.value < |rules| && rules[r.value].id == s
    ensures r.None? ==> forall i :: 0 <= i < |rules| ==> rules[i].id != s
    decreases hi - lo
  {
    if lo == hi then
      AbsentId(rules, order, s); None
    else
      var mid := lo + (hi - lo) / 2;
      assert order[mid] in order;
      match Text.Compare(IdAt(rules, order[mid]), s)
      case Equal => Text.CompareEqual(IdAt(rules, order[mid]), s); Some(order[mid])
      case Less => IdsBelow(rules, order, s, mid); SearchIds(rules, order, s, mid + 1, hi)
      case Greater => IdsAbove(rules, order, s, mid); SearchIds(rules, order, s, lo, mid)
  }

  lemma AbsentId(rules: seq<Rule>, order: seq<nat>, s: string)
    requires IdOrdered(rules, order)
    requires forall k :: 0 <= k < |order| ==> IdAt(rules, order[k]) != s
    ensures forall i :: 0 <= i < |rules| ==> rules[i].id != s
  {
    forall i | 0 <= i < |rules|
      ensures rules[i].id != s
    {
      assert i in order;
    }
  }

  lemma IdsBelow(rules: seq<Rule>, order: seq<nat>, s: string, mid: nat)
    requires IdOrdered(rules, order) && mid < |order| && Text.Compare(IdAt(rules, order[mid]), s) == Less
    ensures forall k :: 0 <= k <= mid ==> IdAt(rules, order[k]) != s
  {
    forall k | 0 <= k <= mid
      ensures IdAt(rules, order[k]) != s
    {
      if k < mid {
        Text.CompareTransitive(IdAt(rules, order[k]), IdAt(rules, order[mid]), s);
      }
      Text.CompareEqual(IdAt(rules, order[k]), s);
    }
  }

  lemma IdsAbove(rules: seq<Rule>, order: seq<nat>, s: string, mid: nat)
    requires IdOrdered(rules, order) && mid < |order| && Text.Compare(IdAt(rules, order[mid]), s) == Greater
    ensures forall k :: mid <= k < |order| ==> IdAt(rules, order[k]) != s
  {
    Text.CompareFlip(IdAt(rules, order[mid]), s);
    forall k | mid <= k < |order|
      ensures IdAt(rules, order[k]) != s
    {
      if k > mid {
        Text.CompareTransitive(s, IdAt(rules, order[mid]), IdAt(rules, order[k]));
      }
      Text.CompareEqual(s, IdAt(rules, order[k]));
    }
  }

  // ------------------------------------------------ the boxes

  function PlanarBox(g: Geometry): Rect {
    match BoundingRect(g) case Some(r) => r case None => Rect(Coord(0.0, 0.0), Coord(0.0, 0.0))
  }

  function PlanarBoxes(rules: seq<Rule>): (r: seq<Option<Rect>>)
    ensures |r| == |rules| && forall i :: 0 <= i < |rules| ==> r[i] == Some(PlanarBox(rules[i].geometry))
  {
    seq(|rules|, i requires 0 <= i < |rules| => Some(PlanarBox(rules[i].geometry)))
  }

  function FringeBoxes(geo: Geo, rules: seq<Rule>): (r: seq<Option<Rect>>)
    ensures |r| == |rules|
    ensures forall i :: 0 <= i < |rules| ==>
      r[i] == FringeBoxOf(geo.sphere, rules[i].geometry, PlanarBox(rules[i].geometry))
  {
    seq(|rules|, i requires 0 <= i < |rules| =>
      FringeBoxOf(geo.sphere, rules[i].geometry, PlanarBox(rules[i].geometry)))
  }

  /** Which index a ruleset is built with; `locate` is the lookup of a bulk-loaded tree. */
  datatype IndexKind = ScanKind | TreeKind(locate: (seq<BoxEntry>, Rect) -> seq<RuleId>) {
    /** A bulk-loaded tree finds exactly the entries that meet the envelope. */
    ghost predicate Lawful() {
      TreeKind? ==> forall entries, envelope, id :: id in locate(entries, envelope) <==> id in Hits(entries, envelope)
    }
  }

  function BuildSpatialIndex(kind: IndexKind, entries: seq<BoxEntry>): (r: SpatialIndex)
    ensures r.entries == entries && (kind.Lawful() ==> r.Valid())
  {
    match kind
    case ScanKind => LinearScan(entries)
    case TreeKind(locate) => RStar(entries, (envelope: Rect) => locate(entries, envelope))
  }

  /** Entries of the first `n` positions that have a box. */
  ghost predicate IndexesPrefix(entries: seq<BoxEntry>, owner: nat, boxes: seq<Option<Rect>>, n: nat)
    requires n <= |boxes|
  {
    && (forall k :: 0 <= k < |entries| ==>
          && entries[k].id.owner == owner && entries[k].id.index < n
          && boxes[entries[k].id.index] == Some(entries[k].rect))
    && (forall i :: 0 <= i < n && boxes[i].Some? ==> BoxEntry(boxes[i].value, RuleId(i, owner)) in entries)
  }

  // ------------------------------------------------ the ruleset

  class Ruleset {
    const geo: Geo
    const id: nat
    const rules: seq<Rule>
    const idOrder: seq<nat>
    const priorities: seq<int>
    const envelopes: seq<Rect>
    const kind: IndexKind
    const spatialIndex: SpatialIndex
    const propertyIndex: EqualityIndex
    /** Built by the first distance query. */
    var fringeIndex: Option<SpatialIndex>

    /** What the build established about the immutable part. */
    ghost predicate Built() {
      && Buildable(geo, rules)
      && IdOrdered(rules, idOrder)
      && |priorities| == |rules| && (forall i :: 0 <= i < |rules| ==> priorities[i] == rules[i].priority)
      && |envelopes| == |rules| && (forall i :: 0 <= i < |rules| ==> envelopes[i] == PlanarBox(rules[i].geometry))
      && kind.Lawful()
      && spatialIndex.Valid() && Indexes(spatialIndex.entries, id, PlanarBoxes(rules))
      && propertyIndex.owner == id && Exact(propertyIndex, rules)
    }

    ghost predicate Valid()
      reads this
    {
      && Built()
      && (fringeIndex.Some? ==>
            fringeIndex.value.Valid() && Indexes(fringeIndex.value.entries, id, FringeBoxes(geo, rules)))
    }

    /** Assembles the checked parts. */
    constructor Assemble(geo: Geo, id: nat, rules: seq<Rule>, kind: IndexKind, propertyIndex: EqualityIndex,
        entries: seq<BoxEntry>)
      requires Buildable(geo, rules) && kind.Lawful()
      requires Indexes(entries, id, PlanarBoxes(rules))
      requires propertyIndex.owner == id && Exact(propertyIndex, rules)
      ensures Valid() && fringeIndex == None
      ensures this.geo == geo && this.id == id && this.rules == rules && this.kind == kind
    {
      this.geo, this.id, this.rules, this.kind := geo, id, rules, kind;
      idOrder := Sort(Positions(|rules|), IdOrderLess(rules));
      priorities := seq(|rules|, i requires 0 <= i < |rules| => rules[i].priority);
      envelopes := seq(|rules|, i requires 0 <= i < |rules| => PlanarBox(rules[i].geometry));
      spatialIndex := BuildSpatialIndex(kind, entries);
      this.propertyIndex := propertyIndex;
      fringeIndex := None;
      SortedPositions(rules);
    }

    function CheckedIndex(ruleId: RuleId): Option<nat> {
      if ruleId.owner == id && ruleId.index < |rules| then Some(ruleId.index) else None
    }

    /** The numeric id of a string id, by binary search of the id table. */
    function RuleIdOf(s: string): (r: Option<RuleId>)
      requires Built()
      ensures r.Some? <==> exists i :: 0 <= i < |rules| && rules[i].id == s
      ensures forall i :: 0 <= i < |rules| && rules[i].id == s ==> r == Some(RuleId(i, id))
    {
      match SearchIds(rules, idOrder, s, 0, |idOrder|)
      case Some(i) => Some(RuleId(i, id))
      case None => None
    }

    function StringIdOf(ruleId: RuleId): Option<string>
    {
      match CheckedIndex(ruleId)
      case Some(i) => Some(rules[i].id)
      case None => None
    }

    /** The two id maps are mutual inverses; unknown, foreign and out-of-range ids have no partner. */
    lemma IdsAreInverse(s: string, ruleId: RuleId)
      requires Built()
      ensures RuleIdOf(s) == Some(ruleId) <==> StringIdOf(ruleId) == Some(s)
      ensures ruleId.owner != id || ruleId.index >= |rules| ==> StringIdOf(ruleId) == None
      ensures ruleId.owner == id && ruleId.index < |rules| ==>
        StringIdOf(ruleId).Some? && RuleIdOf(StringIdOf(ruleId).value) == Some(ruleId)
    {
    }

    method QueryPlanarInto(envelope: Rect, out: IdBuffer)
      requires Built()
      modifies out
      ensures out.ids == Lookup(id, PlanarBoxes(rules), envelope)
    {
      QueryEnvelopeInto(spatialIndex, envelope, out, id, PlanarBoxes(rules));
    }

    /** Builds the fringe index unless it is there. */
    method InitFringe()
      requires Valid()
      modifies this`fringeIndex
      ensures Valid() && fringeIndex.Some? && (old(fringeIndex).Some? ==> fringeIndex == old(fringeIndex))
    {
      if fringeIndex.None? {
        var entries := FringeEntries();
        fringeIndex := Some(BuildSpatialIndex(kind, entries));
      }
    }

    /** Builds the fringe index on first use, then looks up in it. */
    method QueryFringeInto(envelope: Rect, out: IdBuffer)
      requires Valid()
      modifies this`fringeIndex, out
      ensures Valid() && fringeIndex.Some? && (old(fringeIndex).Some? ==> fringeIndex == old(fringeIndex))
      ensures out.ids == Lookup(id, FringeBoxes(geo, rules), envelope)
    {
      InitFringe();
      QueryEnvelopeInto(fringeIndex.value, envelope, out, id, FringeBoxes(geo, rules));
    }

    method FringeEntries() returns (entries: seq<BoxEntry>)
      requires Built()
      ensures Indexes(entries, id, FringeBoxes(geo, rules))
    {
      ghost var boxes := FringeBoxes(geo, rules);
      entries := [];
      for i := 0 to |rules|
        invariant IndexesPrefix(entries, id, boxes, i)
      {
        var box := FringeBox(geo.sphere, rules[i].geometry, envelopes[i]);
        PrefixStep(entries, id, boxes, i, box);
        entries := WithBox(entries, box, RuleId(i, id));
      }
    }
  }

  function WithBox(entries: seq<BoxEntry>, box: Option<Rect>, id: RuleId): seq<BoxEntry> {
    if box.Some? then entries + [BoxEntry(box.value, id)] else entries
  }

  lemma PrefixStep(entries: seq<BoxEntry>, owner: nat, boxes: seq<Option<Rect>>, i: nat, box: Option<Rect>)
    requires i < |boxes| && boxes[i] == box && IndexesPrefix(entries, owner, boxes, i)
    ensures IndexesPrefix(WithBox(entries, box, RuleId(i, owner)), owner, boxes, i + 1)
  {
  }

  lemma EveryRuleIndexed(owner: nat, rules: seq<Rule>, entries: seq<BoxEntry>)
    requires |entries| == |rules|
    requires forall i :: 0 <= i < |rules| ==> entries[i] == BoxEntry(PlanarBox(rules[i].geometry), RuleId(i, owner))
    ensures Indexes(entries, owner, PlanarBoxes(rules))
  {
  }

  /** The first rule without a bounding box, if any. */
  method CollectEnvelopes(rules: seq<Rule>) returns (ok: bool)
    ensures ok <==> forall i :: 0 <= i < |rules| ==> BoundingRect(rules[i].geometry).Some?
  {
    for i := 0 to |rules|
      invariant forall j :: 0 <= j < i ==> BoundingRect(rules[j].geometry).Some?
    {
      if BoundingRect(rules[i].geometry).None? {
        return false;
      }
    }
    ok := true;
  }

  lemma GateIsBuildable(geo: Geo, rules: seq<Rule>)
    ensures Buildable(geo, rules) <==>
      (forall i :: 0 <= i < |rules| ==> RuleError(geo, rules, i) == None && BoundingRect(rules[i].geometry).Some?)
  {
    if forall i :: 0 <= i < |rules| ==> RuleError(geo, rules, i) == None && BoundingRect(rules[i].geometry).Some? {
      forall i, j | 0 <= i < j < |rules|
        ensures rules[i].id != rules[j].id
      {
        assert RuleError(geo, rules, j) == None;
      }
      assert forall i :: 0 <= i < |rules| ==> RuleError(geo, rules, i) == None;
    }
  }

  /** Builds a ruleset under a fresh identity; it fails exactly on the lists the gate rejects. */
  method BuildIndexed(geo: Geo, rules: seq<Rule>, kind: IndexKind, ids: IdSource)
    returns (r: Result<Ruleset, BuildError>)
    requires kind.Lawful()
    modifies ids
    ensures ids.next == old(ids.next) + 1
    ensures r.Ok? <==> Buildable(geo, rules)
    ensures r.Ok? ==>
      && fresh(r.value) && r.value.Valid() && r.value.fringeIndex == None
      && r.value.geo == geo && r.value.rules == rules && r.value.id == old(ids.next)
    ensures r.Err? ==>
      || FirstError(geo, rules, r.error)
      || (r.error == NoBoundingRect && forall i :: 0 <= i < |rules| ==> RuleError(geo, rules, i) == None)
  {
    var id := ids.NextId();
    r := BuildUnder(geo, rules, kind, id);
  }

  /** The build once its identity is assigned. */
  method BuildUnder(geo: Geo, rules: seq<Rule>, kind: IndexKind, id: nat) returns (r: Result<Ruleset, BuildError>)
    requires kind.Lawful()
    ensures r.Ok? <==> Buildable(geo, rules)
    ensures r.Ok? ==>
      && fresh(r.value) && r.value.Valid() && r.value.fringeIndex == None
      && r.value.geo == geo && r.value.rules == rules && r.value.id == id
    ensures r.Err? ==>
      || FirstError(geo, rules, r.error)
      || (r.error == NoBoundingRect && forall i :: 0 <= i < |rules| ==> RuleError(geo, rules, i) == None)
  {
    GateIsBuildable(geo, rules);
    var error := CheckRules(geo, rules);
    if error.Some? {
      return Err(error.value);
    }
    var boxed := CollectEnvelopes(rules);
    if !boxed {
      return Err(NoBoundingRect);
    }
    var entries := seq(|rules|, i requires 0 <= i < |rules| => BoxEntry(PlanarBox(rules[i].geometry), RuleId(i, id)));
    EveryRuleIndexed(id, rules, entries);
    var index := Build(rules, id);
    var ruleset := new Ruleset.Assemble(geo, id, rules, kind, index, entries);
    r := Ok(ruleset);
  }
}
