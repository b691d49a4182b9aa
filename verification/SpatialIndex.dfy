/** The spatial index over rule boxes: the linear scan, and the tree known by what a lookup returns. */
module SpatialIndex {
  import opened Prelude
  import opened Sequences
  import opened Geometry
  import opened Rules

  datatype BoxEntry = BoxEntry(rect: Rect, id: RuleId)

  /**
   * `LinearScan` walks its entries. `RStar` is a packed tree whose `locate`
   * enumerates the intersecting entries in an order of its own.
   */
  datatype SpatialIndex =
    | LinearScan(entries: seq<BoxEntry>)
    | RStar(entries: seq<BoxEntry>, locate: Rect -> seq<RuleId>)
  {
    /** A tree lookup is sound and complete; order and repetition are free. */
    ghost predicate Valid() {
      RStar? ==> forall envelope, id :: id in locate(envelope) <==> id in Hits(entries, envelope)
    }
  }

  /** Ids of the entries whose box meets `envelope`, in entry order. */
  function Hits(entries: seq<BoxEntry>, envelope: Rect): seq<RuleId> {
    if entries == [] then []
    else if RectsIntersect(entries[0].rect, envelope) then [entries[0].id] + Hits(entries[1..], envelope)
    else Hits(entries[1..], envelope)
  }

  lemma {:induction false} HitsMembers(entries: seq<BoxEntry>, envelope: Rect, id: RuleId)
    ensures id in Hits(entries, envelope)
       <==> exists k :: 0 <= k < |entries| && entries[k].id == id && RectsIntersect(entries[k].rect, envelope)
  {
    if entries != [] {
      HitsMembers(entries[1..], envelope, id);
      if k :| 0 <= k < |entries[1..]| && entries[1..][k].id == id && RectsIntersect(entries[1..][k].rect, envelope) {
        assert entries[k + 1] == entries[1..][k];
      }
      if k :| 1 <= k < |entries| && entries[k].id == id && RectsIntersect(entries[k].rect, envelope) {
        assert entries[1..][k - 1] == entries[k];
      }
    }
  }

  /** One entry per position that has a box, bound to `owner`. */
  ghost predicate Indexes(entries: seq<BoxEntry>, owner: nat, boxes: seq<Option<Rect>>) {
    && (forall k :: 0 <= k < |entries| ==>
          && entries[k].id.owner == owner && entries[k].id.index < |boxes|
          && boxes[entries[k].id.index] == Some(entries[k].rect))
    && (forall i :: 0 <= i < |boxes| && boxes[i].Some? ==>
          exists k :: 0 <= k < |entries| && entries[k] == BoxEntry(boxes[i].value, RuleId(i, owner)))
  }

  predicate BoxMeets(boxes: seq<Option<Rect>>, envelope: Rect, i: nat) {
    i < |boxes| && boxes[i].Some? && RectsIntersect(boxes[i].value, envelope)
  }

  lemma IndexedHits(entries: seq<BoxEntry>, owner: nat, boxes: seq<Option<Rect>>, envelope: Rect)
    requires Indexes(entries, owner, boxes)
    ensures AllOwned(Hits(entries, envelope), owner)
    ensures forall i: nat :: RuleId(i, owner) in Hits(entries, envelope) <==> BoxMeets(boxes, envelope, i)
  {
    forall id | id in Hits(entries, envelope)
      ensures id.owner == owner
    {
      HitsMembers(entries, envelope, id);
    }
    forall i: nat
      ensures RuleId(i, owner) in Hits(entries, envelope) <==> BoxMeets(boxes, envelope, i)
    {
      HitsMembers(entries, envelope, RuleId(i, owner));
    }
  }

  function Touching(boxes: seq<Option<Rect>>, envelope: Rect): nat -> bool {
    (i: nat) => BoxMeets(boxes, envelope, i)
  }

  /** The answer of a lookup: every position whose box meets the envelope, once, ascending. */
  function Lookup(owner: nat, boxes: seq<Option<Rect>>, envelope: Rect): seq<RuleId> {
    Mint(Select(|boxes|, Touching(boxes, envelope)), owner)
  }

  lemma SortedHitsAreLookup(found: seq<RuleId>, entries: seq<BoxEntry>, owner: nat, boxes: seq<Option<Rect>>,
      envelope: Rect)
    requires Indexes(entries, owner, boxes)
    requires forall id :: id in found <==> id in Hits(entries, envelope)
    ensures SortDedup(found) == Lookup(owner, boxes, envelope)
  {
    IndexedHits(entries, owner, boxes, envelope);
    SortDedupEnumerates(found, owner);
    MintUnique(SortDedup(found), owner, |boxes|, Touching(boxes, envelope));
  }

  method Scan(entries: seq<BoxEntry>, envelope: Rect, out: IdBuffer)
    modifies out
    ensures out.ids == old(out.ids) + Hits(entries, envelope)
  {
    ghost var before := out.ids;
    var i := 0;
    assert entries[0..] == entries;
    while i < |entries|
      invariant 0 <= i <= |entries|
      invariant out.ids + Hits(entries[i..], envelope) == before + Hits(entries, envelope)
    {
      assert entries[i..][1..] == entries[i + 1..];
      if RectsIntersect(entries[i].rect, envelope) {
        assert out.ids + ([entries[i].id] + Hits(entries[i + 1..], envelope))
          == out.ids + [entries[i].id] + Hits(entries[i + 1..], envelope);
        out.Extend([entries[i].id]);
      }
      i := i + 1;
    }
  }

  /** Both kinds of index answer the same, whatever `out` held before. */
  method QueryEnvelopeInto(index: SpatialIndex, envelope: Rect, out: IdBuffer, ghost owner: nat,
      ghost boxes: seq<Option<Rect>>)
    requires index.Valid() && Indexes(index.entries, owner, boxes)
    modifies out
    ensures out.ids == Lookup(owner, boxes, envelope)
  {
    out.Clear();
    match index {
      case LinearScan(entries) => Scan(entries, envelope, out);
      case RStar(_, locate) => out.Extend(locate(envelope));
    }
    SortedHitsAreLookup(out.ids, index.entries, owner, boxes, envelope);
    out.SortUnstable();
    out.DedupInPlace();
  }
}
