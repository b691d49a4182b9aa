/** Typed property values and the sorted-slice property map of a rule. */
module Properties {
  import opened Prelude
  import opened Doubles
  import opened Sequences
  import Text

  datatype PropertyValue = Null | Bool(b: bool) | Int(i: int) | Float(f: Float64) | Str(s: string) {
    predicate IsSerializable() {
      match this
      case Float(f) => f.IsFinite()
      case _ => true
    }
  }

  function CompareValues(a: PropertyValue, b: PropertyValue): Ordering {
    match (a, b)
    case (Null, Null) => Equal
    case (Null, _) => Less
    case (_, Null) => Greater
    case (Bool(x), Bool(y)) => CompareInt(if x then 1 else 0, if y then 1 else 0)
    case (Bool(_), _) => Less
    case (_, Bool(_)) => Greater
    case (Int(x), Int(y)) => CompareInt(x, y)
    case (Int(_), _) => Less
    case (_, Int(_)) => Greater
    case (Float(x), Float(y)) => CompareBits(x, y)
    case (Float(_), _) => Less
    case (_, Float(_)) => Greater
    case (Str(x), Str(y)) => Text.Compare(x, y)
  }

  /** The value order is total and agrees with equality, so a value can key an ordered map. */
  lemma ValueOrder(a: PropertyValue, b: PropertyValue, c: PropertyValue)
    ensures CompareValues(a, b) == Equal <==> a == b
    ensures CompareValues(b, a) == CompareValues(a, b).Reverse()
    ensures CompareValues(a, b) == Less && CompareValues(b, c) == Less ==> CompareValues(a, c) == Less
  {
    if a.Str? && b.Str? {
      Text.CompareEqual(a.s, b.s);
      Text.CompareFlip(a.s, b.s);
      if c.Str? && CompareValues(a, b) == Less && CompareValues(b, c) == Less {
        Text.CompareTransitive(a.s, b.s, c.s);
      }
    }
  }

  /** Values of different types are ordered by type: nothing, flags, integers, floats, text. */
  lemma KindOrder(a: PropertyValue, b: PropertyValue)
    ensures a.Null? && !b.Null? ==> CompareValues(a, b) == Less
    ensures a.Bool? && (b.Int? || b.Float? || b.Str?) ==> CompareValues(a, b) == Less
    ensures a.Int? && (b.Float? || b.Str?) ==> CompareValues(a, b) == Less
    ensures a.Float? && b.Str? ==> CompareValues(a, b) == Less
    ensures a.Int? && b.Int? && a.i < b.i ==> CompareValues(a, b) == Less
    ensures a == PropertyValue.Bool(false) && b == PropertyValue.Bool(true) ==> CompareValues(a, b) == Less
  {
  }

  datatype Entry = Entry(name: string, value: PropertyValue)

  ghost predicate StrictKeys(s: seq<Entry>) {
    forall i, j :: 0 <= i < j < |s| ==> Text.Compare(s[i].name, s[j].name) == Less
  }

  /** A rule's properties: entries in strictly increasing key order. */
  type Properties = s: seq<Entry> | StrictKeys(s)

  datatype SearchResult = Found(index: nat) | Missing(insertAt: nat)

  /** Binary search between `lo` and `hi`. */
  function Search(s: Properties, name: string, lo: nat, hi: nat): (r: SearchResult)
    requires lo <= hi <= |s|
    requires forall i :: 0 <= i < lo ==> Text.Compare(s[i].name, name) == Less
    requires forall i :: hi <= i < |s| ==> Text.Compare(s[i].name, name) == Greater
    ensures r.Found? ==> r.index < |s| && s[r.index].name == name
    ensures r.Missing? ==> r.insertAt <= |s|
    ensures r.Missing? ==> forall i :: 0 <= i < r.insertAt ==> Text.Compare(s[i].name, name) == Less
    ensures r.Missing? ==> forall i :: r.insertAt <= i < |s| ==> Text.Compare(s[i].name, name) == Greater
    decreases hi - lo
  {
    if lo == hi then Missing(lo)
    else
      var mid := lo + (hi - lo) / 2;
      match Text.Compare(s[mid].name, name)
      case Equal => Text.CompareEqual(s[mid].name, name); Found(mid)
      case Less => KeysBefore(s, name, mid); Search(s, name, mid + 1, hi)
      case Greater => KeysAfter(s, name, mid); Search(s, name, lo, mid)
  }

  lemma KeysBefore(s: Properties, name: string, mid: nat)
    requires mid < |s| && Text.Compare(s[mid].name, name) == Less
    ensures forall i :: 0 <= i <= mid ==> Text.Compare(s[i].name, name) == Less
  {
    forall i | 0 <= i < mid
      ensures Text.Compare(s[i].name, name) == Less
    {
      Text.CompareTransitive(s[i].name, s[mid].name, name);
    }
  }

  lemma KeysAfter(s: Properties, name: string, mid: nat)
    requires mid < |s| && Text.Compare(s[mid].name, name) == Greater
    ensures forall i :: mid <= i < |s| ==> Text.Compare(s[i].name, name) == Greater
  {
    Text.CompareFlip(s[mid].name, name);
    forall i | mid < i < |s|
      ensures Text.Compare(s[i].name, name) == Greater
    {
      Text.CompareTransitive(name, s[mid].name, s[i].name);
      Text.CompareFlip(name, s[i].name);
    }
  }

  function Get(s: Properties, name: string): (r: Option<PropertyValue>)
    ensures r.Some? <==> exists i :: 0 <= i < |s| && s[i].name == name
    ensures forall i :: 0 <= i < |s| && s[i].name == name ==> r == Some(s[i].value)
  {
    Text.CompareEqual(name, name);
    match Search(s, name, 0, |s|)
    case Found(index) => KeysDistinct(s, index); Some(s[index].value)
    case Missing(_) => None
  }

  lemma KeysDistinct(s: Properties, k: nat)
    requires k < |s|
    ensures forall i :: 0 <= i < |s| && s[i].name == s[k].name ==> i == k
  {
    Text.CompareEqual(s[k].name, s[k].name);
  }

  predicate ContainsKey(s: Properties, name: string) {
    Get(s, name).Some?
  }

  /** The slice after `insert(name, value)`. */
  function Inserted(s: Properties, name: string, value: PropertyValue): (r: Properties)
    ensures forall k :: Get(r, k) == if k == name then Some(value) else Get(s, k)
  {
    match Search(s, name, 0, |s|)
    case Found(index) =>
      var r: Properties := s[index := Entry(name, value)];
      UpdatedGet(s, r, name, value, index); r
    case Missing(at) =>
      SplicedKeys(s, name, value, at);
      var r: Properties := s[..at] + [Entry(name, value)] + s[at..];
      SplicedGet(s, r, name, value, at); r
  }

  lemma UpdatedGet(s: Properties, r: Properties, name: string, value: PropertyValue, index: nat)
    requires index < |s| && s[index].name == name && r == s[index := Entry(name, value)]
    ensures forall k :: Get(r, k) == if k == name then Some(value) else Get(s, k)
  {
    hide Get, StrictKeys;
    forall k
      ensures Get(r, k) == if k == name then Some(value) else Get(s, k)
    {
      KeysDistinct(s, index);
      assert r[index].name == name;
      if Get(s, k).Some? {
        var i :| 0 <= i < |s| && s[i].name == k;
        assert r[i].name == k;
      }
    }
  }

  lemma SplicedKeys(s: Properties, name: string, value: PropertyValue, at: nat)
    requires at <= |s|
    requires forall i :: 0 <= i < at ==> Text.Compare(s[i].name, name) == Less
    requires forall i :: at <= i < |s| ==> Text.Compare(s[i].name, name) == Greater
    ensures StrictKeys(s[..at] + [Entry(name, value)] + s[at..])
  {
    forall i | at <= i < |s|
      ensures Text.Compare(name, s[i].name) == Less
    {
      Text.CompareFlip(s[i].name, name);
    }
  }

  lemma SplicedGet(s: Properties, r: Properties, name: string, value: PropertyValue, at: nat)
    requires at <= |s| && r == s[..at] + [Entry(name, value)] + s[at..]
    ensures forall k :: Get(r, k) == if k == name then Some(value) else Get(s, k)
  {
    hide Get, StrictKeys;
    assert r[at] == Entry(name, value);
    KeysDistinct(r, at);
    forall k
      ensures Get(r, k) == if k == name then Some(value) else Get(s, k)
    {
      if Get(s, k).Some? {
        var i :| 0 <= i < |s| && s[i].name == k;
        var j := if i < at then i else i + 1;
        assert r[j] == s[i];
      }
      if k != name && Get(r, k).Some? {
        var j :| 0 <= j < |r| && r[j].name == k;
        assert r[j] == s[if j < at then j else j - 1];
      }
    }
  }

  /** The slice is canonical: it is determined by the finite map it represents. */
  lemma {:induction false} Canonical(a: Properties, b: Properties)
    requires forall k :: Get(a, k) == Get(b, k)
    ensures a == b
    decreases |a|
  {
    assert b != [] ==> Get(b, b[0].name).Some?;
    if a != [] {
      assert Get(a, a[0].name).Some?;
      SameFirst(a, b);
      var a', b' : Properties := a[1..], b[1..];
      forall k
        ensures Get(a', k) == Get(b', k)
      {
        TailGet(a, k);
        TailGet(b, k);
      }
      Canonical(a', b');
      assert a == [a[0]] + a' && b == [b[0]] + b';
    }
  }

  lemma SameFirst(a: Properties, b: Properties)
    requires a != [] && b != []
    requires forall k :: Get(a, k) == Get(b, k)
    ensures a[0] == b[0]
  {
    assert Get(a, b[0].name).Some? && Get(b, a[0].name).Some?;
    var i :| 0 <= i < |a| && a[i].name == b[0].name;
    var j :| 0 <= j < |b| && b[j].name == a[0].name;
    Text.CompareFlip(a[0].name, b[0].name);
    assert Get(a, a[0].name) == Some(a[0].value) && Get(b, b[0].name) == Some(b[0].value);
  }

  lemma TailGet(s: Properties, k: string)
    requires s != []
    ensures StrictKeys(s[1..])
    ensures Get(s[1..], k) == if k == s[0].name then None else Get(s, k)
  {
    var t: Properties := s[1..];
    KeysDistinct(s, 0);
    if Get(t, k).Some? {
      var i :| 0 <= i < |t| && t[i].name == k;
      assert s[i + 1].name == k;
    }
    if Get(s, k).Some? && k != s[0].name {
      var i :| 0 <= i < |s| && s[i].name == k;
      assert t[i - 1].name == k;
    }
  }

  // ------------------------------------------------ runs of inserts

  /** The finite map a run of inserts denotes: the last value wins. */
  function LastInserted(run: seq<Entry>): map<string, PropertyValue> {
    if run == [] then map[]
    else LastInserted(run[..|run| - 1])[run[|run| - 1].name := run[|run| - 1].value]
  }

  function InsertAll(run: seq<Entry>): Properties {
    if run == [] then []
    else Inserted(InsertAll(run[..|run| - 1]), run[|run| - 1].name, run[|run| - 1].value)
  }

  lemma {:induction false} InsertAllRefinesMap(run: seq<Entry>, k: string)
    ensures Get(InsertAll(run), k) == if k in LastInserted(run) then Some(LastInserted(run)[k]) else None
  {
    if run != [] {
      InsertAllRefinesMap(run[..|run| - 1], k);
    }
  }

  lemma SameMapSameSliceOneWay(run1: seq<Entry>, run2: seq<Entry>)
    requires LastInserted(run1) == LastInserted(run2)
    ensures InsertAll(run1) == InsertAll(run2)
  {
    var p1, p2 := InsertAll(run1), InsertAll(run2);
    forall k
      ensures Get(p1, k) == Get(p2, k)
    {
      InsertAllRefinesMap(run1, k);
      InsertAllRefinesMap(run2, k);
    }
    Canonical(p1, p2);
  }

  /** Two runs of inserts end in the same slice exactly when they denote the same map. */
  lemma SameMapSameSlice(run1: seq<Entry>, run2: seq<Entry>)
    ensures InsertAll(run1) == InsertAll(run2) <==> LastInserted(run1) == LastInserted(run2)
  {
    if InsertAll(run1) == InsertAll(run2) {
      var m1, m2 := LastInserted(run1), LastInserted(run2);
      forall k: string
        ensures k in m1 <==> k in m2
        ensures k in m1 && k in m2 ==> m1[k] == m2[k]
      {
        InsertAllRefinesMap(run1, k);
        InsertAllRefinesMap(run2, k);
      }
      assert m1 == m2;
    }
    if LastInserted(run1) == LastInserted(run2) {
      SameMapSameSliceOneWay(run1, run2);
    }
  }

  /** Key order on entries, as `from_pairs` sorts them. */
  predicate NameAtMost(a: Entry, b: Entry) { Text.AtMost(a.name, b.name) }

  lemma NameAtMostPreorder()
    ensures TotalPreorder(NameAtMost)
  {
    Text.AtMostTotal();
  }

  lemma FromPairsSorted(pairs: seq<Entry>)
    requires forall i, j :: 0 <= i < j < |pairs| ==> pairs[i].name != pairs[j].name
    ensures StrictKeys(Sort(pairs, NameAtMost))
  {
    hide Sort;
    NameAtMostPreorder();
    SortSorts(pairs, NameAtMost);
    var r := Sort(pairs, NameAtMost);
    SameMembers(r, pairs);
    DistinctPermutation(r, pairs);
    forall i, j | 0 <= i < j < |r|
      ensures Text.Compare(r[i].name, r[j].name) == Less
    {
      assert NameAtMost(r[i], r[j]);
      Text.CompareEqual(r[i].name, r[j].name);
      assert r[i] in pairs && r[j] in pairs;
    }
  }

  /** `Properties::from_pairs`: callers pass unique keys. */
  function FromPairs(pairs: seq<Entry>): (r: Properties)
    requires forall i, j :: 0 <= i < j < |pairs| ==> pairs[i].name != pairs[j].name
    ensures multiset(r) == multiset(pairs)
    ensures forall i :: 0 <= i < |pairs| ==> Get(r, pairs[i].name) == Some(pairs[i].value)
  {
    FromPairsSorted(pairs);
    var r: Properties := Sort(pairs, NameAtMost);
    SameMembers(r, pairs);
    assert forall i :: 0 <= i < |pairs| ==> pairs[i] in r;
    r
  }

  /** The growable form rules are authored with: `insert` replaces a value in place or splices a new entry. */
  class PropertyStore {
    var items: Properties

    constructor ()
      ensures items == []
    {
      items := [];
    }

    method Insert(name: string, value: PropertyValue)
      modifies this
      ensures items == Inserted(old(items), name, value)
    {
      match Search(items, name, 0, |items|)
      case Found(index) =>
        items := items[index := Entry(items[index].name, value)];
      case Missing(at) =>
        SplicedKeys(items, name, value, at);
        items := items[..at] + [Entry(name, value)] + items[at..];
    }
  }
}
