/** JSON value trees, as the query and `where` parsers receive them. */
module Json {
  import opened Prelude
  import opened Doubles
  import opened Properties

  /** A number literal: an integer that fits `u64`/`i64`, or any other finite number. */
  datatype Number = Integer(i: int) | Decimal(r: real)

  datatype Json = Null | Bool(b: bool) | Num(n: Number) | Text(s: string)
    | Array(items: seq<Json>) | Object(members: seq<Member>)

  datatype Member = Member(key: string, value: Json)

  ghost predicate UniqueKeys(members: seq<Member>) {
    forall i, j :: 0 <= i < j < |members| ==> members[i].key != members[j].key
  }

  /** The value under `key`, as a map lookup. */
  function Lookup(members: seq<Member>, key: string): (r: Option<Json>)
    ensures r.Some? ==> Member(key, r.value) in members
    ensures r.None? ==> forall m :: m in members ==> m.key != key
  {
    if members == [] then None
    else if members[0].key == key then Some(members[0].value)
    else Lookup(members[1..], key)
  }

  lemma {:induction false} LookupMember(members: seq<Member>, m: Member)
    requires UniqueKeys(members) && m in members
    ensures Lookup(members, m.key) == Some(m.value)
  {
    if members[0] != m {
      assert m in members[1..];
      var k :| 1 <= k < |members| && members[k] == m;
      assert members[0].key != members[k].key;
      LookupMember(members[1..], m);
    }
  }

  const I64_MIN := -0x8000_0000_0000_0000
  const I64_LIMIT := 0x8000_0000_0000_0000

  /** The number read as a double. */
  function DoubleOf(n: Number): real {
    match n case Integer(i) => Rounded(i) as real case Decimal(r) => r
  }

  /** `Int` when the number is an `i64`, or its double is integral and fits one; else `Float`. */
  function NumberValue(n: Number): PropertyValue {
    if n.Integer? && I64_MIN <= n.i < I64_LIMIT then PropertyValue.Int(n.i)
    else
      var d := DoubleOf(n);
      if d.Floor as real == d && I64_MIN <= d.Floor < I64_LIMIT then PropertyValue.Int(d.Floor)
      else PropertyValue.Float(Finite(d))
  }

  predicate IsI64(i: int, r: real) { i as real == r && I64_MIN <= i < I64_LIMIT }

  /**
   * An integer that fits `i64` keeps its exact value; any other number keeps
   * its double's value, as an `Int` exactly when that is an integer that fits,
   * however the number was written.
   */
  lemma NumberKeepsValue(n: Number)
    ensures n.Integer? && I64_MIN <= n.i < I64_LIMIT ==> NumberValue(n) == PropertyValue.Int(n.i)
    ensures !(n.Integer? && I64_MIN <= n.i < I64_LIMIT) ==>
      && (NumberValue(n).Int? <==> exists i :: IsI64(i, DoubleOf(n)))
      && (NumberValue(n).Int? ==> NumberValue(n).i as real == DoubleOf(n))
      && (!NumberValue(n).Int? ==> NumberValue(n) == PropertyValue.Float(Finite(DoubleOf(n))))
  {
    if i :| IsI64(i, DoubleOf(n)) {
      assert DoubleOf(n).Floor == i;
    }
    if NumberValue(n).Int? && NumberValue(n).i as real == DoubleOf(n) {
      assert IsI64(NumberValue(n).i, DoubleOf(n));
    }
  }

  /** The property value of a scalar; arrays and objects have none. */
  function ScalarValue(j: Json): Option<PropertyValue> {
    match j
    case Null => Some(PropertyValue.Null)
    case Bool(b) => Some(PropertyValue.Bool(b))
    case Num(n) => Some(NumberValue(n))
    case Text(s) => Some(PropertyValue.Str(s))
    case Array(_) => None
    case Object(_) => None
  }

  predicate IsScalar(j: Json) { !j.Array? && !j.Object? }

  /** The same document with the members of its objects in any order, at any depth. */
  ghost predicate SameDocument(a: Json, b: Json)
    decreases a
  {
    match (a, b)
    case (Array(xs), Array(ys)) =>
      |xs| == |ys| && forall i :: 0 <= i < |xs| ==> SameDocument(xs[i], ys[i])
    case (Object(ms), Object(ns)) =>
      && |ms| == |ns| && UniqueKeys(ms) && UniqueKeys(ns)
      && (forall m :: m in ms ==> Lookup(ns, m.key).Some? && SameDocument(m.value, Lookup(ns, m.key).value))
      && (forall n :: n in ns ==> Lookup(ms, n.key).Some?)
    case _ => a == b
  }
}
