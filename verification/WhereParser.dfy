/** The `where` compiler: JSON to predicate tree, and the meaning of a clause stated on the JSON itself. */
module WhereParser {
  import opened Prelude
  import opened Doubles
  import opened Properties
  import opened Temporal
  import opened WhereExpr
  import opened Json

  datatype WhereError = InvalidPredicate | UnsupportedOperator

  predicate IsOperator(key: string) { |key| > 0 && key[0] == '$' }

  // ------------------------------------------------ the compiler

  function Parse(value: Json): Result<WhereExpr, WhereError>
    decreases value, 2
  {
    if !value.Object? then Err(InvalidPredicate)
    else if |value.members| == 1 then
      var m := value.members[0];
      if m.key == "$and" then ParseGroup(m.value, exprs => And(exprs))
      else if m.key == "$or" then ParseGroup(m.value, exprs => Or(exprs))
      else if m.key == "$nor" then ParseGroup(m.value, exprs => Nor(exprs))
      else if m.key == "$activeAt" then
        (match ParseActiveAt(m.value)
         case Ok(clause) => Ok(ActiveAt(clause))
         case Err(e) => Err(e))
      else if IsOperator(m.key) then Err(UnsupportedOperator)
      else ParseImplicitAnd(value.members)
    else ParseImplicitAnd(value.members)
  }

  function ParseGroup(value: Json, build: seq<WhereExpr> -> WhereExpr): Result<WhereExpr, WhereError>
    decreases value, 1
  {
    if !value.Array? then Err(InvalidPredicate)
    else
      match ParseList(value.items)
      case Ok(exprs) => Ok(build(exprs))
      case Err(e) => Err(e)
  }

  function ParseList(items: seq<Json>): (r: Result<seq<WhereExpr>, WhereError>)
    decreases items, 0
  {
    if items == [] then Ok([])
    else
      match Parse(items[0])
      case Err(e) => Err(e)
      case Ok(first) =>
        match ParseList(items[1..])
        case Err(e) => Err(e)
        case Ok(rest) => Ok([first] + rest)
  }

  function StringMember(members: seq<Member>, key: string): Option<string> {
    match Lookup(members, key)
    case Some(Text(s)) => Some(s)
    case _ => None
  }

  function ParseActiveAt(value: Json): Result<ActiveAtClause, WhereError> {
    if !value.Object? then Err(InvalidPredicate)
    else
      var days := StringMember(value.members, "daysOfWeek");
      var start := StringMember(value.members, "startHour");
      var end := StringMember(value.members, "endHour");
      if days.None? || start.None? || end.None? then Err(InvalidPredicate)
      else Ok(ActiveAtClause(days.value, start.value, end.value))
  }

  /** The vector of field predicates, in member order; the first failure is the error. */
  function ParseFields(members: seq<Member>): (r: Result<seq<WhereExpr>, WhereError>)
    ensures r.Ok? ==> |r.value| == |members|
  {
    if members == [] then Ok([])
    else if IsOperator(members[0].key) then Err(UnsupportedOperator)
    else
      match ParseFieldPredicate(members[0].key, members[0].value)
      case Err(e) => Err(e)
      case Ok(first) =>
        match ParseFields(members[1..])
        case Err(e) => Err(e)
        case Ok(rest) => Ok([first] + rest)
  }

  function ParseImplicitAnd(members: seq<Member>): Result<WhereExpr, WhereError> {
    match ParseFields(members)
    case Err(e) => Err(e)
    case Ok(predicates) => Ok(if |predicates| == 1 then predicates[0] else And(predicates))
  }

  function ParseFieldPredicate(field: string, value: Json): Result<WhereExpr, WhereError> {
    match value
    case Object(operators) =>
      if |operators| != 1 then Err(InvalidPredicate)
      else
        (match ParseFieldOp(field, operators[0].key, operators[0].value)
         case Ok(op) => Ok(Predicate(FieldPredicate(field, op)))
         case Err(e) => Err(e))
    case Array(_) => Err(InvalidPredicate)
    case _ =>
      match ScalarValue(value)
      case Some(v) => Ok(Predicate(FieldPredicate(field, Eq(v))))
      case None => Err(InvalidPredicate)
  }

  function ParseScalar(operand: Json, build: PropertyValue -> FieldOp): Result<FieldOp, WhereError> {
    match ScalarValue(operand)
    case Some(v) => Ok(build(v))
    case None => Err(InvalidPredicate)
  }

  function ParseScalars(items: seq<Json>): Option<seq<PropertyValue>> {
    if items == [] then Some([])
    else
      match ScalarValue(items[0])
      case None => None
      case Some(v) =>
        match ParseScalars(items[1..])
        case None => None
        case Some(rest) => Some([v] + rest)
  }

  function ParseArray(operand: Json, build: seq<PropertyValue> -> FieldOp): Result<FieldOp, WhereError> {
    if !operand.Array? then Err(InvalidPredicate)
    else
      match ParseScalars(operand.items)
      case Some(values) => Ok(build(values))
      case None => Err(InvalidPredicate)
  }

  function ParseFieldOp(field: string, operator: string, operand: Json): Result<FieldOp, WhereError>
    decreases operand
  {
    if operator == "$eq" then ParseScalar(operand, v => Eq(v))
    else if operator == "$ne" then ParseScalar(operand, v => Ne(v))
    else if operator == "$gt" then ParseScalar(operand, v => Gt(v))
    else if operator == "$gte" then ParseScalar(operand, v => Gte(v))
    else if operator == "$lt" then ParseScalar(operand, v => Lt(v))
    else if operator == "$lte" then ParseScalar(operand, v => Lte(v))
    else if operator == "$in" then ParseArray(operand, vs => In(vs))
    else if operator == "$nin" then ParseArray(operand, vs => Nin(vs))
    else if operator == "$exists" then if operand.Bool? then Ok(Exists(operand.b)) else Err(InvalidPredicate)
    else if operator == "$not" then
      if !operand.Object? || |operand.members| != 1 then Err(InvalidPredicate)
      else
        match ParseFieldOp(field, operand.members[0].key, operand.members[0].value)
        case Ok(op) => Ok(Not(FieldPredicate(field, op)))
        case Err(e) => Err(e)
    else if IsOperator(operator) then Err(UnsupportedOperator)
    else Err(InvalidPredicate)
  }

  // ------------------------------------------------ the meaning, on the JSON

  predicate WellFormed(j: Json)
    decreases j
  {
    j.Object? &&
    if |j.members| == 1 && j.members[0].key in {"$and", "$or", "$nor"} then
      j.members[0].value.Array? && forall item :: item in j.members[0].value.items ==> WellFormed(item)
    else if |j.members| == 1 && j.members[0].key == "$activeAt" then
      WellFormedWindow(j.members[0].value)
    else
      forall m :: m in j.members ==> WellFormedField(m)
  }

  predicate WellFormedWindow(j: Json) {
    && j.Object?
    && StringMember(j.members, "daysOfWeek").Some?
    && StringMember(j.members, "startHour").Some?
    && StringMember(j.members, "endHour").Some?
  }

  predicate WellFormedField(m: Member) {
    && !IsOperator(m.key)
    && (IsScalar(m.value) || (m.value.Object? && |m.value.members| == 1 && WellFormedOp(m.value.members[0])))
  }

  predicate WellFormedOp(m: Member)
    decreases m.value
  {
    if m.key in {"$eq", "$ne", "$gt", "$gte", "$lt", "$lte"} then IsScalar(m.value)
    else if m.key in {"$in", "$nin"} then m.value.Array? && forall item :: item in m.value.items ==> IsScalar(item)
    else if m.key == "$exists" then m.value.Bool?
    else m.key == "$not" && m.value.Object? && |m.value.members| == 1 && WellFormedOp(m.value.members[0])
  }

  /** Whether a rule with these properties is admitted by the clause. */
  ghost predicate Holds(j: Json, properties: Properties, at: Option<TemporalInstant>)
    requires WellFormed(j)
    decreases j
  {
    if |j.members| == 1 && j.members[0].key == "$and" then
      forall item :: item in j.members[0].value.items ==> Holds(item, properties, at)
    else if |j.members| == 1 && j.members[0].key == "$or" then
      exists item :: item in j.members[0].value.items && Holds(item, properties, at)
    else if |j.members| == 1 && j.members[0].key == "$nor" then
      forall item :: item in j.members[0].value.items ==> !Holds(item, properties, at)
    else if |j.members| == 1 && j.members[0].key == "$activeAt" then
      at.Some? && WindowHolds(j.members[0].value, properties, at.value)
    else
      forall m :: m in j.members ==> FieldHolds(m, Get(properties, m.key))
  }

  /** The three named properties are `Int`s, the day's bit is set and the hour lies in the wrapping window. */
  ghost predicate WindowHolds(j: Json, properties: Properties, at: TemporalInstant)
    requires WellFormedWindow(j)
  {
    match (Get(properties, StringMember(j.members, "daysOfWeek").value),
           Get(properties, StringMember(j.members, "startHour").value),
           Get(properties, StringMember(j.members, "endHour").value))
    case (Some(Int(days)), Some(Int(start)), Some(Int(end))) => WindowAdmits(days, start, end, at)
    case _ => false
  }

  ghost predicate WindowAdmits(days: int, start: int, end: int, at: TemporalInstant) {
    && 1 <= at.dayOfWeek <= 7 && Bit(days, at.dayOfWeek - 1)
    && ((start <= at.hour < end) || (end < start && (start <= at.hour || at.hour < end)))
  }

  ghost predicate FieldHolds(m: Member, actual: Option<PropertyValue>)
    requires WellFormedField(m)
  {
    if IsScalar(m.value) then actual == ScalarValue(m.value)
    else OperatorHolds(m.value.members[0], actual)
  }

  /** Two values of one type; integers and floats are different types. */
  predicate SameKind(a: PropertyValue, b: PropertyValue) {
    && (a.Null? <==> b.Null?) && (a.Bool? <==> b.Bool?) && (a.Int? <==> b.Int?)
    && (a.Float? <==> b.Float?) && (a.Str? <==> b.Str?)
  }

  /** The property is present and the operator admits it; `$not` negates, `$exists` asks for presence. */
  ghost predicate OperatorHolds(m: Member, actual: Option<PropertyValue>)
    requires WellFormedOp(m)
    decreases m.value
  {
    match m.key
    case "$not" => !OperatorHolds(m.value.members[0], actual)
    case "$exists" => actual.Some? == m.value.b
    case "$in" => actual.Some? && exists item :: item in m.value.items && ScalarValue(item) == actual
    case "$nin" =>
      && actual.Some?
      && (exists item :: item in m.value.items && SameKind(ScalarValue(item).value, actual.value))
      && (forall item :: item in m.value.items ==> ScalarValue(item) != actual)
    case "$eq" => actual == ScalarValue(m.value)
    case "$ne" =>
      actual.Some? && SameKind(ScalarValue(m.value).value, actual.value) && actual != ScalarValue(m.value)
    case "$gt" => actual.Some? && Below(ScalarValue(m.value).value, actual.value)
    case "$gte" =>
      && actual.Some?
      && (Below(ScalarValue(m.value).value, actual.value) || SameNumber(ScalarValue(m.value).value, actual.value))
    case "$lt" => actual.Some? && Below(actual.value, ScalarValue(m.value).value)
    case _ =>
      && actual.Some?
      && (Below(actual.value, ScalarValue(m.value).value) || SameNumber(actual.value, ScalarValue(m.value).value))
  }

  /** The value an operand has in a comparison with a double. */
  function Numeric(v: PropertyValue): Extended {
    match v
    case Int(i) => Proper(Rounded(i) as real)
    case Float(f) => ValueOf(f)
    case _ => Undefined
  }

  /** Both values are numbers and the first lies strictly below the second; only two integers are compared unrounded. */
  predicate Below(a: PropertyValue, b: PropertyValue) {
    if a.Int? && b.Int? then a.i < b.i else IsBelow(Numeric(a), Numeric(b))
  }

  predicate SameNumber(a: PropertyValue, b: PropertyValue) {
    if a.Int? && b.Int? then a.i == b.i else !Numeric(a).Undefined? && Numeric(a) == Numeric(b)
  }

  // ------------------------------------------------ compilation preserves meaning

  /** The operators compare by `Below` and `SameNumber`. */
  lemma NumbersCompare(a: PropertyValue, b: PropertyValue)
    ensures CompareNumbers(a, b) == Some(Less) <==> Below(a, b)
    ensures CompareNumbers(a, b) == Some(Greater) <==> Below(b, a)
    ensures CompareNumbers(a, b) == Some(Equal) <==> SameNumber(a, b)
    ensures SameNumber(a, b) <==> SameNumber(b, a)
  {
  }

  /** An integer compares with a float as the two numbers do, without rounding. */
  predicate ExactAgainst(i: int, f: Float64) {
    && CompareNumbers(Int(i), Float(f)) == CompareValuesOf(Proper(i as real), ValueOf(f))
    && CompareNumbers(Float(f), Int(i)) == CompareValuesOf(ValueOf(f), Proper(i as real))
  }

  /** The value lies on or between the integer and its double. */
  predicate InRoundingGap(i: int, x: Extended) {
    x.Proper? && (i as real <= x.value <= Rounded(i) as real || Rounded(i) as real <= x.value <= i as real)
  }

  /**
   * The comparison is exact but for the floats in the rounding gap of an
   * integer that is not a double.
   */
  lemma ComparesExactly(i: int, f: Float64)
    ensures ExactAgainst(i, f) <==> Rounded(i) == i || !InRoundingGap(i, ValueOf(f))
  {
  }

  /** So an integer compares exactly with every float if and only if it is a double, as all are up to 2^53. */
  lemma ExactIntegers(i: int)
    ensures (forall f :: ExactAgainst(i, f)) <==> Rounded(i) == i
    ensures -EXACT_LIMIT <= i <= EXACT_LIMIT ==> Rounded(i) == i
  {
    RoundedIsNearest(i);
    forall f
      ensures ExactAgainst(i, f) <==> Rounded(i) == i || !InRoundingGap(i, ValueOf(f))
    {
      ComparesExactly(i, f);
    }
    assert InRoundingGap(i, ValueOf(Finite(Rounded(i) as real)));
  }

  /** `{"p": {"$gte": 9223372036854775808}}` */
  const AT_LEAST_I64_LIMIT :=
    Object([Member("p", Object([Member("$gte", Num(Integer(I64_LIMIT)))]))])

  /**
   * JSON can show the inexact case: a property read from 2^63 - 1 is admitted
   * by a clause that asks for at least 2^63.
   */
  lemma LargeIntegersBlur()
    ensures NumberValue(Integer(I64_LIMIT - 1)) == Int(I64_LIMIT - 1)
    ensures var j := AT_LEAST_I64_LIMIT;
      && Parse(j).Ok?
      && Eval(Parse(j).value, [Entry("p", Int(I64_LIMIT - 1))], None)
  {
    RoundsAtI64Limit();
    var j, v := AT_LEAST_I64_LIMIT, Float(Finite(I64_LIMIT as real));
    assert NumberValue(Integer(I64_LIMIT)) == v;
    var m := j.members[0].value.members[0];
    var properties: Properties := [Entry("p", Int(I64_LIMIT - 1))];
    assert properties[0].name == "p";
    assert Get(properties, "p") == Some(Int(I64_LIMIT - 1));
    assert SameNumber(v, Int(I64_LIMIT - 1));
    CompilationPreservesMeaning(j, properties, None);
    assert OperatorHolds(m, Get(properties, "p"));
    assert FieldHolds(j.members[0], Get(properties, "p"));
  }

  lemma {:induction false} ParseScalarsMembers(items: seq<Json>)
    ensures ParseScalars(items).Some? <==> forall item :: item in items ==> IsScalar(item)
    ensures ParseScalars(items).Some? ==>
      forall v :: v in ParseScalars(items).value <==> exists item :: item in items && ScalarValue(item) == Some(v)
  {
    if items != [] {
      ParseScalarsMembers(items[1..]);
      assert items == [items[0]] + items[1..];
      assert forall item :: item in items <==> item == items[0] || item in items[1..];
      if ParseScalars(items).Some? {
        var values := ParseScalars(items).value;
        var rest := ParseScalars(items[1..]).value;
        assert values == [ScalarValue(items[0]).value] + rest;
        forall v
          ensures v in values <==> exists item :: item in items && ScalarValue(item) == Some(v)
        {
          assert v in values <==> v == ScalarValue(items[0]).value || v in rest;
        }
      }
    }
  }

  lemma {:induction false} FieldOpMeaning(field: string, m: Member, properties: Properties)
    ensures ParseFieldOp(field, m.key, m.value).Ok? <==> WellFormedOp(m)
    ensures WellFormedOp(m) ==>
      (EvalPredicate(FieldPredicate(field, ParseFieldOp(field, m.key, m.value).value), properties)
       <==> OperatorHolds(m, Get(properties, field)))
    decreases m.value
  {
    hide Get, CompareNumbers, Below, SameNumber, ParseScalars;
    if m.key == "$not" {
      if m.value.Object? && |m.value.members| == 1 {
        FieldOpMeaning(field, m.value.members[0], properties);
      }
    } else if m.key in {"$in", "$nin"} {
      if m.value.Array? {
        ParseScalarsMembers(m.value.items);
        if WellFormedOp(m) && Get(properties, field).Some? {
          ListMeaning(field, m, properties);
        }
      }
    } else if m.key in {"$eq", "$ne", "$gt", "$gte", "$lt", "$lte"} {
      if IsScalar(m.value) && Get(properties, field).Some? {
        NumbersCompare(Get(properties, field).value, ScalarValue(m.value).value);
      }
    }
  }

  lemma ScalarsMeaning(items: seq<Json>, actual: PropertyValue)
    requires ParseScalars(items).Some?
    requires forall item :: item in items ==> IsScalar(item)
    ensures actual in ParseScalars(items).value <==> exists item :: item in items && ScalarValue(item) == Some(actual)
    ensures (exists v :: v in ParseScalars(items).value && SameVariant(actual, v))
       <==> (exists item :: item in items && IsScalar(item) && SameKind(ScalarValue(item).value, actual))
  {
    ParseScalarsMembers(items);
    hide ParseScalars;
    if item :| item in items && IsScalar(item) && SameKind(ScalarValue(item).value, actual) {
      assert ScalarValue(item) == Some(ScalarValue(item).value);
      assert ScalarValue(item).value in ParseScalars(items).value;
    }
    if v :| v in ParseScalars(items).value && SameVariant(actual, v) {
      var item :| item in items && ScalarValue(item) == Some(v);
      assert SameKind(ScalarValue(item).value, actual);
    }
  }

  lemma ListMeaning(field: string, m: Member, properties: Properties)
    requires m.key in {"$in", "$nin"} && WellFormedOp(m)
    requires Get(properties, field).Some? && ParseScalars(m.value.items).Some?
    ensures EvalPredicate(FieldPredicate(field, ParseFieldOp(field, m.key, m.value).value), properties)
       <==> OperatorHolds(m, Get(properties, field))
  {
    var actual := Get(properties, field).value;
    ScalarsMeaning(m.value.items, actual);
    hide ParseScalars, SameVariant, SameKind, Get;
    if m.key == "$in" {
      assert OperatorHolds(m, Some(actual)) <==>
        exists item :: item in m.value.items && ScalarValue(item) == Some(actual);
    } else {
      assert OperatorHolds(m, Some(actual)) <==>
        && (exists item :: item in m.value.items && SameKind(ScalarValue(item).value, actual))
        && !(exists item :: item in m.value.items && ScalarValue(item) == Some(actual));
    }
  }

  lemma FieldMeaning(m: Member, properties: Properties, at: Option<TemporalInstant>)
    requires !IsOperator(m.key)
    ensures ParseFieldPredicate(m.key, m.value).Ok? <==> WellFormedField(m)
    ensures WellFormedField(m) ==>
      (Eval(ParseFieldPredicate(m.key, m.value).value, properties, at) <==> FieldHolds(m, Get(properties, m.key)))
  {
    if m.value.Object? && |m.value.members| == 1 {
      FieldOpMeaning(m.key, m.value.members[0], properties);
    }
  }

  lemma {:induction false} FieldsMeaning(members: seq<Member>, properties: Properties, at: Option<TemporalInstant>)
    ensures ParseFields(members).Ok? <==> forall m :: m in members ==> WellFormedField(m)
    ensures ParseFields(members).Ok? ==>
      ((forall e :: e in ParseFields(members).value ==> Eval(e, properties, at))
       <==> (forall m :: m in members ==> FieldHolds(m, Get(properties, m.key))))
  {
    if members != [] {
      var first := members[0];
      assert WellFormedField(first) ==> !IsOperator(first.key);
      hide Eval, FieldHolds, WellFormedField, ParseFieldPredicate;
      assert members == [first] + members[1..];
      FieldsMeaning(members[1..], properties, at);
      if !IsOperator(first.key) {
        FieldMeaning(first, properties, at);
      }
      if ParseFields(members).Ok? {
        var head := ParseFieldPredicate(first.key, first.value).value;
        var rest := ParseFields(members[1..]).value;
        assert ParseFields(members).value == [head] + rest;
        assert (forall e :: e in [head] + rest ==> Eval(e, properties, at))
          <==> Eval(head, properties, at) && forall e :: e in rest ==> Eval(e, properties, at);
        assert (forall m :: m in [first] + members[1..] ==> FieldHolds(m, Get(properties, m.key)))
          <==> && FieldHolds(first, Get(properties, first.key))
               && forall m :: m in members[1..] ==> FieldHolds(m, Get(properties, m.key));
      }
    }
  }

  lemma ImplicitAndMeaning(members: seq<Member>, properties: Properties, at: Option<TemporalInstant>)
    ensures ParseImplicitAnd(members).Ok? <==> forall m :: m in members ==> WellFormedField(m)
    ensures ParseImplicitAnd(members).Ok? ==>
      (Eval(ParseImplicitAnd(members).value, properties, at)
       <==> (forall m :: m in members ==> FieldHolds(m, Get(properties, m.key))))
  {
    FieldsMeaning(members, properties, at);
    if ParseFields(members).Ok? && |members| == 1 {
      var es := ParseFields(members).value;
      assert es == [es[0]];
      assert (forall e :: e in es ==> Eval(e, properties, at)) <==> Eval(es[0], properties, at);
    }
  }

  lemma WindowMeaning(j: Json, properties: Properties, at: Option<TemporalInstant>)
    ensures ParseActiveAt(j).Ok? <==> WellFormedWindow(j)
    ensures WellFormedWindow(j) ==>
      (EvalActiveAt(ParseActiveAt(j).value, properties, at) <==> at.Some? && WindowHolds(j, properties, at.value))
  {
  }

  lemma {:induction false} ListParses(items: seq<Json>, properties: Properties, at: Option<TemporalInstant>)
    ensures ParseList(items).Ok? <==> forall item :: item in items ==> WellFormed(item)
    ensures ParseList(items).Ok? ==> |ParseList(items).value| == |items|
    ensures ParseList(items).Ok? ==> forall i :: 0 <= i < |items| && WellFormed(items[i]) ==>
      (Eval(ParseList(items).value[i], properties, at) <==> Holds(items[i], properties, at))
    decreases items, 0
  {
    hide Parse, WellFormed, Eval, Holds;
    if items != [] {
      CompilationPreservesMeaning(items[0], properties, at);
      ListParses(items[1..], properties, at);
      assert items == [items[0]] + items[1..];
      if ParseList(items).Ok? {
        var rest := ParseList(items[1..]).value;
        assert ParseList(items).value == [Parse(items[0]).value] + rest;
        forall i | 0 <= i < |items| && WellFormed(items[i])
          ensures Eval(ParseList(items).value[i], properties, at) <==> Holds(items[i], properties, at)
        {
          if i > 0 {
            assert ParseList(items).value[i] == rest[i - 1] && items[i] == items[1..][i - 1];
          }
        }
      }
    }
  }

  /**
   * The compiler accepts exactly the well-formed clauses, and evaluating the
   * tree it builds gives the clause's meaning for every rule and every
   * reference time.
   */
  lemma {:induction false} CompilationPreservesMeaning(j: Json, properties: Properties, at: Option<TemporalInstant>)
    ensures Parse(j).Ok? <==> WellFormed(j)
    ensures WellFormed(j) ==> (Eval(Parse(j).value, properties, at) <==> Holds(j, properties, at))
    decreases j, 2
  {
    if j.Object? {
      if |j.members| == 1 && j.members[0].key in {"$and", "$or", "$nor"} {
        GroupMeaning(j, properties, at);
      } else if |j.members| == 1 && j.members[0].key == "$activeAt" {
        WindowMeaning(j.members[0].value, properties, at);
      } else {
        ImplicitAndMeaning(j.members, properties, at);
        if |j.members| == 1 && IsOperator(j.members[0].key) {
          assert !WellFormedField(j.members[0]);
        }
      }
    }
  }

  lemma {:induction false} GroupMeaning(j: Json, properties: Properties, at: Option<TemporalInstant>)
    requires j.Object? && |j.members| == 1 && j.members[0].key in {"$and", "$or", "$nor"}
    ensures Parse(j).Ok? <==> WellFormed(j)
    ensures WellFormed(j) ==> (Eval(Parse(j).value, properties, at) <==> Holds(j, properties, at))
    decreases j, 1
  {
    hide ParseList, EvalPredicate, EvalActiveAt;
    var group := j.members[0].value;
    if group.Array? {
      ListParses(group.items, properties, at);
      if WellFormed(j) {
        GroupEval(ParseList(group.items).value, group.items, properties, at);
      }
    }
  }

  lemma GroupEval(exprs: seq<WhereExpr>, items: seq<Json>, properties: Properties, at: Option<TemporalInstant>)
    requires |exprs| == |items| && forall item :: item in items ==> WellFormed(item)
    requires forall i :: 0 <= i < |items| && WellFormed(items[i]) ==>
      (Eval(exprs[i], properties, at) <==> Holds(items[i], properties, at))
    ensures (forall e :: e in exprs ==> Eval(e, properties, at))
       <==> (forall item :: item in items ==> Holds(item, properties, at))
    ensures (exists e :: e in exprs && Eval(e, properties, at))
       <==> (exists item :: item in items && Holds(item, properties, at))
  {
    hide Eval, Holds, WellFormed;
    forall i | 0 <= i < |items|
      ensures exprs[i] in exprs && items[i] in items
      ensures Eval(exprs[i], properties, at) <==> Holds(items[i], properties, at)
    {
    }
  }

  // ------------------------------------------------ key order does not matter

  lemma SameScalar(a: Json, b: Json)
    requires SameDocument(a, b)
    ensures IsScalar(a) <==> IsScalar(b)
    ensures a.Array? <==> b.Array?
    ensures a.Object? <==> b.Object?
    ensures ScalarValue(a) == ScalarValue(b)
  {
  }

  lemma SameItems(a: Json, b: Json)
    requires SameDocument(a, b) && a.Array? && b.Array?
    ensures forall x :: x in a.items ==> exists y :: y in b.items && SameDocument(x, y)
    ensures forall y :: y in b.items ==> exists x :: x in a.items && SameDocument(x, y)
  {
    forall x | x in a.items
      ensures exists y :: y in b.items && SameDocument(x, y)
    {
      var i :| 0 <= i < |a.items| && a.items[i] == x;
      assert b.items[i] in b.items;
    }
    forall y | y in b.items
      ensures exists x :: x in a.items && SameDocument(x, y)
    {
      var i :| 0 <= i < |b.items| && b.items[i] == y;
      assert a.items[i] in a.items;
    }
  }

  lemma SameSingleton(a: Json, b: Json)
    requires SameDocument(a, b) && a.Object? && b.Object? && |a.members| == 1
    ensures |b.members| == 1 && a.members[0].key == b.members[0].key
    ensures SameDocument(a.members[0].value, b.members[0].value)
  {
    assert a.members[0] in a.members;
    assert Lookup(b.members, a.members[0].key) == Some(b.members[0].value);
  }

  lemma SameStringMember(a: Json, b: Json, key: string)
    requires SameDocument(a, b) && a.Object? && b.Object?
    ensures StringMember(a.members, key) == StringMember(b.members, key)
  {
    var x, y := Lookup(a.members, key), Lookup(b.members, key);
    if x.Some? {
      assert Member(key, x.value) in a.members;
    }
    if y.Some? {
      assert Member(key, y.value) in b.members;
    }
  }

  lemma {:induction false} SameOperator(m: Member, n: Member, actual: Option<PropertyValue>)
    requires m.key == n.key && SameDocument(m.value, n.value)
    ensures WellFormedOp(m) <==> WellFormedOp(n)
    ensures WellFormedOp(m) ==> (OperatorHolds(m, actual) <==> OperatorHolds(n, actual))
    decreases m.value
  {
    SameScalar(m.value, n.value);
    if m.key == "$not" {
      if m.value.Object? && |m.value.members| == 1 {
        SameSingleton(m.value, n.value);
        SameOperator(m.value.members[0], n.value.members[0], actual);
      }
    } else if m.key in {"$in", "$nin"} {
      if m.value.Array? {
        SameListOperator(m, n, actual);
      }
    }
  }

  lemma SameListOperator(m: Member, n: Member, actual: Option<PropertyValue>)
    requires m.key == n.key && m.key in {"$in", "$nin"} && m.value.Array? && n.value.Array?
    requires SameDocument(m.value, n.value)
    ensures WellFormedOp(m) <==> WellFormedOp(n)
    ensures WellFormedOp(m) ==> (OperatorHolds(m, actual) <==> OperatorHolds(n, actual))
  {
    SameItems(m.value, n.value);
    forall x, y | x in m.value.items && y in n.value.items && SameDocument(x, y)
      ensures IsScalar(x) == IsScalar(y) && ScalarValue(x) == ScalarValue(y)
    {
      SameScalar(x, y);
    }
  }

  lemma SameField(m: Member, n: Member, actual: Option<PropertyValue>)
    requires m.key == n.key && SameDocument(m.value, n.value)
    ensures WellFormedField(m) <==> WellFormedField(n)
    ensures WellFormedField(m) ==> (FieldHolds(m, actual) <==> FieldHolds(n, actual))
  {
    SameScalar(m.value, n.value);
    if m.value.Object? {
      if |m.value.members| == 1 {
        SameSingleton(m.value, n.value);
        SameOperator(m.value.members[0], n.value.members[0], actual);
      }
    }
  }

  ghost predicate SameClause(m: Member, n: Member, properties: Properties) {
    && (WellFormedField(m) <==> WellFormedField(n))
    && (WellFormedField(m) ==> (FieldHolds(m, Get(properties, m.key)) <==> FieldHolds(n, Get(properties, n.key))))
  }

  lemma PartnerRight(a: Json, b: Json, m: Member, properties: Properties)
    requires SameDocument(a, b) && a.Object? && b.Object? && m in a.members
    ensures exists n :: n in b.members && SameClause(m, n, properties)
  {
    var n := Member(m.key, Lookup(b.members, m.key).value);
    SameField(m, n, Get(properties, m.key));
    assert n in b.members && SameClause(m, n, properties);
  }

  lemma PartnerLeft(a: Json, b: Json, n: Member, properties: Properties)
    requires SameDocument(a, b) && a.Object? && b.Object? && n in b.members
    ensures exists m :: m in a.members && SameClause(m, n, properties)
  {
    var m := Member(n.key, Lookup(a.members, n.key).value);
    assert m in a.members;
    LookupMember(b.members, n);
    SameField(m, n, Get(properties, m.key));
    assert m in a.members && SameClause(m, n, properties);
  }

  lemma SameFields(a: Json, b: Json, properties: Properties)
    requires SameDocument(a, b) && a.Object? && b.Object?
    ensures (forall m :: m in a.members ==> WellFormedField(m)) <==> (forall n :: n in b.members ==> WellFormedField(n))
    ensures (forall m :: m in a.members ==> WellFormedField(m)) ==>
      ((forall m :: m in a.members ==> FieldHolds(m, Get(properties, m.key)))
       <==> (forall n :: n in b.members ==> FieldHolds(n, Get(properties, n.key))))
  {
    hide SameDocument, WellFormedField, FieldHolds;
    forall m | m in a.members
      ensures exists n :: n in b.members && SameClause(m, n, properties)
    {
      PartnerRight(a, b, m, properties);
    }
    forall n | n in b.members
      ensures exists m :: m in a.members && SameClause(m, n, properties)
    {
      PartnerLeft(a, b, n, properties);
    }
  }

  /** Reordering object members, at any depth, changes neither acceptance nor meaning. */
  lemma {:induction false} KeyOrderIrrelevant(a: Json, b: Json, properties: Properties, at: Option<TemporalInstant>)
    requires SameDocument(a, b)
    ensures WellFormed(a) <==> WellFormed(b)
    ensures WellFormed(a) ==> (Holds(a, properties, at) <==> Holds(b, properties, at))
    decreases a
  {
    SameScalar(a, b);
    if a.Object? {
      if |a.members| == 1 {
        SameSingleton(a, b);
      }
      if |a.members| == 1 && a.members[0].key in {"$and", "$or", "$nor"} {
        SameGroup(a, b, properties, at);
      } else if |a.members| == 1 && a.members[0].key == "$activeAt" {
        var x, y := a.members[0].value, b.members[0].value;
        SameScalar(x, y);
        if x.Object? {
          SameStringMember(x, y, "daysOfWeek");
          SameStringMember(x, y, "startHour");
          SameStringMember(x, y, "endHour");
        }
      } else {
        SameFields(a, b, properties);
      }
    }
  }

  lemma {:induction false} SameGroup(a: Json, b: Json, properties: Properties, at: Option<TemporalInstant>)
    requires a.Object? && b.Object? && |a.members| == 1 && |b.members| == 1
    requires a.members[0].key == b.members[0].key && a.members[0].key in {"$and", "$or", "$nor"}
    requires SameDocument(a.members[0].value, b.members[0].value)
    ensures WellFormed(a) <==> WellFormed(b)
    ensures WellFormed(a) ==> (Holds(a, properties, at) <==> Holds(b, properties, at))
    decreases a, 0
  {
    var x, y := a.members[0].value, b.members[0].value;
    SameScalar(x, y);
    if x.Array? {
      SameItems(x, y);
      forall p, q | p in x.items && q in y.items && SameDocument(p, q)
        ensures WellFormed(p) <==> WellFormed(q)
        ensures WellFormed(p) ==> (Holds(p, properties, at) <==> Holds(q, properties, at))
      {
        KeyOrderIrrelevant(p, q, properties, at);
      }
    }
  }

  /** So two orderings of one document compile together, to trees that admit the same rules. */
  lemma CompilationIgnoresKeyOrder(a: Json, b: Json, properties: Properties, at: Option<TemporalInstant>)
    requires SameDocument(a, b)
    ensures Parse(a).Ok? <==> Parse(b).Ok?
    ensures Parse(a).Ok? ==> (Eval(Parse(a).value, properties, at) <==> Eval(Parse(b).value, properties, at))
  {
    CompilationPreservesMeaning(a, properties, at);
    CompilationPreservesMeaning(b, properties, at);
    KeyOrderIrrelevant(a, b, properties, at);
  }
}
