/** Predicate trees written back as `where` documents: which trees the compiler reads, and that it reads them all. */
module WherePrinter {
  import opened Prelude
  import opened Properties
  import opened WhereExpr
  import opened Json
  import opened WhereParser

  // ------------------------------------------------ scalars

  /** A value some JSON scalar stands for: integers are `i64`, floats are finite and no `i64` in disguise. */
  predicate ReadableValue(v: PropertyValue) {
    match v
    case Int(i) => I64_MIN <= i < I64_LIMIT
    case Float(f) => f.Finite? && !(f.value.Floor as real == f.value && I64_MIN <= f.value.Floor < I64_LIMIT)
    case _ => true
  }

  function PrintValue(v: PropertyValue): Json
    requires ReadableValue(v)
  {
    match v
    case Null => Json.Null
    case Bool(b) => Json.Bool(b)
    case Int(i) => Num(Integer(i))
    case Float(f) => Num(Decimal(f.value))
    case Str(s) => Text(s)
  }

  lemma ValuesRead(v: PropertyValue, j: Json)
    ensures ReadableValue(v) ==> IsScalar(PrintValue(v)) && ScalarValue(PrintValue(v)) == Some(v)
    ensures ScalarValue(j) == Some(v) ==> ReadableValue(v)
  {
  }

  predicate ReadableValues(values: seq<PropertyValue>) { forall v :: v in values ==> ReadableValue(v) }

  function PrintValues(values: seq<PropertyValue>): (r: seq<Json>)
    requires ReadableValues(values)
    ensures |r| == |values| && forall i :: 0 <= i < |r| ==> r[i] == PrintValue(values[i])
  {
    seq(|values|, i requires 0 <= i < |values| => PrintValue(values[i]))
  }

  lemma {:induction false} PrintedValuesRead(values: seq<PropertyValue>)
    requires ReadableValues(values)
    ensures ParseScalars(PrintValues(values)) == Some(values)
    decreases |values|
  {
    if values != [] {
      ValuesRead(values[0], Json.Null);
      PrintedValuesRead(values[1..]);
      assert PrintValues(values)[1..] == PrintValues(values[1..]);
      assert values == [values[0]] + values[1..];
    }
  }

  lemma {:induction false} ReadValuesReadable(items: seq<Json>)
    requires ParseScalars(items).Some?
    ensures ReadableValues(ParseScalars(items).value)
  {
    if items != [] {
      ReadValuesReadable(items[1..]);
      ValuesRead(ScalarValue(items[0]).value, items[0]);
    }
  }

  // ------------------------------------------------ operators

  /** An operator that can be written on a field; `$not` negates another one on the same field. */
  predicate ReadableOp(field: string, op: FieldOp) {
    match op
    case Eq(v) => ReadableValue(v)
    case Ne(v) => ReadableValue(v)
    case Gt(v) => ReadableValue(v)
    case Gte(v) => ReadableValue(v)
    case Lt(v) => ReadableValue(v)
    case Lte(v) => ReadableValue(v)
    case In(values) => ReadableValues(values)
    case Not(inner) => inner.field == field && ReadableOp(field, inner.op)
    case Nin(values) => ReadableValues(values)
    case Exists(_) => true
  }

  function PrintOp(field: string, op: FieldOp): Member
    requires ReadableOp(field, op)
  {
    match op
    case Eq(v) => Member("$eq", PrintValue(v))
    case Ne(v) => Member("$ne", PrintValue(v))
    case Gt(v) => Member("$gt", PrintValue(v))
    case Gte(v) => Member("$gte", PrintValue(v))
    case Lt(v) => Member("$lt", PrintValue(v))
    case Lte(v) => Member("$lte", PrintValue(v))
    case In(values) => Member("$in", Array(PrintValues(values)))
    case Not(inner) => Member("$not", Object([PrintOp(field, inner.op)]))
    case Nin(values) => Member("$nin", Array(PrintValues(values)))
    case Exists(expected) => Member("$exists", Json.Bool(expected))
  }

  lemma {:induction false} PrintedOpsRead(field: string, op: FieldOp)
    requires ReadableOp(field, op)
    ensures ParseFieldOp(field, PrintOp(field, op).key, PrintOp(field, op).value) == Ok(op)
    decreases op
  {
    hide ReadableValue, PrintValue, ScalarValue;
    match op
    case In(values) => PrintedValuesRead(values);
    case Nin(values) => PrintedValuesRead(values);
    case Not(inner) => PrintedOpsRead(field, inner.op);
    case Exists(_) =>
    case _ => ValuesRead(op.value, Json.Null);
  }

  lemma {:induction false} ReadOpsReadable(field: string, operator: string, operand: Json)
    requires ParseFieldOp(field, operator, operand).Ok?
    ensures ReadableOp(field, ParseFieldOp(field, operator, operand).value)
    decreases operand
  {
    hide ReadableValue, ScalarValue, ParseScalars;
    if operator in {"$in", "$nin"} {
      ReadValuesReadable(operand.items);
    } else if operator == "$not" {
      ReadOpsReadable(field, operand.members[0].key, operand.members[0].value);
    } else if operator != "$exists" {
      ValuesRead(ScalarValue(operand).value, operand);
    }
  }

  // ------------------------------------------------ trees

  /** A tree some document compiles to. */
  predicate Readable(e: WhereExpr)
    decreases e
  {
    match e
    case And(exprs) => forall x :: x in exprs ==> Readable(x)
    case Or(exprs) => forall x :: x in exprs ==> Readable(x)
    case Nor(exprs) => forall x :: x in exprs ==> Readable(x)
    case Predicate(p) => !IsOperator(p.field) && ReadableOp(p.field, p.op)
    case ActiveAt(_) => true
  }

  function PrintWhere(e: WhereExpr): Json
    requires Readable(e)
    decreases e, 1
  {
    match e
    case And(exprs) => Object([Member("$and", Array(PrintAll(exprs)))])
    case Or(exprs) => Object([Member("$or", Array(PrintAll(exprs)))])
    case Nor(exprs) => Object([Member("$nor", Array(PrintAll(exprs)))])
    case Predicate(p) => Object([Member(p.field, Object([PrintOp(p.field, p.op)]))])
    case ActiveAt(clause) =>
      Object([Member("$activeAt", Object([
        Member("daysOfWeek", Text(clause.daysOfWeekField)),
        Member("startHour", Text(clause.startHourField)),
        Member("endHour", Text(clause.endHourField))]))])
  }

  function PrintAll(exprs: seq<WhereExpr>): (r: seq<Json>)
    requires forall x :: x in exprs ==> Readable(x)
    decreases exprs, 0
  {
    if exprs == [] then [] else [PrintWhere(exprs[0])] + PrintAll(exprs[1..])
  }

  /** A name with a value asks for equality, unless it starts with a dollar sign. */
  lemma NamesRead(name: string, v: PropertyValue)
    requires ReadableValue(v)
    ensures Parse(Object([Member(name, PrintValue(v))])).Ok? <==> name == "" || name[0] != '$'
    ensures Parse(Object([Member(name, PrintValue(v))])).Ok? ==>
      Parse(Object([Member(name, PrintValue(v))])) == Ok(Predicate(FieldPredicate(name, Eq(v))))
  {
    var m := Member(name, PrintValue(v));
    ValuesRead(v, Json.Null);
    assert IsScalar(m.value);
    hide PrintValue, ReadableValue, ScalarValue;
    assert [m][1..] == [] && [m][0] == m && ParseFields([]) == Ok([]);
    if !IsOperator(name) {
      assert ParseFieldPredicate(name, m.value) == Ok(Predicate(FieldPredicate(name, Eq(v))));
      hide ParseFieldPredicate;
      assert [Predicate(FieldPredicate(name, Eq(v)))] + [] == [Predicate(FieldPredicate(name, Eq(v)))];
      assert ParseFields([m]) == Ok([Predicate(FieldPredicate(name, Eq(v)))]);
    }
  }

  /** The compiler reads every readable tree back from its document. */
  lemma {:induction false} PrintedWhereReads(e: WhereExpr)
    requires Readable(e)
    ensures Parse(PrintWhere(e)) == Ok(e)
    decreases e, 1
  {
    match e
    case Predicate(p) => PrintedFieldReads(p);
    case ActiveAt(clause) => PrintedWindowReads(clause);
    case _ =>
      hide ParseImplicitAnd, ParseActiveAt, Readable, PrintAll;
      PrintedListReads(e.exprs);
  }

  lemma PrintedFieldReads(p: FieldPredicate)
    requires !IsOperator(p.field) && ReadableOp(p.field, p.op)
    ensures Parse(Object([Member(p.field, Object([PrintOp(p.field, p.op)]))])) == Ok(Predicate(p))
  {
    PrintedOpsRead(p.field, p.op);
    hide ParseFieldOp, PrintOp, ReadableOp, ParseActiveAt, ParseGroup;
    var m := Member(p.field, Object([PrintOp(p.field, p.op)]));
    assert ParseFieldPredicate(m.key, m.value) == Ok(Predicate(p));
    hide ParseFieldPredicate;
    assert [m][1..] == [] && [m][0] == m && ParseFields([]) == Ok([]);
    assert [Predicate(p)] + [] == [Predicate(p)];
    assert ParseFields([m]) == Ok([Predicate(p)]);
  }

  lemma PrintedWindowReads(clause: ActiveAtClause)
    ensures Parse(PrintWhere(ActiveAt(clause))) == Ok(ActiveAt(clause))
  {
    var members := PrintWhere(ActiveAt(clause)).members[0].value.members;
    assert Lookup(members, "daysOfWeek") == Some(Text(clause.daysOfWeekField));
    assert Lookup(members[1..], "startHour") == Some(Text(clause.startHourField));
    assert Lookup(members[2..], "endHour") == Some(Text(clause.endHourField));
    assert members[1..][1..] == members[2..];
    assert Lookup(members, "endHour") == Lookup(members[1..], "endHour") == Lookup(members[2..], "endHour");
    hide Lookup;
    assert ParseActiveAt(Object(members)) == Ok(clause);
    hide ParseActiveAt;
  }

  lemma {:induction false} PrintedListReads(exprs: seq<WhereExpr>)
    requires forall x :: x in exprs ==> Readable(x)
    ensures ParseList(PrintAll(exprs)) == Ok(exprs)
    decreases exprs, 0
  {
    hide Parse, PrintWhere, Readable;
    if exprs != [] {
      PrintedWhereReads(exprs[0]);
      PrintedListReads(exprs[1..]);
      assert PrintAll(exprs)[1..] == PrintAll(exprs[1..]);
      assert exprs == [exprs[0]] + exprs[1..];
    }
  }

  lemma {:induction false} ReadFieldsReadable(members: seq<Member>)
    requires ParseFields(members).Ok?
    ensures forall e :: e in ParseFields(members).value ==> Readable(e)
  {
    if members != [] {
      ReadFieldsReadable(members[1..]);
      var value := members[0].value;
      match value
      case Object(operators) => ReadOpsReadable(members[0].key, operators[0].key, operators[0].value);
      case _ => ValuesRead(ScalarValue(value).value, value);
    }
  }

  /** Every tree the compiler reads is readable. */
  lemma {:induction false} ReadWhereReadable(j: Json)
    requires Parse(j).Ok?
    ensures Readable(Parse(j).value)
    decreases j, 1
  {
    if |j.members| == 1 && j.members[0].key in {"$and", "$or", "$nor"} {
      ReadListReadable(j.members[0].value.items);
    } else if !(|j.members| == 1 && j.members[0].key == "$activeAt") {
      ReadFieldsReadable(j.members);
    }
  }

  lemma {:induction false} ReadListReadable(items: seq<Json>)
    requires ParseList(items).Ok?
    ensures forall e :: e in ParseList(items).value ==> Readable(e)
    decreases items, 0
  {
    hide Parse, Readable;
    if items != [] {
      ReadWhereReadable(items[0]);
      ReadListReadable(items[1..]);
    }
  }

  /** So printing what was read, and reading it again, gives the same tree. */
  lemma ReadingPrintedAgain(j: Json)
    requires Parse(j).Ok?
    ensures Readable(Parse(j).value) && Parse(PrintWhere(Parse(j).value)) == Parse(j)
  {
    ReadWhereReadable(j);
    PrintedWhereReads(Parse(j).value);
  }
}
