/** The property predicate tree of a query and its evaluation against a rule's properties. */
module WhereExpr {
  import opened Prelude
  import opened Doubles
  import opened Properties
  import opened Temporal

  datatype WhereExpr =
    | And(exprs: seq<WhereExpr>)
    | Or(exprs: seq<WhereExpr>)
    | Nor(exprs: seq<WhereExpr>)
    | Predicate(predicate_: FieldPredicate)
    | ActiveAt(clause: ActiveAtClause)

  datatype ActiveAtClause = ActiveAtClause(daysOfWeekField: string, startHourField: string, endHourField: string)

  datatype FieldPredicate = FieldPredicate(field: string, op: FieldOp)

  datatype FieldOp =
    | Eq(value: PropertyValue) | Ne(value: PropertyValue)
    | Gt(value: PropertyValue) | Gte(value: PropertyValue) | Lt(value: PropertyValue) | Lte(value: PropertyValue)
    | In(values: seq<PropertyValue>) | Not(inner: FieldPredicate) | Nin(values: seq<PropertyValue>)
    | Exists(expected: bool)

  /** The predicates an equality index answers directly. */
  datatype IndexQuery = EqQuery(field: string, value: PropertyValue)
    | InQuery(field: string, values: seq<PropertyValue>)

  predicate HasActiveAt(expr: WhereExpr) {
    match expr
    case ActiveAt(_) => true
    case And(exprs) => exists e | e in exprs :: HasActiveAt(e)
    case Or(exprs) => exists e | e in exprs :: HasActiveAt(e)
    case Nor(exprs) => exists e | e in exprs :: HasActiveAt(e)
    case Predicate(_) => false
  }

  predicate Eval(expr: WhereExpr, properties: Properties, at: Option<TemporalInstant>) {
    match expr
    case And(exprs) => forall e | e in exprs :: Eval(e, properties, at)
    case Or(exprs) => exists e | e in exprs :: Eval(e, properties, at)
    case Nor(exprs) => !exists e | e in exprs :: Eval(e, properties, at)
    case Predicate(p) => EvalPredicate(p, properties)
    case ActiveAt(clause) => EvalActiveAt(clause, properties, at)
  }

  predicate EvalPredicate(p: FieldPredicate, properties: Properties) {
    match p.op
    case Eq(expected) => Get(properties, p.field) == Some(expected)
    case Ne(expected) =>
      (match Get(properties, p.field)
       case Some(actual) => SameVariant(actual, expected) && actual != expected
       case None => false)
    case Gt(expected) => Compares(properties, p.field, expected, Greater)
    case Gte(expected) => ComparesInclusive(properties, p.field, expected, Greater)
    case Lt(expected) => Compares(properties, p.field, expected, Less)
    case Lte(expected) => ComparesInclusive(properties, p.field, expected, Less)
    case In(values) =>
      (match Get(properties, p.field)
       case Some(actual) => exists v | v in values :: actual == v
       case None => false)
    case Not(inner) => !EvalPredicate(inner, properties)
    case Nin(values) =>
      (match Get(properties, p.field)
       case Some(actual) =>
         (exists v | v in values :: SameVariant(actual, v)) && !exists v | v in values :: actual == v
       case None => false)
    case Exists(expected) => ContainsKey(properties, p.field) == expected
  }

  function ToIndexQuery(p: FieldPredicate): Option<IndexQuery> {
    match p.op
    case Eq(value) => Some(EqQuery(p.field, value))
    case In(values) => Some(InQuery(p.field, values))
    case _ => None
  }

  predicate Compares(properties: Properties, field: string, expected: PropertyValue, ordering: Ordering) {
    match Get(properties, field)
    case Some(actual) => CompareNumbers(actual, expected) == Some(ordering)
    case None => false
  }

  predicate ComparesInclusive(properties: Properties, field: string, expected: PropertyValue, ordering: Ordering) {
    match Get(properties, field)
    case Some(actual) =>
      var found := CompareNumbers(actual, expected);
      found.Some? && (found.value == ordering || found.value == Equal)
    case None => false
  }

  /** Integers among themselves compare exactly; an integer meets a float as a double. */
  function CompareNumbers(a: PropertyValue, b: PropertyValue): Option<Ordering> {
    match (a, b)
    case (Int(x), Int(y)) => Some(CompareInt(x, y))
    case (Float(x), Float(y)) => PartialCompare(x, y)
    case (Int(x), Float(y)) => PartialCompare(ToDouble(x), y)
    case (Float(x), Int(y)) => PartialCompare(x, ToDouble(y))
    case _ => None
  }

  predicate SameVariant(a: PropertyValue, b: PropertyValue) {
    match a
    case Null => b.Null?
    case Bool(_) => b.Bool?
    case Int(_) => b.Int?
    case Float(_) => b.Float?
    case Str(_) => b.Str?
  }

  function Pow2(k: nat): int
    ensures Pow2(k) > 0
  {
    if k == 0 then 1 else 2 * Pow2(k - 1)
  }

  /** Bit `k` of a two's-complement integer. */
  predicate Bit(n: int, k: nat) { n / Pow2(k) % 2 == 1 }

  function GetInt(properties: Properties, field: string): Option<int> {
    match Get(properties, field)
    case Some(Int(i)) => Some(i)
    case _ => None
  }

  predicate EvalActiveAt(clause: ActiveAtClause, properties: Properties, at: Option<TemporalInstant>) {
    if at.None? then false
    else
      var days := GetInt(properties, clause.daysOfWeekField);
      var start := GetInt(properties, clause.startHourField);
      var end := GetInt(properties, clause.endHourField);
      if days.None? || start.None? || end.None? then false
      else
        var day := at.value.dayOfWeek;
        if !(1 <= day <= 7) then false
        else if !Bit(days.value, day - 1) then false
        else HourInWindow(at.value.hour, start.value, end.value)
  }

  predicate HourInWindow(hour: int, start: int, end: int) {
    if start <= end then start <= hour && hour < end else hour >= start || hour < end
  }

  /**
   * An interval when it does not wrap, empty when it starts where it ends, and
   * otherwise the hours the swapped window leaves out. On the clock that is an
   * arc of the 24-hour circle.
   */
  lemma WindowIsCyclic(hour: int, start: int, end: int)
    ensures start <= end ==> (HourInWindow(hour, start, end) <==> start <= hour < end)
    ensures start != end ==> (HourInWindow(hour, start, end) <==> !HourInWindow(hour, end, start))
    ensures 0 <= hour <= 23 && 0 <= start <= 23 && 0 <= end <= 23 ==>
      (HourInWindow(hour, start, end) <==> (hour - start) % 24 < (end - start) % 24)
  {
    if 0 <= hour <= 23 && 0 <= start <= 23 && 0 <= end <= 23 {
      assert (hour - start) % 24 == if start <= hour then hour - start else hour - start + 24;
      assert (end - start) % 24 == if start <= end then end - start else end - start + 24;
    }
  }

  /** A tree without `$activeAt` evaluates the same at every reference time. */
  lemma {:induction false} TimelessEval(expr: WhereExpr, properties: Properties, at1: Option<TemporalInstant>,
      at2: Option<TemporalInstant>)
    requires !HasActiveAt(expr)
    ensures Eval(expr, properties, at1) == Eval(expr, properties, at2)
    decreases expr
  {
    if !expr.Predicate? {
      forall e | e in expr.exprs
        ensures Eval(e, properties, at1) == Eval(e, properties, at2)
      {
        TimelessEval(e, properties, at1, at2);
      }
    }
  }
}
