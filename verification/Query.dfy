/** The query shape, its validation and its JSON reader. */
module Query {
  import opened Prelude
  import opened Doubles
  import opened Properties
  import opened Temporal
  import opened WhereExpr
  import opened Geometry
  import opened Json
  import Parser = WhereParser
  import Text

  datatype AggregateSpec = AggregateSpec(
    count: bool,
    min: Option<string>,
    max: Option<string>,
    sum: Option<string>,
    avg: Option<string>,
    coverage: bool)
  {
    predicate RequestsSomething() {
      count || coverage || min.Some? || max.Some? || sum.Some? || avg.Some?
    }
  }

  datatype Query = Query(
    spatial: SpatialPredicate,
    whereClause: Option<WhereExpr>,
    excludeRuleIds: seq<string>,
    includeOverlap: bool,
    distanceMeters: Option<Float64>,
    at: Option<TemporalInstant>,
    aggregate: Option<AggregateSpec>)

  /** Why a candidate is reported invalid. */
  datatype Reason =
    | PositiveDistanceRequired
    | DistanceNotAllowed
    | ReferenceTimeRequired
    | NothingRequested
    | PointCandidateRequired
    | BadCandidate(reason: string)

  predicate PositiveFinite(f: Float64) { f.Finite? && f.value > 0.0 }

  /** Why a query is malformed, or `None`. */
  function Validate(q: Query): Option<Reason> {
    if q.spatial.WithinDistance? && !(q.distanceMeters.Some? && PositiveFinite(q.distanceMeters.value)) then
      Some(PositiveDistanceRequired)
    else if !q.spatial.WithinDistance? && q.distanceMeters.Some? then Some(DistanceNotAllowed)
    else if q.at.None? && q.whereClause.Some? && HasActiveAt(q.whereClause.value) then Some(ReferenceTimeRequired)
    else if q.aggregate.Some? && !q.aggregate.value.RequestsSomething() then Some(NothingRequested)
    else None
  }

  // ------------------------------------------------ reading JSON

  datatype QueryError =
    | InvalidQuery
    | UnsupportedSpatialPredicate
    | BadWhere(e: Parser.WhereError)
    | BadTime(t: ParseError)

  function PredicateFromString(s: string): Option<SpatialPredicate> {
    match s
    case "intersects" => Some(Intersects)
    case "contains" => Some(Contains)
    case "within" => Some(Within)
    case "covers" => Some(Covers)
    case "covered_by" => Some(CoveredBy)
    case "touches" => Some(Touches)
    case "overlaps" => Some(Overlaps)
    case "withinDistance" => Some(WithinDistance)
    case _ => None
  }

  function BoolMember(members: seq<Member>, key: string): Result<bool, QueryError> {
    match Lookup(members, key)
    case None => Ok(false)
    case Some(Bool(b)) => Ok(b)
    case Some(_) => Err(InvalidQuery)
  }

  function FieldMember(members: seq<Member>, key: string): Result<Option<string>, QueryError> {
    match Lookup(members, key)
    case None => Ok(None)
    case Some(Text(s)) => Ok(Some(s))
    case Some(_) => Err(InvalidQuery)
  }

  function AggregateFromJson(j: Json): Result<AggregateSpec, QueryError> {
    if !j.Object? then Err(InvalidQuery)
    else if exists m | m in j.members :: m.key !in {"count", "coverage", "min", "max", "sum", "avg"}
      then Err(InvalidQuery)
    else
      match (BoolMember(j.members, "count"), FieldMember(j.members, "min"), FieldMember(j.members, "max"),
             FieldMember(j.members, "sum"), FieldMember(j.members, "avg"), BoolMember(j.members, "coverage"))
      case (Ok(count), Ok(min), Ok(max), Ok(sum), Ok(avg), Ok(coverage)) =>
        var spec := AggregateSpec(count, min, max, sum, avg, coverage);
        if spec.RequestsSomething() then Ok(spec) else Err(InvalidQuery)
      case _ => Err(InvalidQuery)
  }

  /** The radius of the `spatial` object; integers are read as doubles. */
  function DistanceFromJson(spatial: seq<Member>): Result<Option<Float64>, QueryError> {
    match Lookup(spatial, "distance")
    case None => Ok(None)
    case Some(Num(n)) =>
      var d := Finite(DoubleOf(n));
      if PositiveFinite(d) then Ok(Some(d)) else Err(InvalidQuery)
    case Some(_) => Err(InvalidQuery)
  }

  function StringsFromJson(items: seq<Json>): Result<seq<string>, QueryError> {
    if items == [] then Ok([])
    else if !items[0].Text? then Err(InvalidQuery)
    else
      match StringsFromJson(items[1..])
      case Ok(rest) => Ok([items[0].s] + rest)
      case Err(e) => Err(e)
  }

  function WhereFromJson(members: seq<Member>): Result<Option<WhereExpr>, QueryError> {
    match Lookup(members, "where")
    case None => Ok(None)
    case Some(j) =>
      match Parser.Parse(j)
      case Ok(e) => Ok(Some(e))
      case Err(e) => Err(BadWhere(e))
  }

  function AtFromJson(members: seq<Member>): Result<Option<TemporalInstant>, QueryError> {
    match Lookup(members, "at")
    case None => Ok(None)
    case Some(Text(s)) =>
      (match ParseIso8601(Text.Bytes(s))
       case Ok(t) => Ok(Some(t))
       case Err(e) => Err(BadTime(e)))
    case Some(_) => Err(InvalidQuery)
  }

  function ExclusionsFromJson(members: seq<Member>): Result<seq<string>, QueryError> {
    match Lookup(members, "excludeRuleIds")
    case None => Ok([])
    case Some(Array(items)) => StringsFromJson(items)
    case Some(_) => Err(InvalidQuery)
  }

  function FromJson(j: Json): Result<Query, QueryError> {
    if !j.Object? then Err(InvalidQuery)
    else
      match Lookup(j.members, "spatial")
      case Some(Object(spatial)) =>
        (match Lookup(spatial, "predicate")
         case Some(Text(name)) =>
           (match PredicateFromString(name)
            case None => Err(UnsupportedSpatialPredicate)
            case Some(predicate_) => FromMembers(j.members, spatial, predicate_))
         case _ => Err(InvalidQuery))
      case _ => Err(InvalidQuery)
  }

  function FromMembers(members: seq<Member>, spatial: seq<Member>, predicate_: SpatialPredicate)
    : Result<Query, QueryError>
  {
    match DistanceFromJson(spatial)
    case Err(e) => Err(e)
    case Ok(distance) =>
      if predicate_.WithinDistance? != distance.Some? then Err(InvalidQuery)
      else
        match WhereFromJson(members)
        case Err(e) => Err(e)
        case Ok(whereClause) =>
          match AtFromJson(members)
          case Err(e) => Err(e)
          case Ok(at) =>
            if at.None? && whereClause.Some? && HasActiveAt(whereClause.value) then Err(InvalidQuery)
            else RestFromMembers(members, predicate_, distance, whereClause, at)
  }

  function RestFromMembers(
      members: seq<Member>, predicate_: SpatialPredicate, distance: Option<Float64>,
      whereClause: Option<WhereExpr>, at: Option<TemporalInstant>): Result<Query, QueryError>
  {
    var aggregate := match Lookup(members, "aggregate")
      case None => Ok(None)
      case Some(j) => match AggregateFromJson(j) case Ok(spec) => Ok(Some(spec)) case Err(e) => Err(e);
    match (aggregate, ExclusionsFromJson(members), BoolMember(members, "includeOverlap"))
    case (Err(e), _, _) => Err(e)
    case (_, Err(e), _) => Err(e)
    case (_, _, Err(e)) => Err(e)
    case (Ok(spec), Ok(excluded), Ok(overlap)) =>
      Ok(Query(predicate_, whereClause, excluded, overlap, distance, at, spec))
  }

  lemma ReadTimeInRange(members: seq<Member>)
    requires AtFromJson(members).Ok? && AtFromJson(members).value.Some?
    ensures AtFromJson(members).value.value.InRange()
  {
    hide ParseIso8601;
    match Lookup(members, "at")
    case Some(Text(s)) =>
      ParsesExactlyPrinted(Text.Bytes(s));
      var t :| ValidDateTime(t) && Print(t) == Text.Bytes(s);
      ParsedInstant(t);
    case _ =>
  }

  lemma ReadDistanceIsPositive(spatial: seq<Member>)
    requires DistanceFromJson(spatial).Ok? && DistanceFromJson(spatial).value.Some?
    ensures PositiveFinite(DistanceFromJson(spatial).value.value)
  {
  }

  lemma ReadAggregateRequests(j: Json)
    requires AggregateFromJson(j).Ok?
    ensures AggregateFromJson(j).value.RequestsSomething()
  {
  }

  lemma RestRead(
      members: seq<Member>, predicate_: SpatialPredicate, distance: Option<Float64>,
      whereClause: Option<WhereExpr>, at: Option<TemporalInstant>)
    requires RestFromMembers(members, predicate_, distance, whereClause, at).Ok?
    ensures var q := RestFromMembers(members, predicate_, distance, whereClause, at).value;
      && q.spatial == predicate_ && q.distanceMeters == distance && q.whereClause == whereClause && q.at == at
      && (q.aggregate.Some? ==> q.aggregate.value.RequestsSomething())
  {
    hide AggregateFromJson, ExclusionsFromJson, BoolMember;
    match Lookup(members, "aggregate")
    case None =>
    case Some(j) =>
      if AggregateFromJson(j).Ok? {
        ReadAggregateRequests(j);
      }
  }

  /**
   * A query read from JSON is well formed: it validates, its reference time is
   * in range, and it has one whenever `$activeAt` occurs at any depth.
   */
  lemma ReadQueriesValidate(j: Json)
    requires FromJson(j).Ok?
    ensures var q := FromJson(j).value;
      && Validate(q) == None
      && (q.at.Some? ==> q.at.value.InRange())
      && (q.whereClause.Some? && HasActiveAt(q.whereClause.value) ==> q.at.Some?)
  {
    hide DistanceFromJson, WhereFromJson, AtFromJson, RestFromMembers;
    var spatial := Lookup(j.members, "spatial").value.members;
    var predicate_ := PredicateFromString(Lookup(spatial, "predicate").value.s).value;
    var distance := DistanceFromJson(spatial).value;
    var at := AtFromJson(j.members).value;
    if distance.Some? {
      ReadDistanceIsPositive(spatial);
    }
    if at.Some? {
      ReadTimeInRange(j.members);
    }
    RestRead(j.members, predicate_, distance, WhereFromJson(j.members).value, at);
  }

  /**
   * A validated query evaluates no `$activeAt` leaf without a time: any default for a missing
   * time gives the same answers.
   */
  lemma ValidatedTimeMatters(q: Query, properties: Properties, anyTime: TemporalInstant)
    requires Validate(q) == None && q.whereClause.Some?
    ensures Eval(q.whereClause.value, properties, q.at)
         == Eval(q.whereClause.value, properties, Some(if q.at.Some? then q.at.value else anyTime))
  {
    if q.at.None? {
      TimelessEval(q.whereClause.value, properties, q.at, Some(anyTime));
    }
  }
}
