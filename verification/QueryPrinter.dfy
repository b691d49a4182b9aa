/** What a query document asks for, and queries written back as documents. */
module QueryPrinter {
  import opened Prelude
  import opened Doubles
  import opened Temporal
  import opened WhereExpr
  import opened Geometry
  import opened Json
  import opened Query
  import opened WherePrinter
  import Parser = WhereParser
  import T = Text

  // ------------------------------------------------ what a document asks for

  function PredicateName(p: SpatialPredicate): string {
    match p
    case Intersects => "intersects"
    case Contains => "contains"
    case Within => "within"
    case Covers => "covers"
    case CoveredBy => "covered_by"
    case Touches => "touches"
    case Overlaps => "overlaps"
    case WithinDistance => "withinDistance"
  }

  lemma PredicateNamesRead(p: SpatialPredicate, name: string)
    ensures PredicateFromString(name) == Some(p) <==> name == PredicateName(p)
  {
  }

  /** A flag that is false when it is left out. */
  predicate AsksFlag(members: seq<Member>, key: string, flag: bool) {
    Lookup(members, key) == Some(Json.Bool(flag)) || (Lookup(members, key).None? && !flag)
  }

  /** The name of a field, or none when it is left out. */
  predicate AsksField(members: seq<Member>, key: string, field: Option<string>) {
    if field.Some? then Lookup(members, key) == Some(Text(field.value)) else Lookup(members, key).None?
  }

  /** An object with no other keys that asks for something. */
  ghost predicate AsksAggregate(j: Json, spec: AggregateSpec) {
    && j.Object?
    && (forall m :: m in j.members ==> m.key in {"count", "coverage", "min", "max", "sum", "avg"})
    && AsksFlag(j.members, "count", spec.count) && AsksFlag(j.members, "coverage", spec.coverage)
    && AsksField(j.members, "min", spec.min) && AsksField(j.members, "max", spec.max)
    && AsksField(j.members, "sum", spec.sum) && AsksField(j.members, "avg", spec.avg)
    && spec != AggregateSpec(false, None, None, None, None, false)
  }

  ghost predicate AsksDistance(spatial: seq<Member>, distance: Option<Float64>) {
    match distance
    case None => Lookup(spatial, "distance").None?
    case Some(d) =>
      && d.Finite? && d.value > 0.0
      && Lookup(spatial, "distance").Some? && Lookup(spatial, "distance").value.Num?
      && DoubleOf(Lookup(spatial, "distance").value.n) == d.value
  }

  ghost predicate AsksWhere(members: seq<Member>, e: Option<WhereExpr>) {
    match e
    case None => Lookup(members, "where").None?
    case Some(tree) => Lookup(members, "where").Some? && Parser.Parse(Lookup(members, "where").value) == Ok(tree)
  }

  /** The characters of ASCII bytes. */
  function Chars(bytes: seq<T.Byte>): string
    requires forall i :: 0 <= i < |bytes| ==> bytes[i] < 0x80
  {
    if bytes == [] then [] else [bytes[0] as char] + Chars(bytes[1..])
  }

  lemma {:induction false} CharsBytes(bytes: seq<T.Byte>)
    requires forall i :: 0 <= i < |bytes| ==> bytes[i] < 0x80
    ensures T.Bytes(Chars(bytes)) == bytes
  {
    if bytes != [] {
      CharsBytes(bytes[1..]);
      assert Chars(bytes)[0] == bytes[0] as char && Chars(bytes)[1..] == Chars(bytes[1..]);
      assert bytes == [bytes[0]] + bytes[1..];
    }
  }

  /** ASCII bytes encode only their own characters. */
  lemma {:induction false} BytesChars(s: string, bytes: seq<T.Byte>)
    requires T.Bytes(s) == bytes && forall i :: 0 <= i < |bytes| ==> bytes[i] < 0x80
    ensures s == Chars(bytes)
  {
    if s != [] {
      var first, rest := T.EncodeChar(s[0] as int), T.Bytes(s[1..]);
      assert bytes == first + rest;
      assert first[0] == bytes[0];
      assert first == [bytes[0]];
      assert rest == bytes[1..];
      BytesChars(s[1..], bytes[1..]);
      assert s == [s[0]] + s[1..];
    }
  }

  lemma PrintedAscii(t: DateTime)
    requires ValidDateTime(t)
    ensures forall i :: 0 <= i < |Print(t)| ==> Print(t)[i] < 0x80
  {
  }

  /** A date-time as text. */
  function TimeText(t: DateTime): string
    requires ValidDateTime(t)
  {
    PrintedAscii(t);
    Chars(Print(t))
  }

  lemma TextIsTime(s: string, t: DateTime)
    requires ValidDateTime(t)
    ensures s == TimeText(t) <==> Print(t) == T.Bytes(s)
  {
    PrintedAscii(t);
    CharsBytes(Print(t));
    if Print(t) == T.Bytes(s) {
      BytesChars(s, Print(t));
    }
  }

  /** The text is a date-time with that hour, on a date with that weekday by the congruence. */
  ghost predicate AsksTime(members: seq<Member>, at: Option<TemporalInstant>) {
    match at
    case None => Lookup(members, "at").None?
    case Some(instant) =>
      exists t :: ValidDateTime(t) && Lookup(members, "at") == Some(Text(TimeText(t))) && Shows(t, instant)
  }

  predicate Shows(t: DateTime, instant: TemporalInstant) {
    instant == TemporalInstant(IsoWeekday(t.date.year, t.date.month, t.date.day), t.hour)
  }

  function Texts(names: seq<string>): (r: seq<Json>)
    ensures |r| == |names| && forall i :: 0 <= i < |r| ==> r[i] == Text(names[i])
  {
    seq(|names|, i requires 0 <= i < |names| => Text(names[i]))
  }

  predicate AsksExclusions(members: seq<Member>, names: seq<string>) {
    Lookup(members, "excludeRuleIds") == Some(Array(Texts(names)))
    || (Lookup(members, "excludeRuleIds").None? && names == [])
  }

  ghost predicate AsksReport(members: seq<Member>, spec: Option<AggregateSpec>) {
    match spec
    case None => Lookup(members, "aggregate").None?
    case Some(s) => Lookup(members, "aggregate").Some? && AsksAggregate(Lookup(members, "aggregate").value, s)
  }

  ghost predicate AsksSpatial(spatial: seq<Member>, q: Query) {
    && Lookup(spatial, "predicate") == Some(Text(PredicateName(q.spatial)))
    && AsksDistance(spatial, q.distanceMeters)
    && (q.spatial == WithinDistance <==> q.distanceMeters.Some?)
  }

  /** The document asks for this query: its predicate and radius, and each other part by its own key. */
  ghost predicate Asks(j: Json, q: Query) {
    && j.Object?
    && Lookup(j.members, "spatial").Some? && Lookup(j.members, "spatial").value.Object?
    && AsksSpatial(Lookup(j.members, "spatial").value.members, q)
    && AsksWhere(j.members, q.whereClause)
    && AsksTime(j.members, q.at)
    && (q.whereClause.Some? && HasActiveAt(q.whereClause.value) ==> q.at.Some?)
    && AsksReport(j.members, q.aggregate)
    && AsksExclusions(j.members, q.excludeRuleIds)
    && AsksFlag(j.members, "includeOverlap", q.includeOverlap)
  }

  // ------------------------------------------------ reading gives what was asked for

  lemma {:induction false} StringsRead(items: seq<Json>, names: seq<string>)
    ensures StringsFromJson(items) == Ok(names) <==> items == Texts(names)
    decreases |items|
  {
    if items != [] && items[0].Text? {
      assert items == [items[0]] + items[1..];
      if StringsFromJson(items).Ok? {
        StringsRead(items[1..], StringsFromJson(items[1..]).value);
        assert Texts(StringsFromJson(items).value) == [items[0]] + Texts(StringsFromJson(items[1..]).value);
      }
      if items == Texts(names) {
        StringsRead(items[1..], names[1..]);
        assert Texts(names)[1..] == Texts(names[1..]);
        assert names == [names[0]] + names[1..];
      }
    }
  }

  lemma ExclusionsRead(members: seq<Member>, names: seq<string>)
    ensures ExclusionsFromJson(members) == Ok(names) <==> AsksExclusions(members, names)
  {
    match Lookup(members, "excludeRuleIds")
    case Some(Array(items)) => StringsRead(items, names);
    case _ =>
  }

  lemma FlagRead(members: seq<Member>, key: string, flag: bool)
    ensures BoolMember(members, key) == Ok(flag) <==> AsksFlag(members, key, flag)
  {
  }

  lemma FieldRead(members: seq<Member>, key: string, field: Option<string>)
    ensures FieldMember(members, key) == Ok(field) <==> AsksField(members, key, field)
  {
  }

  lemma AggregateRead(j: Json, spec: AggregateSpec)
    ensures AggregateFromJson(j) == Ok(spec) <==> AsksAggregate(j, spec)
  {
    if j.Object? {
      FlagRead(j.members, "count", spec.count);
      FlagRead(j.members, "coverage", spec.coverage);
      FieldRead(j.members, "min", spec.min);
      FieldRead(j.members, "max", spec.max);
      FieldRead(j.members, "sum", spec.sum);
      FieldRead(j.members, "avg", spec.avg);
      hide BoolMember, FieldMember, AsksFlag, AsksField;
    }
  }

  lemma DistanceRead(spatial: seq<Member>, distance: Option<Float64>)
    ensures DistanceFromJson(spatial) == Ok(distance) <==> AsksDistance(spatial, distance)
  {
  }

  lemma WhereRead(members: seq<Member>, e: Option<WhereExpr>)
    ensures WhereFromJson(members) == Ok(e) <==> AsksWhere(members, e)
  {
  }

  lemma TimeRead(members: seq<Member>, at: Option<TemporalInstant>)
    ensures AtFromJson(members) == Ok(at) <==> AsksTime(members, at)
  {
    hide ParseIso8601, IsoWeekday;
    match Lookup(members, "at")
    case Some(Text(s)) =>
      var b := T.Bytes(s);
      ParsesExactlyPrinted(b);
      forall t | ValidDateTime(t) && Print(t) == b
        ensures ParseIso8601(b) == Ok(TemporalInstant(IsoWeekday(t.date.year, t.date.month, t.date.day), t.hour))
      {
        PrintedParses(t);
      }
      forall t | ValidDateTime(t)
        ensures s == TimeText(t) <==> Print(t) == b
      {
        TextIsTime(s, t);
      }
    case _ =>
  }

  /** Reading a document succeeds exactly when it asks for a query, and gives that query. */
  lemma ReadsWhatIsAsked(j: Json, q: Query)
    ensures FromJson(j) == Ok(q) <==> Asks(j, q)
  {
    hide DistanceFromJson, WhereFromJson, AtFromJson, AggregateFromJson, ExclusionsFromJson, BoolMember;
    hide AsksDistance, AsksWhere, AsksTime, AsksAggregate, AsksExclusions, AsksFlag, PredicateFromString, PredicateName;
    if j.Object? {
      var spatial := Lookup(j.members, "spatial");
      if spatial.Some? && spatial.value.Object? {
        DistanceRead(spatial.value.members, q.distanceMeters);
        var name := Lookup(spatial.value.members, "predicate");
        if name.Some? && name.value.Text? {
          PredicateNamesRead(q.spatial, name.value.s);
        }
      }
      WhereRead(j.members, q.whereClause);
      TimeRead(j.members, q.at);
      ExclusionsRead(j.members, q.excludeRuleIds);
      FlagRead(j.members, "includeOverlap", q.includeOverlap);
      if Lookup(j.members, "aggregate").Some? && q.aggregate.Some? {
        AggregateRead(Lookup(j.members, "aggregate").value, q.aggregate.value);
      }
    }
  }

  // ------------------------------------------------ printing

  /** A time on that weekday: 1 January 2024 was a Monday. */
  function SomeTime(instant: TemporalInstant): DateTime {
    DateTime(Date(2024, 1, instant.dayOfWeek), instant.hour, 0, None)
  }

  lemma SomeTimeShows(instant: TemporalInstant)
    requires instant.InRange()
    ensures ValidDateTime(SomeTime(instant)) && Shows(SomeTime(instant), instant)
  {
  }

  function PrintTime(instant: TemporalInstant): string
    requires instant.InRange()
  {
    SomeTimeShows(instant);
    TimeText(SomeTime(instant))
  }

  /** The members of an object, the parts that are there. */
  function Present(parts: seq<(string, Option<Json>)>): seq<Member> {
    if parts == [] then []
    else
      (match parts[0].1 case None => [] case Some(j) => [Member(parts[0].0, j)]) + Present(parts[1..])
  }

  ghost predicate KeysDiffer(parts: seq<(string, Option<Json>)>) {
    forall i, j :: 0 <= i < j < |parts| ==> parts[i].0 != parts[j].0
  }

  lemma {:induction false} PresentKeys(parts: seq<(string, Option<Json>)>)
    ensures forall m :: m in Present(parts) ==> exists i :: 0 <= i < |parts| && parts[i].0 == m.key
  {
    if parts != [] {
      PresentKeys(parts[1..]);
      forall m | m in Present(parts)
        ensures exists i :: 0 <= i < |parts| && parts[i].0 == m.key
      {
        if m in Present(parts[1..]) {
          var i :| 0 <= i < |parts[1..]| && parts[1..][i].0 == m.key;
          assert parts[i + 1].0 == m.key;
        }
      }
    }
  }

  lemma LookupFirst(part: (string, Option<Json>), rest: seq<Member>, key: string)
    ensures Lookup(Present([part]) + rest, key) == if key == part.0 && part.1.Some? then part.1 else Lookup(rest, key)
  {
    assert Present([part][1..]) == [];
    if part.1.None? {
      assert Present([part]) + rest == rest;
    } else {
      assert Present([part]) + rest == [Member(part.0, part.1.value)] + rest;
      assert (Present([part]) + rest)[1..] == rest;
    }
  }

  /** A part is found under its key, whatever other parts are there. */
  lemma {:induction false} LookupPresent(parts: seq<(string, Option<Json>)>, i: nat)
    requires KeysDiffer(parts) && i < |parts|
    ensures Lookup(Present(parts), parts[i].0) == parts[i].1
  {
    var rest := Present(parts[1..]);
    assert Present([parts[0]][1..]) == [];
    assert Present(parts) == Present([parts[0]]) + rest;
    LookupFirst(parts[0], rest, parts[i].0);
    hide Lookup, Present;
    if i == 0 {
      PresentKeys(parts[1..]);
    } else {
      assert parts[1..][i - 1] == parts[i];
      LookupPresent(parts[1..], i - 1);
    }
  }

  function TextPart(value: Option<string>): Option<Json> {
    match value case None => None case Some(s) => Some(Text(s))
  }

  function AggregateParts(spec: AggregateSpec): seq<(string, Option<Json>)> {
    [("count", Some(Json.Bool(spec.count))), ("coverage", Some(Json.Bool(spec.coverage))),
     ("min", TextPart(spec.min)), ("max", TextPart(spec.max)), ("sum", TextPart(spec.sum)), ("avg", TextPart(spec.avg))]
  }

  function PrintAggregate(spec: AggregateSpec): Json { Object(Present(AggregateParts(spec))) }

  /** A query some document asks for. */
  predicate ReadableQuery(q: Query) {
    && Validate(q) == None
    && (q.whereClause.Some? ==> Readable(q.whereClause.value))
    && (q.at.Some? ==> q.at.value.InRange())
  }

  function SpatialParts(q: Query): seq<(string, Option<Json>)>
    requires ReadableQuery(q)
  {
    [("predicate", Some(Text(PredicateName(q.spatial)))),
     ("distance", match q.distanceMeters case None => None case Some(d) => Some(Num(Decimal(d.value))))]
  }

  function QueryParts(q: Query): seq<(string, Option<Json>)>
    requires ReadableQuery(q)
  {
    [("spatial", Some(Object(Present(SpatialParts(q))))),
     ("where", match q.whereClause case None => None case Some(e) => Some(PrintWhere(e))),
     ("at", match q.at case None => None case Some(t) => Some(Text(PrintTime(t)))),
     ("aggregate", match q.aggregate case None => None case Some(s) => Some(PrintAggregate(s))),
     ("excludeRuleIds", Some(Array(Texts(q.excludeRuleIds)))),
     ("includeOverlap", Some(Json.Bool(q.includeOverlap)))]
  }

  /** The query written as a document. */
  function PrintQuery(q: Query): Json
    requires ReadableQuery(q)
  {
    Object(Present(QueryParts(q)))
  }

  lemma AllPresent(parts: seq<(string, Option<Json>)>)
    requires KeysDiffer(parts)
    ensures forall i :: 0 <= i < |parts| ==> Lookup(Present(parts), parts[i].0) == parts[i].1
  {
    forall i | 0 <= i < |parts|
      ensures Lookup(Present(parts), parts[i].0) == parts[i].1
    {
      LookupPresent(parts, i);
    }
  }

  lemma AggregateKeysDiffer(spec: AggregateSpec)
    ensures KeysDiffer(AggregateParts(spec))
    ensures forall part :: part in AggregateParts(spec) ==>
      part.0 in {"count", "coverage", "min", "max", "sum", "avg"}
  {
  }

  lemma QueryKeysDiffer(q: Query)
    requires ReadableQuery(q)
    ensures KeysDiffer(QueryParts(q))
  {
    hide PrintWhere, PrintTime, PrintAggregate, SpatialParts, Texts, Present, ReadableQuery;
  }

  lemma PrintedAggregateAsks(spec: AggregateSpec)
    requires spec.RequestsSomething()
    ensures AsksAggregate(PrintAggregate(spec), spec)
  {
    var parts := AggregateParts(spec);
    AggregateKeysDiffer(spec);
    PresentKeys(parts);
    AllPresent(parts);
    hide Present, Lookup, KeysDiffer;
    assert parts[0].0 == "count" && parts[1].0 == "coverage" && parts[2].0 == "min" && parts[3].0 == "max";
    assert parts[4].0 == "sum" && parts[5].0 == "avg";
  }

  lemma PrintedSpatialAsks(q: Query)
    requires ReadableQuery(q)
    ensures AsksSpatial(Present(SpatialParts(q)), q)
  {
    var parts := SpatialParts(q);
    LookupPresent(parts, 0);
    LookupPresent(parts, 1);
  }

  lemma PrintedTimeAsks(members: seq<Member>, instant: TemporalInstant)
    requires instant.InRange() && Lookup(members, "at") == Some(Text(PrintTime(instant)))
    ensures AsksTime(members, Some(instant))
  {
    SomeTimeShows(instant);
    hide TimeText, Shows, ValidDateTime;
  }

  /** The members a query prints: each part under its own key. */
  ghost predicate HoldsParts(members: seq<Member>, q: Query)
    requires ReadableQuery(q)
  {
    var parts := QueryParts(q);
    && Lookup(members, "spatial") == parts[0].1 && Lookup(members, "where") == parts[1].1
    && Lookup(members, "at") == parts[2].1 && Lookup(members, "aggregate") == parts[3].1
    && Lookup(members, "excludeRuleIds") == parts[4].1 && Lookup(members, "includeOverlap") == parts[5].1
  }

  lemma PrintedHolds(q: Query)
    requires ReadableQuery(q)
    ensures HoldsParts(Present(QueryParts(q)), q)
  {
    QueryKeysDiffer(q);
    AllPresent(QueryParts(q));
    hide PrintWhere, PrintTime, PrintAggregate, SpatialParts, Texts, Present, Lookup, KeysDiffer, ReadableQuery;
    var parts := QueryParts(q);
    assert parts[0].0 == "spatial" && parts[1].0 == "where" && parts[2].0 == "at" && parts[3].0 == "aggregate";
    assert parts[4].0 == "excludeRuleIds" && parts[5].0 == "includeOverlap";
  }

  lemma HeldQueryAsks(members: seq<Member>, q: Query)
    requires ReadableQuery(q) && HoldsParts(members, q)
    ensures Asks(Object(members), q)
  {
    hide Present, Lookup, PrintWhere, PrintTime, PrintAggregate, SpatialParts, Texts;
    PrintedSpatialAsks(q);
    if q.whereClause.Some? {
      PrintedWhereReads(q.whereClause.value);
    }
    if q.at.Some? {
      PrintedTimeAsks(members, q.at.value);
    }
    if q.aggregate.Some? {
      PrintedAggregateAsks(q.aggregate.value);
    }
    hide AsksSpatial, AsksAggregate;
  }

  /** Every readable query, printed and read, is the same query. */
  lemma PrintedQueriesRead(q: Query)
    requires ReadableQuery(q)
    ensures FromJson(PrintQuery(q)) == Ok(q)
  {
    PrintedHolds(q);
    HeldQueryAsks(Present(QueryParts(q)), q);
    ReadsWhatIsAsked(PrintQuery(q), q);
    hide Asks, FromJson;
  }

  /** And every query a document asks for is readable: printing and reading what was read changes nothing. */
  lemma ReadQueriesPrint(j: Json)
    requires FromJson(j).Ok?
    ensures ReadableQuery(FromJson(j).value) && FromJson(PrintQuery(FromJson(j).value)) == FromJson(j)
  {
    var q := FromJson(j).value;
    ReadQueriesValidate(j);
    ReadsWhatIsAsked(j, q);
    if q.whereClause.Some? {
      ReadWhereReadable(Lookup(j.members, "where").value);
    }
    hide FromJson, Asks;
    PrintedQueriesRead(q);
  }
}
