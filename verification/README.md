# Verification of the spatial rules engine

A Dafny model of the engine in `core/` (and of one benchmark heuristic), with proofs that its fast
paths compute what they are documented to compute. `dafny verify dfyconfig.toml` checks everything.

The engine holds a list of rules: polygons with properties, a priority and an optional `where`
clause matched by queries. A query asks, for each candidate geometry, which rules apply. The
definition is one ascending filter (`Semantics.ApplicablePositions`): the spatial predicate holds,
the `where` clause admits the rule's properties, and the rule is not excluded. The program never
computes it that way. It looks up boxes in a spatial index, replaces `where` by an index lookup when
it can, filters reused buffers in place, prepares geometries lazily into slots shared per thread,
stops early on one path, and wraps distance lookups around the antimeridian. The project models
those steps as they are and proves that they agree with the filter.

## How the project is laid out

| files | content |
|---|---|
| `Prelude`, `Sequences`, `Text`, `Doubles` | results and orderings; ascending selections, filters, sorting, folds; string order and UTF-8; bits, values and integer rounding of doubles |
| `Properties`, `Json`, `WhereExpr`, `WhereParser`, `WherePrinter`, `Windows`, `PropertyIndex` | property maps, the `where` language, its compiler, the documents it reads, weekly windows, and its equality index |
| `Temporal` | ISO 8601 reference times and weekdays |
| `Geometry`, `PointSets`, `SphericalEnvelope`, `Distance`, `Reach` | boxes, the DE-9IM matrix and the point sets it describes, fringe boxes, the distance pre-filter and why it reaches far enough |
| `Rules`, `SpatialIndex`, `PreparedCache`, `Ruleset` | rule ids and id buffers, the spatial indexes, the prepared-geometry memo, the compiled ruleset |
| `Query`, `QueryPrinter`, `Semantics`, `Averages`, `Aggregates`, `DoubleSums`, `Resolution`, `Exclusion` | queries and their documents, the definition of every outcome, aggregates, precedence and merging |
| `Meaning`, `Precedence`, `Analytics` | what matches, resolutions and aggregates mean, without the functions that compute them |
| `Evaluate`, `Session` | the prepared query with its buffers; one thread's whole life over many rulesets and handles |
| `Engine`, `Calls`, `Serving` | the replacement protocol as a state machine of small steps; what was called and what was answered; batches sent through it |
| `Heuristics` | the leak verdict of the memory benchmark |
| `Consistency` | a library that satisfies all hypotheses below at once |

Code that updates state is modelled by classes, arrays and loops (`Evaluate.PreparedQuery`,
`Session.Thread`, `PreparedCache`, `Rules.IdBuffer`, `Ruleset.Ruleset`, `SphericalEnvelope.Bounds`,
`PropertyIndex.Build`, `Aggregates.Numeric`), each tied by its `ensures` to a specification
function; code made of expressions is modelled by functions.

## Hypotheses

The geometry library, the spherical trigonometry and the R-tree are not part of this model. The
record `Geometry.Geo` holds the functions the engine calls; nothing is known about them except where
one of these predicates is required by name:

- `Geometry.PreparedAgrees`: between valid geometries, relating against a prepared form equals relating against
  the plain geometry.
- `Geometry.IntersectsPlanar`: between valid geometries, the boolean `intersects` is the matrix test, and geometries
  that intersect have bounding boxes that intersect. That every other DE-9IM predicate implies `intersects`
  (OGC 06-103r4, section 6.1.15.3) is proved from the matrix patterns (`Geometry.MatrixLaws`).
- `Semantics.DistanceReaches`: a rule within N metres has a point of its effective box that the expanded envelope
  reaches modulo 360 degrees and the lookups do not miss (`Distance.Missed`, described below).
- `Reach.SphereLaws` and `Reach.ClosestInBox`: two points are at least as far apart as their parallels, the way between
  them turns through no more longitude than the parallel it stays below allows, and the point of a rule closest to a
  point lies in the rule's effective box. From these `Reach.DistanceReached` derives the hypothesis before, unless a
  closest point is one the lookups miss.
- `Meaning.RelateDescribes`: for valid geometries the matrix describes the point sets the geometries stand for. It is
  needed only to say what the DE-9IM predicates mean (`Meaning.MatchesMean`, `Precedence.ResolutionsMean`).
- `Meaning.UnionExact`: the library joins areas exactly. It is needed only to say what coverage means
  (`Meaning.CoverageMeans`).
- `SphericalEnvelope.ValidRings`: a valid geometry has no exterior ring of a single point. It is needed only to read
  the two indexes of a distance query as one (`Evaluate.TwoIndexLookup`).
- `Ruleset.IndexKind.Lawful`: the R-tree lookup finds exactly the entries that meet the envelope. The
  linear scan needs no hypothesis.

`Consistency.HypothesesAreConsistent` shows that they can all hold at once, for every ruleset, query and
candidate of a library that works on bounding boxes.

## What turned out false

- Zeller's congruence is one weekday ahead for January and February of year 0, because the year -1
  truncates to century 0; `Temporal.WeekdayCorrect` proves that it is right for exactly the other dates.
- The lookups of a distance query do not cover every point that lies in the expanded envelope modulo 360 degrees. An
  expansion that ends exactly at longitude 180 does not look up a point at -180, the same meridian
  (`Distance.SeamExample`, from a candidate and a distance). A longitude outside [-180, 180], which intake and build
  accept, is not wrapped at all (`Distance.UnconventionalExample`); `docs/adr/0016-distance-predicates.md` admits that
  one. `Distance.WrapCoverage` gives the exact condition, for every expansion and every longitude.
- Comparing an integer with a float is not comparing the two numbers: a property of 2^63 - 1 is admitted by
  `{"$gte": 9223372036854775808}` (`WhereParser.LargeIntegersBlur`). It is exact against every float if and only if
  the integer is a double (`WhereParser.ExactIntegers`), and against one float if and only if that float is outside the
  rounding gap (`WhereParser.ComparesExactly`).
- A sum of doubles depends on the order of the applicable rules (`DoubleSums.OrderCanMatter`), and matching takes them
  in ascending order, resolution in precedence order. Integer contributions with added magnitudes of at most m have
  the same sum in every order if and only if m is at most 2^53 + 1 (`DoubleSums.OrderIrrelevantUpTo`).
- `benchmarks/src/memory_scaling/heuristics.rs:54-57` calls the reset signal leak-proof. A series that
  only climbs can pass it (`Heuristics.ResetIsNotLeakProof`); `Heuristics.ResetOfMonotone` says exactly when.

## Model

| member | source | states |
|---|---|---|
| Session.Thread.Run | core/src/runtime/ruleset.rs:434-482 | Every script of one thread, from any sound state with any memo contents and leftover buffers, gets the answers of a reference that has no cache, buffers or indexes, and where the library obeys its laws the answers by definition. Scripts mix builds, prepares and evaluations with what other threads do: taking identities, handing over rulesets built under theirs, filling a shared fringe index. Filled slots never change |
| Session.Thread.Step | core/src/runtime/ruleset.rs:434-482 | One operation keeps the thread invariant: every live slot array, replaced ones included, holds only prepared forms of its own ruleset's rules, and every handle stays bound to its own ruleset |
| Session.EveryAnswerIsDefined | core/src/runtime/evaluate.rs:280-357 | From whatever rulesets and handles a thread has, in every script each evaluation answers the outcome by definition over its own ruleset, on all four paths, whatever ran before it |
| Session.Thread.Serve | core/src/runtime/engine.rs:66-89 | A thread in any sound state, whether it has met the ruleset before or not, answers a batch on it as the reference does |
| Session.EvaluatedIsDefined | core/src/runtime/evaluate.rs:280-357 | On each of the four paths the pipeline's answer is the answer by definition when the library laws hold |
| Session.PrepareQuery | core/src/runtime/ruleset.rs:470-482 | Planning yields a handle whose excluded set is exactly the known excluded ids and whose filter, if any, is exactly the set the `where` clause admits |
| Session.Thread.TakeMemo | core/src/indexing/prepared_cache.rs:69-83 | A memo handle is bound to the slots made for this very ruleset, also after other rulesets replaced the cache entry |
| Semantics.PipelineIsDefinition | core/src/runtime/evaluate.rs:377-407 | Lookup, property filter and exact check select exactly the applicable positions, ascending, for every predicate |
| Semantics.PipelineOutcome | core/src/runtime/evaluate.rs:280-333 | The match outcome and the mask of the pipeline are the outcome and mask by definition |
| Meaning.MatchesMean | core/src/runtime/evaluate.rs:377-407 | When the matrix describes point sets, a valid pair matches exactly the rules that are not excluded, that `where` admits and that stand in the named relation to the candidate, or near enough to it; each once, ascending; with none it is not matched |
| Meaning.InvalidMeans | core/src/runtime/evaluate.rs:409-481 | A pair is invalid for the query's own reason first, then because the candidate is unsupported, invalid or empty, and otherwise exactly when a distance is asked of a candidate that is neither a point nor a multipoint |
| Meaning.WithinDistanceMeans | core/src/runtime/evaluate.rs:123-138 | `withinDistance` holds exactly when some point of the candidate lies in the rule or its closest point of the rule is at most the radius away |
| Meaning.AdmittedWithinDistance | core/src/runtime/evaluate.rs:494-529 | With no hypothesis on the library, an id is admitted exactly when its rule is not excluded, admitted by `where`, near enough in that sense, and met by a lookup |
| Meaning.OverlapsMean | core/src/runtime/evaluate.rs:63-92 | Metrics come exactly when asked for and not with a distance, one per matched rule in the order of the ids: the size of the shared area, and the fraction whose product with the candidate's area it is; 0 for points |
| Meaning.FractionRange | core/src/model/query.rs:285-291 | Such a fraction lies between 0 and 1 when the shared area is at most the candidate's |
| Precedence.ResolutionsMean | core/src/runtime/evaluate.rs:614-672 | A valid pair resolves exactly when some rule is selected; the explanation lists exactly the matched rules, each before those it outranks; its head wins; every key a listed rule defines has the value of the first that does, and no other key has one |
| Evaluate.PreparedQuery.constructor | core/src/runtime/evaluate.rs:198-220 | A new prepared query owns fresh buffers and keeps the plan it was given |
| Evaluate.PreparedQuery.AdmittedIdMeans | core/src/runtime/evaluate.rs:257-270 | The admission test on ids, with or without the index filter, is the property test on the rule: not excluded and `where` evaluates to true |
| Evaluate.PreparedQuery.ConfirmPrepared | core/src/runtime/evaluate.rs:396-406 | The relate loop over the prepared slots keeps exactly the ids whose predicate holds on the plain geometries, in order |
| Evaluate.PreparedQuery.ForEachAdmitted | core/src/runtime/evaluate.rs:377-407 | From any leftover scratch, the DE-9IM admission yields the pipeline's ids ascending; slots stay sound and filled slots keep their value |
| Evaluate.PreparedQuery.ExtendDistanceHits | core/src/runtime/evaluate.rs:535-545 | Appends the planar and the fringe hits of one rectangle and keeps what was accumulated |
| Evaluate.PreparedQuery.CollectDistanceHits | core/src/runtime/evaluate.rs:495-518 | Accumulates, from an empty buffer, the hits of the main rectangle and of the wrapped ones |
| Evaluate.SortedHits | core/src/runtime/evaluate.rs:519-520 | Sorted and deduplicated, all planar and fringe hits enumerate each rule that some lookup meets, once, ascending |
| Evaluate.OneEffectiveLookup | core/src/runtime/evaluate.rs:531-545 | In a built ruleset, appending the planar and the fringe hits of a rectangle, sorting and deduplicating gives the list of one lookup in an index of fringe boxes where present, else planar boxes |
| Evaluate.TwoIndexLookup | core/src/runtime/evaluate.rs:495-520 | The same for all rectangles of a distance query together |
| Evaluate.PreparedQuery.AdmitWithinDistance | core/src/runtime/evaluate.rs:494-529 | From any leftover buffers, `withinDistance` admits the pipeline's ids, each once and ascending, lazily building the fringe index; with no hypothesis on the library these are exactly the applicable rules whose boxes some lookup meets |
| Evaluate.PreparedQuery.AdmitByPredicate | core/src/runtime/evaluate.rs:580-592 | The one seam of match and resolution: for every validated query the admitted ids are the pipeline's |
| Evaluate.PreparedQuery.EvaluateResult | core/src/runtime/evaluate.rs:409-463 | The invalid reason, the match bit, the collected ids and the aligned overlap metrics are those the pipeline's ids give |
| Evaluate.PreparedQuery.Evaluate | core/src/runtime/evaluate.rs:280-302 | The rich match path returns the outcome built on the pipeline's ids, for every query, well-formed or not |
| Evaluate.PreparedQuery.EvaluateAll | core/src/runtime/evaluate.rs:232-234 | A batch over shared buffers and memo is pointwise: each outcome is that of its candidate alone |
| Evaluate.PreparedQuery.EvaluateMaskIntersects | core/src/runtime/evaluate.rs:342-357 | The early exit returns the same mask as collecting every id |
| Evaluate.PreparedQuery.EvaluateMask | core/src/runtime/evaluate.rs:304-333 | The mask is the code of the rich match outcome: 0, 1 or 2 |
| Evaluate.PreparedQuery.MergeValues | core/src/runtime/evaluate.rs:655-660 | The insert-if-absent loop computes the first-provider merge |
| Evaluate.PreparedQuery.EvaluateResolve | core/src/runtime/evaluate.rs:614-672 | The resolution path returns the resolution built on the pipeline's ids, with the match path's invalid reason |
| Evaluate.PreparedQuery.EvaluateResolveMask | core/src/runtime/evaluate.rs:679-694 | The resolution mask is the code of the rich resolution |
| Resolution.PathsAgree | core/src/runtime/evaluate.rs:614-694 | Match, mask and resolution agree: same 0/1/2, same invalid reason, same rules up to order, same aggregate but for the covered area |
| Resolution.PipelineResolution | core/src/runtime/evaluate.rs:597-672 | The resolution of the pipeline is the resolution by definition |
| Resolution.PrecedenceOrderUnique | core/src/runtime/evaluate.rs:648-652 | Any permutation of the applicable rules sorted by priority descending, then id, is the same sequence, whatever order the ids were gathered in |
| Resolution.WinnerIsGreatest | core/src/runtime/evaluate.rs:654-654 | The winner has the highest priority of the applicable rules and, among those, the first position |
| Resolution.FirstProvider | core/src/runtime/evaluate.rs:656-660 | The first rule down the order that defines a key, or none when no rule does |
| Resolution.MergedMerges | core/src/runtime/evaluate.rs:655-660 | The merged values have exactly the keys some applicable rule defines, each with its first provider's value |
| Resolution.MergeUnique | core/src/runtime/evaluate.rs:655-660 | That description determines the merged values |
| Exclusion.ExclusionFilters | core/src/runtime/evaluate.rs:257-270 | Excluding one more name strikes exactly that rule from the applicable ids and keeps the order of the rest |
| Exclusion.OrderFilters | core/src/runtime/evaluate.rs:648-652 | Sorting commutes with striking a rule out |
| Exclusion.ExclusionKeepsOrder | core/src/runtime/evaluate.rs:645-654 | After an exclusion the explanation is the old one without that rule, and the winner changes only if it was that rule |
| Exclusion.ExclusionKeepsValues | core/src/runtime/evaluate.rs:655-660 | After an exclusion a merged value changes only if that rule was its first provider, and no key appears |
| Exclusion.UnknownExclusion | core/src/runtime/ruleset.rs:471-475 | Excluding an id no rule has changes neither outcome |
| Exclusion.AdmittedFilters | core/src/runtime/evaluate.rs:257-270 | With no hypothesis on the library, the ids the pipeline admits lose exactly the excluded rule |
| Exclusion.ProgramKeepsOrder | core/src/runtime/evaluate.rs:645-654 | With no hypothesis on the library, the resolution the program gives loses the excluded rule, keeps the order of the rest, and changes its winner only if that was the winner |
| Exclusion.ProgramKeepsValues | core/src/runtime/evaluate.rs:655-660 | Nor does it change a merged value the excluded rule was not the first to provide, or gain a key |
| Exclusion.ProgramUnknownExclusion | core/src/runtime/ruleset.rs:471-475 | With no hypothesis on the library, excluding an unknown id changes no admitted id |
| PreparedCache.IdSource.NextId | core/src/indexing/prepared_cache.rs:43-51 | Every ruleset identity is new |
| PreparedCache.ForRuleset | core/src/indexing/prepared_cache.rs:69-83 | The same identity gets the cached slots back; another one gets fresh empty slots that replace the entry, and old handles keep theirs |
| PreparedCache.Ensure | core/src/indexing/prepared_cache.rs:89-98 | Fills exactly the requested empty slots with their own rule's prepared form and touches nothing else |
| PreparedCache.SnapshotAll | core/src/indexing/prepared_cache.rs:111-126 | The eager form holds every rule's prepared form in ruleset order |
| Engine.StepKeepsInv | core/src/runtime/engine.rs:131-163 | Every step of every thread keeps the lock discipline and the tie between ruleset, report and history |
| Engine.EveryRunKeepsInv | core/src/runtime/engine.rs:91-163 | The invariant holds in every state any interleaving of any number of threads reaches |
| Engine.ObservationsLinear | core/src/runtime/engine.rs:131-163 | No observation is torn and versions never go back: `current` then `snapshot` is never an older ruleset, `snapshot` then `current` never an older report; successful replaces return 2, 3, 4, ... |
| Engine.QuiescentReport | core/src/runtime/engine.rs:131-149 | When no writer is in between, the report is the newest publication's and its version is one more than the returned replaces |
| Calls.AskedIsAnswered | core/src/runtime/engine.rs:66-163 | In every interleaving each thread was answered exactly what the turns of the schedule asked for, once each and in order, but the call it is in and the replaces that failed |
| Calls.AnswersFollowCalls | core/src/runtime/engine.rs:66-163 | So an idle thread was answered all its calls, and any thread all but its last |
| Calls.PublishedIsRequested | core/src/runtime/engine.rs:101-143 | The first publication is the ruleset the engine was made with; every later one is made at a turn whose thread was last asked to replace by just those rules |
| Calls.ReplacedIsCalled | core/src/runtime/engine.rs:101-104 | A replace that returned published the rules its own thread called it with |
| Calls.SentIsServed | core/src/runtime/engine.rs:66-89 | Batches return to the thread that sent them, once each and in order, with the number of publications at their call |
| Calls.ServedIsCalled | core/src/runtime/engine.rs:66-89 | A batch that returned was called by the same thread at a turn of the schedule, when as many rulesets had been published as it says |
| Engine.WaitsOnlyFor | core/src/runtime/engine.rs:92-163 | A thread waits for exactly these: a replace for readers and the writer, a report for the holder of the mutex, a snapshot for a writer only |
| Engine.FailedReplaceIsInvisible | core/src/runtime/engine.rs:99-120 | From any state and for any other turns during and after its build, a failed replace can be taken out of the schedule, but for the identity it takes from the counter: the run stays possible and reaches the very same state |
| Engine.PublishedIdentitiesDiffer | core/src/indexing/prepared_cache.rs:42-51 | With identities drawn from one counter, in every interleaving no two published or pending rulesets share one |
| Calls.CounterCounts | core/src/indexing/prepared_cache.rs:43-51 | In every interleaving the counter has moved on by exactly one for every build, failed ones and those of other engines included |
| Engine.RunKeepsMet | core/src/indexing/prepared_cache.rs:42-51 | A ruleset a thread has met, from this engine or not, never comes to share its identity with a ruleset published with other rules |
| Engine.ElsewhereIsMet | core/src/indexing/prepared_cache.rs:42-51 | A ruleset built outside this engine is one that can be met in that sense, from the moment it takes its identity |
| Engine.EveryRunKeepsBatches | core/src/runtime/engine.rs:66-98 | In every interleaving a returned batch used one publication whole, no older than the newest at its call and no newer than the newest at its return |
| Serving.ServeBatch | core/src/runtime/engine.rs:66-89 | In any reachable state of the engine, a sound thread of the process computes the protocol's answers to a batch on any published ruleset, met before or not |
| Serving.EveryRunIsReachable | core/src/runtime/engine.rs:91-149 | Every interleaving reaches only such states |
| Serving.BatchesAnswerByDefinition | core/src/runtime/engine.rs:66-149 | In every interleaving with replaces, a batch that some thread sent answers each candidate by definition over a publication that was the newest at some moment between its call and its return, and whose rules are the first ones or those of a replace some thread called |
| Engine.SomeThreadCanStep | core/src/runtime/engine.rs:122-130 | No deadlock: while an operation is unfinished some thread's next step is enabled |
| PropertyIndex.Build | core/src/indexing/property_index.rs:38-66 | Every bucket holds exactly the positions of the rules with that name and value, ascending, each once |
| PropertyIndex.MatchingIn | core/src/indexing/property_index.rs:86-97 | The ids of exactly the rules whose property is one of the values, ascending, each once |
| PropertyIndex.PredicateMatches | core/src/indexing/property_index.rs:99-111 | Answers exactly the equality and `$in` predicates, with exactly the rules on which they evaluate to true |
| PropertyIndex.IndexableMatches | core/src/indexing/property_index.rs:115-136 | Returns a set for exactly the indexable trees, and that set is exactly the ids of the rules the tree admits |
| PropertyIndex.IndexRefinesEval | core/src/indexing/property_index.rs:115-136 | An id is in an indexable tree's set if and only if the tree evaluates to true on the rule, at every reference time |
| PropertyIndex.IndexableTimeless | core/src/model/where_expr.rs:172-187 | An indexable tree contains no `$activeAt` |
| WhereParser.CompilationPreservesMeaning | core/src/model/where_expr.rs:84-421 | Parsing succeeds exactly on well-formed clauses, and evaluating the tree gives the meaning stated on the JSON, for all properties and times |
| WhereParser.FieldOpMeaning | core/src/model/where_expr.rs:378-421 | The same for one operator, `$not` nested to any depth |
| WhereParser.ListMeaning | core/src/model/where_expr.rs:151-165 | `$in` and `$nin` mean membership, `$nin` only among values of the property's type |
| WhereParser.FieldMeaning | core/src/model/where_expr.rs:329-355 | The same for one field of a clause |
| WhereParser.ImplicitAndMeaning | core/src/model/where_expr.rs:310-327 | A plain object is the conjunction of its fields, the empty one admits everything |
| WhereParser.WindowMeaning | core/src/model/where_expr.rs:247-308 | The `$activeAt` clause holds when the day's bit is set and the hour lies in the wrapping window |
| Windows.ActiveOnDays | core/src/model/where_expr.rs:266-308 | For every set of weekdays, a rule whose mask is the sum of 1, 2, 4, 8, 16, 32, 64 for its days is admitted exactly on those days from the start hour up to the end hour, past midnight when it ends before it starts; higher bits do not matter, and without a time nothing is admitted |
| Windows.EveryIntegerIsMask | core/src/model/where_expr.rs:299-299 | Every integer is such a mask, with a multiple of 128 |
| Windows.UnscheduledNever | core/src/model/where_expr.rs:266-298 | A rule one of whose three properties is missing or no integer is never admitted |
| WherePrinter.PrintedWhereReads | core/src/model/where_expr.rs:84-421 | Every readable tree, written as a document, compiles to the same tree |
| WherePrinter.ReadingPrintedAgain | core/src/model/where_expr.rs:84-421 | Every tree the compiler yields is readable, so compiling what was printed from it changes nothing |
| WherePrinter.NamesRead | core/src/model/where_expr.rs:310-345 | A name with a scalar asks for equality, and is rejected exactly when it starts with a dollar sign |
| WhereParser.NumbersCompare | core/src/model/where_expr.rs:220-231 | Comparison orders two integers exactly and anything else as doubles; a NaN or a non-number compares with nothing |
| WhereParser.ComparesExactly | core/src/model/where_expr.rs:220-231 | An integer and a float compare as the two numbers do if and only if the integer is a double or the float is not on or between the integer and its double |
| WhereParser.ExactIntegers | core/src/model/where_expr.rs:220-231 | An integer compares exactly with every float if and only if it is a double, as all up to 2^53 are |
| WhereParser.LargeIntegersBlur | core/src/model/where_expr.rs:220-231 | A clause and a property read from JSON show the inexact case: 2^63 - 1 is admitted as at least 2^63 |
| Doubles.RoundedIsNearest | core/src/model/where_expr.rs:227-228 | An integer converts to a double exactly up to 2^53 and to within half the spacing of doubles beyond |
| Doubles.RoundsToEven | core/src/model/where_expr.rs:227-228 | The double is a multiple of the power of two that leaves 53 significant bits, of two equally near ones the even multiple, and keeps the sign |
| Doubles.DoublesCompare | core/src/model/where_expr.rs:220-231 | Doubles compare as their values between the infinities, zeros as equal, and nothing compares with a NaN |
| Doubles.BitOrder | core/src/model/properties.rs:27-66 | As bit patterns: the non-negative numbers ascending, infinity, NaNs, then negative zero, the negative numbers descending, negative infinity and NaNs |
| WhereParser.KeyOrderIrrelevant | core/src/model/where_expr.rs:84-104 | The meaning of a clause does not depend on the member order of its objects at any depth |
| WhereParser.CompilationIgnoresKeyOrder | core/src/model/where_expr.rs:84-421 | Nor does the compiled tree's evaluation, nor whether compilation succeeds |
| Json.NumberKeepsValue | core/src/model/properties.rs:119-137 | An integer that fits `i64` is kept exactly; any other number keeps its double's value, as an `Int` exactly when that is an integer that fits, however it is spelled |
| WhereExpr.WindowIsCyclic | core/src/model/where_expr.rs:302-307 | For any hours, the window is an interval when it does not wrap, empty when it starts where it ends, and otherwise what the swapped window leaves out; on the clock that is an arc of the 24-hour circle |
| WhereExpr.TimelessEval | core/src/model/where_expr.rs:108-130 | A tree without `$activeAt` evaluates the same at every time and without one |
| Query.ReadQueriesValidate | core/src/model/query.rs:180-281 | Every query read from JSON validates, and has an in-range reference time whenever `$activeAt` occurs at any depth |
| QueryPrinter.ReadsWhatIsAsked | core/src/model/query.rs:180-281 | Reading a document yields a query exactly when the document asks for that query: predicate by name, radius, `where`, date-time, aggregate fields, exclusions and overlap, each under its own key and with its default when left out |
| QueryPrinter.PrintedQueriesRead | core/src/model/query.rs:180-281 | Every validated query with a readable tree and an in-range time, written as a document, is read as the same query |
| QueryPrinter.ReadQueriesPrint | core/src/model/query.rs:180-281 | Every query that is read is of that kind, so reading what was printed from it changes nothing |
| Meaning.ValidateMeans | core/src/model/query.rs:148-173 | A query validates exactly when it has a radius, finite and positive, for `withinDistance` and for nothing else, a time when `$activeAt` occurs, and no aggregate that asks for nothing; a wrong radius is reported first |
| Query.ValidatedTimeMatters | core/src/model/query.rs:148-173 | A validated query never depends on the default for a missing time |
| Ruleset.CheckRules | core/src/runtime/ruleset.rs:105-146 | The gate passes exactly when every rule passes its checks and no id repeats; otherwise the error is the first failing rule's first failed check |
| Meaning.BuildableMeans | core/src/runtime/ruleset.rs:105-163 | A list is buildable exactly when its ids differ and every rule is a valid polygon or multipolygon with vertices, without negative priority, and without infinite or undefined floats |
| Meaning.RuleErrorsMean | core/src/runtime/ruleset.rs:105-146 | A rule's error names the first check it fails, in the order geometry type, validity, priority, properties, duplicate id |
| Ruleset.BuildIndexed | core/src/runtime/ruleset.rs:93-193 | A build succeeds exactly on buildable lists, under a fresh identity even when it fails, and yields a ruleset whose tables and indexes are exact; a failure names the first error |
| Ruleset.SortedPositions | core/src/runtime/ruleset.rs:147-151 | The id table is a permutation of the positions, strictly sorted by string id |
| Ruleset.SearchIds | core/src/runtime/ruleset.rs:233-238 | Binary search finds a position exactly when some rule has the id |
| Ruleset.Ruleset.RuleIdOf | core/src/runtime/ruleset.rs:233-238 | A string id maps to the one rule that has it, and unknown ids to nothing |
| Ruleset.Ruleset.IdsAreInverse | core/src/runtime/ruleset.rs:214-247 | The two id maps are mutual inverses; foreign and out-of-range ids have no string |
| Ruleset.Ruleset.QueryPlanarInto | core/src/runtime/ruleset.rs:308-310 | Fills the buffer with exactly the rules whose planar box meets the envelope, ascending, whatever it held |
| Ruleset.Ruleset.InitFringe | core/src/runtime/ruleset.rs:318-329 | The fringe index is built once and then kept |
| Ruleset.Ruleset.QueryFringeInto | core/src/runtime/ruleset.rs:317-331 | The lazily built index gives the hits of an eagerly built one at any point of a run |
| Ruleset.Ruleset.FringeEntries | core/src/runtime/ruleset.rs:318-328 | Exactly the rules that have a fringe box are entered, with that box |
| SpatialIndex.Scan | core/src/indexing/spatial_index.rs:105-116 | The linear scan collects exactly the entries that meet the envelope |
| SpatialIndex.QueryEnvelopeInto | core/src/indexing/spatial_index.rs:79-116 | Either index fills the buffer completely, ascending and without duplicates |
| Geometry.RectsIntersectShare | core/src/indexing/spatial_index.rs:118-123 | Two boxes pass the test exactly when they share a point |
| Geometry.BoundingRectExact | core/src/runtime/ruleset.rs:153-163 | A geometry's planar box is the one least box around its vertices, and is missing exactly when there are none |
| Geometry.MatrixLaws | core/src/runtime/evaluate.rs:28-44 | Every DE-9IM predicate implies intersection, and swapping the operands gives the converse predicate |
| PointSets.PredicatesRelate | core/src/runtime/evaluate.rs:28-44 | On a matrix that describes two point sets, each predicate holds exactly when the sets are so related: `touches` shares a point but no interior point, `overlaps` shares interior points and each interior leaves the other set, `contains` is inclusion with meeting interiors, `covers` inclusion with a shared point |
| PointSets.OverlapsLacks | core/src/runtime/evaluate.rs:28-44 | Overlapping sets each have a point the other lacks, and for solid sets with meeting interiors that is all it takes |
| Geometry.MultiPointWithin | core/src/runtime/evaluate.rs:123-138 | A multipoint is within a distance exactly when one of its points is |
| Rules.OwnedSetsExact | core/src/model/rule.rs:40-64 | Between ids of one owner, owner-insensitive membership and intersection are exact |
| Rules.FilterMint | core/src/runtime/evaluate.rs:383-383 | Retaining a minted ascending selection is selecting by both tests |
| Rules.SortDedupEnumerates | core/src/runtime/evaluate.rs:519-520 | Sort then dedup enumerates the set of ids ascending, each once |
| Rules.IdBuffer.DedupInPlace | core/src/runtime/evaluate.rs:520-520 | The in-place pass keeps the first id of each run |
| Distance.ExpansionWidens | core/src/runtime/evaluate.rs:147-164 | A positive distance widens both longitudes strictly and keeps the latitudes on the globe |
| Distance.WideEnoughAtEveryLatitude | core/src/runtime/evaluate.rs:140-158 | For any candidate box, the longitude half-width is conservative at every latitude of the band, or a whole turn |
| Distance.DegreeLength | core/src/runtime/evaluate.rs:20-22 | A degree of latitude is about 111.195 km |
| Reach.DistanceReached | core/src/runtime/evaluate.rs:140-164 | On the sphere, and with closest points inside the effective boxes, the expansion reaches every rule within the distance, so the pre-filter loses only nearest points the wrapped lookups miss |
| Distance.WrapCoverage | core/src/runtime/evaluate.rs:503-518 | For every expansion and every longitude, the lookups cover a point exactly when a copy of it modulo 360 lies in the expansion and it is neither on the seam nor an unconventional longitude that needs wrapping, or the expansion lies wholly beyond the antimeridian, where more is covered |
| Distance.SeamExample | core/src/runtime/evaluate.rs:494-518 | A candidate and a distance whose lookups meet no box of a rule that a copy of the seam point belongs to |
| Distance.UnconventionalExample | core/src/runtime/evaluate.rs:494-518 | A candidate and a distance whose lookups miss a rule around longitude 181 strictly inside the expansion modulo 360 |
| Distance.StrictReachIsCovered | core/src/runtime/evaluate.rs:503-518 | A point reached strictly inside the expansion is covered exactly when its longitude is in [-180, 180] or needs no wrapping, or the expansion lies beyond |
| Distance.ReachedBoxIsHit | core/src/runtime/evaluate.rs:494-518 | A box with such a point is hit by a lookup |
| SphericalEnvelope.FringeBox | core/src/model/spherical_envelope.rs:46-61 | The walk over rings and holes computes the box of the sampled arc points, widened, or none when the planar box already holds them |
| SphericalEnvelope.SubArcsAreShort | core/src/model/spherical_envelope.rs:122-131 | An edge is cut into the fewest equal sub-arcs that are no longer than the sampling step |
| SphericalEnvelope.Bounds.AddArc | core/src/model/spherical_envelope.rs:114-132 | One edge adds its endpoints and its samples to the running box |
| SphericalEnvelope.Bounds.AddRing | core/src/model/spherical_envelope.rs:70-74 | A ring adds all its edges |
| SphericalEnvelope.Bounds.AddPolygon | core/src/model/spherical_envelope.rs:63-68 | A polygon adds its exterior and every hole |
| SphericalEnvelope.Bounds.ToRect | core/src/model/spherical_envelope.rs:136-144 | The running minima and maxima are the tight box of everything added, widened by the margin |
| SphericalEnvelope.FringeIsTight | core/src/model/spherical_envelope.rs:46-61 | An emitted fringe box is the least box around the sampled points widened by a ten-thousandth of a degree |
| SphericalEnvelope.FringeCovers | core/src/model/spherical_envelope.rs:46-61 | An emitted fringe box contains every sampled point and the planar box enlarged by the margin; with none emitted the planar box contains every sample |
| SphericalEnvelope.TwoIndexesActAsOne | core/src/runtime/evaluate.rs:531-545 | For one rule: the fringe box if present, else the planar box, meets a rectangle exactly when either index would report it |
| Properties.ValueOrder | core/src/model/properties.rs:27-66 | The value order, with floats by their bits, is total, transitive and agrees with equality |
| Properties.KindOrder | core/src/model/properties.rs:46-66 | Values of different types are ordered by type: nothing, flags, integers, floats, text |
| Properties.Get | core/src/model/properties.rs:184-189 | Binary search returns the value of the entry with that key, and nothing exactly when no entry has it |
| Properties.Inserted | core/src/model/properties.rs:221-230 | An insert changes what its own key maps to and nothing else |
| Properties.PropertyStore.Insert | core/src/model/properties.rs:221-230 | The in-place form replaces or splices to the same slice, keys strictly increasing |
| Properties.InsertAllRefinesMap | core/src/model/properties.rs:166-231 | After any sequence of inserts, lookup returns the last value inserted under the key |
| Properties.Canonical | core/src/model/properties.rs:150-161 | Slices with the same lookups are identical |
| Properties.SameMapSameSlice | core/src/model/properties.rs:166-231 | Two sequences of inserts give the identical slice if and only if they have the same final map |
| Properties.FromPairs | core/src/model/properties.rs:164-182 | Pairs with unique keys become a sorted permutation in which every pair is found |
| Doubles.InfiniteSums | core/src/runtime/aggregate.rs:156-164 | An infinity absorbs every number, opposite infinities have no sum, and nothing has one with a NaN |
| Aggregates.NumericSumCount | core/src/runtime/aggregate.rs:156-164 | One pass gives the sum and the number of contributors |
| Aggregates.FoldFromFirst | core/src/runtime/aggregate.rs:131-140 | Folding from the first value is folding all of them from the value that gives way to every other |
| Aggregates.Numeric | core/src/runtime/aggregate.rs:123-153 | The reduction of exactly the numeric values of the field, infinities and NaN included |
| Aggregates.CoverageRatio | core/src/runtime/aggregate.rs:166-205 | The loop joins the rules' areas in order and reports the covered fraction of the candidate's area, 0 for points and for no area |
| Meaning.CoverageMeans | core/src/runtime/aggregate.rs:166-205 | When the library joins areas exactly, the coverage times the candidate's area is the size of what the rules' points cover of it, whatever the order of the rules; 0 for points, no rules or no area |
| Aggregates.Compute | core/src/runtime/aggregate.rs:78-92 | Each requested field, and no other, is computed over the applicable rules |
| Analytics.MatchedAggregateMeans | core/src/runtime/aggregate.rs:78-164 | A match on a built ruleset reports exactly the fields asked for, over exactly the matched rules: their count, and the least, greatest, sum and mean of the numbers they hold, integers as doubles; nothing for a field no matched rule holds a number in |
| Aggregates.OrderIrrelevant | core/src/runtime/aggregate.rs:78-92 | Which fields are present, and every value but the covered area, do not depend on the order of the applicable rules, in exact arithmetic |
| DoubleSums.OrderIrrelevantUpTo | core/src/runtime/aggregate.rs:156-164 | Sums of integer-valued doubles with magnitudes of at most m in all do not depend on the order if and only if m <= 2^53 + 1 |
| DoubleSums.OrderCanMatter | core/src/runtime/aggregate.rs:156-164 | One above that bound, three contributions have different sums in two orders |
| DoubleSums.ReportedSumIsDoubleSum | core/src/runtime/aggregate.rs:141-164 | Up to 2^53 in all, the exact sum reported by the model is the sum of doubles |
| Aggregates.PresentIffContributed | core/src/runtime/aggregate.rs:73-92 | There is one number per contributing rule, and a numeric result exactly when some applicable rule contributes |
| Aggregates.ExtremesOfValues | core/src/runtime/aggregate.rs:131-140 | The minimum is a contribution that none lies below, undefined only when all are; dually the maximum |
| Aggregates.AverageLaws | core/src/runtime/aggregate.rs:123-153 | For finite contributions, the reported minimum <= average <= maximum, and average times the number of contributing rules is the sum; without contributors nothing is reported |
| Semantics.BuiltAggregateLaws | core/src/runtime/ruleset.rs:123-139 | In a built ruleset every contribution is finite, so the aggregate of any applicable ids obeys those laws |
| Temporal.WeekdayCorrect | core/src/model/temporal.rs:131-142 | Zeller's congruence gives the weekday of counting days from 1 January of year 0 exactly outside January and February of year 0 |
| Temporal.WeekdayAdvances | core/src/model/temporal.rs:131-142 | The next valid day has the next weekday, across month, leap-year and century ends |
| Temporal.DayNumberCountsDays | core/src/model/temporal.rs:110-128 | The day number grows by one from each valid date to the next |
| Temporal.PrintedParses | core/src/model/temporal.rs:54-107 | Every printed date-time, with or without seconds, parses to its weekday and hour |
| Temporal.ParsesExactlyPrinted | core/src/model/temporal.rs:54-107 | The parser accepts exactly the printed forms of valid date-times |
| Text.EncodedChar | core/src/model/temporal.rs:54-60 | A text is read as its UTF-8 bytes: one to four per character, by the size of the code point their payload bits spell |
| Temporal.ParsedInstant | core/src/model/temporal.rs:54-142 | A parsed instant is in range, and is the calendar's weekday and the shown hour exactly outside the two wrong months |
| Heuristics.ClimbingMeans | benchmarks/src/memory_scaling/heuristics.rs:73-78 | The last quarter of a climbing series averages at least two quarters of climbing above the second |
| Heuristics.LeakRejected | benchmarks/src/memory_scaling/heuristics.rs:69-95 | A leak of d per sample is rejected when two quarters of it exceed 5% of the second quarter's mean and a quarter of it exceeds 2% of the tail's |
| Heuristics.WobbleAccepted | benchmarks/src/memory_scaling/heuristics.rs:69-95 | A series of at least 4 samples within 5% of a floor of at least 1 is accepted |
| Heuristics.PlateauAccepted | benchmarks/src/memory_scaling/heuristics.rs:55-58 | A series of at least 16 samples that steps up and then stays within 2% is accepted |
| Heuristics.SawtoothAccepted | benchmarks/src/memory_scaling/heuristics.rs:51-54 | So is one with a sample in the last quarter within 5% of every sample of the second |
| Heuristics.ShortStepRejected | benchmarks/src/memory_scaling/heuristics.rs:64-66 | A shorter series that steps up by more than 5% is rejected, however flat it then is |
| Heuristics.FloorOfOne | benchmarks/src/memory_scaling/heuristics.rs:73-79 | Below a mean of one, quarters are compared by an absolute difference of 0.05 |
| Heuristics.ResetOfMonotone | benchmarks/src/memory_scaling/heuristics.rs:87-88 | On a series that never falls the reset signal compares the first samples of the last and the second quarter |
| Heuristics.ResetIsNotLeakProof | benchmarks/src/memory_scaling/heuristics.rs:54-57 | A series that climbs at every sample is accepted |

## Left out

- Floating-point arithmetic: sums, means, coordinates and areas are exact reals; the conversion of integers to doubles, and sums of integer-valued doubles in `DoubleSums`, round. The sign of a zero and the bits of a NaN are kept in property values and dropped by arithmetic.
- Aggregates.OrderIrrelevant: the sum is exact, while a sum of doubles can depend on the order (`DoubleSums` says when it does not, for integers); and the covered area is independent of the order only when the library joins areas exactly (`Meaning.CoverageMeans`).
- Aggregates.AverageLaws: stated in exact arithmetic, because a sum of doubles can round or overflow and so can its quotient.
- Semantics.BuiltAggregateLaws: likewise in exact arithmetic; that no contribution is infinite does not exclude that a sum of doubles overflows.
- Integer widths: positions, identities and counts are unbounded; the `u32` position limit and the `u64` identity counter do not wrap. `days & (1 << d)` is modelled as that bit of the two's-complement integer.
- Non-finite coordinates: coordinates are reals, so the finiteness gate never fires.
- The geometry library: relate, validity, unions, areas, closest points and haversine are unknown functions under the hypotheses above; the fringe box is not claimed to contain the true great-circle arc, only the samples.
- SpatialIndex.QueryEnvelopeInto: the R-tree is represented by the completeness of its lookup, because its code is not in the repository; the linear scan is proved.
- Overlap and coverage areas are what the library measures; the metrics are stated relative to it.
- Days are counted in the proleptic Gregorian calendar from year 0, which is what four-digit ISO 8601 years denote.
- Callbacks: `on_admitted` closures are modelled by the sequence of ids they would receive; an early exit inside a callback does not occur in the source.
- In `PropertyIndex.MatchingIn` ids are minted before the sort instead of after it; both orders are by position.
- Error texts and codes; two query paths are compared by their reasons only.
- JSON text: parsing starts from a value tree whose non-integer numbers are already doubles; GeoJSON ingestion, canonical bytes and serialization are not part of this model.
- Threads: what other threads do to a thread is interleaved with its operations, not inside one. So a shared fringe index is filled between operations; two threads inside `OnceLock::get_or_init` at once are not modelled, and would compute the same index.
- Lock fairness, poisoning and the clock; the two times of a report are parameters of a publication.
- Mask counting, index extraction, `bytes_per_*`, `is_bounded`, memory readers, dataset generators and the Node, Python and WebAssembly bindings: thin or straight-line code.
