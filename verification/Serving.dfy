/** Batches sent through the engine: its protocol and a thread's evaluation put together. */
module Serving {
  import opened Geometry
  import opened Ruleset
  import opened Semantics
  import opened Session
  import opened Engine
  import opened Calls

  /** Builds succeed on buildable rules, and a batch answers what a thread that serves it answers. */
  ghost function WorldOf(geo: Geo): World {
    World(
      (p: Publication) => Buildable(geo, p.ruleset.rules),
      (p: Publication, b: Batch) => BatchAnswers(geo, p.ruleset, b.query, b.path, b.candidates))
  }

  /** The thread shares the engine's counter of identities, and has met its rulesets here or elsewhere. */
  ghost predicate InProcess(thread: Thread, s: State)
    reads thread, thread.ids
  {
    && thread.CurrentView().nextId == s.shared.nextId
    && forall view :: view in thread.CurrentView().rulesets ==> Met(s, view)
  }

  /** What every reachable state of the engine has. */
  ghost predicate Reachable(geo: Geo, s: State) {
    IdentitiesDiffer(s) && BatchesTrue(WorldOf(geo), s)
  }

  lemma EveryRunIsReachable(geo: Geo, n: nat, first: Publication, schedule: seq<Turn>)
    requires Run(WorldOf(geo), Init(n, first), schedule).Some? && Buildable(geo, first.ruleset.rules)
    ensures Reachable(geo, Run(WorldOf(geo), Init(n, first), schedule).value)
  {
    hide Run, Buildable;
    PublishedIdentitiesDiffer(WorldOf(geo), n, first, schedule);
    EveryRunKeepsBatches(WorldOf(geo), n, first, schedule);
  }

  /**
   * In any reachable state of the engine, a sound thread of the process gives
   * the engine's answers to a batch on any published ruleset, whether it has
   * met that ruleset before or not, and stands in the process as before.
   */
  method ServeBatch(thread: Thread, ghost s: State, p: Publication, kind: IndexKind, warm: bool, batch: Batch)
    returns (answers: seq<Answer>)
    requires thread.Valid() && kind.Lawful()
    requires Reachable(thread.geo, s) && InProcess(thread, s) && p in s.shared.history
    requires forall c :: c in batch.candidates ==> Intake(thread.geo, c)
    modifies thread, thread.repr
    ensures thread.Valid() && fresh(thread.repr - old(thread.repr)) && InProcess(thread, s)
    ensures answers == WorldOf(thread.geo).answers(p, batch)
  {
    hide Thread.Valid, Buildable;
    Servable(thread, s, p);
    answers := thread.Serve(p.ruleset, kind, warm, batch.query, batch.path, batch.candidates);
  }

  lemma Servable(thread: Thread, s: State, p: Publication)
    requires Reachable(thread.geo, s) && InProcess(thread, s) && p in s.shared.history
    ensures Buildable(thread.geo, p.ruleset.rules) && p.ruleset.id < thread.ids.next && Met(s, p.ruleset)
    ensures forall r :: r in thread.rulesets && r.id == p.ruleset.id ==> r.rules == p.ruleset.rules
  {
    hide Buildable;
    var i :| 0 <= i < |s.shared.history| && s.shared.history[i] == p;
    PublishedIsMet(s, i);
    assert WorldOf(thread.geo).builds(s.shared.history[i]);
    forall r | r in thread.rulesets && r.id == p.ruleset.id
      ensures r.rules == p.ruleset.rules
    {
      var k :| 0 <= k < |thread.rulesets| && thread.rulesets[k] == r;
      assert thread.CurrentView().rulesets[k] == ViewOf(r);
      assert Met(s, ViewOf(r));
    }
  }

  /**
   * In every interleaving with replaces, a batch sent through the engine
   * answers each candidate by definition over one publication, which was the
   * newest at some moment between the batch's call and its return, and holds
   * the engine's first rules or rules some thread called to replace by.
   */
  lemma BatchesAnswerByDefinition(geo: Geo, n: nat, first: Publication, schedule: seq<Turn>, j: nat, k: nat)
    requires Run(WorldOf(geo), Init(n, first), schedule).Some? && Buildable(geo, first.ruleset.rules)
    requires j < |Run(WorldOf(geo), Init(n, first), schedule).value.shared.served|
    requires var e := Run(WorldOf(geo), Init(n, first), schedule).value.shared.served[j];
      k < |e.batch.candidates| && LawsFor(geo, HandleView(e.arc.ruleset, e.batch.query), e.batch.candidates[k])
    ensures var s := Run(WorldOf(geo), Init(n, first), schedule).value;
      var e := s.shared.served[j];
      && (exists i :: SendsAt(WorldOf(geo), Init(n, first), schedule, i, e.thread, Sending(e.batch, e.since)))
      && 1 <= e.since <= e.number <= e.until <= |s.shared.history| && e.arc == s.shared.history[e.number - 1]
      && AskedFor(first, schedule, e.arc)
      && k < |e.answers|
      && e.answers[k] == Defined(geo, HandleView(e.arc.ruleset, e.batch.query), e.batch.path, e.batch.candidates[k])
  {
    hide Run, Buildable, LawsFor, Evaluated, Defined, SendsAt, AskedFor;
    EveryRunKeepsBatches(WorldOf(geo), n, first, schedule);
    var e := Run(WorldOf(geo), Init(n, first), schedule).value.shared.served[j];
    EvaluatedIsDefined(geo, HandleView(e.arc.ruleset, e.batch.query), e.batch.path, e.batch.candidates[k]);
    ServedIsCalled(WorldOf(geo), n, first, schedule, j);
    PublishedIsAskedFor(WorldOf(geo), n, first, schedule, e.number - 1);
  }
}
