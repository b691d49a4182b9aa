/** What threads ask of the engine and what they are answered, read off the turns of a schedule. */
module Calls {
  import opened Rules
  import opened Engine

  /** What a call asks for; a batch first asks for a snapshot. */
  datatype Ask = Replacement(rules: seq<Rule>, buildMs: nat, swapMs: nat) | ReportAsked | SnapshotAsked

  function AskOf(a: Action): seq<Ask> {
    match a
    case StartReplace(rules, buildMs, swapMs) => [Replacement(rules, buildMs, swapMs)]
    case StartCurrent => [ReportAsked]
    case StartSnapshot => [SnapshotAsked]
    case StartBatch(_) => [SnapshotAsked]
    case _ => []
  }

  function ButLast<T>(s: seq<T>): seq<T> { if s == [] then [] else s[..|s| - 1] }

  /** What thread `t` asked for in a schedule, in order, without the replaces whose build failed. */
  function Asks(schedule: seq<Turn>, t: nat): seq<Ask> {
    if schedule == [] then []
    else
      var before, last := Asks(schedule[..|schedule| - 1], t), schedule[|schedule| - 1];
      if last.thread != t then before
      else if last.action.BuildFails? then ButLast(before)
      else before + AskOf(last.action)
  }

  function RequestOf(p: Publication): Ask { Replacement(p.ruleset.rules, p.buildMs, p.swapMs) }

  function AnswerTo(e: Event): Ask {
    match e
    case Replaced(_, p, _) => RequestOf(p)
    case Current(_, _) => ReportAsked
    case Snapshot(_, _, _) => SnapshotAsked
  }

  /** What thread `t` was answered, in order. */
  function Answers(log: seq<Event>, t: nat): seq<Ask> {
    if log == [] then []
    else
      Answers(log[..|log| - 1], t)
      + if log[|log| - 1].thread == t then [AnswerTo(log[|log| - 1])] else []
  }

  /** What a thread at this position was not yet answered. */
  function Pending(pc: Pc): seq<Ask> {
    match pc
    case Idle => []
    case WantCurrent => [ReportAsked]
    case CopyCurrent => [ReportAsked]
    case WantSnapshot(_) => [SnapshotAsked]
    case CloneArc(_) => [SnapshotAsked]
    case DropState => []
    case DropRuleset => []
    case DropCurrent => []
    case DropSnapshot(_, _, _) => []
    case Serving(_, _, _, _) => []
    case _ => [RequestOf(pc.p)]
  }

  /** A step answers at most what was pending, to the thread that moves. */
  lemma StepAnswers(w: World, s: Shared, t: nat, pc: Pc, a: Action)
    requires Act(w, s, t, pc, a).Some?
    ensures var m := Act(w, s, t, pc, a).value;
      if m.shared.log == s.log then
        Pending(m.pc) == if a.BuildFails? then [] else Pending(pc) + AskOf(a)
      else
        && |m.shared.log| == |s.log| + 1 && m.shared.log[..|s.log|] == s.log && m.shared.log[|s.log|].thread == t
        && Pending(pc) == [AnswerTo(m.shared.log[|s.log|])] && Pending(m.pc) == AskOf(a) == [] && !a.BuildFails?
    ensures a.BuildFails? ==> |Pending(pc)| == 1
    ensures AskOf(a) != [] ==> Pending(pc) == []
  {
  }

  lemma StepAnswersThread(w: World, s: State, u: nat, a: Action, t: nat)
    requires Step(w, s, u, a).Some? && t < |s.threads|
    ensures var s' := Step(w, s, u, a).value;
      && |s'.threads| == |s.threads|
      && Answers(s'.shared.log, t) + Pending(s'.threads[t])
         == var before := Answers(s.shared.log, t) + Pending(s.threads[t]);
            if u != t then before else if a.BuildFails? then ButLast(before) else before + AskOf(a)
  {
    StepAnswers(w, s.shared, u, s.threads[u], a);
    hide Act, Pending, AskOf, AnswerTo;
  }

  /** In every interleaving each thread was answered what it asked for, once each, in order, but the call it is in. */
  lemma {:induction false} AskedIsAnswered(w: World, n: nat, first: Publication, schedule: seq<Turn>, t: nat)
    requires Run(w, Init(n, first), schedule).Some? && t < n
    ensures var s := Run(w, Init(n, first), schedule).value;
      |s.threads| == n && Asks(schedule, t) == Answers(s.shared.log, t) + Pending(s.threads[t])
    decreases |schedule|
  {
    if schedule != [] {
      var init, last := schedule[..|schedule| - 1], schedule[|schedule| - 1];
      AskedIsAnswered(w, n, first, init, t);
      StepAnswersThread(w, Run(w, Init(n, first), init).value, last.thread, last.action, t);
      hide Step, Pending, Answers, AskOf, Init;
    }
  }

  /** So an idle thread was answered everything, and any thread all but its last call. */
  lemma AnswersFollowCalls(w: World, n: nat, first: Publication, schedule: seq<Turn>, t: nat)
    requires Run(w, Init(n, first), schedule).Some? && t < n
    ensures var s := Run(w, Init(n, first), schedule).value;
      && |s.threads| == n
      && (s.threads[t].Idle? ==> Answers(s.shared.log, t) == Asks(schedule, t))
      && (Answers(s.shared.log, t) == Asks(schedule, t) || Answers(s.shared.log, t) == ButLast(Asks(schedule, t)))
  {
    AskedIsAnswered(w, n, first, schedule, t);
  }

  // ------------------------------------------------ publications

  /** Turn `j` makes publication `k`, counting the first ruleset as publication 0. */
  ghost predicate Publishes(w: World, s: State, schedule: seq<Turn>, j: nat, k: nat) {
    && j < |schedule|
    && Run(w, s, schedule[..j]).Some? && |Run(w, s, schedule[..j]).value.shared.history| == k
    && Run(w, s, schedule[..j + 1]).Some? && |Run(w, s, schedule[..j + 1]).value.shared.history| == k + 1
  }

  /** The last thing the thread of turn `j` asked for before that turn, and not in vain, is this publication. */
  ghost predicate RequestedAt(schedule: seq<Turn>, j: nat, p: Publication) {
    && j < |schedule|
    && Asks(schedule[..j], schedule[j].thread) != []
    && Last(Asks(schedule[..j], schedule[j].thread)) == RequestOf(p)
  }

  function Last<T>(s: seq<T>): T
    requires s != []
  {
    s[|s| - 1]
  }

  lemma StepPublishes(w: World, s: Shared, t: nat, pc: Pc, a: Action)
    requires Act(w, s, t, pc, a).Some?
    ensures var history := Act(w, s, t, pc, a).value.shared.history;
      || history == s.history
      || (|history| == |s.history| + 1 && history[..|s.history|] == s.history
          && Pending(pc) == [RequestOf(history[|s.history|])])
    ensures Act(w, s, t, pc, a).value.shared.nextId ==
      s.nextId + if a.StartReplace? || a.TakeIdentity? then 1 else 0
  {
  }

  /** What turn `j` published is read off the turns before it, so longer schedules agree. */
  lemma PublishesLonger(w: World, s: State, init: seq<Turn>, last: Turn, j: nat, k: nat, p: Publication)
    requires Publishes(w, s, init, j, k) && RequestedAt(init, j, p)
    ensures Publishes(w, s, init + [last], j, k) && RequestedAt(init + [last], j, p)
  {
    hide Run, Asks;
    assert init[..j] == (init + [last])[..j] && init[..j + 1] == (init + [last])[..j + 1];
  }

  lemma PublishesNow(w: World, s: State, init: seq<Turn>, last: Turn, k: nat, p: Publication)
    requires Run(w, s, init).Some? && |Run(w, s, init).value.shared.history| == k
    requires Run(w, s, init + [last]).Some? && |Run(w, s, init + [last]).value.shared.history| == k + 1
    requires Asks(init, last.thread) != [] && Last(Asks(init, last.thread)) == RequestOf(p)
    ensures Publishes(w, s, init + [last], |init|, k) && RequestedAt(init + [last], |init|, p)
  {
    hide Run, Asks;
    assert (init + [last])[..|init|] == init && (init + [last])[..|init| + 1] == init + [last];
  }

  /**
   * In every interleaving the first publication is the ruleset the engine was
   * made with, and every later one holds the rules its publishing thread was
   * last asked to replace by, with the times of that call.
   */
  lemma {:induction false} PublishedIsRequested(w: World, n: nat, first: Publication, schedule: seq<Turn>, k: nat)
    requires Run(w, Init(n, first), schedule).Some?
    requires k < |Run(w, Init(n, first), schedule).value.shared.history|
    ensures var p := Run(w, Init(n, first), schedule).value.shared.history[k];
      if k == 0 then p == first.(buildMs := 0)
      else exists j :: Publishes(w, Init(n, first), schedule, j, k) && RequestedAt(schedule, j, p)
    decreases |schedule|
  {
    if schedule != [] {
      var init, last := schedule[..|schedule| - 1], schedule[|schedule| - 1];
      assert schedule == init + [last];
      var s := Run(w, Init(n, first), init).value;
      RunThreads(w, n, first, init);
      StepPublishes(w, s.shared, last.thread, s.threads[last.thread], last.action);
      hide Act, Pending, Asks, Publishes, RequestedAt;
      var p := Run(w, Init(n, first), schedule).value.shared.history[k];
      if k < |s.shared.history| {
        PublishedIsRequested(w, n, first, init, k);
        if k > 0 {
          var j: nat :| Publishes(w, Init(n, first), init, j, k) && RequestedAt(init, j, p);
          PublishesLonger(w, Init(n, first), init, last, j, k, p);
        }
      } else {
        AskedIsAnswered(w, n, first, init, last.thread);
        PublishesNow(w, Init(n, first), init, last, k, p);
      }
    }
  }

  lemma {:induction false} RunThreads(w: World, n: nat, first: Publication, schedule: seq<Turn>)
    requires Run(w, Init(n, first), schedule).Some?
    ensures |Run(w, Init(n, first), schedule).value.threads| == n
    ensures |Run(w, Init(n, first), schedule).value.shared.history| >= 1
    decreases |schedule|
  {
    if schedule != [] {
      RunThreads(w, n, first, schedule[..|schedule| - 1]);
    }
  }

  /** The turn is a thread's call to replace the rules by those of `p`. */
  predicate CallsFor(turn: Turn, t: nat, p: Publication) {
    turn == Turn(t, StartReplace(p.ruleset.rules, p.buildMs, p.swapMs))
  }

  /** A request is a turn of the schedule, by the same thread. */
  lemma {:induction false} AskIsATurn(schedule: seq<Turn>, t: nat, p: Publication)
    requires RequestOf(p) in Asks(schedule, t)
    ensures exists i :: 0 <= i < |schedule| && CallsFor(schedule[i], t, p)
    decreases |schedule|
  {
    assert schedule != [];
    var init, last := schedule[..|schedule| - 1], schedule[|schedule| - 1];
    if RequestOf(p) in Asks(init, t) {
      AskIsATurn(init, t, p);
      var i :| 0 <= i < |init| && CallsFor(init[i], t, p);
      assert schedule[i] == init[i];
    } else {
      assert CallsFor(schedule[|schedule| - 1], t, p);
    }
  }

  // ------------------------------------------------ identities

  /** The builds of a schedule, here or elsewhere, well or badly. */
  function Builds(schedule: seq<Turn>): nat {
    if schedule == [] then 0
    else
      var last := schedule[|schedule| - 1].action;
      Builds(schedule[..|schedule| - 1]) + if last.StartReplace? || last.TakeIdentity? then 1 else 0
  }

  /** Every build takes one identity, the first one after that of the engine's first ruleset. */
  lemma {:induction false} CounterCounts(w: World, n: nat, first: Publication, schedule: seq<Turn>)
    requires Run(w, Init(n, first), schedule).Some?
    ensures Run(w, Init(n, first), schedule).value.shared.nextId == first.ruleset.id + 1 + Builds(schedule)
    decreases |schedule|
  {
    if schedule != [] {
      var init, last := schedule[..|schedule| - 1], schedule[|schedule| - 1];
      CounterCounts(w, n, first, init);
      var s := Run(w, Init(n, first), init).value;
      StepPublishes(w, s.shared, last.thread, s.threads[last.thread], last.action);
      hide Act, Init;
    }
  }

  // ------------------------------------------------ batches

  /** A batch as it was called: what it asks, and how many rulesets had been published. */
  datatype Sending = Sending(batch: Batch, since: nat)

  /** The batches thread `t` sent in a run, in order. */
  function Sent(w: World, s: State, schedule: seq<Turn>, t: nat): seq<Sending>
    requires Run(w, s, schedule).Some?
  {
    if schedule == [] then []
    else
      var init, last := schedule[..|schedule| - 1], schedule[|schedule| - 1];
      Sent(w, s, init, t)
      + if last.thread == t && last.action.StartBatch?
          then [Sending(last.action.batch, |Run(w, s, init).value.shared.history|)] else []
  }

  /** The batches that returned to thread `t`, in order. */
  function ServedTo(served: seq<Service>, t: nat): seq<Sending> {
    if served == [] then []
    else
      var e := served[|served| - 1];
      ServedTo(served[..|served| - 1], t) + if e.thread == t then [Sending(e.batch, e.since)] else []
  }

  function InFlight(pc: Pc): seq<Sending> {
    match pc
    case WantSnapshot(ForBatch(batch, since)) => [Sending(batch, since)]
    case CloneArc(ForBatch(batch, since)) => [Sending(batch, since)]
    case DropSnapshot(ForBatch(batch, since), _, _) => [Sending(batch, since)]
    case Serving(batch, since, _, _) => [Sending(batch, since)]
    case _ => []
  }

  lemma StepServes(w: World, s: Shared, t: nat, pc: Pc, a: Action)
    requires Act(w, s, t, pc, a).Some?
    ensures var m := Act(w, s, t, pc, a).value;
      if m.shared.served == s.served then
        InFlight(m.pc) == InFlight(pc) + if a.StartBatch? then [Sending(a.batch, |s.history|)] else []
      else
        && |m.shared.served| == |s.served| + 1 && m.shared.served[..|s.served|] == s.served
        && var e := m.shared.served[|s.served|];
          && e.thread == t && e.until == |s.history|
          && InFlight(pc) == [Sending(e.batch, e.since)] && InFlight(m.pc) == [] && !a.StartBatch?
  {
  }

  lemma StepServesThread(w: World, s: State, u: nat, a: Action, t: nat)
    requires Step(w, s, u, a).Some? && t < |s.threads|
    ensures var s' := Step(w, s, u, a).value;
      && |s'.threads| == |s.threads|
      && ServedTo(s'.shared.served, t) + InFlight(s'.threads[t])
         == ServedTo(s.shared.served, t) + InFlight(s.threads[t])
            + if u == t && a.StartBatch? then [Sending(a.batch, |s.shared.history|)] else []
  {
    StepServes(w, s.shared, u, s.threads[u], a);
    hide Act, InFlight;
  }

  /** Batches return to the thread that sent them, once each and in order, but for one it is in. */
  lemma {:induction false} SentIsServed(w: World, n: nat, first: Publication, schedule: seq<Turn>, t: nat)
    requires Run(w, Init(n, first), schedule).Some? && t < n
    ensures var s := Run(w, Init(n, first), schedule).value;
      |s.threads| == n && Sent(w, Init(n, first), schedule, t) == ServedTo(s.shared.served, t) + InFlight(s.threads[t])
    decreases |schedule|
  {
    if schedule != [] {
      var init, last := schedule[..|schedule| - 1], schedule[|schedule| - 1];
      SentIsServed(w, n, first, init, t);
      StepServesThread(w, Run(w, Init(n, first), init).value, last.thread, last.action, t);
      hide Step, InFlight, ServedTo, Init;
    }
  }

  // ------------------------------------------------ as turns

  lemma {:induction false} AnswersHave(log: seq<Event>, i: nat)
    requires i < |log|
    ensures AnswerTo(log[i]) in Answers(log, log[i].thread)
    decreases |log|
  {
    if i < |log| - 1 {
      AnswersHave(log[..|log| - 1], i);
    }
  }

  /** A replace that returned was called by the same thread with the rules it published. */
  lemma ReplacedIsCalled(w: World, n: nat, first: Publication, schedule: seq<Turn>, l: nat)
    requires Run(w, Init(n, first), schedule).Some?
    requires l < |Run(w, Init(n, first), schedule).value.shared.log|
    requires Run(w, Init(n, first), schedule).value.shared.log[l].Replaced?
    ensures var e := Run(w, Init(n, first), schedule).value.shared.log[l];
      exists i :: 0 <= i < |schedule| && CallsFor(schedule[i], e.thread, e.p)
  {
    var s := Run(w, Init(n, first), schedule).value;
    RunThreads(w, n, first, schedule);
    EveryRunKnowsOwners(w, n, first, schedule);
    var e := s.shared.log[l];
    AnswersHave(s.shared.log, l);
    AskedIsAnswered(w, n, first, schedule, e.thread);
    AskIsATurn(schedule, e.thread, e.p);
  }

  /** What was logged or returned belongs to one of the threads. */
  ghost predicate OwnersKnown(s: State) {
    && (forall i :: 0 <= i < |s.shared.log| ==> s.shared.log[i].thread < |s.threads|)
    && (forall i :: 0 <= i < |s.shared.served| ==> s.shared.served[i].thread < |s.threads|)
  }

  lemma StepOwners(w: World, s: State, t: nat, a: Action)
    requires OwnersKnown(s) && Step(w, s, t, a).Some?
    ensures OwnersKnown(Step(w, s, t, a).value)
  {
    StepAnswers(w, s.shared, t, s.threads[t], a);
    StepServes(w, s.shared, t, s.threads[t], a);
    hide Act, Pending, InFlight, AskOf, AnswerTo;
  }

  lemma {:induction false} EveryRunKnowsOwners(w: World, n: nat, first: Publication, schedule: seq<Turn>)
    requires Run(w, Init(n, first), schedule).Some?
    ensures OwnersKnown(Run(w, Init(n, first), schedule).value)
    decreases |schedule|
  {
    if schedule != [] {
      hide Step, OwnersKnown;
      var init, last := schedule[..|schedule| - 1], schedule[|schedule| - 1];
      EveryRunKnowsOwners(w, n, first, init);
      StepOwners(w, Run(w, Init(n, first), init).value, last.thread, last.action);
    }
  }

  /** The rules of a publication were given to the engine at its start or in a replace some thread called. */
  ghost predicate AskedFor(first: Publication, schedule: seq<Turn>, p: Publication) {
    || p.ruleset == first.ruleset
    || exists i :: 0 <= i < |schedule| && CallsFor(schedule[i], schedule[i].thread, p)
  }

  lemma PublishedIsAskedFor(w: World, n: nat, first: Publication, schedule: seq<Turn>, k: nat)
    requires Run(w, Init(n, first), schedule).Some?
    requires k < |Run(w, Init(n, first), schedule).value.shared.history|
    ensures AskedFor(first, schedule, Run(w, Init(n, first), schedule).value.shared.history[k])
  {
    PublishedIsRequested(w, n, first, schedule, k);
    var p := Run(w, Init(n, first), schedule).value.shared.history[k];
    hide Run, Asks;
    if k > 0 {
      var j: nat :| Publishes(w, Init(n, first), schedule, j, k) && RequestedAt(schedule, j, p);
      AskIsATurn(schedule[..j], schedule[j].thread, p);
      var i: nat :| i < j && CallsFor(schedule[..j][i], schedule[j].thread, p);
      assert CallsFor(schedule[i], schedule[i].thread, p);
    }
  }

  /** The turn is a thread's call of the batch, when so many rulesets had been published. */
  ghost predicate SendsAt(w: World, s: State, schedule: seq<Turn>, i: nat, t: nat, sending: Sending) {
    && i < |schedule| && schedule[i] == Turn(t, StartBatch(sending.batch))
    && Run(w, s, schedule[..i]).Some? && |Run(w, s, schedule[..i]).value.shared.history| == sending.since
  }

  lemma {:induction false} SentIsATurn(w: World, s: State, schedule: seq<Turn>, t: nat, sending: Sending)
    requires Run(w, s, schedule).Some? && sending in Sent(w, s, schedule, t)
    ensures exists i :: SendsAt(w, s, schedule, i, t, sending)
    decreases |schedule|
  {
    hide Step;
    assert schedule != [];
    var init, last := schedule[..|schedule| - 1], schedule[|schedule| - 1];
    if sending in Sent(w, s, init, t) {
      SentIsATurn(w, s, init, t, sending);
      var i: nat :| SendsAt(w, s, init, i, t, sending);
      hide Run, Sent;
      assert init[..i] == schedule[..i] && schedule[i] == init[i];
      assert SendsAt(w, s, schedule, i, t, sending);
    } else {
      assert schedule[..|init|] == init;
      assert SendsAt(w, s, schedule, |init|, t, sending);
    }
  }

  lemma {:induction false} ServedHave(served: seq<Service>, i: nat)
    requires i < |served|
    ensures Sending(served[i].batch, served[i].since) in ServedTo(served, served[i].thread)
    decreases |served|
  {
    if i < |served| - 1 {
      ServedHave(served[..|served| - 1], i);
    }
  }

  /** A batch that returned was called by the same thread, when as many rulesets had been published as it says. */
  lemma ServedIsCalled(w: World, n: nat, first: Publication, schedule: seq<Turn>, l: nat)
    requires Run(w, Init(n, first), schedule).Some?
    requires l < |Run(w, Init(n, first), schedule).value.shared.served|
    ensures var e := Run(w, Init(n, first), schedule).value.shared.served[l];
      exists i :: SendsAt(w, Init(n, first), schedule, i, e.thread, Sending(e.batch, e.since))
  {
    var s := Run(w, Init(n, first), schedule).value;
    RunThreads(w, n, first, schedule);
    EveryRunKnowsOwners(w, n, first, schedule);
    var e := s.shared.served[l];
    ServedHave(s.shared.served, l);
    SentIsServed(w, n, first, schedule, e.thread);
    SentIsATurn(w, Init(n, first), schedule, e.thread, Sending(e.batch, e.since));
  }
}
