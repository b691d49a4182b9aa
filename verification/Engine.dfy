/** The engine's replacement protocol: one read-write lock, one mutex, any number of threads, small steps. */
module Engine {
  import opened Prelude
  import opened Rules
  import opened Query
  import opened Semantics
  import opened Session

  /** A compiled ruleset as published: its identity and rules, and the two times of its report. */
  datatype Publication = Publication(ruleset: RulesetView, buildMs: nat, swapMs: nat) {
    function Len(): nat { |ruleset.rules| }
  }

  /** A batch call: `query`, `query_mask`, `resolve` or `resolve_mask`. */
  datatype Batch = Batch(query: Query, path: Path, candidates: seq<Candidate>)

  /** Which builds succeed, and what a batch answers on a publication. */
  datatype World = World(builds: Publication -> bool, answers: (Publication, Batch) -> seq<Answer>)

  /** What a snapshot is taken for: the caller, or a batch called when `since` rulesets had been published. */
  datatype Use = Plain | ForBatch(batch: Batch, since: nat)

  datatype Report = Report(version: nat, ruleCount: nat, buildMs: nat, swapMs: nat)

  /**
   * Where a thread stands. `replace` builds, takes the ruleset lock, takes the
   * state lock, writes the Arc, writes the report field by field, copies it,
   * and drops the guards in reverse order of declaration. A batch takes a
   * snapshot and evaluates on it after letting the lock go.
   */
  datatype Pc =
    | Idle
    | Building(p: Publication)
    | WantRuleset(p: Publication)
    | WantState(p: Publication)
    | WriteArc(p: Publication)
    | WriteVersion(p: Publication)
    | WriteCount(p: Publication)
    | WriteDuration(p: Publication)
    | WriteTime(p: Publication)
    | CopyReport(p: Publication)
    | DropState
    | DropRuleset
    | WantCurrent
    | CopyCurrent
    | DropCurrent
    | WantSnapshot(use: Use)
    | CloneArc(use: Use)
    | DropSnapshot(use: Use, arc: Publication, number: nat)
    | Serving(batch: Batch, since: nat, arc: Publication, number: nat)

  /**
   * What an operation returns, logged at the step that reads it; a snapshot's version is the
   * number of its publication.
   */
  datatype Event =
    | Replaced(thread: nat, p: Publication, report: Report)
    | Current(thread: nat, report: Report)
    | Snapshot(thread: nat, arc: Publication, number: nat)
  {
    function Version(): nat {
      if Snapshot? then number else report.version
    }
  }

  /** A returned batch: the publications there were at its call and at its return, the one it used, and its answers. */
  datatype Service = Service(
    thread: nat, batch: Batch, since: nat, until: nat, arc: Publication, number: nat, answers: seq<Answer>)

  /**
   * What threads share: the two locks and what they guard, the process's
   * counter of ruleset identities, and the record of the run: what was
   * published, what was observed and which batches returned.
   */
  datatype Shared = Shared(
    ruleset: Publication, writer: Option<nat>, readers: set<nat>,
    report: Report, mutex: Option<nat>, nextId: nat,
    history: seq<Publication>, log: seq<Event>, served: seq<Service>)

  datatype State = State(shared: Shared, threads: seq<Pc>)

  datatype Action =
    | StartReplace(rules: seq<Rule>, buildMs: nat, swapMs: nat)
    | StartCurrent | StartSnapshot | StartBatch(batch: Batch) | TakeIdentity | BuildFails | Proceed

  /** A new engine: version 1, and no build time, because the ruleset was built before it. */
  function Init(n: nat, first: Publication): State {
    var p := first.(buildMs := 0);
    State(
      Shared(p, None, {}, Report(1, p.Len(), 0, p.swapMs), None, p.ruleset.id + 1, [p], [], []),
      seq(n, _ => Idle))
  }

  datatype Moved = Moved(shared: Shared, pc: Pc)

  /**
   * What thread `t` does at `pc`, or `None` when that action is not enabled. A
   * build takes the next identity before anything else, also one that fails and
   * one for another engine or for none (`TakeIdentity`).
   */
  function Act(w: World, s: Shared, t: nat, pc: Pc, a: Action): Option<Moved> {
    match pc
    case Idle =>
      (match a
       case StartReplace(rules, buildMs, swapMs) =>
         Some(Moved(s.(nextId := s.nextId + 1), Building(Publication(RulesetView(s.nextId, rules), buildMs, swapMs))))
       case TakeIdentity => Some(Moved(s.(nextId := s.nextId + 1), Idle))
       case StartCurrent => Some(Moved(s, WantCurrent))
       case StartSnapshot => Some(Moved(s, WantSnapshot(Plain)))
       case StartBatch(batch) => Some(Moved(s, WantSnapshot(ForBatch(batch, |s.history|))))
       case _ => None)
    case Building(p) =>
      if a.BuildFails? && !w.builds(p) then Some(Moved(s, Idle))
      else if a.Proceed? && w.builds(p) then Some(Moved(s, WantRuleset(p)))
      else None
    case _ => if a.Proceed? then Proceeds(w, s, t, pc) else None
  }

  /** What a thread in the middle of an operation does next, or `None` when it has to wait. */
  function Proceeds(w: World, s: Shared, t: nat, pc: Pc): Option<Moved> {
    match pc
    case WantRuleset(p) =>
      if s.writer.None? && s.readers == {} then Some(Moved(s.(writer := Some(t)), WantState(p))) else None
    case WantState(p) =>
      if s.mutex.None? then Some(Moved(s.(mutex := Some(t)), WriteArc(p))) else None
    case WriteArc(p) => Some(Moved(s.(ruleset := p, history := s.history + [p]), WriteVersion(p)))
    case WriteVersion(p) =>
      Some(Moved(s.(report := s.report.(version := s.report.version + 1)), WriteCount(p)))
    case WriteCount(p) => Some(Moved(s.(report := s.report.(ruleCount := p.Len())), WriteDuration(p)))
    case WriteDuration(p) => Some(Moved(s.(report := s.report.(buildMs := p.buildMs)), WriteTime(p)))
    case WriteTime(p) => Some(Moved(s.(report := s.report.(swapMs := p.swapMs)), CopyReport(p)))
    case CopyReport(p) => Some(Moved(s.(log := s.log + [Replaced(t, p, s.report)]), DropState))
    case DropState => Some(Moved(s.(mutex := None), DropRuleset))
    case DropRuleset => Some(Moved(s.(writer := None), Idle))
    case WantCurrent =>
      if s.mutex.None? then Some(Moved(s.(mutex := Some(t)), CopyCurrent)) else None
    case CopyCurrent => Some(Moved(s.(log := s.log + [Current(t, s.report)]), DropCurrent))
    case DropCurrent => Some(Moved(s.(mutex := None), Idle))
    case WantSnapshot(use) =>
      if s.writer.None? then Some(Moved(s.(readers := s.readers + {t}), CloneArc(use))) else None
    case CloneArc(use) =>
      var number := |s.history|;
      Some(Moved(s.(log := s.log + [Snapshot(t, s.ruleset, number)]), DropSnapshot(use, s.ruleset, number)))
    case DropSnapshot(use, arc, number) =>
      var next := match use case Plain => Idle case ForBatch(batch, since) => Serving(batch, since, arc, number);
      Some(Moved(s.(readers := s.readers - {t}), next))
    case Serving(batch, since, arc, number) =>
      Some(Moved(s.(served := s.served + [Served(w, t, batch, since, |s.history|, arc, number)]), Idle))
    case _ => None
  }

  function Step(w: World, s: State, t: nat, a: Action): Option<State> {
    if t >= |s.threads| then None
    else
      match Act(w, s.shared, t, s.threads[t], a)
      case Some(moved) => Some(State(moved.shared, s.threads[t := moved.pc]))
      case None => None
  }

  /** The batch's return: a thread answers it on the snapshot's ruleset. */
  function Served(w: World, t: nat, batch: Batch, since: nat, until: nat, arc: Publication, number: nat): Service {
    Service(t, batch, since, until, arc, number, w.answers(arc, batch))
  }

  datatype Turn = Turn(thread: nat, action: Action)

  /** The state after a schedule; `None` when some turn was not enabled. */
  function Run(w: World, s: State, schedule: seq<Turn>): Option<State> {
    if schedule == [] then Some(s)
    else
      match Run(w, s, schedule[..|schedule| - 1])
      case None => None
      case Some(before) => Step(w, before, schedule[|schedule| - 1].thread, schedule[|schedule| - 1].action)
  }

  // ------------------------------------------------ the invariant

  predicate HoldsWrite(pc: Pc) {
    pc.WantState? || pc.WriteArc? || Writing(pc) || pc.DropState? || pc.DropRuleset?
  }

  predicate HoldsMutex(pc: Pc) {
    pc.WriteArc? || Writing(pc) || pc.DropState? || pc.CopyCurrent? || pc.DropCurrent?
  }

  predicate HoldsRead(pc: Pc) { pc.CloneArc? || pc.DropSnapshot? }

  /** The Arc is published and the report is not yet returned. */
  predicate Writing(pc: Pc) {
    pc.WriteVersion? || pc.WriteCount? || pc.WriteDuration? || pc.WriteTime? || pc.CopyReport?
  }

  /** Each lock is held by exactly the threads whose position says so. */
  ghost predicate LocksHeld(s: State) {
    && (forall t :: 0 <= t < |s.threads| ==>
          && (HoldsWrite(s.threads[t]) <==> s.shared.writer == Some(t))
          && (HoldsMutex(s.threads[t]) <==> s.shared.mutex == Some(t))
          && (HoldsRead(s.threads[t]) <==> t in s.shared.readers))
    && (s.shared.writer.Some? ==> s.shared.writer.value < |s.threads| && s.shared.readers == {})
    && (s.shared.mutex.Some? ==> s.shared.mutex.value < |s.threads|)
    && (forall t :: t in s.shared.readers ==> t < |s.threads|)
  }

  /** The report that belongs to publication `v`. */
  function ReportOf(history: seq<Publication>, v: nat): Report
    requires 1 <= v <= |history|
  {
    Report(v, history[v - 1].Len(), history[v - 1].buildMs, history[v - 1].swapMs)
  }

  /** How far the writer holding the mutex has brought the report; `None` when no writer is in between. */
  function Holder(s: State): Pc
    requires LocksHeld(s)
  {
    if s.shared.mutex.Some? then s.threads[s.shared.mutex.value] else Idle
  }

  ghost predicate ReportTracks(history: seq<Publication>, report: Report, holder: Pc) {
    var n := |history|;
    && n >= 1
    && (Writing(holder) ==> n >= 2 && holder.p == history[n - 1])
    && match holder
       case WriteVersion(p) => report == ReportOf(history, n - 1)
       case WriteCount(p) => report == ReportOf(history, n - 1).(version := n)
       case WriteDuration(p) => report == ReportOf(history, n - 1).(version := n, ruleCount := p.Len())
       case WriteTime(p) => report == ReportOf(history, n).(swapMs := ReportOf(history, n - 1).swapMs)
       case _ => report == ReportOf(history, n)
  }

  /** An observation shows one publication whole: its number with its own Arc, or with its own report. */
  ghost predicate EventTrue(history: seq<Publication>, e: Event) {
    && 1 <= e.Version() <= |history|
    && (e.Snapshot? ==> e.arc == history[e.Version() - 1])
    && (!e.Snapshot? ==> e.report == ReportOf(history, e.Version()))
    && (e.Replaced? ==> e.p == history[e.Version() - 1])
  }

  /** Observed versions never go back. */
  ghost predicate Monotone(log: seq<Event>) {
    forall i, j :: 0 <= i < j < |log| ==> log[i].Version() <= log[j].Version()
  }

  /** The versions returned by `replace`, in order. */
  function ReplaceVersions(log: seq<Event>): seq<nat> {
    if log == [] then []
    else
      ReplaceVersions(log[..|log| - 1])
      + if log[|log| - 1].Replaced? then [log[|log| - 1].report.version] else []
  }

  ghost predicate CountsUp(versions: seq<nat>, published: int) {
    |versions| == published - 1 && forall k :: 0 <= k < |versions| ==> versions[k] == k + 2
  }

  ghost predicate Inv(s: State) {
    && LocksHeld(s)
    && |s.shared.history| >= 1 && s.shared.ruleset == s.shared.history[|s.shared.history| - 1]
    && ReportTracks(s.shared.history, s.shared.report, Holder(s))
    && (forall i :: 0 <= i < |s.shared.log| ==> EventTrue(s.shared.history, s.shared.log[i]))
    && Monotone(s.shared.log)
    && CountsUp(ReplaceVersions(s.shared.log), |s.shared.history| - if Writing(Holder(s)) then 1 else 0)
  }

  /** An action at `pc` takes only free locks and records exactly the locks its next position holds. */
  lemma ActLocks(w: World, s: Shared, t: nat, pc: Pc, a: Action)
    requires Act(w, s, t, pc, a).Some? && (HoldsWrite(pc) ==> s.writer == Some(t))
    requires (HoldsMutex(pc) ==> s.mutex == Some(t)) && (HoldsRead(pc) <==> t in s.readers)
    ensures var m := Act(w, s, t, pc, a).value;
      && m.shared.writer == (if HoldsWrite(m.pc) then Some(t) else if HoldsWrite(pc) then None else s.writer)
      && m.shared.mutex == (if HoldsMutex(m.pc) then Some(t) else if HoldsMutex(pc) then None else s.mutex)
      && m.shared.readers == (if HoldsRead(m.pc) then s.readers + {t} else s.readers - {t})
      && (HoldsWrite(m.pc) && !HoldsWrite(pc) ==> s.writer.None? && s.readers == {})
      && (HoldsMutex(m.pc) && !HoldsMutex(pc) ==> s.mutex.None?)
      && (HoldsRead(m.pc) && !HoldsRead(pc) ==> s.writer.None?)
  {
  }

  lemma LocksStep(w: World, s: State, t: nat, a: Action)
    requires LocksHeld(s) && Step(w, s, t, a).Some?
    ensures LocksHeld(Step(w, s, t, a).value)
  {
    hide Act;
    ActLocks(w, s.shared, t, s.threads[t], a);
  }

  /** A step outside the mutex leaves the holder and the report alone. */
  lemma OutsideStep(w: World, s: State, t: nat, a: Action)
    requires Inv(s) && Step(w, s, t, a).Some? && !s.threads[t].CloneArc?
    requires !HoldsMutex(s.threads[t]) && !HoldsMutex(Step(w, s, t, a).value.threads[t])
    ensures Inv(Step(w, s, t, a).value)
  {
    hide ReportTracks, EventTrue, Monotone, ReplaceVersions;
    LocksStep(w, s, t, a);
  }

  lemma MutexStep(w: World, s: State, t: nat, a: Action)
    requires Inv(s) && Step(w, s, t, a).Some?
    requires var pc := s.threads[t]; pc.WantState? || pc.WantCurrent? || pc.DropState? || pc.DropCurrent?
    ensures Inv(Step(w, s, t, a).value)
  {
    hide EventTrue, Monotone, ReplaceVersions;
    LocksStep(w, s, t, a);
  }

  /** Each field write brings the report one field closer to the new publication. */
  lemma WriteFieldStep(w: World, s: State, t: nat, a: Action)
    requires Inv(s) && Step(w, s, t, a).Some? && Writing(s.threads[t]) && !s.threads[t].CopyReport?
    ensures Inv(Step(w, s, t, a).value)
  {
    hide EventTrue, Monotone, ReplaceVersions;
    LocksStep(w, s, t, a);
    assert Holder(s) == s.threads[t];
    assert Holder(Step(w, s, t, a).value) == Step(w, s, t, a).value.threads[t];
  }

  lemma LogNext(s: State, e: Event)
    requires forall i :: 0 <= i < |s.shared.log| ==> EventTrue(s.shared.history, s.shared.log[i])
    requires Monotone(s.shared.log) && EventTrue(s.shared.history, e) && e.Version() == |s.shared.history|
    ensures forall i :: 0 <= i < |s.shared.log + [e]| ==> EventTrue(s.shared.history, (s.shared.log + [e])[i])
    ensures Monotone(s.shared.log + [e])
    ensures ReplaceVersions(s.shared.log + [e])
      == ReplaceVersions(s.shared.log) + if e.Replaced? then [e.report.version] else []
  {
    assert (s.shared.log + [e])[..|s.shared.log|] == s.shared.log;
  }

  /** A reading step sees the newest publication, because no writer is in between. */
  lemma ReadStep(w: World, s: State, t: nat, a: Action)
    requires Inv(s) && Step(w, s, t, a).Some?
    requires s.threads[t].CopyReport? || s.threads[t].CopyCurrent? || s.threads[t].CloneArc?
    ensures Inv(Step(w, s, t, a).value)
  {
    hide Monotone, ReplaceVersions;
    LocksStep(w, s, t, a);
    var e := Step(w, s, t, a).value.shared.log[|s.shared.log|];
    LogNext(s, e);
  }

  lemma PublishStep(w: World, s: State, t: nat, a: Action)
    requires Inv(s) && Step(w, s, t, a).Some? && s.threads[t].WriteArc?
    ensures Inv(Step(w, s, t, a).value)
  {
    hide Monotone, ReplaceVersions;
    LocksStep(w, s, t, a);
    var next := Step(w, s, t, a).value;
    forall i | 0 <= i < |s.shared.log|
      ensures EventTrue(next.shared.history, s.shared.log[i])
    {
    }
  }

  lemma StepKeepsInv(w: World, s: State, t: nat, a: Action)
    requires Inv(s) && Step(w, s, t, a).Some?
    ensures Inv(Step(w, s, t, a).value)
  {
    hide Inv;
    if s.threads[t].WriteArc? {
      PublishStep(w, s, t, a);
    } else if s.threads[t].CopyReport? || s.threads[t].CopyCurrent? || s.threads[t].CloneArc? {
      ReadStep(w, s, t, a);
    } else if Writing(s.threads[t]) {
      WriteFieldStep(w, s, t, a);
    } else if HoldsMutex(s.threads[t]) || s.threads[t].WantState? || s.threads[t].WantCurrent? {
      MutexStep(w, s, t, a);
    } else {
      OutsideStep(w, s, t, a);
    }
  }

  // ------------------------------------------------ every interleaving

  /** The invariant holds in every state every schedule reaches. */
  lemma {:induction false} EveryRunKeepsInv(w: World, n: nat, first: Publication, schedule: seq<Turn>)
    requires Run(w, Init(n, first), schedule).Some?
    ensures Inv(Run(w, Init(n, first), schedule).value)
    decreases |schedule|
  {
    if schedule != [] {
      var init, last := schedule[..|schedule| - 1], schedule[|schedule| - 1];
      EveryRunKeepsInv(w, n, first, init);
      StepKeepsInv(w, Run(w, Init(n, first), init).value, last.thread, last.action);
    }
  }

  /**
   * In every interleaving: an observation shows one publication whole, never a
   * torn report; later observations never show an older version, so `current`
   * then `snapshot` is never an older ruleset and `snapshot` then `current` is
   * never an older report; and the successful replaces return 2, 3, 4, ...
   */
  lemma ObservationsLinear(w: World, n: nat, first: Publication, schedule: seq<Turn>, i: nat, j: nat)
    requires Run(w, Init(n, first), schedule).Some?
    requires i <= j < |Run(w, Init(n, first), schedule).value.shared.log|
    ensures var s := Run(w, Init(n, first), schedule).value;
      && EventTrue(s.shared.history, s.shared.log[i])
      && s.shared.log[i].Version() <= s.shared.log[j].Version()
      && forall k :: 0 <= k < |ReplaceVersions(s.shared.log)| ==> ReplaceVersions(s.shared.log)[k] == k + 2
  {
    EveryRunKeepsInv(w, n, first, schedule);
  }

  /**
   * With no replace between publishing and returning, the report is the newest publication's
   * and counts the returned replaces.
   */
  lemma QuiescentReport(w: World, n: nat, first: Publication, schedule: seq<Turn>)
    requires Run(w, Init(n, first), schedule).Some?
    requires forall t :: 0 <= t < |Run(w, Init(n, first), schedule).value.threads| ==>
      !Writing(Run(w, Init(n, first), schedule).value.threads[t])
    ensures var s := Run(w, Init(n, first), schedule).value;
      && |s.shared.history| >= 1 && s.shared.report == ReportOf(s.shared.history, |s.shared.history|)
      && s.shared.report.version == |ReplaceVersions(s.shared.log)| + 1
  {
    EveryRunKeepsInv(w, n, first, schedule);
  }

  /** The builder's own next step is the end of its build, well or badly; any other thread's is `Proceed`. */
  ghost predicate CanStep(w: World, s: State, t: nat) {
    Step(w, s, t, Proceed).Some? || Step(w, s, t, BuildFails).Some?
  }

  /**
   * What a thread in the middle of an operation waits for: a writer for the
   * readers and the writer before it, a report for whoever holds the mutex, a
   * snapshot for a writer only, so snapshots never wait for one another.
   */
  lemma WaitsOnlyFor(w: World, s: State, t: nat)
    requires t < |s.threads| && !s.threads[t].Idle?
    ensures CanStep(w, s, t) <==> !Waits(s.shared, s.threads[t])
  {
  }

  predicate Waits(s: Shared, pc: Pc) {
    || (pc.WantRuleset? && (s.writer.Some? || s.readers != {}))
    || ((pc.WantState? || pc.WantCurrent?) && s.mutex.Some?)
    || (pc.WantSnapshot? && s.writer.Some?)
  }

  /** No deadlock: whenever some thread is in the middle of an operation, some thread's next step is enabled. */
  lemma SomeThreadCanStep(w: World, n: nat, first: Publication, schedule: seq<Turn>, busy: nat)
    requires Run(w, Init(n, first), schedule).Some?
    requires busy < |Run(w, Init(n, first), schedule).value.threads|
    requires !Run(w, Init(n, first), schedule).value.threads[busy].Idle?
    ensures exists t: nat :: CanStep(w, Run(w, Init(n, first), schedule).value, t)
  {
    EveryRunKeepsInv(w, n, first, schedule);
    var s := Run(w, Init(n, first), schedule).value;
    hide Run;
    if s.shared.mutex.Some? {
      assert CanStep(w, s, s.shared.mutex.value);
    } else if s.shared.writer.Some? {
      assert CanStep(w, s, s.shared.writer.value);
    } else if s.shared.readers != {} {
      var t :| t in s.shared.readers;
      assert CanStep(w, s, t);
    } else {
      assert CanStep(w, s, busy);
    }
  }

  // ------------------------------------------------ failed replaces

  /** The two states differ at most in the position of thread `t`. */
  ghost predicate Apart(a: State, b: State, t: nat) {
    && t < |a.threads| == |b.threads|
    && b.threads == a.threads[t := b.threads[t]]
    && a.shared == b.shared
  }

  /** A step of another thread, or of `t` in the same position, does the same in both. */
  lemma StepApart(w: World, large: State, small: State, t: nat, u: nat, a: Action)
    requires Apart(large, small, t) && Step(w, large, u, a).Some?
    requires u != t || small.threads == large.threads
    ensures Step(w, small, u, a).Some?
    ensures var large', small' := Step(w, large, u, a).value, Step(w, small, u, a).value;
      && Apart(large', small', t)
      && (small.threads == large.threads ==> small'.threads == large'.threads)
      && (u != t ==> small'.threads[t] == small.threads[t] && large'.threads[t] == large.threads[t])
  {
    hide Act;
    assert small.threads[u] == large.threads[u];
  }

  lemma {:induction false} RunApart(w: World, large: State, small: State, t: nat, schedule: seq<Turn>)
    requires Apart(large, small, t) && Run(w, large, schedule).Some?
    requires small.threads == large.threads || forall turn :: turn in schedule ==> turn.thread != t
    ensures Run(w, small, schedule).Some?
    ensures var large', small' := Run(w, large, schedule).value, Run(w, small, schedule).value;
      && Apart(large', small', t)
      && (small.threads == large.threads ==> small'.threads == large'.threads)
      && ((forall turn :: turn in schedule ==> turn.thread != t) ==>
            small'.threads[t] == small.threads[t] && large'.threads[t] == large.threads[t])
    decreases |schedule|
  {
    hide Step, Apart;
    if schedule != [] {
      var init, last := schedule[..|schedule| - 1], schedule[|schedule| - 1];
      assert forall turn :: turn in init ==> turn in schedule;
      RunApart(w, large, small, t, init);
      assert last in schedule;
      StepApart(w, Run(w, large, init).value, Run(w, small, init).value, t, last.thread, last.action);
    }
  }

  lemma {:induction false} RunConcat(w: World, s: State, a: seq<Turn>, b: seq<Turn>)
    ensures Run(w, s, a + b) ==
      match Run(w, s, a) case None => None case Some(middle) => Run(w, middle, b)
    decreases |b|
  {
    hide Step;
    if b == [] {
      assert a + b == a;
    } else {
      RunConcat(w, s, a, b[..|b| - 1]);
      assert (a + b)[..|a + b| - 1] == a + b[..|b| - 1];
    }
  }

  lemma RunOne(w: World, s: State, turn: Turn)
    ensures Run(w, s, [turn]) == Step(w, s, turn.thread, turn.action)
  {
    assert [turn][..0] == [];
  }

  /** A schedule in which thread `t` starts a replace, others run, and the build fails. */
  function WithFailedReplace(t: nat, start: Action, before: seq<Turn>, during: seq<Turn>, after: seq<Turn>): seq<Turn> {
    before + ([Turn(t, start)] + (during + ([Turn(t, BuildFails)] + after)))
  }

  /** The same without the replace; only the counter of identities moves on. */
  function WithoutReplace(t: nat, before: seq<Turn>, during: seq<Turn>, after: seq<Turn>): seq<Turn> {
    before + ([Turn(t, TakeIdentity)] + (during + after))
  }

  /**
   * A failed replace is invisible: whatever the other threads do during its
   * build and everyone does after it, the run without it is possible too and
   * reaches the same state, observations and answers included.
   */
  lemma FailedReplaceIsInvisible(
      w: World, s: State, t: nat, start: Action, before: seq<Turn>, during: seq<Turn>, after: seq<Turn>)
    requires start.StartReplace? && forall turn :: turn in during ==> turn.thread != t
    requires Run(w, s, WithFailedReplace(t, start, before, during, after)).Some?
    ensures Run(w, s, WithoutReplace(t, before, during, after))
         == Run(w, s, WithFailedReplace(t, start, before, during, after))
  {
    hide Run, Step;
    var begin, skip, fail := Turn(t, start), Turn(t, TakeIdentity), Turn(t, BuildFails);
    RunConcat(w, s, before, [begin] + (during + ([fail] + after)));
    RunConcat(w, s, before, [skip] + (during + after));
    var idle := Run(w, s, before).value;
    RunConcat(w, idle, [begin], during + ([fail] + after));
    RunConcat(w, idle, [skip], during + after);
    RunOne(w, idle, begin);
    RunOne(w, idle, skip);
    Started(w, idle, t, start);
    var building, kept := Step(w, idle, t, start).value, Step(w, idle, t, TakeIdentity).value;
    RunConcat(w, building, during, [fail] + after);
    RunConcat(w, kept, during, after);
    RunApart(w, building, kept, t, during);
    var built, waited := Run(w, building, during).value, Run(w, kept, during).value;
    RunConcat(w, built, [fail], after);
    RunOne(w, built, fail);
    Failed(w, built, waited, t);
  }

  lemma Started(w: World, s: State, t: nat, start: Action)
    requires start.StartReplace? && Step(w, s, t, start).Some?
    ensures Step(w, s, t, TakeIdentity).Some?
    ensures Step(w, s, t, TakeIdentity).value.threads[t] == Idle
    ensures Apart(Step(w, s, t, start).value, Step(w, s, t, TakeIdentity).value, t)
  {
  }

  lemma Failed(w: World, built: State, kept: State, t: nat)
    requires Apart(built, kept, t) && kept.threads[t] == Idle && Step(w, built, t, BuildFails).Some?
    ensures Step(w, built, t, BuildFails).value == kept
  {
  }

  // ------------------------------------------------ identities

  predicate Unpublished(pc: Pc) {
    pc.Building? || pc.WantRuleset? || pc.WantState? || pc.WriteArc?
  }

  /** Every published and every pending ruleset has an identity of its own, below the counter. */
  ghost predicate IdentitiesDiffer(s: State) {
    && (forall i :: 0 <= i < |s.shared.history| ==> s.shared.history[i].ruleset.id < s.shared.nextId)
    && (forall i, j :: 0 <= i < j < |s.shared.history| ==>
          s.shared.history[i].ruleset.id != s.shared.history[j].ruleset.id)
    && (forall t :: 0 <= t < |s.threads| && Unpublished(s.threads[t]) ==>
          s.threads[t].p.ruleset.id < s.shared.nextId)
    && (forall t, i :: 0 <= t < |s.threads| && Unpublished(s.threads[t]) && 0 <= i < |s.shared.history| ==>
          s.threads[t].p.ruleset.id != s.shared.history[i].ruleset.id)
    && (forall t, u :: 0 <= t < u < |s.threads| && Unpublished(s.threads[t]) && Unpublished(s.threads[u]) ==>
          s.threads[t].p.ruleset.id != s.threads[u].p.ruleset.id)
  }

  /** Moving one thread keeps identities apart when its ruleset is the one it had, or has the counter's identity. */
  lemma IdentitiesMove(s: State, t: nat, s': State)
    requires IdentitiesDiffer(s) && t < |s.threads| == |s'.threads| && s'.threads == s.threads[t := s'.threads[t]]
    requires s'.shared.history == s.shared.history && s.shared.nextId <= s'.shared.nextId
    requires Unpublished(s'.threads[t]) ==>
      || (Unpublished(s.threads[t]) && s'.threads[t].p == s.threads[t].p)
      || (s'.threads[t].p.ruleset.id == s.shared.nextId && s'.shared.nextId == s.shared.nextId + 1)
    ensures IdentitiesDiffer(s')
  {
  }

  lemma IdentitiesPublish(s: State, t: nat, s': State)
    requires IdentitiesDiffer(s) && t < |s.threads| == |s'.threads| && s'.threads == s.threads[t := s'.threads[t]]
    requires Unpublished(s.threads[t]) && !Unpublished(s'.threads[t])
    requires s'.shared.history == s.shared.history + [s.threads[t].p] && s'.shared.nextId == s.shared.nextId
    ensures IdentitiesDiffer(s')
  {
  }

  lemma StepKeepsIdentities(w: World, s: State, t: nat, a: Action)
    requires IdentitiesDiffer(s) && Step(w, s, t, a).Some?
    ensures IdentitiesDiffer(Step(w, s, t, a).value)
  {
    hide IdentitiesDiffer;
    var s' := Step(w, s, t, a).value;
    if s.threads[t].WriteArc? {
      IdentitiesPublish(s, t, s');
    } else {
      IdentitiesMove(s, t, s');
    }
  }

  /** In every interleaving no two published rulesets share an identity, so an identity names one list of rules. */
  lemma {:induction false} PublishedIdentitiesDiffer(w: World, n: nat, first: Publication, schedule: seq<Turn>)
    requires Run(w, Init(n, first), schedule).Some?
    ensures IdentitiesDiffer(Run(w, Init(n, first), schedule).value)
    decreases |schedule|
  {
    hide Step;
    if schedule != [] {
      var init, last := schedule[..|schedule| - 1], schedule[|schedule| - 1];
      PublishedIdentitiesDiffer(w, n, first, init);
      StepKeepsIdentities(w, Run(w, Init(n, first), init).value, last.thread, last.action);
    }
  }

  /**
   * A ruleset a thread has met, here or elsewhere: its identity was taken, is
   * not that of a pending publication, and if it was published here then with
   * the same rules.
   */
  ghost predicate Met(s: State, ruleset: RulesetView) {
    && ruleset.id < s.shared.nextId
    && (forall i :: 0 <= i < |s.shared.history| && s.shared.history[i].ruleset.id == ruleset.id ==>
          s.shared.history[i].ruleset == ruleset)
    && (forall t :: 0 <= t < |s.threads| && Unpublished(s.threads[t]) ==> s.threads[t].p.ruleset.id != ruleset.id)
  }

  /** Every published ruleset can be met, and so can one that takes an identity outside this engine. */
  lemma PublishedIsMet(s: State, i: nat)
    requires IdentitiesDiffer(s) && i < |s.shared.history|
    ensures Met(s, s.shared.history[i].ruleset)
  {
  }

  lemma ElsewhereIsMet(w: World, s: State, t: nat, rules: seq<Rule>)
    requires IdentitiesDiffer(s) && Step(w, s, t, TakeIdentity).Some?
    ensures Met(Step(w, s, t, TakeIdentity).value, RulesetView(s.shared.nextId, rules))
  {
    var s' := Step(w, s, t, TakeIdentity).value;
    assert s'.threads == s.threads[t := Idle];
  }

  lemma StepKeepsMet(w: World, s: State, t: nat, a: Action, ruleset: RulesetView)
    requires Met(s, ruleset) && Step(w, s, t, a).Some?
    ensures Met(Step(w, s, t, a).value, ruleset)
  {
  }

  /** What was met stays met, whatever is replaced. */
  lemma {:induction false} RunKeepsMet(w: World, s: State, schedule: seq<Turn>, ruleset: RulesetView)
    requires Met(s, ruleset) && Run(w, s, schedule).Some?
    ensures Met(Run(w, s, schedule).value, ruleset)
    decreases |schedule|
  {
    hide Step, Met;
    if schedule != [] {
      var init, last := schedule[..|schedule| - 1], schedule[|schedule| - 1];
      RunKeepsMet(w, s, init, ruleset);
      StepKeepsMet(w, Run(w, s, init).value, last.thread, last.action, ruleset);
    }
  }

  // ------------------------------------------------ batches

  /** A snapshot in hand is one publication whole, taken since its batch was called. */
  ghost predicate HoldsSnapshot(history: seq<Publication>, pc: Pc) {
    match pc
    case WantSnapshot(use) => use.ForBatch? ==> 1 <= use.since <= |history|
    case CloneArc(use) => use.ForBatch? ==> 1 <= use.since <= |history|
    case DropSnapshot(use, arc, number) =>
      && 1 <= number <= |history| && arc == history[number - 1]
      && (use.ForBatch? ==> 1 <= use.since <= number)
    case Serving(_, since, arc, number) => 1 <= since <= number <= |history| && arc == history[number - 1]
    case _ => true
  }

  /** A returned batch used a publication that was the newest at some moment between its call and its return. */
  ghost predicate ServiceTrue(w: World, history: seq<Publication>, e: Service) {
    && 1 <= e.since <= e.number <= e.until <= |history|
    && e.arc == history[e.number - 1]
    && e == Served(w, e.thread, e.batch, e.since, e.until, e.arc, e.number)
  }

  ghost predicate BatchesTrue(w: World, s: State) {
    && |s.shared.history| >= 1
    && (forall i :: 0 <= i < |s.shared.history| ==> w.builds(s.shared.history[i]))
    && (forall t :: 0 <= t < |s.threads| && Unpublished(s.threads[t]) && !s.threads[t].Building? ==>
          w.builds(s.threads[t].p))
    && (forall t :: 0 <= t < |s.threads| ==> HoldsSnapshot(s.shared.history, s.threads[t]))
    && (forall j :: 0 <= j < |s.shared.served| ==> ServiceTrue(w, s.shared.history, s.shared.served[j]))
  }

  /** A step publishes only what was built, and a batch returns only on a snapshot in hand. */
  lemma ActBatches(w: World, s: Shared, t: nat, pc: Pc, a: Action)
    requires Act(w, s, t, pc, a).Some? && HoldsSnapshot(s.history, pc)
    requires |s.history| >= 1 && s.ruleset == s.history[|s.history| - 1]
    requires Unpublished(pc) && !pc.Building? ==> w.builds(pc.p)
    ensures var m := Act(w, s, t, pc, a).value;
      && HoldsSnapshot(m.shared.history, m.pc)
      && (Unpublished(m.pc) && !m.pc.Building? ==> w.builds(m.pc.p))
      && (m.shared.history == s.history || (pc.WriteArc? && m.shared.history == s.history + [pc.p]))
      && (m.shared.served == s.served
          || (|m.shared.served| == |s.served| + 1 && m.shared.served[..|s.served|] == s.served
              && ServiceTrue(w, m.shared.history, m.shared.served[|s.served|])))
  {
  }

  /** More publications keep what was true of snapshots and batches. */
  lemma LongerHistory(w: World, history: seq<Publication>, p: Publication, pc: Pc, e: Service)
    ensures HoldsSnapshot(history, pc) ==> HoldsSnapshot(history + [p], pc)
    ensures ServiceTrue(w, history, e) ==> ServiceTrue(w, history + [p], e)
  {
  }

  lemma StepKeepsBatches(w: World, s: State, t: nat, a: Action)
    requires BatchesTrue(w, s) && Step(w, s, t, a).Some?
    requires s.shared.ruleset == s.shared.history[|s.shared.history| - 1]
    ensures BatchesTrue(w, Step(w, s, t, a).value)
  {
    var s' := Step(w, s, t, a).value;
    ActBatches(w, s.shared, t, s.threads[t], a);
    hide Act, ServiceTrue, HoldsSnapshot;
    forall pc, e
      ensures HoldsSnapshot(s.shared.history, pc) ==> HoldsSnapshot(s'.shared.history, pc)
      ensures ServiceTrue(w, s.shared.history, e) ==> ServiceTrue(w, s'.shared.history, e)
    {
      if s.threads[t].WriteArc? {
        LongerHistory(w, s.shared.history, s.threads[t].p, pc, e);
      }
    }
  }

  lemma {:induction false} EveryRunKeepsBatches(w: World, n: nat, first: Publication, schedule: seq<Turn>)
    requires Run(w, Init(n, first), schedule).Some? && w.builds(first.(buildMs := 0))
    ensures BatchesTrue(w, Run(w, Init(n, first), schedule).value)
    decreases |schedule|
  {
    hide Step;
    if schedule != [] {
      var init, last := schedule[..|schedule| - 1], schedule[|schedule| - 1];
      EveryRunKeepsBatches(w, n, first, init);
      EveryRunKeepsInv(w, n, first, init);
      StepKeepsBatches(w, Run(w, Init(n, first), init).value, last.thread, last.action);
    }
  }
}
