/** One thread's life: rulesets are built, queries prepared and evaluated, in any order. */
module Session {
  import opened Prelude
  import opened Geometry
  import opened Rules
  import opened PropertyIndex
  import opened PreparedCache
  import opened Query
  import opened Ruleset
  import opened Semantics
  import opened Resolution
  import opened Evaluate

  // ------------------------------------------------ the reference: no cache, no buffers

  datatype RulesetView = RulesetView(id: nat, rules: seq<Rule>)

  datatype HandleView = HandleView(ruleset: RulesetView, query: Query)

  datatype View = View(nextId: nat, rulesets: seq<RulesetView>, handles: seq<HandleView>)

  /**
   * What the thread does, and what other threads do that it can notice: take an
   * identity, hand over a ruleset built under an identity of theirs (with its
   * fringe index built or not), and build the fringe index of a shared ruleset.
   * Evaluations name a handle by its creation number; old handles stay usable.
   */
  datatype Op =
    | BuildRuleset(rules: seq<Rule>, kind: IndexKind)
    | Prepare(ruleset: nat, query: Query)
    | Evaluation(handle: nat, path: Path, c: Candidate)
    | IdentityElsewhere
    | Arrival(id: nat, rules: seq<Rule>, kind: IndexKind, warm: bool)
    | FringeElsewhere(ruleset: nat)

  /** The four evaluation paths. */
  datatype Path = Match | Mask | Resolve | ResolveMask

  datatype Answer =
    | Done
    | Refused
    | MatchAnswer(outcome: CandidateOutcome)
    | MaskAnswer(mask: nat)
    | ResolveAnswer(resolution: ResolutionOutcome)

  /** What an evaluation answers, by the rules and the query alone. */
  ghost function Evaluated(geo: Geo, h: HandleView, path: Path, c: Candidate): Answer {
    match path
    case Match => MatchAnswer(MatchOutcome(geo, h.ruleset.rules, h.query, c, IdsFor(geo, h, c)))
    case Mask => MaskAnswer(MaskOf(h.query, c, IdsFor(geo, h, c)))
    case Resolve => ResolveAnswer(ResolveOutcome(geo, h.ruleset.rules, h.query, c, IdsFor(geo, h, c)))
    case ResolveMask => MaskAnswer(MaskOf(h.query, c, IdsFor(geo, h, c)))
  }

  /** What a batch answers on a published ruleset. */
  ghost function BatchAnswers(geo: Geo, ruleset: RulesetView, query: Query, path: Path,
      candidates: seq<Candidate>): (r: seq<Answer>)
    ensures |r| == |candidates|
    ensures forall k :: 0 <= k < |r| ==> r[k] == Evaluated(geo, HandleView(ruleset, query), path, candidates[k])
  {
    seq(|candidates|, k requires 0 <= k < |candidates| =>
      Evaluated(geo, HandleView(ruleset, query), path, candidates[k]))
  }

  ghost function Answered(geo: Geo, v: View, op: Op): Answer {
    match op
    case BuildRuleset(rules, _) => if Buildable(geo, rules) then Done else Refused
    case Prepare(r, _) => if r < |v.rulesets| then Done else Refused
    case Evaluation(h, path, c) => if h < |v.handles| then Evaluated(geo, v.handles[h], path, c) else Refused
    case IdentityElsewhere => Done
    case Arrival(id, rules, _, _) => if CanArrive(geo, v, id, rules) then Done else Refused
    case FringeElsewhere(r) => if r < |v.rulesets| then Done else Refused
  }

  /** A ruleset arrives built, under an identity that was taken and that no ruleset of this thread has. */
  ghost predicate CanArrive(geo: Geo, v: View, id: nat, rules: seq<Rule>) {
    Buildable(geo, rules) && id < v.nextId && forall r :: r in v.rulesets ==> r.id != id
  }

  ghost function IdsFor(geo: Geo, h: HandleView, c: Candidate): (r: seq<RuleId>)
    ensures InRange(h.ruleset.rules, r)
  {
    AdmittedIds(geo, h.ruleset.rules, h.ruleset.id, h.query, c)
  }

  /** Only builds, arrivals and prepares change what later operations may name. */
  ghost function After(geo: Geo, v: View, op: Op): View {
    match op
    case BuildRuleset(rules, _) =>
      if Buildable(geo, rules) then v.(nextId := v.nextId + 1, rulesets := v.rulesets + [RulesetView(v.nextId, rules)])
      else v.(nextId := v.nextId + 1)
    case Prepare(r, q) => if r < |v.rulesets| then v.(handles := v.handles + [HandleView(v.rulesets[r], q)]) else v
    case IdentityElsewhere => v.(nextId := v.nextId + 1)
    case Arrival(id, rules, _, _) =>
      if CanArrive(geo, v, id, rules) then v.(rulesets := v.rulesets + [RulesetView(id, rules)]) else v
    case _ => v
  }

  ghost function AfterAll(geo: Geo, v: View, script: seq<Op>): View {
    if script == [] then v else After(geo, AfterAll(geo, v, script[..|script| - 1]), script[|script| - 1])
  }

  ghost function AnsweredAll(geo: Geo, v: View, script: seq<Op>): seq<Answer> {
    if script == [] then []
    else
      var init := script[..|script| - 1];
      AnsweredAll(geo, v, init) + [Answered(geo, AfterAll(geo, v, init), script[|script| - 1])]
  }

  // ------------------------------------------------ the thread

  ghost function ViewOf(r: Ruleset): RulesetView { RulesetView(r.id, r.rules) }

  ghost function HandleOf(h: PreparedQuery): HandleView { HandleView(ViewOf(h.ruleset), h.query) }

  class Thread {
    const geo: Geo
    const cache: ThreadCache
    const ids: IdSource
    var rulesets: seq<Ruleset>
    var handles: seq<PreparedQuery>
    /** Which ruleset each slot array was made for. */
    ghost var slotOwner: map<Slots, Ruleset>

    ghost var repr: set<object>

    /** The objects the thread may write. */
    ghost predicate Owns()
      reads this
    {
      && this !in repr && cache in repr && ids in repr
      && (forall r :: r in rulesets ==> r in repr)
      && (forall a :: a in slotOwner ==> a in repr)
      && (forall h :: h in handles ==> h.scratch in repr && h.fringeScratch in repr)
    }

    /** Every ruleset is sound and has its own identity. */
    ghost predicate RulesetsSound()
      reads this, ids, rulesets
    {
      && (forall r :: r in rulesets ==> r.Valid() && r.geo == geo && r.id < ids.next)
      && (forall i, j :: 0 <= i < j < |rulesets| ==> rulesets[i].id != rulesets[j].id)
    }

    /** Every slot array, current or replaced, holds prepared forms of its own ruleset's rules only. */
    ghost predicate SlotsSound()
      reads this, slotOwner.Keys
    {
      forall a :: a in slotOwner ==> slotOwner[a] in rulesets && SlotsHold(geo, slotOwner[a].rules, a)
    }

    /** The cache entry is keyed by the identity of the ruleset its slots were made for. */
    ghost predicate CacheSound()
      reads this, cache
    {
      cache.entry.Some? ==>
        cache.entry.value.slots in slotOwner && slotOwner[cache.entry.value.slots].id == cache.entry.value.id
    }

    ghost predicate HandlesSound()
      reads this
    {
      forall h :: h in handles ==>
        h.Planned() && h.ruleset in rulesets && h.memo.slots in slotOwner && slotOwner[h.memo.slots] == h.ruleset
    }

    ghost predicate Valid()
      reads this, cache, ids, rulesets, slotOwner.Keys
    {
      PreparedAgrees(geo) && Owns() && RulesetsSound() && SlotsSound() && CacheSound() && HandlesSound()
    }

    ghost function CurrentView(): View
      reads this, ids
    {
      View(ids.next,
        seq(|rulesets|, i requires 0 <= i < |rulesets| reads this => ViewOf(rulesets[i])),
        seq(|handles|, i requires 0 <= i < |handles| reads this => HandleOf(handles[i])))
    }

    constructor (geo: Geo)
      requires PreparedAgrees(geo)
      ensures Valid() && this.geo == geo && CurrentView() == View(1, [], [])
    {
      this.geo := geo;
      var cell := new ThreadCache();
      var source := new IdSource();
      cache, ids := cell, source;
      rulesets, handles, slotOwner := [], [], map[];
      repr := {cell, source};
    }

    /** Slot arrays keep their owner, and filled slots keep their value. */
    twostate predicate SlotsGrow()
      reads this, slotOwner.Keys
    {
      forall a :: a in old(slotOwner) ==>
        && a in slotOwner && slotOwner[a] == old(slotOwner)[a]
        && forall i :: 0 <= i < a.Length && old(a[i]).Some? ==> a[i] == old(a[i])
    }

    /** The arrays of an earlier moment kept their owner and their filled slots. */
    ghost predicate GrownFrom(contents: map<Slots, seq<Option<Prepared>>>, owners: map<Slots, Ruleset>)
      reads this, slotOwner.Keys
    {
      forall a :: a in contents ==>
        && a in slotOwner && a in owners && slotOwner[a] == owners[a] && a.Length == |contents[a]|
        && forall i :: 0 <= i < a.Length && contents[a][i].Some? ==> a[i] == contents[a][i]
    }

    /** No slot array of the earlier moment was written. */
    twostate predicate SlotsSame()
      reads this, slotOwner.Keys
    {
      forall a :: a in old(slotOwner) ==> a in slotOwner && slotOwner[a] == old(slotOwner)[a] && unchanged(a)
    }

    // ---------------------------------------------- steps

    method StepBuild(rules: seq<Rule>, kind: IndexKind) returns (answer: Answer)
      requires Valid() && kind.Lawful()
      modifies this`rulesets, this`repr, ids
      ensures Valid() && SlotsGrow() && fresh(repr - old(repr))
      ensures answer == Answered(geo, old(CurrentView()), BuildRuleset(rules, kind))
      ensures CurrentView() == After(geo, old(CurrentView()), BuildRuleset(rules, kind))
    {
      hide Ruleset.Valid, PreparedQuery.Planned, SlotsHold, Buildable, HandlesSound, SlotsSound, CacheSound;
      var result := BuildIndexed(geo, rules, kind, ids);
      match result {
        case Ok(r) =>
          Publish(r);
          answer := Done;
        case Err(_) =>
          answer := Refused;
      }
    }

    method StepIdentityElsewhere() returns (answer: Answer)
      requires Valid()
      modifies ids
      ensures Valid() && SlotsGrow()
      ensures answer == Answered(geo, old(CurrentView()), IdentityElsewhere)
      ensures CurrentView() == After(geo, old(CurrentView()), IdentityElsewhere)
    {
      hide Ruleset.Valid, PreparedQuery.Planned, SlotsHold;
      var taken := ids.NextId();
      answer := Done;
    }

    method StepArrival(id: nat, rules: seq<Rule>, kind: IndexKind, warm: bool) returns (answer: Answer)
      requires Valid() && kind.Lawful()
      modifies this`rulesets, this`repr
      ensures Valid() && SlotsGrow() && fresh(repr - old(repr))
      ensures answer == Answered(geo, old(CurrentView()), Arrival(id, rules, kind, warm))
      ensures CurrentView() == After(geo, old(CurrentView()), Arrival(id, rules, kind, warm))
    {
      hide Ruleset.Valid, PreparedQuery.Planned, SlotsHold, Buildable, HandlesSound, SlotsSound, CacheSound;
      KnownIdentity(id);
      if id >= ids.next || exists i | 0 <= i < |rulesets| :: rulesets[i].id == id {
        return Refused;
      }
      var result := BuildElsewhere(geo, rules, kind, id, warm);
      if result.Err? {
        return Refused;
      }
      Publish(result.value);
      answer := Done;
    }

    lemma KnownIdentity(id: nat)
      ensures (exists i :: 0 <= i < |rulesets| && rulesets[i].id == id)
         <==> !(forall r :: r in CurrentView().rulesets ==> r.id != id)
    {
      if i :| 0 <= i < |rulesets| && rulesets[i].id == id {
        assert CurrentView().rulesets[i].id == id;
      }
      if r :| r in CurrentView().rulesets && r.id == id {
        var i :| 0 <= i < |rulesets| && CurrentView().rulesets[i] == r;
        assert rulesets[i].id == id;
      }
    }

    method StepFringeElsewhere(r: nat) returns (answer: Answer)
      requires Valid()
      modifies rulesets
      ensures Valid() && SlotsGrow() && CurrentView() == old(CurrentView())
      ensures answer == Answered(geo, old(CurrentView()), FringeElsewhere(r))
    {
      hide PreparedQuery.Planned, SlotsHold;
      if r >= |rulesets| {
        return Refused;
      }
      assert rulesets[r] in rulesets;
      rulesets[r].InitFringe();
      FringeSound(rulesets[r]);
      answer := Done;
    }

    /** Building one ruleset's fringe index leaves the thread sound. */
    twostate lemma FringeSound(ruleset: Ruleset)
      requires old(Valid()) && ruleset in old(rulesets)
      requires unchanged(this) && unchanged(cache) && unchanged(ids)
      requires forall r :: r in rulesets && r != ruleset ==> unchanged(r)
      requires forall a :: a in slotOwner ==> unchanged(a)
      requires ruleset.Valid()
      ensures Valid() && SlotsGrow() && CurrentView() == old(CurrentView())
    {
      assert RulesetsSound();
      assert SlotsSound();
    }

    method Publish(r: Ruleset)
      requires Valid() && r.Valid() && r.geo == geo && r.id < ids.next
      requires forall t :: t in rulesets ==> t.id != r.id
      modifies this`rulesets, this`repr
      ensures Valid() && SlotsGrow() && rulesets == old(rulesets) + [r] && repr == old(repr) + {r}
      ensures CurrentView() == old(CurrentView()).(rulesets := old(CurrentView()).rulesets + [ViewOf(r)])
    {
      hide Ruleset.Valid, PreparedQuery.Planned, SlotsHold;
      rulesets := rulesets + [r];
      repr := repr + {r};
    }

    /** Compiles a query for a ruleset: exclusions, memo handle, index filter. */
    method StepPrepare(ruleset: Ruleset, query: Query)
      requires Valid() && ruleset in rulesets
      modifies this`handles, this`slotOwner, this`repr, cache
      ensures Valid() && SlotsSame() && fresh(repr - old(repr))
      ensures |handles| == |old(handles)| + 1 && handles[..|old(handles)|] == old(handles)
      ensures HandleOf(handles[|old(handles)|]) == HandleView(ViewOf(ruleset), query)
    {
      hide Ruleset.Valid, PreparedQuery.Planned, SlotsHold;
      var memo := TakeMemo(ruleset);
      AddPrepared(ruleset, query, memo);
    }

    method AddPrepared(ruleset: Ruleset, query: Query, memo: PreparedMemo)
      requires Valid() && ruleset in rulesets
      requires memo.rules == ruleset.rules && memo.slots in slotOwner && slotOwner[memo.slots] == ruleset
      modifies this`handles, this`repr
      ensures Valid() && fresh(repr - old(repr))
      ensures |handles| == |old(handles)| + 1 && handles[..|old(handles)|] == old(handles)
      ensures HandleOf(handles[|old(handles)|]) == HandleView(ViewOf(ruleset), query)
    {
      hide Ruleset.Valid, PreparedQuery.Planned, SlotsHold;
      MemoReady(ruleset, memo);
      var handle := PrepareQuery(ruleset, query, memo);
      Register(handle);
    }

    lemma MemoReady(ruleset: Ruleset, memo: PreparedMemo)
      requires Valid() && ruleset in rulesets && memo.slots in slotOwner && slotOwner[memo.slots] == ruleset
      ensures ruleset.Valid() && ruleset.geo == geo && SlotsHold(geo, ruleset.rules, memo.slots)
    {
    }

    method Register(handle: PreparedQuery)
      requires Valid() && handle.Planned()
      requires handle.ruleset in rulesets && handle.memo.slots in slotOwner
        && slotOwner[handle.memo.slots] == handle.ruleset
      modifies this`handles, this`repr
      ensures Valid() && handles == old(handles) + [handle]
      ensures repr == old(repr) + {handle.scratch, handle.fringeScratch}
    {
      hide Ruleset.Valid, PreparedQuery.Planned, SlotsHold;
      handles := handles + [handle];
      repr := repr + {handle.scratch, handle.fringeScratch};
    }

    lemma SameIdentity(r: Ruleset, t: Ruleset)
      requires RulesetsSound() && r in rulesets && t in rulesets && r.id == t.id
      ensures r == t
    {
      var i :| 0 <= i < |rulesets| && rulesets[i] == r;
      var j :| 0 <= j < |rulesets| && rulesets[j] == t;
    }

    /** The thread's memo for a ruleset: the cached slots, or new ones that take over the cache entry. */
    method TakeMemo(ruleset: Ruleset) returns (memo: PreparedMemo)
      requires Valid() && ruleset in rulesets
      modifies this`slotOwner, this`repr, cache
      ensures Valid() && SlotsSame() && fresh(repr - old(repr))
      ensures memo.rules == ruleset.rules && memo.slots in slotOwner && slotOwner[memo.slots] == ruleset
    {
      hide Ruleset.Valid, PreparedQuery.Planned;
      var hit := cache.entry.Some? && cache.entry.value.id == ruleset.id;
      if hit {
        SameIdentity(slotOwner[cache.entry.value.slots], ruleset);
      }
      memo := ForRuleset(cache, ruleset.rules, ruleset.id);
      if !hit {
        slotOwner := slotOwner[memo.slots := ruleset];
        repr := repr + {memo.slots};
        NewSlotsSound(memo.slots, ruleset);
      }
    }

    /**
     * Adding empty slots for a known ruleset, with every old array and every ruleset
     * untouched, keeps the thread sound.
     */
    twostate lemma NewSlotsSound(new slots: Slots, ruleset: Ruleset)
      requires old(Valid()) && ruleset in old(rulesets)
      requires unchanged(this`rulesets) && unchanged(this`handles) && unchanged(ids)
      requires slots !in old(slotOwner) && slotOwner == old(slotOwner)[slots := ruleset]
      requires repr == old(repr) + {slots}
      requires slots.Length == |ruleset.rules| && forall i :: 0 <= i < slots.Length ==> slots[i] == None
      requires forall a :: a in old(slotOwner) ==> unchanged(a)
      requires forall r :: r in rulesets ==> unchanged(r)
      requires cache.entry == Some(CacheEntry(ruleset.id, slots))
      ensures Valid() && SlotsSame()
    {
      hide Ruleset.Valid, PreparedQuery.Planned;
    }

    /** What a handle's evaluation may touch leaves the thread sound. */
    twostate lemma EvaluationSound(handle: PreparedQuery)
      requires old(Valid()) && handle in old(handles)
      requires unchanged(this) && unchanged(cache) && unchanged(ids)
      requires forall r :: r in rulesets && r != handle.ruleset ==> unchanged(r)
      requires forall a :: a in slotOwner && a != handle.memo.slots ==> unchanged(a)
      requires handle.Valid() && handle.FilledKept()
      ensures Valid() && SlotsGrow() && CurrentView() == old(CurrentView())
    {
      assert RulesetsSound();
      assert SlotsSound();
    }

    lemma HandleReady(handle: PreparedQuery)
      requires Valid() && handle in handles
      ensures handle.Valid() && handle.ruleset.geo == geo
    {
    }

    method StepMatch(handle: PreparedQuery, c: Candidate) returns (answer: Answer)
      requires Valid() && handle in handles && Intake(geo, c)
      modifies handle.scratch, handle.fringeScratch, handle.memo.slots, handle.ruleset`fringeIndex
      ensures Valid() && SlotsGrow() && CurrentView() == old(CurrentView())
      ensures answer == Evaluated(geo, HandleOf(handle), Match, c)
    {
      hide Ruleset.Valid, SlotsHold, PreparedQuery.Planned, MatchOutcome;
      HandleReady(handle);
      var outcome := handle.Evaluate(c);
      EvaluationSound(handle);
      answer := MatchAnswer(outcome);
    }

    method StepMask(handle: PreparedQuery, c: Candidate) returns (answer: Answer)
      requires Valid() && handle in handles && Intake(geo, c)
      modifies handle.scratch, handle.fringeScratch, handle.memo.slots, handle.ruleset`fringeIndex
      ensures Valid() && SlotsGrow() && CurrentView() == old(CurrentView())
      ensures answer == Evaluated(geo, HandleOf(handle), Mask, c)
    {
      hide Ruleset.Valid, SlotsHold, PreparedQuery.Planned, MaskOf;
      HandleReady(handle);
      var mask := handle.EvaluateMask(c);
      EvaluationSound(handle);
      answer := MaskAnswer(mask);
    }

    method StepResolve(handle: PreparedQuery, c: Candidate) returns (answer: Answer)
      requires Valid() && handle in handles && Intake(geo, c)
      modifies handle.scratch, handle.fringeScratch, handle.memo.slots, handle.ruleset`fringeIndex
      ensures Valid() && SlotsGrow() && CurrentView() == old(CurrentView())
      ensures answer == Evaluated(geo, HandleOf(handle), Resolve, c)
    {
      hide Ruleset.Valid, SlotsHold, PreparedQuery.Planned, ResolveOutcome;
      HandleReady(handle);
      var resolution := handle.EvaluateResolve(c);
      EvaluationSound(handle);
      answer := ResolveAnswer(resolution);
    }

    method StepResolveMask(handle: PreparedQuery, c: Candidate) returns (answer: Answer)
      requires Valid() && handle in handles && Intake(geo, c)
      modifies handle.scratch, handle.fringeScratch, handle.memo.slots, handle.ruleset`fringeIndex
      ensures Valid() && SlotsGrow() && CurrentView() == old(CurrentView())
      ensures answer == Evaluated(geo, HandleOf(handle), ResolveMask, c)
    {
      hide Ruleset.Valid, SlotsHold, PreparedQuery.Planned, MaskOf;
      HandleReady(handle);
      var mask := handle.EvaluateResolveMask(c);
      EvaluationSound(handle);
      answer := MaskAnswer(mask);
    }

    // ---------------------------------------------- runs

    lemma HandleOwned(handle: PreparedQuery)
      requires Valid() && handle in handles
      ensures handle.scratch in repr && handle.fringeScratch in repr && handle.memo.slots in repr
        && handle.ruleset in repr
    {
    }

    lemma RulesetsOwned()
      requires Valid()
      ensures forall r :: r in rulesets ==> r in repr
    {
    }

    method StepPath(handle: PreparedQuery, path: Path, c: Candidate) returns (answer: Answer)
      requires Valid() && handle in handles && Intake(geo, c)
      modifies handle.scratch, handle.fringeScratch, handle.memo.slots, handle.ruleset`fringeIndex
      ensures Valid() && SlotsGrow() && CurrentView() == old(CurrentView())
      ensures answer == Evaluated(geo, HandleOf(handle), path, c)
    {
      match path {
        case Match => answer := StepMatch(handle, c);
        case Mask => answer := StepMask(handle, c);
        case Resolve => answer := StepResolve(handle, c);
        case ResolveMask => answer := StepResolveMask(handle, c);
      }
    }

    /** An evaluation on the handle the operation names. */
    method StepEvaluate(h: nat, path: Path, c: Candidate) returns (answer: Answer)
      requires Valid() && Intake(geo, c)
      modifies repr
      ensures Valid() && SlotsGrow() && CurrentView() == old(CurrentView())
      ensures answer == if h < |handles| then Evaluated(geo, HandleOf(handles[h]), path, c) else Refused
    {
      hide Ruleset.Valid, PreparedQuery.Planned, SlotsHold;
      if h >= |handles| {
        return Refused;
      }
      HandleOwned(handles[h]);
      answer := StepPath(handles[h], path, c);
    }

    method StepPrepareAt(r: nat, query: Query) returns (answer: Answer)
      requires Valid()
      modifies this`handles, this`slotOwner, this`repr, cache
      ensures Valid() && SlotsGrow() && fresh(repr - old(repr))
      ensures answer == Answered(geo, old(CurrentView()), Prepare(r, query))
      ensures CurrentView() == After(geo, old(CurrentView()), Prepare(r, query))
    {
      hide Ruleset.Valid, PreparedQuery.Planned, SlotsHold;
      if r >= |rulesets| {
        return Refused;
      }
      StepPrepare(rulesets[r], query);
      answer := Done;
    }

    /** Any operation, at any time, answers what the rules and the query alone say. */
    method Step(op: Op) returns (answer: Answer)
      requires Valid() && LawfulOp(geo, op)
      modifies this, repr
      ensures Valid() && SlotsGrow() && fresh(repr - old(repr))
      ensures answer == Answered(geo, old(CurrentView()), op)
      ensures CurrentView() == After(geo, old(CurrentView()), op)
    {
      hide Ruleset.Valid, PreparedQuery.Planned, SlotsHold;
      match op {
        case BuildRuleset(rules, kind) => answer := StepBuild(rules, kind);
        case Prepare(r, query) => answer := StepPrepareAt(r, query);
        case Evaluation(h, path, c) => answer := StepEvaluate(h, path, c);
        case IdentityElsewhere => answer := StepIdentityElsewhere();
        case Arrival(id, rules, kind, warm) => answer := StepArrival(id, rules, kind, warm);
        case FringeElsewhere(r) =>
          RulesetsOwned();
          answer := StepFringeElsewhere(r);
      }
    }

    method StepKeeping(op: Op, ghost contents: map<Slots, seq<Option<Prepared>>>, ghost owners: map<Slots, Ruleset>)
      returns (answer: Answer)
      requires Valid() && LawfulOp(geo, op) && GrownFrom(contents, owners)
      modifies this, repr
      ensures Valid() && GrownFrom(contents, owners) && fresh(repr - old(repr))
      ensures answer == Answered(geo, old(CurrentView()), op)
      ensures CurrentView() == After(geo, old(CurrentView()), op)
    {
      answer := Step(op);
    }

    /**
     * Every run, from any sound thread, over any interleaving of rulesets and
     * handles and of what other threads do, answers as the reference does and,
     * where the library obeys its laws, by definition; and no slot that was
     * filled changes.
     */
    method Run(script: seq<Op>) returns (answers: seq<Answer>)
      requires Valid() && forall op :: op in script ==> LawfulOp(geo, op)
      modifies this, repr
      ensures Valid() && SlotsGrow()
      ensures answers == AnsweredAll(geo, old(CurrentView()), script)
      ensures AllDefined(geo, old(CurrentView()), script, answers)
      ensures CurrentView() == AfterAll(geo, old(CurrentView()), script)
    {
      hide Valid, CurrentView, Answered, After, AllDefined;
      ViewBuildable();
      answers := [];
      ghost var start := CurrentView();
      ghost var contents := map a | a in slotOwner :: a[..];
      ghost var owners := slotOwner;
      var k := 0;
      while k < |script|
        invariant 0 <= k <= |script|
        invariant Valid() && GrownFrom(contents, owners) && fresh(repr - old(repr))
        invariant answers == AnsweredAll(geo, start, script[..k])
        invariant CurrentView() == AfterAll(geo, start, script[..k])
      {
        assert script[..k + 1][..k] == script[..k];
        var answer := StepKeeping(script[k], contents, owners);
        answers := answers + [answer];
        k := k + 1;
      }
      assert script[..k] == script;
      EveryAnswerIsDefined(geo, start, script);
    }

    /** The thread has the rulesets it had, and perhaps `view`; identities are as they were. */
    ghost predicate MeetsOnly(before: View, view: RulesetView)
      reads this, ids
    {
      && CurrentView().nextId == before.nextId
      && (CurrentView().rulesets == before.rulesets || CurrentView().rulesets == before.rulesets + [view])
    }

    /** The place of a published ruleset among the thread's, received first when it is new to the thread. */
    method Receive(view: RulesetView, kind: IndexKind, warm: bool) returns (index: nat)
      requires Valid() && kind.Lawful()
      requires Buildable(geo, view.rules) && view.id < ids.next
      requires forall r :: r in rulesets && r.id == view.id ==> r.rules == view.rules
      modifies this, repr
      ensures Valid() && fresh(repr - old(repr))
      ensures index < |CurrentView().rulesets| && CurrentView().rulesets[index] == view
      ensures MeetsOnly(old(CurrentView()), view)
    {
      hide Ruleset.Valid, PreparedQuery.Planned, SlotsHold, Buildable;
      index := 0;
      while index < |rulesets|
        invariant index <= |rulesets| && forall i :: 0 <= i < index ==> rulesets[i].id != view.id
      {
        if rulesets[index].id == view.id {
          return;
        }
        index := index + 1;
      }
      KnownIdentity(view.id);
      var answer := StepArrival(view.id, view.rules, kind, warm);
    }

    /** A batch on a published ruleset, the thread's part of a query: prepare once, evaluate each candidate. */
    method Serve(view: RulesetView, kind: IndexKind, warm: bool, query: Query, path: Path, candidates: seq<Candidate>)
      returns (answers: seq<Answer>)
      requires Valid() && kind.Lawful()
      requires Buildable(geo, view.rules) && view.id < ids.next
      requires forall r :: r in rulesets && r.id == view.id ==> r.rules == view.rules
      requires forall c :: c in candidates ==> Intake(geo, c)
      modifies this, repr
      ensures Valid() && fresh(repr - old(repr))
      ensures answers == BatchAnswers(geo, view, query, path, candidates)
      ensures MeetsOnly(old(CurrentView()), view)
    {
      hide Valid, CurrentView, Evaluated, Buildable;
      var index := Receive(view, kind, warm);
      ghost var before := CurrentView();
      var prepared := Step(Prepare(index, query));
      ghost var v := CurrentView();
      var handle := |handles| - 1;
      HandlesViewed();
      assert v.handles == before.handles + [HandleView(view, query)];
      answers := [];
      for k := 0 to |candidates|
        invariant Valid() && CurrentView() == v && fresh(repr - old(repr))
        invariant |answers| == k
        invariant forall j :: 0 <= j < k ==> answers[j] == Evaluated(geo, HandleView(view, query), path, candidates[j])
      {
        var answer := Step(Evaluation(handle, path, candidates[k]));
        answers := answers + [answer];
      }
    }

    lemma HandlesViewed()
      ensures |CurrentView().handles| == |handles|
    {
    }

    lemma ViewBuildable()
      requires Valid()
      ensures AllBuildable(geo, CurrentView())
    {
      hide SlotsHold;
    }
  }

  /** A ruleset as another thread hands it over: built there, its fringe index built by then or not. */
  method BuildElsewhere(geo: Geo, rules: seq<Rule>, kind: IndexKind, id: nat, warm: bool)
    returns (r: Result<Ruleset, BuildError>)
    requires kind.Lawful()
    ensures r.Ok? <==> Buildable(geo, rules)
    ensures r.Ok? ==>
      fresh(r.value) && r.value.Valid() && r.value.geo == geo && r.value.rules == rules && r.value.id == id
  {
    r := BuildUnder(geo, rules, kind, id);
    if r.Ok? && warm {
      r.value.InitFringe();
    }
  }

  /** `Ruleset::prepare`. */
  method PrepareQuery(ruleset: Ruleset, query: Query, memo: PreparedMemo) returns (handle: PreparedQuery)
    requires ruleset.Valid() && PreparedAgrees(ruleset.geo)
    requires memo.rules == ruleset.rules && SlotsHold(ruleset.geo, ruleset.rules, memo.slots)
    ensures fresh(handle) && fresh(handle.scratch) && fresh(handle.fringeScratch) && handle.Valid()
    ensures handle.ruleset == ruleset && handle.query == query && handle.memo == memo
  {
    var excluded: set<RuleId> := {};
    for k := 0 to |query.excludeRuleIds|
      invariant excluded == ExcludedIds(ruleset.rules, ruleset.id, query.excludeRuleIds[..k])
    {
      var names := query.excludeRuleIds;
      assert names[..k + 1] == names[..k] + [names[k]];
      var id := ruleset.RuleIdOf(names[k]);
      if id.Some? {
        excluded := excluded + {id.value};
      }
    }
    assert query.excludeRuleIds[..|query.excludeRuleIds|] == query.excludeRuleIds;
    var filter: Option<set<RuleId>> := None;
    if query.whereClause.Some? {
      filter := IndexableMatches(ruleset.propertyIndex, query.whereClause.value, ruleset.rules);
    }
    handle := new PreparedQuery(ruleset, query, excluded, memo, filter);
  }

  // ------------------------------------------------ whole runs

  /** Indexes keep their contract, and candidates carry the class their geometry was given at intake. */
  ghost predicate LawfulOp(geo: Geo, op: Op) {
    match op
    case BuildRuleset(_, kind) => kind.Lawful()
    case Arrival(_, _, kind, _) => kind.Lawful()
    case Evaluation(_, _, c) => Intake(geo, c)
    case _ => true
  }

  /** What an evaluation answers by definition: the naive filter over the rules, and the outcome built on it. */
  ghost function Defined(geo: Geo, h: HandleView, path: Path, c: Candidate): Answer {
    var rules, owner, q := h.ruleset.rules, h.ruleset.id, h.query;
    match path
    case Match => MatchAnswer(Outcome(geo, rules, owner, q, c))
    case Resolve => ResolveAnswer(ResolutionOf(geo, rules, owner, q, c))
    case _ => MaskAnswer(MaskOf(q, c, Mint(ApplicablePositions(geo, rules, q, c.geometry), owner)))
  }

  /** The candidate was classified at intake, and the library obeys its laws for it. */
  ghost predicate LawsFor(geo: Geo, h: HandleView, c: Candidate) {
    && Intake(geo, c)
    && (c.classified.ValidCandidate? ==> LibraryLaws(geo, h.ruleset.rules, h.query, c.classified.envelope, c.geometry))
  }

  lemma EvaluatedIsDefined(geo: Geo, h: HandleView, path: Path, c: Candidate)
    requires Buildable(geo, h.ruleset.rules) && LawsFor(geo, h, c)
    ensures Evaluated(geo, h, path, c) == Defined(geo, h, path, c)
  {
    PipelineOutcome(geo, h.ruleset.rules, h.ruleset.id, h.query, c);
    PipelineResolution(geo, h.ruleset.rules, h.ruleset.id, h.query, c);
  }

  ghost predicate AllBuildable(geo: Geo, v: View) {
    && (forall r :: r in v.rulesets ==> Buildable(geo, r.rules))
    && (forall h :: h in v.handles ==> Buildable(geo, h.ruleset.rules))
  }

  lemma {:induction false} EveryViewBuildable(geo: Geo, v: View, script: seq<Op>)
    requires AllBuildable(geo, v)
    ensures AllBuildable(geo, AfterAll(geo, v, script))
    decreases |script|
  {
    hide Buildable;
    if script != [] {
      EveryViewBuildable(geo, v, script[..|script| - 1]);
    }
  }

  lemma {:induction false} AnswerAt(geo: Geo, v: View, script: seq<Op>, k: nat)
    requires k < |script|
    ensures |AnsweredAll(geo, v, script)| == |script|
    ensures AnsweredAll(geo, v, script)[k] == Answered(geo, AfterAll(geo, v, script[..k]), script[k])
    decreases |script|
  {
    hide Answered, AfterAll;
    var init := script[..|script| - 1];
    if init != [] {
      AnswerAt(geo, v, init, if k < |init| then k else 0);
    }
    if k < |init| {
      assert init[..k] == script[..k];
    }
  }

  /** Each evaluation on a prepared query answers what the definition says about that query's own ruleset. */
  ghost predicate AllDefined(geo: Geo, v: View, script: seq<Op>, answers: seq<Answer>) {
    && |answers| == |script|
    && forall k :: 0 <= k < |script| ==> DefinedAt(geo, AfterAll(geo, v, script[..k]), script[k], answers[k])
  }

  ghost predicate DefinedAt(geo: Geo, v: View, op: Op, answer: Answer) {
    op.Evaluation? && op.handle < |v.handles| && LawsFor(geo, v.handles[op.handle], op.c) ==>
      answer == Defined(geo, v.handles[op.handle], op.path, op.c)
  }

  /**
   * From whatever rulesets and handles a thread has, in every script, each
   * evaluation answers by definition, whatever was built, received, prepared or
   * evaluated before it.
   */
  lemma EveryAnswerIsDefined(geo: Geo, v: View, script: seq<Op>)
    requires AllBuildable(geo, v)
    ensures AllDefined(geo, v, script, AnsweredAll(geo, v, script))
  {
    hide Buildable, LibraryLaws, Evaluated, Defined;
    var answers := AnsweredAll(geo, v, script);
    if script != [] {
      AnswerAt(geo, v, script, 0);
    }
    forall k | 0 <= k < |script|
      ensures DefinedAt(geo, AfterAll(geo, v, script[..k]), script[k], answers[k])
    {
      var w, op := AfterAll(geo, v, script[..k]), script[k];
      AnswerAt(geo, v, script, k);
      EveryViewBuildable(geo, v, script[..k]);
      if op.Evaluation? && op.handle < |w.handles| && LawsFor(geo, w.handles[op.handle], op.c) {
        EvaluatedIsDefined(geo, w.handles[op.handle], op.path, op.c);
      }
    }
  }
}
