/** Whole histories of a pool: rounds, elections, prunings, recruits, removals and credits in any order. */
module CouncilLife {
  import opened Analysts
  import opened Rounds
  import opened Elections

  datatype Council = Council(pool: Pool, history: seq<ElectionRound>)

  datatype CouncilEvent =
    | RoundHeld(llm: Llm, round: nat)
    | ElectionHeld(number: int)
    | PruneHeld                   // pruning outside an election
    | Recruited(role: Role, model: string, prompt: Prompt)
    | Removed(index: nat)
    | Called(analyst: nat, event: Event)   // a call of one analyst's own methods

  function Affect(pool: Pool, i: nat, e: Event): Pool {
    if i < |pool| then pool[i := After(pool[i], e)] else pool
  }

  function Without(pool: Pool, i: nat): Pool {
    if i < |pool| then pool[..i] + pool[i + 1..] else pool
  }

  function Step(c: Council, e: CouncilEvent): Council {
    match e
    case RoundHeld(llm, round) => c.(pool := RoundPool(c.pool, llm, round))
    case ElectionHeld(number) => Council(PrunedPool(c.pool), c.history + [Election(c.pool, number)])
    case PruneHeld => c.(pool := PrunedPool(c.pool))
    case Recruited(role, model, prompt) =>
      if |c.pool| >= MAX_MODELS then c else c.(pool := c.pool + [NewAnalyst(role, model, prompt)])
    case Removed(i) => c.(pool := Without(c.pool, i))
    case Called(i, event) => c.(pool := Affect(c.pool, i, event))
  }

  function History(models: seq<string>, events: seq<CouncilEvent>): Council {
    if events == [] then Council(BasePool(models), [])
    else Step(History(models, events[..|events| - 1]), events[|events| - 1])
  }

  lemma HistoryNext(models: seq<string>, events: seq<CouncilEvent>, e: CouncilEvent)
    ensures History(models, events + [e]) == Step(History(models, events), e)
  {
    assert (events + [e])[..|events + [e]| - 1] == events;
  }

  // ----- the life of each analyst -----

  /** The index before the step of the analyst at `i` after it: a removal moves those behind it forward. */
  function Origin(e: CouncilEvent, i: nat): nat { if e.Removed? && e.index <= i then i + 1 else i }

  /** A step that prunes the analyst at `i`: a pruning that must, or a call of its own method. */
  predicate Prunes(c: Council, e: CouncilEvent, i: nat) {
    i < |c.pool| && (((e.ElectionHeld? || e.PruneHeld?) && ShouldPrune(i, c.pool[i])) || e == Called(i, Pruned))
  }

  /** What one step does to an analyst that was there before it: at most one event of its life. */
  lemma OneEventAtMost(c: Council, e: CouncilEvent, i: nat) returns (own: seq<Event>)
    requires i < |Step(c, e).pool| && Origin(e, i) < |c.pool|
    ensures |own| <= 1 && Step(c, e).pool[i] == Life(c.pool[Origin(e, i)], own)
    ensures Pruned in own <==> Prunes(c, e, i)
  {
    var a := c.pool[Origin(e, i)];
    own := [];
    match e {
      case RoundHeld(llm, round) =>
        InIndexOrderAt(c.pool, llm, round, |c.pool|);
        if a.IsActive() { own := [Replied(llm(round, i))]; }
      case ElectionHeld(_) =>
        PrunedUpToAt(c.pool, |c.pool|, i);
        if ShouldPrune(i, a) { own := [Pruned]; }
      case PruneHeld =>
        PrunedUpToAt(c.pool, |c.pool|, i);
        if ShouldPrune(i, a) { own := [Pruned]; }
      case Recruited(_, _, _) =>
      case Removed(_) =>
      case Called(j, event) => if i == j { own := [event]; }
    }
    if own != [] { LifeOfOne(a, own[0]); }
  }

  /** Only a recruit was not there before the step. */
  lemma NewcomerIsFresh(c: Council, e: CouncilEvent, i: nat)
    requires i < |Step(c, e).pool| && Origin(e, i) >= |c.pool|
    ensures e.Recruited? && Step(c, e).pool[i] == NewAnalyst(e.role, e.model, e.prompt)
  {
  }

  lemma LifeOfOne(a: AnalystState, e: Event)
    ensures Life(a, [e]) == After(a, e)
  {
    assert [e][..0] == [];
    assert Life(a, []) == a;
  }

  lemma {:induction false} LifeConcat(a: AnalystState, es: seq<Event>, more: seq<Event>)
    requires |more| <= 1
    ensures Life(a, es + more) == Life(Life(a, es), more)
  {
    if more == [] {
      assert es + more == es;
    } else {
      assert (es + more)[..|es + more| - 1] == es;
      LifeOfOne(Life(a, es), more[0]);
      assert more == [more[0]];
    }
  }

  /** Every analyst of every history is a fresh analyst that has lived through some events. */
  lemma {:induction false} EveryAnalystHasALife(models: seq<string>, events: seq<CouncilEvent>, i: nat)
    returns (role: Role, model: string, prompt: Prompt, own: seq<Event>)
    requires i < |History(models, events).pool|
    ensures History(models, events).pool[i] == Life(NewAnalyst(role, model, prompt), own)
  {
    if events == [] {
      BaseAnalystsAt(models, BaseSize(models));
      role, model, prompt, own := RoleAt(i), models[i], Builtin(RoleAt(i)), [];
    } else {
      var c, e := History(models, events[..|events| - 1]), events[|events| - 1];
      if Origin(e, i) < |c.pool| {
        role, model, prompt, own := EveryAnalystHasALife(models, events[..|events| - 1], Origin(e, i));
        var more := OneEventAtMost(c, e, i);
        LifeConcat(NewAnalyst(role, model, prompt), own, more);
        own := own + more;
      } else {
        NewcomerIsFresh(c, e, i);
        role, model, prompt, own := e.role, e.model, e.prompt, [];
      }
    }
  }

  /** In every history, every analyst's score is 2 per adopted proposal plus 1 per challenge won. */
  lemma ScoresAlwaysAddUp(models: seq<string>, events: seq<CouncilEvent>, i: nat)
    requires i < |History(models, events).pool|
    ensures var s := History(models, events).pool[i].stats;
      s.totalScore == 2 * s.proposalsAdopted + s.challengesWon && s.proposalsAdopted >= 0 && s.challengesWon >= 0
  {
    var role, model, prompt, own := EveryAnalystHasALife(models, events, i);
    ScoreIsWeightedSum(role, model, prompt, own);
  }

  /** Beyond the first four, an election spares nobody without an adopted proposal or two challenges won. */
  lemma RecruitsMustScore(models: seq<string>, events: seq<CouncilEvent>, round: int, i: nat)
    requires BASE_ANALYST_COUNT <= i < |History(models, events).pool|
    ensures var s := History(models, events).pool[i].stats;
      s.proposalsAdopted == 0 && s.challengesWon <= 1 ==>
        !History(models, events + [ElectionHeld(round)]).pool[i].IsActive()
  {
    ScoresAlwaysAddUp(models, events, i);
    PrunesExactly(History(models, events).pool, i);
    HistoryNext(models, events, ElectionHeld(round));
  }

  // ----- who is pruned -----

  /** Whether the analyst at `i` is there and pruned. */
  predicate PrunedAt(c: Council, i: nat) { i < |c.pool| && c.pool[i].stats.pruned }

  /** Pruned afterwards are those pruned before and those the step prunes. */
  lemma PrunedNext(c: Council, e: CouncilEvent, i: nat)
    ensures PrunedAt(Step(c, e), i) <==> PrunedAt(c, Origin(e, i)) || Prunes(c, e, i)
  {
    StepSize(c, e);
    if i < |Step(c, e).pool| {
      if Origin(e, i) < |c.pool| {
        var own := OneEventAtMost(c, e, i);
        PrunedByLife(c.pool[Origin(e, i)], own);
      } else {
        NewcomerIsFresh(c, e, i);
      }
    }
  }

  /** Only a recruit and a removal change the size. */
  lemma StepSize(c: Council, e: CouncilEvent)
    ensures |Step(c, e).pool| ==
      if e.Recruited? && |c.pool| < MAX_MODELS then |c.pool| + 1
      else if e.Removed? && e.index < |c.pool| then |c.pool| - 1 else |c.pool|
  {
  }

  lemma PrunedByLife(a: AnalystState, own: seq<Event>)
    requires |own| <= 1
    ensures Life(a, own).stats.pruned <==> a.stats.pruned || Pruned in own
  {
    if own != [] {
      LifeOfOne(a, own[0]);
      assert own == [own[0]];
    }
  }

  /** None of the first four analysts is pruned. */
  predicate BaseSpared(c: Council) { forall i: nat :: i < BASE_ANALYST_COUNT ==> !PrunedAt(c, i) }

  /** Neither a removal that moves a pruned analyst from index 4 to 3, nor a call that prunes one of the first four. */
  predicate Harmless(c: Council, e: CouncilEvent) {
    && (e.Removed? && e.index < BASE_ANALYST_COUNT ==> !PrunedAt(c, BASE_ANALYST_COUNT))
    && (e.Called? && e.event.Pruned? && e.analyst < BASE_ANALYST_COUNT ==> e.analyst >= |c.pool|)
  }

  /** A step keeps the first four unpruned exactly if it is harmless. */
  lemma BaseSparedNext(c: Council, e: CouncilEvent)
    requires BaseSpared(c)
    ensures BaseSpared(Step(c, e)) <==> Harmless(c, e)
  {
    forall i: nat | i < BASE_ANALYST_COUNT
      ensures PrunedAt(Step(c, e), i) <==> PrunedAt(c, Origin(e, i)) || (e == Called(i, Pruned) && i < |c.pool|)
    {
      PrunedNext(c, e, i);
    }
    if !Harmless(c, e) {
      assert PrunedAt(Step(c, e), if e.Removed? then BASE_ANALYST_COUNT - 1 else e.analyst);
    }
  }

  predicate AllHarmless(models: seq<string>, events: seq<CouncilEvent>) {
    events != [] ==>
      && AllHarmless(models, events[..|events| - 1])
      && Harmless(History(models, events[..|events| - 1]), events[|events| - 1])
  }

  /** At no moment of the history is one of the first four pruned. */
  predicate BaseSparedThroughout(models: seq<string>, events: seq<CouncilEvent>) {
    BaseSpared(History(models, events)) && (events != [] ==> BaseSparedThroughout(models, events[..|events| - 1]))
  }

  /** The first four analysts are never pruned, exactly in the histories whose steps are all harmless. */
  lemma {:induction false} BaseNeverPruned(models: seq<string>, events: seq<CouncilEvent>)
    ensures BaseSparedThroughout(models, events) <==> AllHarmless(models, events)
  {
    if events == [] {
      BaseAnalystsAt(models, BaseSize(models));
    } else {
      BaseNeverPruned(models, events[..|events| - 1]);
      if BaseSpared(History(models, events[..|events| - 1])) {
        BaseSparedNext(History(models, events[..|events| - 1]), events[|events| - 1]);
      }
    }
  }

  /** A council of four with a recruit: the next pruning takes the recruit. */
  lemma FreshRecruit(models: seq<string>, role: Role, model: string, prompt: Prompt)
    requires |models| == BASE_ANALYST_COUNT
    ensures var c := History(models, [Recruited(role, model, prompt)]);
      |c.pool| == 5 && ShouldPrune(4, c.pool[4]) && c.history == []
  {
    HistoryNext(models, [], Recruited(role, model, prompt));
    assert [] + [Recruited(role, model, prompt)] == [Recruited(role, model, prompt)];
  }

  /** Removing the first of five brings a pruned recruit among the first four. */
  lemma RemovalExposesPruned(models: seq<string>, role: Role, model: string, prompt: Prompt)
    requires |models| == BASE_ANALYST_COUNT
    ensures PrunedAt(History(models, [Recruited(role, model, prompt), PruneHeld, Removed(0)]), 3)
  {
    var one := [Recruited(role, model, prompt)];
    FreshRecruit(models, role, model, prompt);
    HistoryNext(models, one, PruneHeld);
    HistoryNext(models, one + [PruneHeld], Removed(0));
    assert one + [PruneHeld] + [Removed(0)] == [Recruited(role, model, prompt), PruneHeld, Removed(0)];
    PrunedNext(History(models, one), PruneHeld, 4);
    PrunedNext(History(models, one + [PruneHeld]), Removed(0), 3);
  }

  // ----- the recorded lists -----

  /** Not a removal at or before a pruned analyst. */
  predicate Steady(c: Council, e: CouncilEvent) {
    e.Removed? ==> forall i: nat :: e.index <= i < |c.pool| ==> !PrunedAt(c, i)
  }

  /** Whoever is pruned at an index before is pruned at that index after. */
  ghost predicate Outlasts(c: Council, d: Council) { forall i: nat :: PrunedAt(c, i) ==> PrunedAt(d, i) }

  /** The highest pruned index, or -1. */
  function LastPruned(c: Council, n: nat): (i: int)
    requires n <= |c.pool|
    ensures -1 <= i < n && (i >= 0 ==> PrunedAt(c, i)) && forall j: nat :: i < j < n ==> !PrunedAt(c, j)
  {
    if n == 0 then -1 else if PrunedAt(c, n - 1) then n - 1 else LastPruned(c, n - 1)
  }

  /** A step keeps every index pruned that was, exactly if it is steady. */
  lemma SteadyKeepsPruned(c: Council, e: CouncilEvent)
    ensures Outlasts(c, Step(c, e)) <==> Steady(c, e)
  {
    forall i: nat | PrunedAt(c, i) ensures !e.Removed? || i < e.index ==> PrunedAt(Step(c, e), i) {
      PrunedNext(c, e, i);
    }
    if e.Removed? && Outlasts(c, Step(c, e)) {
      var last := LastPruned(c, |c.pool|);
      if last >= e.index {
        PrunedNext(c, e, last);
        assert false;
      }
    }
  }

  /** The list an election records: everybody pruned after it, in increasing order. */
  lemma ElectionRecords(c: Council, number: int)
    ensures var list := Election(c.pool, number).pruned;
      && (forall i: nat :: i in list <==> PrunedAt(Step(c, ElectionHeld(number)), i))
      && (forall k, l :: 0 <= k < l < |list| ==> list[k] < list[l])
  {
    PrunedIdsAreThePruned(PrunedPool(c.pool), |c.pool|);
  }

  predicate AllSteady(models: seq<string>, events: seq<CouncilEvent>) {
    events != [] ==>
      && AllSteady(models, events[..|events| - 1])
      && Steady(History(models, events[..|events| - 1]), events[|events| - 1])
  }

  /** In every history, each recorded list is strictly increasing. */
  lemma {:induction false} PrunedListsIncrease(models: seq<string>, events: seq<CouncilEvent>, a: nat)
    requires a < |History(models, events).history|
    ensures var list := History(models, events).history[a].pruned;
      forall k, l :: 0 <= k < l < |list| ==> list[k] < list[l]
  {
    if events != [] {
      var c, e := History(models, events[..|events| - 1]), events[|events| - 1];
      if a < |c.history| {
        PrunedListsIncrease(models, events[..|events| - 1], a);
      } else {
        ElectionRecords(c, e.number);
      }
    }
  }

  /** As long as no removal is at or before a pruned analyst, whoever a list names stays pruned at that index. */
  lemma {:induction false} RecordedStayPruned(models: seq<string>, events: seq<CouncilEvent>, a: nat, i: nat)
    requires AllSteady(models, events)
    requires a < |History(models, events).history| && i in History(models, events).history[a].pruned
    ensures PrunedAt(History(models, events), i)
    ensures AllHarmless(models, events) ==> i >= BASE_ANALYST_COUNT
  {
    var c, e := History(models, events[..|events| - 1]), events[|events| - 1];
    if a < |c.history| {
      RecordedStayPruned(models, events[..|events| - 1], a, i);
      SteadyKeepsPruned(c, e);
    } else {
      ElectionRecords(c, e.number);
    }
    BaseNeverPruned(models, events);
  }

  /** In such histories the lists are nested: whoever is in one is in every later one. */
  lemma {:induction false} PrunedListsNest(models: seq<string>, events: seq<CouncilEvent>, a: nat, b: nat, i: nat)
    requires AllSteady(models, events) && a <= b < |History(models, events).history|
    requires i in History(models, events).history[a].pruned
    ensures i in History(models, events).history[b].pruned
  {
    var c, e := History(models, events[..|events| - 1]), events[|events| - 1];
    if b < |c.history| {
      PrunedListsNest(models, events[..|events| - 1], a, b, i);
    } else {
      RecordedStayPruned(models, events, a, i);
      ElectionRecords(c, e.number);
    }
  }

  /** After an election nobody is left to prune, also one place further on. */
  lemma NobodyLeftToPrune(c: Council, number: int, i: nat)
    requires BASE_ANALYST_COUNT <= i < |c.pool|
    ensures !ShouldPrune(i, Step(c, ElectionHeld(number)).pool[i])
    ensures i > BASE_ANALYST_COUNT ==> !ShouldPrune(i - 1, Step(c, ElectionHeld(number)).pool[i])
  {
    PrunesExactly(c.pool, i);
  }

  /** Two elections with a removal in between: the second list has all of the first exactly if the removal is steady. */
  lemma RemovalBetweenElections(c: Council, a: int, index: nat, b: int)
    ensures var d := Step(c, ElectionHeld(a));
      var f := Step(d, Removed(index));
      (forall i: nat :: i in Election(c.pool, a).pruned ==> i in Election(f.pool, b).pruned)
        <==> Steady(d, Removed(index))
  {
    var d := Step(c, ElectionHeld(a));
    var f := Step(d, Removed(index));
    ElectionRecords(c, a);
    ElectionRecords(f, b);
    SteadyKeepsPruned(d, Removed(index));
    SteadyKeepsPruned(f, ElectionHeld(b));
    if !Steady(d, Removed(index)) {
      var last := LastPruned(d, |d.pool|);
      PrunedNext(d, Removed(index), last);
      PrunedNext(f, ElectionHeld(b), last);
      StepSize(c, ElectionHeld(a));
      if last + 1 < |d.pool| && last >= BASE_ANALYST_COUNT {
        NobodyLeftToPrune(c, a, last + 1);
      }
      assert last in Election(c.pool, a).pruned && last !in Election(f.pool, b).pruned;
    }
  }

  /** Removing the one pruned recruit empties the next list. */
  lemma RemovalBreaksNesting(models: seq<string>, role: Role, model: string, prompt: Prompt)
    requires |models| == BASE_ANALYST_COUNT
    ensures var es := [Recruited(role, model, prompt), ElectionHeld(0), Removed(4), ElectionHeld(1)];
      var h := History(models, es).history;
      |h| == 2 && 4 in h[0].pruned && 4 !in h[1].pruned
  {
    var one := [Recruited(role, model, prompt)];
    var two := one + [ElectionHeld(0)];
    var three := two + [Removed(4)];
    FreshRecruit(models, role, model, prompt);
    HistoryNext(models, one, ElectionHeld(0));
    HistoryNext(models, two, Removed(4));
    HistoryNext(models, three, ElectionHeld(1));
    assert three + [ElectionHeld(1)] == [Recruited(role, model, prompt), ElectionHeld(0), Removed(4), ElectionHeld(1)];
    var c1, c3 := History(models, one), History(models, three);
    ElectionRecords(c1, 0);
    PrunedNext(c1, ElectionHeld(0), 4);
    StepSize(c1, ElectionHeld(0));
    StepSize(History(models, two), Removed(4));
    ElectionRecords(c3, 1);
    PrunedNext(c3, ElectionHeld(1), 4);
  }
}
