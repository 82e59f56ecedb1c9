/** The debate: rounds and elections in turn, and the final result. */
module Councils {
  import opened Sequences
  import opened Analysts
  import opened Rounds
  import opened Elections

  /** A debate in progress; it is over once a round has had no success. */
  datatype Debate = Debate(pool: Pool, history: seq<ElectionRound>, over: bool)

  function DebateStep(d: Debate, llm: Llm, round: nat): Debate {
    var p := RoundPool(d.pool, llm, round);
    if d.over then d
    else if Successes(d.pool, llm, round) == 0 then Debate(p, d.history, true)
    else Debate(PrunedPool(p), d.history + [Election(p, round)], false)
  }

  /** The debate after its first `n` rounds. */
  function DebateRounds(start: Debate, llm: Llm, n: nat): Debate {
    if n == 0 then start else DebateStep(DebateRounds(start, llm, n - 1), llm, n - 1)
  }

  /** The lowest index below `n` with the highest total score, counting from -1 upwards. */
  function TopScorer(pool: Pool, n: nat): (w: int)
    requires n <= |pool|
    ensures -1 <= w < n
    ensures w >= 0 ==>
      && pool[w].stats.totalScore > -1
      && (forall i :: 0 <= i < n ==> pool[i].stats.totalScore <= pool[w].stats.totalScore)
      && (forall i :: 0 <= i < w ==> pool[i].stats.totalScore < pool[w].stats.totalScore)
    ensures w == -1 ==> forall i :: 0 <= i < n ==> pool[i].stats.totalScore <= -1
  {
    if n == 0 then -1
    else
      var w := TopScorer(pool, n - 1);
      if pool[n - 1].stats.totalScore > (if w == -1 then -1 else pool[w].stats.totalScore) then n - 1 else w
  }

  /** The non-empty responses of the rounds below `n`, in order. */
  function Spoken(a: AnalystState, n: nat): seq<string> {
    if n == 0 then []
    else Spoken(a, n - 1) + if a.Response(n - 1) != "" then [a.Response(n - 1)] else []
  }

  datatype DebateResult = DebateResult(
    finalWinner: int, winnerResponses: seq<string>, roundsCompleted: int,
    analystsPruned: int, finalStats: seq<Stats>)

  function Statistics(pool: Pool): seq<Stats> {
    seq(|pool|, i requires 0 <= i < |pool| => pool[i].stats)
  }

  function AtLeastZero(n: int): nat { if n < 0 then 0 else n }

  /** The result of a debate that left `pool`; `rounds` is the configured number, not the number that ran. */
  function ResultOf(pool: Pool, rounds: int): DebateResult {
    var w := TopScorer(pool, |pool|);
    DebateResult(w, if w >= 0 then Spoken(pool[w], AtLeastZero(rounds)) else [], 0,
                 Count(pool, IsPruned), Statistics(pool))
  }

  class CouncilOrchestrator {
    const rounds: int
    var hasClient: bool
    var pool: AnalystPool?
    var voting: VotingSystem?

    ghost predicate Valid()
      reads this, pool, voting
    {
      && (pool != null <==> voting != null)
      && (pool != null <==> hasClient)
      && (pool != null ==> pool.Valid() && voting.pool == pool)
    }

    constructor (rounds: int)
      ensures Valid() && !hasClient && pool == null && this.rounds == rounds
    {
      this.rounds, hasClient, pool, voting := rounds, false, null, null;
    }

    method InitializeAnalysts(client: bool, models: seq<string>) returns (ok: bool)
      requires Valid()
      modifies this
      ensures Valid() && ok == (client && models != [])
      ensures ok ==> pool != null && pool.View() == BasePool(models) && voting.history == []
      ensures !ok ==> pool == old(pool) && voting == old(voting) && hasClient == old(hasClient)
    {
      if !client || models == [] {
        return false;
      }
      hasClient := true;
      var p := new AnalystPool(models);
      pool := p;
      voting := new VotingSystem(p);
      return true;
    }

    /** All analysts run; unless nobody succeeded, an election follows. */
    method RunRound(llm: Llm, round: nat) returns (ok: bool)
      requires Valid() && pool != null
      modifies pool.analysts, voting
      ensures Valid() && pool == old(pool) && voting == old(voting) && pool.analysts == old(pool.analysts)
      ensures Debate(pool.View(), voting.history, !ok)
           == DebateStep(Debate(old(pool.View()), old(voting.history), false), llm, round)
    {
      var successes := pool.ExecuteRound(llm, round);
      if successes <= 0 {
        return false;
      }
      var election := voting.RunElectionRound(round);
      return true;
    }

    /** The round loop: it stops after the first round that fails. */
    method RunRounds(llm: Llm, numRounds: nat) returns (ghost d: Debate)
      requires Valid() && pool != null
      modifies pool.analysts, voting
      ensures Valid() && pool == old(pool) && voting == old(voting) && pool.analysts == old(pool.analysts)
      ensures d == DebateRounds(Debate(old(pool.View()), old(voting.history), false), llm, numRounds)
      ensures pool.View() == d.pool && voting.history == d.history
    {
      ghost var start := Debate(pool.View(), voting.history, false);
      d := start;
      var round := 0;
      while round < numRounds
        invariant round <= numRounds
        invariant Valid() && pool.analysts == old(pool.analysts)
        invariant d == DebateRounds(start, llm, round) == Debate(pool.View(), voting.history, false)
      {
        var ok := RunRound(llm, round);
        d := DebateStep(d, llm, round);
        round := round + 1;
        if !ok {
          StaysOver(start, llm, round, numRounds);
          return;
        }
      }
    }

    method RunDebate(llm: Llm, numRounds: int) returns (result: DebateResult, ghost d: Debate)
      requires Valid()
      modifies pool, if pool == null then [] else pool.analysts, voting
      ensures Valid() && pool == old(pool) && voting == old(voting)
      ensures pool == null ==> result == DebateResult(-1, [], 0, 0, [])
      ensures pool != null ==>
        && d == DebateRounds(Debate(old(pool.View()), old(voting.history), false), llm,
                             AtLeastZero(numRounds))
        && pool.View() == d.pool && voting.history == d.history
        && result == ResultOf(d.pool, rounds)
    {
      if pool == null {
        result := DebateResult(-1, [], 0, 0, []);
        d := Debate([], [], true);
      } else {
        d := RunRounds(llm, AtLeastZero(numRounds));
        result := FinalizeResults(pool, rounds);
      }
    }
  }

  /** The analyst with the highest total score, the first one on a tie. */
  method BestScorer(stats: seq<Stats>, ghost pool: Pool) returns (winner: int)
    requires stats == Statistics(pool)
    ensures winner == TopScorer(pool, |pool|)
  {
    winner := -1;
    var maxScore := -1;
    for i := 0 to |stats|
      invariant winner == TopScorer(pool, i)
      invariant maxScore == if winner == -1 then -1 else pool[winner].stats.totalScore
    {
      if stats[i].totalScore > maxScore {
        maxScore, winner := stats[i].totalScore, i;
      }
    }
  }

  method CountPruned(stats: seq<Stats>, ghost pool: Pool) returns (pruned: nat)
    requires stats == Statistics(pool)
    ensures pruned == Count(pool, IsPruned)
  {
    pruned := 0;
    for i := 0 to |stats|
      invariant pruned == Count(pool[..i], IsPruned)
    {
      assert pool[..i + 1][..i] == pool[..i];
      if stats[i].pruned {
        pruned := pruned + 1;
      }
    }
    assert pool[..|stats|] == pool;
  }

  method FinalizeResults(pool: AnalystPool, rounds: int) returns (result: DebateResult)
    ensures result == ResultOf(pool.View(), rounds)
  {
    ghost var view := pool.View();
    var stats := pool.GetStats();
    assert stats == Statistics(view);
    var winner := BestScorer(stats, view);
    var pruned := CountPruned(stats, view);
    var responses: seq<string> := [];
    if winner >= 0 {
      responses := CollectResponses(pool.analysts[winner], rounds);
    }
    result := DebateResult(winner, responses, 0, pruned, stats);
  }

  method CollectResponses(winner: Analyst, rounds: int) returns (responses: seq<string>)
    ensures responses == Spoken(winner.State(), AtLeastZero(rounds))
  {
    responses := [];
    var r := 0;
    while r < rounds
      invariant 0 <= r <= AtLeastZero(rounds) && responses == Spoken(winner.State(), r)
    {
      var response := winner.GetResponse(r);
      if response != "" {
        responses := responses + [response];
      }
      r := r + 1;
    }
  }

  /** A debate that is over stays as it is. */
  lemma {:induction false} StaysOver(start: Debate, llm: Llm, m: nat, n: nat)
    requires m <= n && DebateRounds(start, llm, m).over
    ensures DebateRounds(start, llm, n) == DebateRounds(start, llm, m)
  {
    if m < n { StaysOver(start, llm, m, n - 1); }
  }

  // ----- who joins late -----

  /** A debate that goes on with rounds `r`, `r + 1`, ..., `n` of them. */
  function Continued(start: Debate, llm: Llm, r: nat, n: nat): Debate {
    if n == 0 then start else DebateStep(Continued(start, llm, r, n - 1), llm, r + n - 1)
  }

  /** The analyst at `i` has at most `n` responses, and got no vote in the elections from `b` on. */
  predicate Unheard(d: Debate, i: nat, n: nat, b: nat) {
    && i < |d.pool| && |d.pool[i].responses| <= n
    && forall k :: b <= k < |d.history| ==> forall v :: v in d.history[k].votes ==> v.votee != i
  }

  lemma UnheardStep(d: Debate, llm: Llm, i: nat, n: nat, b: nat, round: nat)
    requires Unheard(d, i, n, b) && n < round
    ensures Unheard(DebateStep(d, llm, round), i, n + 1, b)
  {
    var q := RoundPool(d.pool, llm, round);
    InIndexOrderAt(d.pool, llm, round, |d.pool|);
    assert !Responds(q, round, i);
    BallotsAreFair(q, round, |q|);
    PrunedUpToAt(q, |q|, i);
  }

  /**
   Whoever joins once a round has been held is one response behind for good: in every
   later election its response of the round is empty, and nobody ever votes for it.
   */
  lemma {:induction false} LateRecruitIsUnheard(p: Pool, h: seq<ElectionRound>, a: AnalystState,
                                                llm: Llm, r: nat, n: nat)
    requires r >= 1 && a.responses == []
    ensures Unheard(Continued(Debate(p + [a], h, false), llm, r, n), |p|, n, |h|)
  {
    if n > 0 {
      var d := Continued(Debate(p + [a], h, false), llm, r, n - 1);
      LateRecruitIsUnheard(p, h, a, llm, r, n - 1);
      UnheardStep(d, llm, |p|, n - 1, |h|, r + n - 1);
    }
  }

  // ----- debates on a freshly initialised council -----

  function Fresh(models: seq<string>): Debate { Debate(BasePool(models), [], false) }

  /** A council that has just been created and has heard only the replies of `round`. */
  function Hearing(models: seq<string>, llm: Llm, round: nat): Pool {
    HearingUpTo(models, llm, round, BaseSize(models))
  }

  function HearingUpTo(models: seq<string>, llm: Llm, round: nat, n: nat): (pool: Pool)
    requires n <= |models|
    ensures |pool| == n
  {
    if n == 0 then []
    else HearingUpTo(models, llm, round, n - 1) + [AfterReply(BaseAnalyst(models, n - 1), llm(round, n - 1))]
  }

  lemma {:induction false} HearingAt(models: seq<string>, llm: Llm, round: nat, n: nat)
    requires n <= |models|
    ensures forall i :: 0 <= i < n ==>
      HearingUpTo(models, llm, round, n)[i] == AfterReply(BaseAnalyst(models, i), llm(round, i))
  {
    if n > 0 { HearingAt(models, llm, round, n - 1); }
  }

  /** Every analyst fails in `round`. */
  predicate AllFail(models: seq<string>, llm: Llm, round: nat) {
    forall i: nat :: i < BaseSize(models) ==> llm(round, i).Exception? || llm(round, i).error != ""
  }

  /** What the analyst at index `i` says in the rounds below `k`. */
  function Said(llm: Llm, i: nat, k: nat): (texts: seq<string>)
    ensures |texts| == k
  {
    if k == 0 then [] else Said(llm, i, k - 1) + [TextOf(llm(k - 1, i))]
  }

  /** An analyst of a fresh council after `k` rounds: active, without credit, with one response per round. */
  ghost predicate InStep(a: AnalystState, llm: Llm, i: nat, k: nat) {
    a.IsActive() && a.stats.totalScore == 0 && a.responses == Said(llm, i, k)
  }

  ghost predicate Aligned(models: seq<string>, llm: Llm, p: Pool, k: nat) {
    |p| == BaseSize(models) && forall i :: 0 <= i < |p| ==> InStep(p[i], llm, i, k)
  }

  /** Round `k` with the replies of `now` comes after `n` rounds heard from `llm`, and says what `llm` says next. */
  ghost predicate GoesOn(llm: Llm, n: nat, now: Llm, k: nat) {
    forall i: nat :: TextOf(llm(n, i)) == TextOf(now(k, i))
  }

  lemma RoundKeepsAligned(models: seq<string>, llm: Llm, p: Pool, n: nat, now: Llm, k: nat)
    requires Aligned(models, llm, p, n) && GoesOn(llm, n, now, k)
    ensures Aligned(models, llm, RoundPool(p, now, k), n + 1)
  {
    InIndexOrderAt(p, now, k, |p|);
    var q := RoundPool(p, now, k);
    forall i | 0 <= i < |p| ensures InStep(q[i], llm, i, n + 1) {
      assert InStep(p[i], llm, i, n) && TextOf(llm(n, i)) == TextOf(now(k, i));
    }
  }

  lemma FailureEndsIt(models: seq<string>, llm: Llm, p: Pool, n: nat, now: Llm, k: nat)
    requires Aligned(models, llm, p, n)
    ensures Successes(p, now, k) == 0 <==> AllFail(models, now, k)
  {
    SuccessesPositive(p, now, k, |p|);
    forall i: nat | i < |p| ensures p[i].IsActive() { assert InStep(p[i], llm, i, n); }
  }

  /** The election of round `k` as decided by the replies of that round alone. */
  function OwnElection(models: seq<string>, llm: Llm, k: nat): ElectionRound {
    var heard := Hearing(models, llm, k);
    ElectionRound(k, Ballots(heard, 0, |heard|), [], Winner(heard, 0))
  }

  lemma {:induction false} SaidAt(llm: Llm, i: nat, n: nat, k: nat)
    requires k < n
    ensures Said(llm, i, n)[k] == TextOf(llm(k, i))
  {
    if k < n - 1 { SaidAt(llm, i, n - 1, k); }
  }

  lemma AlignedOffers(models: seq<string>, llm: Llm, q: Pool, n: nat, k: nat)
    requires Aligned(models, llm, q, n) && k < n
    ensures SameRound(q, k, Hearing(models, llm, k), 0)
  {
    var heard := Hearing(models, llm, k);
    HearingAt(models, llm, k, BaseSize(models));
    forall i | 0 <= i < |q| ensures q[i].IsActive() == heard[i].IsActive() && Offer(q, k, i) == Offer(heard, 0, i) {
      assert InStep(q[i], llm, i, n);
      SaidAt(llm, i, n, k);
    }
  }

  lemma ElectionIsMemoryless(models: seq<string>, llm: Llm, q: Pool, n: nat, k: nat)
    requires Aligned(models, llm, q, n) && k < n && PrunedPool(q) == q
    ensures Election(q, k) == OwnElection(models, llm, k)
  {
    var heard := Hearing(models, llm, k);
    AlignedOffers(models, llm, q, n, k);
    SameBallots(q, k, heard, 0, |q|);
    SameWinner(q, k, heard, 0);
    forall i | 0 <= i < |q| ensures q[i].IsActive() { assert InStep(q[i], llm, i, n); }
    NobodyPruned(q, |q|);
  }

  lemma {:induction false} NobodyPruned(p: Pool, n: nat)
    requires n <= |p| && forall i :: 0 <= i < |p| ==> p[i].IsActive()
    ensures PrunedIds(p, n) == []
  {
    if n > 0 { NobodyPruned(p, n - 1); }
  }

  /** The elections of the rounds below `m`, each decided by its own round. */
  function OwnElections(models: seq<string>, llm: Llm, m: nat): (h: seq<ElectionRound>)
    ensures |h| == m
  {
    if m == 0 then [] else OwnElections(models, llm, m - 1) + [OwnElection(models, llm, m - 1)]
  }

  lemma {:induction false} OwnElectionsAt(models: seq<string>, llm: Llm, m: nat, k: nat)
    requires k < m
    ensures OwnElections(models, llm, m)[k] == OwnElection(models, llm, k)
  {
    if k < m - 1 { OwnElectionsAt(models, llm, m - 1, k); }
  }

  /** The number of rounds below `n` before the first in which everybody fails. */
  function GoodRounds(models: seq<string>, llm: Llm, n: nat): (m: nat)
    ensures m <= n
  {
    if n == 0 then 0
    else
      var m := GoodRounds(models, llm, n - 1);
      if m == n - 1 && !AllFail(models, llm, m) then n else m
  }

  lemma {:induction false} GoodRoundsStopAtFailure(models: seq<string>, llm: Llm, n: nat)
    ensures var m := GoodRounds(models, llm, n);
      (forall k: nat :: k < m ==> !AllFail(models, llm, k)) && (m < n ==> AllFail(models, llm, m))
  {
    if n > 0 { GoodRoundsStopAtFailure(models, llm, n - 1); }
  }

  lemma StepPace(models: seq<string>, llm: Llm, d: Debate, n: nat, now: Llm, k: nat)
    requires Aligned(models, llm, d.pool, n) && !d.over && GoesOn(llm, n, now, k)
    ensures var e := DebateStep(d, now, k);
      && Aligned(models, llm, e.pool, n + 1) && e.over == AllFail(models, now, k)
      && |e.history| == if e.over then |d.history| else |d.history| + 1
  {
    RoundKeepsAligned(models, llm, d.pool, n, now, k);
    FailureEndsIt(models, llm, d.pool, n, now, k);
    BaseIsSpared(RoundPool(d.pool, now, k), |d.pool|);
  }

  /**
   After `n` rounds the debate has held an election in each round before the first in
   which everybody fails, and every analyst has one response for each round that ran.
   */
  ghost predicate KeepsPace(models: seq<string>, llm: Llm, n: nat) {
    var d := DebateRounds(Fresh(models), llm, n);
    var m := GoodRounds(models, llm, n);
    && |d.history| == m && d.over == (m < n)
    && Aligned(models, llm, d.pool, if d.over then m + 1 else m)
  }

  lemma PaceStarts(models: seq<string>, llm: Llm)
    ensures KeepsPace(models, llm, 0)
  {
    BaseAnalystsAt(models, BaseSize(models));
  }

  lemma PaceStep(models: seq<string>, llm: Llm, n: nat)
    requires KeepsPace(models, llm, n)
    ensures KeepsPace(models, llm, n + 1)
  {
    var d := DebateRounds(Fresh(models), llm, n);
    if !d.over {
      StepPace(models, llm, d, n, llm, n);
    }
  }

  /** On a fresh council, for every LLM behaviour, every debate keeps pace. */
  lemma {:induction false} DebateKeepsPace(models: seq<string>, llm: Llm, n: nat)
    ensures KeepsPace(models, llm, n)
  {
    if n == 0 {
      PaceStarts(models, llm);
    } else {
      DebateKeepsPace(models, llm, n - 1);
      PaceStep(models, llm, n - 1);
    }
  }

  /** The election a step adds is the one of what was heard in round `k`. */
  lemma StepHistory(models: seq<string>, llm: Llm, d: Debate, n: nat, now: Llm, k: nat)
    requires Aligned(models, llm, d.pool, n) && k <= n && GoesOn(llm, n, now, k)
    ensures DebateStep(d, now, k).history == d.history
         || DebateStep(d, now, k).history == d.history + [OwnElection(models, llm, k)]
  {
    var q := RoundPool(d.pool, now, k);
    RoundKeepsAligned(models, llm, d.pool, n, now, k);
    BaseIsSpared(q, |q|);
    ElectionIsMemoryless(models, llm, q, n + 1, k);
  }

  /** The history after `n` rounds is rounds 0, 1, 2, ... up to the first failure, each with its own election. */
  ghost predicate HistoryFits(models: seq<string>, llm: Llm, n: nat) {
    DebateRounds(Fresh(models), llm, n).history == OwnElections(models, llm, GoodRounds(models, llm, n))
  }

  lemma HistoryStarts(models: seq<string>, llm: Llm)
    ensures HistoryFits(models, llm, 0)
  {
  }

  lemma HistoryStep(models: seq<string>, llm: Llm, n: nat)
    requires HistoryFits(models, llm, n)
    ensures HistoryFits(models, llm, n + 1)
  {
    var d := DebateRounds(Fresh(models), llm, n);
    DebateKeepsPace(models, llm, n);
    DebateKeepsPace(models, llm, n + 1);
    if !d.over {
      StepPace(models, llm, d, n, llm, n);
      StepHistory(models, llm, d, n, llm, n);
    }
  }

  lemma HistoryAlwaysFits(models: seq<string>, llm: Llm, n: nat)
    ensures HistoryFits(models, llm, n)
  {
    HistoryStarts(models, llm);
    var k: nat := 0;
    while k < n
      invariant k <= n && HistoryFits(models, llm, k)
    {
      HistoryStep(models, llm, k);
      k := k + 1;
    }
  }

  /**
   Main result on debates, for every LLM behaviour: the history is rounds 0, 1, 2, ...
   without gaps up to the first in which everybody fails, and each election is decided by
   the replies of its own round alone.
   */
  lemma HistoryIsAligned(models: seq<string>, llm: Llm, n: nat)
    ensures var h := DebateRounds(Fresh(models), llm, n).history;
      && |h| == GoodRounds(models, llm, n)
      && forall k :: 0 <= k < |h| ==> h[k] == OwnElection(models, llm, k) && h[k].roundNumber == k
  {
    HistoryAlwaysFits(models, llm, n);
    var m := GoodRounds(models, llm, n);
    forall k: nat | k < m ensures OwnElections(models, llm, m)[k] == OwnElection(models, llm, k) {
      OwnElectionsAt(models, llm, m, k);
    }
  }

  lemma AllZero(p: Pool, n: nat)
    requires 0 < n <= |p| && forall i :: 0 <= i < |p| ==> p[i].stats.totalScore == 0
    ensures TopScorer(p, n) == 0
  {
  }

  /**
   The debate itself never credits a score, so its final winner is always the first
   analyst, whatever was said and whoever won the elections.
   */
  lemma FinalWinnerIsFirst(models: seq<string>, llm: Llm, n: nat, rounds: int)
    requires models != []
    ensures var result := ResultOf(DebateRounds(Fresh(models), llm, n).pool, rounds);
      result.finalWinner == 0 && result.analystsPruned == 0 && result.roundsCompleted == 0
  {
    var p := DebateRounds(Fresh(models), llm, n).pool;
    DebateKeepsPace(models, llm, n);
    forall i | 0 <= i < |p| ensures p[i].IsActive() && p[i].stats.totalScore == 0 {
      assert InStep(p[i], llm, i, |p[i].responses|);
    }
    NoneIsPruned(p);
    AllZero(p, |p|);
  }

  lemma NoneIsPruned(p: Pool)
    requires forall i :: 0 <= i < |p| ==> p[i].IsActive()
    ensures Count(p, IsPruned) == 0
  {
    CountZero(p, IsPruned);
  }

  // ----- a second debate on the same council -----

  /** All that a council hears: `n` rounds of the first debate, then the second debate. */
  function Then(first: Llm, n: nat, second: Llm): Llm {
    (k: nat, i: nat) => if k < n then first(k, i) else second(k - n, i)
  }

  lemma {:induction false} SaidFirst(first: Llm, n: nat, second: Llm, i: nat, k: nat)
    requires k <= n
    ensures Said(Then(first, n, second), i, k) == Said(first, i, k)
  {
    if k > 0 { SaidFirst(first, n, second, i, k - 1); }
  }

  /** How many rounds a debate of at most `n` rounds ran, counting the one that failed. */
  function RoundsRun(models: seq<string>, llm: Llm, n: nat): nat {
    var m := GoodRounds(models, llm, n);
    if m < n then m + 1 else m
  }

  lemma FirstIsHeard(models: seq<string>, first: Llm, second: Llm, n: nat)
    ensures var r := RoundsRun(models, first, n);
      Aligned(models, Then(first, r, second), DebateRounds(Fresh(models), first, n).pool, r)
  {
    DebateKeepsPace(models, first, n);
    var r, p := RoundsRun(models, first, n), DebateRounds(Fresh(models), first, n).pool;
    forall i | 0 <= i < |p| ensures InStep(p[i], Then(first, r, second), i, r) {
      assert InStep(p[i], first, i, r);
      SaidFirst(first, r, second, i, r);
    }
  }

  ghost predicate AlignedAfter(models: seq<string>, all: Llm, p: Pool, r: nat, k: nat) {
    Aligned(models, all, p, r + k)
  }

  ghost predicate FollowsAt(all: Llm, r: nat, second: Llm, k: nat) { GoesOn(all, r + k, second, k) }

  /** From round `r` on, all that is heard is the second debate. */
  ghost predicate Follows(all: Llm, r: nat, second: Llm) { forall k: nat :: FollowsAt(all, r, second, k) }

  lemma ThenFollows(first: Llm, r: nat, second: Llm)
    ensures Follows(Then(first, r, second), r, second)
  {
  }

  /** The second debate after `k` rounds, on a council that heard `r` rounds and held the elections `h` before. */
  ghost predicate Repeats(models: seq<string>, h: seq<ElectionRound>, all: Llm, r: nat, second: Llm,
                          d: Debate, k: nat)
  {
    var m := GoodRounds(models, second, k);
    && d.over == (m < k)
    && d.history == h + OwnElections(models, all, m)
    && (!d.over ==> AlignedAfter(models, all, d.pool, r, k))
  }

  /** One round of the second debate: who fails now decides whether it goes on; it elects on an old response. */
  lemma RepeatsRound(models: seq<string>, d: Debate, all: Llm, r: nat, second: Llm, k: nat)
    requires AlignedAfter(models, all, d.pool, r, k) && !d.over && FollowsAt(all, r, second, k)
    ensures var e := DebateStep(d, second, k);
      && AlignedAfter(models, all, e.pool, r, k + 1) && e.over == AllFail(models, second, k)
      && e.history == d.history + if e.over then [] else [OwnElection(models, all, k)]
  {
    StepPace(models, all, d, r + k, second, k);
    StepHistory(models, all, d, r + k, second, k);
  }

  lemma RepeatsStep(models: seq<string>, h: seq<ElectionRound>, all: Llm, r: nat, second: Llm,
                    d: Debate, e: Debate, k: nat)
    requires Repeats(models, h, all, r, second, d, k) && !d.over
    requires AlignedAfter(models, all, e.pool, r, k + 1) && e.over == AllFail(models, second, k)
    requires e.history == d.history + if e.over then [] else [OwnElection(models, all, k)]
    ensures Repeats(models, h, all, r, second, e, k + 1)
  {
    if !e.over {
      assert OwnElections(models, all, k + 1) == OwnElections(models, all, k) + [OwnElection(models, all, k)];
      assert h + OwnElections(models, all, k) + [OwnElection(models, all, k)] == h + OwnElections(models, all, k + 1);
    }
  }

  lemma RepeatsNext(models: seq<string>, h: seq<ElectionRound>, all: Llm, r: nat, second: Llm, d: Debate, k: nat)
    requires Repeats(models, h, all, r, second, d, k) && FollowsAt(all, r, second, k)
    ensures Repeats(models, h, all, r, second, DebateStep(d, second, k), k + 1)
  {
    if d.over {
      assert DebateStep(d, second, k) == d;
    } else {
      RepeatsRound(models, d, all, r, second, k);
      RepeatsStep(models, h, all, r, second, d, DebateStep(d, second, k), k);
    }
  }

  ghost predicate RepeatsFor(models: seq<string>, start: Debate, all: Llm, r: nat, second: Llm, k: nat) {
    Repeats(models, start.history, all, r, second, DebateRounds(start, second, k), k)
  }

  lemma RepeatsStarts(models: seq<string>, start: Debate, all: Llm, r: nat, second: Llm)
    requires !start.over && Aligned(models, all, start.pool, r)
    ensures RepeatsFor(models, start, all, r, second, 0)
  {
    assert start.history + [] == start.history;
  }

  lemma RepeatsOnce(models: seq<string>, start: Debate, all: Llm, r: nat, second: Llm, k: nat)
    requires RepeatsFor(models, start, all, r, second, k) && Follows(all, r, second)
    ensures RepeatsFor(models, start, all, r, second, k + 1)
  {
    assert FollowsAt(all, r, second, k);
    RepeatsNext(models, start.history, all, r, second, DebateRounds(start, second, k), k);
  }

  lemma RepeatsAlways(models: seq<string>, start: Debate, all: Llm, r: nat, second: Llm, n: nat)
    requires !start.over && Aligned(models, all, start.pool, r) && Follows(all, r, second)
    ensures RepeatsFor(models, start, all, r, second, n)
  {
    RepeatsStarts(models, start, all, r, second);
    RepeatsFrom(models, start, all, r, second, 0, n);
  }

  lemma {:induction false} RepeatsFrom(models: seq<string>, start: Debate, all: Llm, r: nat, second: Llm,
                                       k: nat, n: nat)
    requires k <= n && RepeatsFor(models, start, all, r, second, k) && Follows(all, r, second)
    ensures RepeatsFor(models, start, all, r, second, n)
    decreases n - k
  {
    if k < n {
      RepeatsOnce(models, start, all, r, second, k);
      RepeatsFrom(models, start, all, r, second, k + 1, n);
    }
  }

  /** Elections of rounds both debates had are the same ones. */
  lemma {:induction false} RepeatedElections(models: seq<string>, first: Llm, r: nat, second: Llm, m: nat)
    requires m <= r
    ensures OwnElections(models, Then(first, r, second), m) == OwnElections(models, first, m)
  {
    if m > 0 {
      RepeatedElections(models, first, r, second, m - 1);
      SameHearing(models, first, r, second, m - 1, BaseSize(models));
    }
  }

  lemma {:induction false} SameHearing(models: seq<string>, first: Llm, r: nat, second: Llm, k: nat, n: nat)
    requires k < r && n <= |models|
    ensures HearingUpTo(models, Then(first, r, second), k, n) == HearingUpTo(models, first, k, n)
  {
    if n > 0 { SameHearing(models, first, r, second, k, n - 1); }
  }

  /**
   A second debate on the same council counts its rounds from zero again, so its round
   `k` elects on response `k` of all that was ever said: as long as the first debate
   lasted, its elections are repeated, whatever is said now.
   */
  lemma SecondDebateIsStale(models: seq<string>, first: Llm, n: nat, second: Llm, k: nat)
    ensures var start := DebateRounds(Fresh(models), first, n).(over := false);
      var r, m := RoundsRun(models, first, n), GoodRounds(models, second, k);
      var before, added := start.history, OwnElections(models, Then(first, r, second), m);
      && before == OwnElections(models, first, GoodRounds(models, first, n))
      && DebateRounds(start, second, k).history == before + added
      && (m <= r ==> added == OwnElections(models, first, m))
  {
    HistoryAlwaysFits(models, first, n);
    FirstIsHeard(models, first, second, n);
    var start := DebateRounds(Fresh(models), first, n).(over := false);
    var r, m := RoundsRun(models, first, n), GoodRounds(models, second, k);
    ThenFollows(first, r, second);
    RepeatsAlways(models, start, Then(first, r, second), r, second, k);
    if m <= r {
      RepeatedElections(models, first, r, second, m);
    }
  }
}
