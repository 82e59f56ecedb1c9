/** What a debate on a fresh council decides and returns, told from the replies of the LLM alone. */
module DebateTexts {
  import opened Sequences
  import opened Analysts
  import opened Rounds
  import opened Elections
  import opened ElectionTexts
  import opened Councils

  // ----- the texts a result lists -----

  /** `at` lists, in increasing order, exactly the rounds below `n` in which the analyst has a non-empty response. */
  ghost predicate SpokenRounds(responses: seq<string>, n: nat, at: seq<nat>) {
    && (forall k, l :: 0 <= k < l < |at| ==> at[k] < at[l])
    && (forall k :: 0 <= k < |at| ==> at[k] < n && at[k] < |responses| && responses[at[k]] != "")
    && (forall r: nat :: r < n && r < |responses| && responses[r] != "" ==> r in at)
  }

  /** The listed texts are those of the listed rounds. */
  predicate TextsAt(responses: seq<string>, at: seq<nat>, texts: seq<string>) {
    |texts| == |at| && forall k :: 0 <= k < |at| ==> at[k] < |responses| && texts[k] == responses[at[k]]
  }

  lemma {:induction false} SpokenInOrder(a: AnalystState, n: nat) returns (at: seq<nat>)
    ensures SpokenRounds(a.responses, n, at) && TextsAt(a.responses, at, Spoken(a, n))
  {
    if n == 0 {
      at := [];
    } else {
      at := SpokenInOrder(a, n - 1);
      at := NextRound(a.responses, n - 1, at, Spoken(a, n - 1));
    }
  }

  /** What round `r` adds to the list: its text if there is one. */
  lemma NextRound(responses: seq<string>, r: nat, at: seq<nat>, texts: seq<string>) returns (more: seq<nat>)
    requires SpokenRounds(responses, r, at) && TextsAt(responses, at, texts)
    ensures SpokenRounds(responses, r + 1, more)
    ensures TextsAt(responses, more,
                    texts + if r < |responses| && responses[r] != "" then [responses[r]] else [])
  {
    more := at;
    if r < |responses| && responses[r] != "" {
      more := at + [r];
      assert more[|at|] == r;
      assert forall q :: q in at ==> q in more;
    }
  }

  /** The winner of a result, and its texts: those of its non-empty rounds among the configured ones, in order. */
  lemma ResultLists(pool: Pool, rounds: int) returns (at: seq<nat>)
    ensures var result := ResultOf(pool, rounds);
      if result.finalWinner == -1 then result.winnerResponses == []
      else
        && 0 <= result.finalWinner < |pool|
        && SpokenRounds(pool[result.finalWinner].responses, AtLeastZero(rounds), at)
        && TextsAt(pool[result.finalWinner].responses, at, result.winnerResponses)
  {
    var w := TopScorer(pool, |pool|);
    at := [];
    if w >= 0 { at := SpokenInOrder(pool[w], AtLeastZero(rounds)); }
  }

  /** The rest of a result: the statistics of each analyst at its index, and how many are pruned. */
  lemma ResultCounts(pool: Pool, rounds: int)
    ensures var result := ResultOf(pool, rounds);
      && |result.finalStats| == |pool|
      && (forall i :: 0 <= i < |pool| ==> result.finalStats[i] == pool[i].stats)
      && result.analystsPruned == Count(result.finalStats, (s: Stats) => s.pruned)
  {
    CountThrough(pool, Statistics(pool));
  }

  lemma {:induction false} CountThrough(pool: Pool, stats: seq<Stats>)
    requires |pool| == |stats| && forall i :: 0 <= i < |pool| ==> stats[i] == pool[i].stats
    ensures Count(pool, IsPruned) == Count(stats, (s: Stats) => s.pruned)
  {
    if pool != [] { CountThrough(pool[..|pool| - 1], stats[..|stats| - 1]); }
  }

  // ----- a fresh council -----

  /** The text of a reply, if it is one: neither an error nor an exception, and not empty. */
  predicate Answers(r: Reply) { r.Answer? && r.error == "" && r.text != "" }

  lemma AnswersAreTexts(r: Reply)
    ensures Answers(r) <==> TextOf(r) != ""
    ensures Answers(r) ==> TextOf(r) == r.text
  {
  }

  /** The rounds a result lists for a debate on a fresh council: those the first analyst answered, of those that ran. */
  ghost predicate AnsweredRounds(llm: Llm, i: nat, n: nat, at: seq<nat>) {
    && (forall k, l :: 0 <= k < l < |at| ==> at[k] < at[l])
    && (forall k :: 0 <= k < |at| ==> at[k] < n && Answers(llm(at[k], i)))
    && (forall r: nat :: r < n && Answers(llm(r, i)) ==> r in at)
  }

  lemma SaidIsAnswered(llm: Llm, i: nat, ran: nat, n: nat, at: seq<nat>)
    requires SpokenRounds(Said(llm, i, ran), n, at)
    ensures AnsweredRounds(llm, i, if n < ran then n else ran, at)
  {
    forall r: nat | r < ran ensures Said(llm, i, ran)[r] != "" <==> Answers(llm(r, i)) {
      SaidAt(llm, i, ran, r);
      AnswersAreTexts(llm(r, i));
    }
  }

  /**
   The result of a debate on a fresh council: it lists, in the order of the rounds, what
   the first analyst answered in those rounds that ran and are below the configured number.
   */
  lemma FreshResult(models: seq<string>, llm: Llm, n: nat, rounds: int) returns (at: seq<nat>)
    requires models != []
    ensures var result := ResultOf(DebateRounds(Fresh(models), llm, n).pool, rounds);
      var ran, wanted := RoundsRun(models, llm, n), AtLeastZero(rounds);
      && result.finalWinner == 0
      && AnsweredRounds(llm, 0, if wanted < ran then wanted else ran, at)
      && |result.winnerResponses| == |at|
      && forall k :: 0 <= k < |at| ==> Answers(llm(at[k], 0)) && result.winnerResponses[k] == llm(at[k], 0).text
  {
    var pool := DebateRounds(Fresh(models), llm, n).pool;
    FinalWinnerIsFirst(models, llm, n, rounds);
    DebateKeepsPace(models, llm, n);
    var ran := RoundsRun(models, llm, n);
    assert InStep(pool[0], llm, 0, ran);
    at := ResultLists(pool, rounds);
    SaidIsAnswered(llm, 0, ran, AtLeastZero(rounds), at);
    forall k | 0 <= k < |at| ensures Said(llm, 0, ran)[at[k]] == llm(at[k], 0).text {
      SaidAt(llm, 0, ran, at[k]);
      AnswersAreTexts(llm(at[k], 0));
    }
  }

  /** Who speaks in the election of round `k` is who answered in round `k`. */
  lemma HearingSpeaks(models: seq<string>, llm: Llm, k: nat, j: nat)
    requires j < BaseSize(models)
    ensures var heard := Hearing(models, llm, k);
      && (Speaks(heard, 0, j) <==> Answers(llm(k, j)))
      && (Answers(llm(k, j)) ==> heard[j].responses[0] == llm(k, j).text)
      && !heard[j].stats.pruned && !heard[j].complete
  {
    HearingAt(models, llm, k, BaseSize(models));
    AnswersAreTexts(llm(k, j));
  }

  /** The answer of `w` in round `k` is the longest, and the first of that length. */
  predicate AnswersLongest(llm: Llm, size: nat, k: nat, w: int) {
    && 0 <= w < size && Answers(llm(k, w))
    && (forall j: nat :: j < size && Answers(llm(k, j)) ==> |llm(k, j).text| <= |llm(k, w).text|)
    && (forall j: nat :: j < w && Answers(llm(k, j)) ==> |llm(k, j).text| < |llm(k, w).text|)
  }

  /** The winner of round `k` in a council of three or four: whoever answered longest in that round, if anybody did. */
  lemma FreshWinner(models: seq<string>, llm: Llm, n: nat, k: nat)
    requires |models| >= 3 && k < |DebateRounds(Fresh(models), llm, n).history|
    ensures var w, size := DebateRounds(Fresh(models), llm, n).history[k].winner, BaseSize(models);
      && (w == -1 <==> forall j: nat :: j < size ==> !Answers(llm(k, j)))
      && (w != -1 ==> AnswersLongest(llm, size, k, w))
  {
    HistoryIsAligned(models, llm, n);
    HearingWinner(models, llm, k);
  }

  /** Everybody in the pool is active and has said in round 0 what it answered in round `k`. */
  ghost predicate Heard(pool: Pool, llm: Llm, k: nat) {
    forall j: nat :: j < |pool| ==>
      && Active(pool[j]) && (Speaks(pool, 0, j) <==> Answers(llm(k, j)))
      && (Speaks(pool, 0, j) ==> pool[j].responses[0] == llm(k, j).text)
  }

  lemma LongestAnswers(pool: Pool, llm: Llm, k: nat, w: int)
    requires Heard(pool, llm, k) && SpeaksLongest(pool, 0, -1, w)
    ensures AnswersLongest(llm, |pool|, k, w)
  {
    assert Speaks(pool, 0, w);
    forall j: nat | j < |pool| && Answers(llm(k, j))
      ensures |llm(k, j).text| <= |llm(k, w).text| && (j < w ==> |llm(k, j).text| < |llm(k, w).text|)
    {
      assert Speaks(pool, 0, j);
    }
  }

  /** The winner in a council of two: the only one that answered, or the first if both did; in one of one, nobody. */
  lemma FreshWinnerOfFew(models: seq<string>, llm: Llm, n: nat, k: nat)
    requires 1 <= |models| <= 2 && k < |DebateRounds(Fresh(models), llm, n).history|
    ensures var w := DebateRounds(Fresh(models), llm, n).history[k].winner;
      w == if |models| == 1 then -1 else if Answers(llm(k, 0)) then 0 else if Answers(llm(k, 1)) then 1 else -1
  {
    HistoryIsAligned(models, llm, n);
    HearingIsHeard(models, llm, k);
    HeardFew(Hearing(models, llm, k), llm, k);
  }

  lemma HeardFew(pool: Pool, llm: Llm, k: nat)
    requires 1 <= |pool| <= 2 && Heard(pool, llm, k)
    ensures Winner(pool, 0)
      == if |pool| == 1 then -1 else if Answers(llm(k, 0)) then 0 else if Answers(llm(k, 1)) then 1 else -1
  {
    WinnerOnTexts(pool, 0);
    CountAllActive(pool);
    if |pool| == 2 {
      assert Speaks(pool, 0, 0) <==> Answers(llm(k, 0));
      assert Speaks(pool, 0, 1) <==> Answers(llm(k, 1));
    }
  }

  lemma HearingIsHeard(models: seq<string>, llm: Llm, k: nat)
    ensures Heard(Hearing(models, llm, k), llm, k)
  {
    var heard := Hearing(models, llm, k);
    forall j: nat | j < |heard|
      ensures Active(heard[j]) && (Speaks(heard, 0, j) <==> Answers(llm(k, j)))
      ensures Speaks(heard, 0, j) ==> heard[j].responses[0] == llm(k, j).text
    {
      HearingSpeaks(models, llm, k, j);
    }
  }

  lemma HearingWinner(models: seq<string>, llm: Llm, k: nat)
    requires |models| >= 3
    ensures var w, size := Winner(Hearing(models, llm, k), 0), BaseSize(models);
      && (w == -1 <==> forall j: nat :: j < size ==> !Answers(llm(k, j)))
      && (w != -1 ==> AnswersLongest(llm, size, k, w))
  {
    HearingIsHeard(models, llm, k);
    HeardWinner(Hearing(models, llm, k), llm, k);
  }

  lemma HeardWinner(pool: Pool, llm: Llm, k: nat)
    requires |pool| >= 3 && Heard(pool, llm, k)
    ensures var w := Winner(pool, 0);
      && (w == -1 <==> forall j: nat :: j < |pool| ==> !Answers(llm(k, j)))
      && (w != -1 ==> AnswersLongest(llm, |pool|, k, w))
  {
    WinnerOnTexts(pool, 0);
    CountAllActive(pool);
    if Winner(pool, 0) != -1 {
      LongestAnswers(pool, llm, k, Winner(pool, 0));
    }
  }

  lemma {:induction false} CountAllActive(pool: Pool)
    requires forall j :: 0 <= j < |pool| ==> Active(pool[j])
    ensures Count(pool, Active) == |pool|
  {
    if pool != [] { CountAllActive(pool[..|pool| - 1]); }
  }
}
