/** Voting, tallying, winner selection and pruning. */
module Elections {
  import opened Sequences
  import opened Analysts
  import opened Rounds

  const VOTE_WEIGHT := 5
  const MAX_IDLE_ROUNDS := 3
  const MIN_CONTRIBUTION_SCORE := 2

  datatype Vote = Vote(voter: int, votee: int, score: int)

  datatype ElectionRound = ElectionRound(roundNumber: int, votes: seq<Vote>, pruned: seq<nat>, winner: int)

  // ----- what an election is about -----

  /** How much analyst `j` has to offer in a round: nothing if it is inactive. */
  function Offer(pool: Pool, round: int, j: nat): nat
    requires j < |pool|
  {
    if pool[j].IsActive() then |pool[j].Response(round)| else 0
  }

  /** The lowest index below `n`, other than `self`, with the longest non-empty response; -1 if there is none. */
  function Longest(pool: Pool, round: int, self: int, n: nat): (b: int)
    requires n <= |pool|
    ensures -1 <= b < n
  {
    if n == 0 then -1
    else
      var b := Longest(pool, round, self, n - 1);
      if n - 1 != self && Offer(pool, round, n - 1) > (if b == -1 then 0 else Offer(pool, round, b)) then n - 1 else b
  }

  /** What `Longest` means. */
  lemma {:induction false} LongestIsBest(pool: Pool, round: int, self: int, n: nat)
    requires n <= |pool|
    ensures var b := Longest(pool, round, self, n);
      && (b == self ==> b == -1)
      && (b == -1 ==> forall j :: 0 <= j < n && j != self ==> Offer(pool, round, j) == 0)
      && (b >= 0 ==>
           && Offer(pool, round, b) > 0
           && (forall j :: 0 <= j < n && j != self ==> Offer(pool, round, j) <= Offer(pool, round, b))
           && (forall j :: 0 <= j < b && j != self ==> Offer(pool, round, j) < Offer(pool, round, b)))
  {
    if n > 0 { LongestIsBest(pool, round, self, n - 1); }
  }

  /** The votes of the first `n` analysts: each active one backs the longest response but its own. */
  function Ballots(pool: Pool, round: int, n: nat): seq<Vote>
    requires n <= |pool|
  {
    if n == 0 then []
    else
      var b := Longest(pool, round, n - 1, |pool|);
      Ballots(pool, round, n - 1) +
      if pool[n - 1].IsActive() && b >= 0 then [Vote(n - 1, b, VOTE_WEIGHT)] else []
  }

  /** The sum of the scores given to `id`. */
  function Received(votes: seq<Vote>, id: int): int {
    if votes == [] then 0
    else
      var v := votes[|votes| - 1];
      Received(votes[..|votes| - 1], id) + if v.votee == id then v.score else 0
  }

  function Votees(votes: seq<Vote>): set<int> {
    set v | v in votes :: v.votee
  }

  lemma NextVotee(votes: seq<Vote>, k: nat)
    requires k < |votes|
    ensures Votees(votes[..k + 1]) == Votees(votes[..k]) + {votes[k].votee}
  {
    assert votes[..k + 1] == votes[..k] + [votes[k]];
    assert votes[k] in votes[..k + 1];
    assert forall u :: u in votes[..k] ==> u in votes[..k + 1];
  }

  /** `w` is the lowest id with the highest positive score, or -1 if no score is positive. */
  ghost predicate WinsBy(scores: map<int, int>, w: int) {
    if exists id :: id in scores && scores[id] > 0 then
      && w in scores && scores[w] > 0
      && (forall id :: id in scores ==> scores[id] <= scores[w])
      && (forall id :: id in scores && id < w ==> scores[id] < scores[w])
    else w == -1
  }

  predicate Responds(pool: Pool, round: int, j: nat)
    requires j < |pool|
  {
    Offer(pool, round, j) > 0
  }

  function Responders(pool: Pool, round: int, n: nat): (count: nat)
    requires n <= |pool|
    ensures count <= n
  {
    if n == 0 then 0 else Responders(pool, round, n - 1) + if Responds(pool, round, n - 1) then 1 else 0
  }

  function Actives(pool: Pool, n: nat): (count: nat)
    requires n <= |pool|
    ensures count <= n
  {
    if n == 0 then 0 else Actives(pool, n - 1) + if pool[n - 1].IsActive() then 1 else 0
  }

  /** The number `active_count()` returns. */
  lemma {:induction false} ActivesAreCounted(pool: Pool, n: nat)
    requires n <= |pool|
    ensures Actives(pool, n) == Count(pool[..n], Active)
  {
    if n > 0 {
      ActivesAreCounted(pool, n - 1);
      assert pool[..n][..n - 1] == pool[..n - 1];
    }
  }

  /** The lowest index below `n` that responds, or -1. */
  function FirstResponder(pool: Pool, round: int, n: nat): (f: int)
    requires n <= |pool|
    ensures -1 <= f < n
  {
    if n == 0 then -1
    else
      var f := FirstResponder(pool, round, n - 1);
      if f == -1 && Responds(pool, round, n - 1) then n - 1 else f
  }

  lemma {:induction false} FirstResponderIsFirst(pool: Pool, round: int, n: nat)
    requires n <= |pool|
    ensures var f := FirstResponder(pool, round, n);
      && (f == -1 ==> forall j :: 0 <= j < n ==> !Responds(pool, round, j))
      && (f >= 0 ==> Responds(pool, round, f) && forall j :: 0 <= j < f ==> !Responds(pool, round, j))
  {
    if n > 0 { FirstResponderIsFirst(pool, round, n - 1); }
  }

  /** The winner in closed form, without votes. */
  function Winner(pool: Pool, round: int): int {
    var actives, responders := Actives(pool, |pool|), Responders(pool, round, |pool|);
    if actives < 2 || responders == 0 then -1
    else if actives == 2 && responders == 2 then FirstResponder(pool, round, |pool|)
    else Longest(pool, round, -1, |pool|)
  }

  // ----- pruning -----

  predicate ShouldPrune(i: nat, a: AnalystState) {
    i >= BASE_ANALYST_COUNT && a.IsActive() &&
    (a.stats.roundsSinceContrib >= MAX_IDLE_ROUNDS || a.stats.totalScore < MIN_CONTRIBUTION_SCORE)
  }

  /** The pool with the analysts below `n` examined. */
  function PrunedUpTo(pool: Pool, n: nat): (p: Pool)
    requires n <= |pool|
    ensures |p| == |pool|
  {
    if n == 0 then pool
    else if ShouldPrune(n - 1, pool[n - 1]) then PrunedUpTo(pool, n - 1)[n - 1 := After(pool[n - 1], Pruned)]
    else PrunedUpTo(pool, n - 1)
  }

  function PrunedPool(pool: Pool): Pool { PrunedUpTo(pool, |pool|) }

  lemma {:induction false} PrunedUpToAt(pool: Pool, n: nat, i: nat)
    requires n <= |pool| && i < |pool|
    ensures PrunedUpTo(pool, n)[i] == if i < n && ShouldPrune(i, pool[i]) then After(pool[i], Pruned) else pool[i]
  {
    if n > 0 { PrunedUpToAt(pool, n - 1, i); }
  }

  /** A pool of base analysts only is left alone. */
  lemma {:induction false} BaseIsSpared(pool: Pool, n: nat)
    requires n <= |pool| && n <= BASE_ANALYST_COUNT
    ensures PrunedUpTo(pool, n) == pool
  {
    if n > 0 { BaseIsSpared(pool, n - 1); }
  }

  predicate IsPruned(a: AnalystState) { a.stats.pruned }

  /** The indices below `n` that are pruned. */
  function PrunedIds(pool: Pool, n: nat): seq<nat>
    requires n <= |pool|
  {
    if n == 0 then []
    else PrunedIds(pool, n - 1) + if IsPruned(pool[n - 1]) then [n - 1] else []
  }

  lemma {:induction false} PrunedIdsAreThePruned(pool: Pool, n: nat)
    requires n <= |pool|
    ensures var ids := PrunedIds(pool, n);
      && (forall i: nat :: i in ids <==> i < n && IsPruned(pool[i]))
      && (forall k :: 0 <= k < |ids| ==> ids[k] < n)
      && (forall k, l :: 0 <= k < l < |ids| ==> ids[k] < ids[l])
  {
    if n > 0 { PrunedIdsAreThePruned(pool, n - 1); }
  }

  /** What an election records. */
  function Election(pool: Pool, round: int): ElectionRound {
    ElectionRound(round, Ballots(pool, round, |pool|), PrunedIds(PrunedPool(pool), |pool|), Winner(pool, round))
  }

  // ----- the voting object -----

  /** Each active analyst votes for the longest response but its own. */
  method CollectVotes(analysts: seq<Analyst>, round: int, ghost view: Pool) returns (votes: seq<Vote>)
    requires view == States(analysts)
    ensures votes == Ballots(view, round, |view|)
  {
    votes := [];
    for i := 0 to |analysts|
      invariant votes == Ballots(view, round, i)
    {
      if analysts[i].IsActive() {
        var best := BestVotee(analysts, i, round, view);
        if best >= 0 {
          votes := votes + [Vote(i, best, VOTE_WEIGHT)];
        }
      }
    }
  }

  /** The inner loop: the longest response of the round among the other active analysts. */
  method BestVotee(analysts: seq<Analyst>, i: nat, round: int, ghost view: Pool) returns (best: int)
    requires view == States(analysts)
    ensures best == Longest(view, round, i, |view|)
  {
    best := -1;
    var bestLen := 0;
    for j := 0 to |analysts|
      invariant best == Longest(view, round, i, j)
      invariant bestLen == if best == -1 then 0 else Offer(view, round, best)
    {
      assert view[j] == analysts[j].State();
      if i != j && analysts[j].IsActive() {
        var response := analysts[j].GetResponse(round);
        if |response| > bestLen {
          bestLen, best := |response|, j;
        }
      }
    }
  }

  class VotingSystem {
    const pool: AnalystPool
    var history: seq<ElectionRound>

    constructor (pool: AnalystPool)
      ensures this.pool == pool && history == []
    {
      this.pool, history := pool, [];
    }

    method GenerateVotesForRound(round: int) returns (votes: seq<Vote>)
      ensures votes == Ballots(pool.View(), round, |pool.View()|)
    {
      votes := CollectVotes(pool.analysts, round, pool.View());
    }

    static method TallyVotes(votes: seq<Vote>) returns (scores: map<int, int>)
      ensures scores.Keys == Votees(votes)
      ensures forall id :: id in scores ==> scores[id] == Received(votes, id)
    {
      scores := map[];
      for k := 0 to |votes|
        invariant scores.Keys == Votees(votes[..k])
        invariant forall id :: id in scores ==> scores[id] == Received(votes[..k], id)
        invariant forall id :: id !in scores ==> Received(votes[..k], id) == 0
      {
        var v := votes[k];
        NextVotee(votes, k);
        assert votes[..k + 1][..k] == votes[..k];
        var sofar := if v.votee in scores then scores[v.votee] else 0;
        scores := scores[v.votee := sofar + v.score];
      }
      assert votes[..|votes|] == votes;
    }

    /** Scans the score map in the order of its keys. */
    static method SelectWinner(scores: map<int, int>) returns (winner: int)
      ensures WinsBy(scores, winner)
    {
      winner := -1;
      var maxScore := 0;
      var rest := scores.Keys;
      while rest != {}
        invariant rest <= scores.Keys
        invariant forall id :: id in scores && id !in rest ==>
          scores[id] <= maxScore && forall k :: k in rest ==> id < k
        invariant if maxScore == 0 then winner == -1 else
          && winner in scores && winner !in rest && scores[winner] == maxScore
          && (forall id :: id in scores && id < winner ==> scores[id] < maxScore)
        invariant maxScore >= 0
        decreases |rest|
      {
        LeastExists(rest);
        var id :| id in rest && IsLeast(rest, id);
        rest := rest - {id};
        if scores[id] > maxScore {
          maxScore, winner := scores[id], id;
        }
      }
    }

    method PruneInactiveAnalysts() returns (count: nat)
      requires pool.Valid()
      modifies pool.analysts
      ensures pool.Valid() && pool.analysts == old(pool.analysts)
      ensures pool.View() == PrunedPool(old(pool.View()))
      ensures Count(pool.View(), Active) + count == Count(old(pool.View()), Active)
    {
      ghost var view := pool.View();
      var members := pool.analysts;
      count := PruneAll(members);
      PruneDrop(view, PrunedPool(view), count);
    }

    method Decide(round: int) returns (votes: seq<Vote>, winner: int)
      ensures votes == Ballots(pool.View(), round, |pool.View()|) && winner == Winner(pool.View(), round)
    {
      votes := GenerateVotesForRound(round);
      var scores := TallyVotes(votes);
      winner := SelectWinner(scores);
      ElectionClosedForm(pool.View(), round, scores, winner);
    }

    method RunElectionRound(round: int) returns (result: ElectionRound)
      requires pool.Valid()
      modifies this, pool.analysts
      ensures pool.Valid() && pool.analysts == old(pool.analysts)
      ensures result == Election(old(pool.View()), round)
      ensures pool.View() == PrunedPool(old(pool.View()))
      ensures history == old(history) + [result]
    {
      var votes, winner := Decide(round);
      var count := PruneInactiveAnalysts();
      var pruned := CollectPruned(pool.analysts, pool.View());
      result := ElectionRound(round, votes, pruned, winner);
      history := history + [result];
    }
  }

  /** The drop in active analysts, as `active_count()` sees it. */
  lemma PruneDrop(p: Pool, q: Pool, count: nat)
    requires Actives(q, |q|) + count == Actives(p, |p|)
    ensures Count(q, Active) + count == Count(p, Active)
  {
    ActivesAreCounted(p, |p|);
    ActivesAreCounted(q, |q|);
    assert p[..|p|] == p && q[..|q|] == q;
  }

  method CollectPruned(analysts: seq<Analyst>, ghost view: Pool) returns (pruned: seq<nat>)
    requires view == States(analysts)
    ensures pruned == PrunedIds(view, |view|)
  {
    pruned := [];
    for i := 0 to |analysts|
      invariant pruned == PrunedIds(view, i)
    {
      assert view[i] == analysts[i].State();
      if analysts[i].stats.pruned {
        pruned := pruned + [i];
      }
    }
  }

  method MustGo(analyst: Analyst, i: nat) returns (shouldPrune: bool)
    requires i >= BASE_ANALYST_COUNT
    ensures shouldPrune == ShouldPrune(i, analyst.State())
  {
    shouldPrune := false;
    if !analyst.IsActive() {
      return;
    }
    if analyst.stats.roundsSinceContrib >= MAX_IDLE_ROUNDS {
      shouldPrune := true;
    }
    if analyst.stats.totalScore < MIN_CONTRIBUTION_SCORE {
      shouldPrune := true;
    }
  }

  method PruneAll(analysts: seq<Analyst>) returns (count: nat)
    requires Distinct(analysts)
    modifies analysts
    ensures States(analysts) == PrunedPool(old(States(analysts)))
    ensures Actives(States(analysts), |analysts|) + count == Actives(old(States(analysts)), |analysts|)
  {
    count := 0;
    ghost var pool := States(analysts);
    var i := if |analysts| > BASE_ANALYST_COUNT then BASE_ANALYST_COUNT else |analysts|;
    BaseIsSpared(pool, i);
    while i < |analysts|
      invariant i <= |analysts| && (i >= BASE_ANALYST_COUNT || i == |analysts|)
      invariant States(analysts) == PrunedUpTo(pool, i)
      invariant Actives(PrunedUpTo(pool, i), |pool|) + count == Actives(pool, |pool|)
    {
      PruneTurn(pool, i);
      var pruned := PruneAt(analysts, i, pool);
      if pruned {
        count := count + 1;
      }
      i := i + 1;
    }
  }

  /** What one turn of the loop makes of the pool and of its number of active analysts. */
  lemma PruneTurn(pool: Pool, i: nat)
    requires i < |pool|
    ensures PrunedUpTo(pool, i)[i] == pool[i]
    ensures Actives(PrunedUpTo(pool, i), |pool|)
         == Actives(PrunedUpTo(pool, i + 1), |pool|) + if ShouldPrune(i, pool[i]) then 1 else 0
  {
    PrunedUpToAt(pool, i, i);
    ActivesUpdate(PrunedUpTo(pool, i), |pool|, i, After(pool[i], Pruned));
  }

  /** Examines the analyst at `i`. */
  method PruneAt(analysts: seq<Analyst>, i: nat, ghost pool: Pool) returns (pruned: bool)
    requires Distinct(analysts) && BASE_ANALYST_COUNT <= i < |analysts| == |pool|
    requires States(analysts) == PrunedUpTo(pool, i)
    modifies analysts[i]
    ensures States(analysts) == PrunedUpTo(pool, i + 1) && pruned == ShouldPrune(i, pool[i])
  {
    PrunedUpToAt(pool, i, i);
    assert States(analysts)[i] == pool[i];
    pruned := MustGo(analysts[i], i);
    if pruned {
      analysts[i].MarkPruned();
    }
  }

  lemma {:induction false} ActivesUpdate(pool: Pool, n: nat, i: nat, a: AnalystState)
    requires n <= |pool| && i < |pool|
    ensures Actives(pool[i := a], n)
         == Actives(pool, n) + if i < n then Indicator(a.IsActive()) - Indicator(pool[i].IsActive()) else 0
  {
    if n > 0 { ActivesUpdate(pool, n - 1, i, a); }
  }

  lemma SomeMember(s: set<int>)
    ensures s == {} || exists x :: x in s
  {
    if forall x :: x !in s { assert s == {}; }
  }

  /** The least member of a set that has one. */
  lemma {:induction false} LeastExists(s: set<int>)
    ensures s == {} || exists id :: IsLeast(s, id)
  {
    SomeMember(s);
    if x :| x in s {
      LeastExists(s - {x});
      assert forall k :: k in s ==> k == x || k in s - {x};
      if y :| IsLeast(s - {x}, y) {
        assert IsLeast(s, if x < y then x else y);
      } else {
        assert s == {x};
        assert IsLeast(s, x);
      }
    }
  }

  predicate IsLeast(s: set<int>, id: int) {
    id in s && forall k :: k in s ==> id <= k
  }

  // ----- the closed form -----

  /** Whoever is not the longest responder backs the longest responder. */
  lemma OthersBackLongest(pool: Pool, round: int, i: nat)
    requires i < |pool| && Longest(pool, round, -1, |pool|) >= 0 && i != Longest(pool, round, -1, |pool|)
    ensures Longest(pool, round, i, |pool|) == Longest(pool, round, -1, |pool|)
  {
    LongestIsBest(pool, round, i, |pool|);
    LongestIsBest(pool, round, -1, |pool|);
  }

  /** What the next voter adds to the ballots. */
  lemma NextBallot(pool: Pool, round: int, n: nat, id: int)
    requires 0 < n <= |pool|
    ensures var b := Longest(pool, round, n - 1, |pool|);
      var votes := pool[n - 1].IsActive() && b >= 0;
      && |Ballots(pool, round, n)| == |Ballots(pool, round, n - 1)| + (if votes then 1 else 0)
      && Received(Ballots(pool, round, n), id)
           == Received(Ballots(pool, round, n - 1), id) + if votes && b == id then 5 else 0
  {
    var before, after := Ballots(pool, round, n - 1), Ballots(pool, round, n);
    var b := Longest(pool, round, n - 1, |pool|);
    if pool[n - 1].IsActive() && b >= 0 {
      assert after[..|after| - 1] == before;
    } else {
      assert after == before;
    }
  }

  /** Who votes: everybody active, but the longest responder only if there is a second. */
  lemma {:induction false} BallotsCast(pool: Pool, round: int, n: nat)
    requires n <= |pool| && Longest(pool, round, -1, |pool|) >= 0
    ensures var l := Longest(pool, round, -1, |pool|);
      var own := if l < n then 1 else 0;
      |Ballots(pool, round, n)| == Actives(pool, n) - if Longest(pool, round, l, |pool|) >= 0 then 0 else own
  {
    if n > 0 {
      var l := Longest(pool, round, -1, |pool|);
      BallotsCast(pool, round, n - 1);
      NextBallot(pool, round, n, l);
      NextVoter(pool, round, n - 1);
    }
  }

  /** Whom the voter at `i` backs. */
  lemma NextVoter(pool: Pool, round: int, i: nat)
    requires i < |pool| && Longest(pool, round, -1, |pool|) >= 0
    ensures var l := Longest(pool, round, -1, |pool|);
      if i == l then pool[i].IsActive() && Longest(pool, round, l, |pool|) != l
      else Longest(pool, round, i, |pool|) == l
  {
    if i == Longest(pool, round, -1, |pool|) {
      LongestIsBest(pool, round, -1, |pool|);
      LongestIsBest(pool, round, i, |pool|);
    } else {
      OthersBackLongest(pool, round, i);
    }
  }

  /** What the first `n` voters give to `id`: 5 from each but the longest responder, which gives 5 to its second. */
  lemma {:induction false} BallotsGive(pool: Pool, round: int, n: nat, id: int)
    requires n <= |pool| && Longest(pool, round, -1, |pool|) >= 0
    ensures Received(Ballots(pool, round, n), id) == Share(pool, round, n, id)
  {
    if n > 0 {
      BallotsGive(pool, round, n - 1, id);
      NextBallot(pool, round, n, id);
      NextShare(pool, round, n, id);
    }
  }

  /** What `id` has received from the first `n` voters, without counting ballots. */
  function Share(pool: Pool, round: int, n: nat, id: int): int
    requires n <= |pool|
  {
    var l := Longest(pool, round, -1, |pool|);
    var own := if 0 <= l < n then 1 else 0;
    if id == l then 5 * (Actives(pool, n) - own)
    else if id == Longest(pool, round, l, |pool|) && id >= 0 then 5 * own else 0
  }

  lemma NextShare(pool: Pool, round: int, n: nat, id: int)
    requires 0 < n <= |pool| && Longest(pool, round, -1, |pool|) >= 0
    ensures var b := Longest(pool, round, n - 1, |pool|);
      Share(pool, round, n, id)
        == Share(pool, round, n - 1, id) + if pool[n - 1].IsActive() && b >= 0 && b == id then 5 else 0
  {
    NextVoter(pool, round, n - 1);
  }

  lemma {:induction false} NoOffersNoBallots(pool: Pool, round: int, n: nat)
    requires n <= |pool| && Longest(pool, round, -1, |pool|) == -1
    ensures Ballots(pool, round, n) == []
  {
    if n > 0 {
      LongestIsBest(pool, round, -1, |pool|);
      LongestIsBest(pool, round, n - 1, |pool|);
      NoOffersNoBallots(pool, round, n - 1);
    }
  }

  lemma {:induction false} VoteesGet(votes: seq<Vote>, id: int)
    requires forall v :: v in votes ==> v.score > 0
    ensures id in Votees(votes) <==> Received(votes, id) > 0
    ensures Received(votes, id) >= 0
  {
    if votes != [] {
      var n := |votes| - 1;
      VoteesGet(votes[..n], id);
      assert votes == votes[..n] + [votes[n]];
    }
  }

  /** Every vote is a vote of 5 by one analyst for another, both active. */
  lemma {:induction false} BallotsAreFair(pool: Pool, round: int, n: nat)
    requires n <= |pool|
    ensures forall v :: v in Ballots(pool, round, n) ==>
      && 0 <= v.voter < n && 0 <= v.votee < |pool| && v.voter != v.votee && v.score == 5
      && pool[v.voter].IsActive() && Responds(pool, round, v.votee)
  {
    if n > 0 {
      LongestIsBest(pool, round, n - 1, |pool|);
      BallotsAreFair(pool, round, n - 1);
    }
  }

  lemma {:induction false} RespondersCount(pool: Pool, round: int, n: nat, l: nat)
    requires n <= |pool| && l < n && Responds(pool, round, l)
    ensures Responders(pool, round, n) >= 1
    ensures Responders(pool, round, n) >= 2 <==> exists j: nat :: j < n && j != l && Responds(pool, round, j)
  {
    if l == n - 1 {
      NoResponders(pool, round, n - 1);
    } else {
      RespondersCount(pool, round, n - 1, l);
    }
  }

  lemma {:induction false} NoResponders(pool: Pool, round: int, n: nat)
    requires n <= |pool|
    ensures Responders(pool, round, n) == 0 <==> forall j: nat :: j < n ==> !Responds(pool, round, j)
  {
    if n > 0 { NoResponders(pool, round, n - 1); }
  }

  lemma {:induction false} RespondersAreActive(pool: Pool, round: int, n: nat)
    requires n <= |pool|
    ensures Responders(pool, round, n) <= Actives(pool, n)
  {
    if n > 0 { RespondersAreActive(pool, round, n - 1); }
  }

  /** Longest and its second best against the number of responders. */
  lemma SecondExists(pool: Pool, round: int)
    ensures var l := Longest(pool, round, -1, |pool|);
      var responders := Responders(pool, round, |pool|);
      && (l == -1 <==> responders == 0)
      && (l >= 0 ==> (Longest(pool, round, l, |pool|) >= 0 <==> responders >= 2))
  {
    var l := Longest(pool, round, -1, |pool|);
    NoResponders(pool, round, |pool|);
    LongestIsBest(pool, round, -1, |pool|);
    if l >= 0 {
      LongestIsBest(pool, round, l, |pool|);
      RespondersCount(pool, round, |pool|, l);
      var second := Longest(pool, round, l, |pool|);
      if second >= 0 { assert Responds(pool, round, second); }
    }
  }

  /** The number of votes: everybody's, all but the only responder's, or none. */
  lemma VoteCount(pool: Pool, round: int)
    ensures var responders := Responders(pool, round, |pool|);
      |Ballots(pool, round, |pool|)| ==
        if responders == 0 then 0 else if responders == 1 then Actives(pool, |pool|) - 1 else Actives(pool, |pool|)
  {
    SecondExists(pool, round);
    if Longest(pool, round, -1, |pool|) == -1 {
      NoOffersNoBallots(pool, round, |pool|);
    } else {
      BallotsCast(pool, round, |pool|);
    }
  }

  /**
   Main result on elections: votes, tally and selection together choose the analyst
   given by the closed form.
   */
  lemma ElectionClosedForm(pool: Pool, round: int, scores: map<int, int>, winner: int)
    requires scores.Keys == Votees(Ballots(pool, round, |pool|))
    requires forall id :: id in scores ==> scores[id] == Received(Ballots(pool, round, |pool|), id)
    requires WinsBy(scores, winner)
    ensures winner == Winner(pool, round)
  {
    var votes := Ballots(pool, round, |pool|);
    var l := Longest(pool, round, -1, |pool|);
    SecondExists(pool, round);
    BallotsAreFair(pool, round, |pool|);
    if l == -1 {
      NoOffersNoBallots(pool, round, |pool|);
    } else {
      var second := Longest(pool, round, l, |pool|);
      LongestIsBest(pool, round, -1, |pool|);
      LongestIsBest(pool, round, l, |pool|);
      RespondersAreActive(pool, round, |pool|);
      forall id ensures id in scores <==> Received(votes, id) > 0 { VoteesGet(votes, id); }
      BallotsGive(pool, round, |pool|, l);
      BallotsGive(pool, round, |pool|, second);
      BallotsGive(pool, round, |pool|, winner);
      if Responders(pool, round, |pool|) == 2 == Actives(pool, |pool|) {
        TwoResponders(pool, round, l, second);
      }
    }
  }

  /** The total of the scores of the ids below `n`. */
  function TotalReceived(votes: seq<Vote>, n: nat): int {
    if n == 0 then 0 else TotalReceived(votes, n - 1) + Received(votes, n - 1)
  }

  lemma {:induction false} TotalReceivedStep(votes: seq<Vote>, n: nat)
    requires votes != []
    ensures var v := votes[|votes| - 1];
      TotalReceived(votes, n) == TotalReceived(votes[..|votes| - 1], n) + if 0 <= v.votee < n then v.score else 0
  {
    if n > 0 { TotalReceivedStep(votes, n - 1); }
  }

  /** The tally loses nothing and invents nothing: all scores together are 5 per vote. */
  lemma {:induction false} TallyConserves(votes: seq<Vote>, n: nat)
    requires forall v :: v in votes ==> 0 <= v.votee < n && v.score == 5
    ensures TotalReceived(votes, n) == 5 * |votes|
  {
    if votes == [] {
      NothingReceived(n);
    } else {
      TotalReceivedStep(votes, n);
      TallyConserves(votes[..|votes| - 1], n);
    }
  }

  /** In every election, all that the analysts receive together is 5 per vote. */
  lemma ElectionConserves(pool: Pool, round: int)
    ensures TotalReceived(Election(pool, round).votes, |pool|) == 5 * |Election(pool, round).votes|
  {
    BallotsAreFair(pool, round, |pool|);
    TallyConserves(Election(pool, round).votes, |pool|);
  }

  lemma {:induction false} NothingReceived(n: nat)
    ensures TotalReceived([], n) == 0
  {
    if n > 0 { NothingReceived(n - 1); }
  }

  /** With two responders, the first is the lower of the longest and its second. */
  lemma TwoResponders(pool: Pool, round: int, l: nat, second: nat)
    requires l < |pool| && second < |pool| && l != second
    requires Responds(pool, round, l) && Responds(pool, round, second) && Responders(pool, round, |pool|) == 2
    ensures FirstResponder(pool, round, |pool|) == if l < second then l else second
  {
    FirstResponderIsFirst(pool, round, |pool|);
    var f := FirstResponder(pool, round, |pool|);
    if f != l && f != second {
      ThreeResponders(pool, round, |pool|, f, l, second);
    }
  }

  lemma {:induction false} ThreeResponders(pool: Pool, round: int, n: nat, i: nat, j: nat, k: nat)
    requires n <= |pool| && i < n && j < n && k < n && i != j && j != k && i != k
    requires Responds(pool, round, i) && Responds(pool, round, j) && Responds(pool, round, k)
    ensures Responders(pool, round, n) >= 3
  {
    if i == n - 1 { RespondersCount(pool, round, n - 1, j); }
    else if j == n - 1 { RespondersCount(pool, round, n - 1, i); }
    else if k == n - 1 { RespondersCount(pool, round, n - 1, i); }
    else { ThreeResponders(pool, round, n - 1, i, j, k); }
  }

  // ----- pruning -----

  /** An election prunes exactly the idle and low-scoring active analysts beyond the base ones, and nobody else. */
  lemma PrunesExactly(pool: Pool, i: nat)
    requires i < |pool|
    ensures var a, b := pool[i], PrunedPool(pool)[i];
      var goes := i >= 4 && !a.stats.pruned && !a.complete
        && (a.stats.roundsSinceContrib >= 3 || a.stats.totalScore < 2);
      && b == (if goes then a.(stats := a.stats.(pruned := true)) else a)
      && (ShouldPrune(i, a) <==> goes)
      && (i >= BASE_ANALYST_COUNT && b.IsActive() ==> b.stats.roundsSinceContrib < 3 && b.stats.totalScore >= 2)
  {
    PrunedUpToAt(pool, |pool|, i);
  }

  /** A second prune right after the first finds nobody. */
  lemma PruneTwice(pool: Pool)
    ensures PrunedPool(PrunedPool(pool)) == PrunedPool(pool)
  {
    forall i | 0 <= i < |pool| ensures PrunedPool(PrunedPool(pool))[i] == PrunedPool(pool)[i] {
      PrunesExactly(pool, i);
      PrunesExactly(PrunedPool(pool), i);
    }
  }

  // ----- elections depend on nothing but who is active and what they said this round -----

  predicate SameRound(p: Pool, r: int, q: Pool, t: int) {
    |p| == |q| && forall i :: 0 <= i < |p| ==> p[i].IsActive() == q[i].IsActive() && Offer(p, r, i) == Offer(q, t, i)
  }

  lemma {:induction false} SameLongest(p: Pool, r: int, q: Pool, t: int, self: int, n: nat)
    requires SameRound(p, r, q, t) && n <= |p|
    ensures Longest(p, r, self, n) == Longest(q, t, self, n)
  {
    if n > 0 { SameLongest(p, r, q, t, self, n - 1); }
  }

  lemma {:induction false} SameBallots(p: Pool, r: int, q: Pool, t: int, n: nat)
    requires SameRound(p, r, q, t) && n <= |p|
    ensures Ballots(p, r, n) == Ballots(q, t, n)
  {
    if n > 0 {
      SameLongest(p, r, q, t, n - 1, |p|);
      SameBallots(p, r, q, t, n - 1);
    }
  }

  lemma {:induction false} SameCounts(p: Pool, r: int, q: Pool, t: int, n: nat)
    requires SameRound(p, r, q, t) && n <= |p|
    ensures Actives(p, n) == Actives(q, n) && Responders(p, r, n) == Responders(q, t, n)
    ensures FirstResponder(p, r, n) == FirstResponder(q, t, n)
  {
    if n > 0 { SameCounts(p, r, q, t, n - 1); }
  }

  lemma SameWinner(p: Pool, r: int, q: Pool, t: int)
    requires SameRound(p, r, q, t)
    ensures Winner(p, r) == Winner(q, t)
  {
    SameCounts(p, r, q, t, |p|);
    SameLongest(p, r, q, t, -1, |p|);
  }
}
