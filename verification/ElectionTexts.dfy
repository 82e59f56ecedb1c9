/** What an election decides, told from the stored responses alone. */
module ElectionTexts {
  import opened Sequences
  import opened Analysts
  import opened Rounds
  import opened Elections

  /** Analyst `j` takes part in the round with a non-empty text. */
  predicate Speaks(pool: Pool, round: int, j: int) {
    && 0 <= j < |pool| && !pool[j].stats.pruned && !pool[j].complete
    && 0 <= round < |pool[j].responses| && pool[j].responses[round] != ""
  }

  /** The text of a speaker is at least as long as that of every other but `self`, and longer than any before it. */
  predicate SpeaksLongest(pool: Pool, round: int, self: int, b: int) {
    && Speaks(pool, round, b) && b != self
    && (forall j :: 0 <= j < |pool| && j != self && Speaks(pool, round, j) ==>
          |pool[j].responses[round]| <= |pool[b].responses[round]|)
    && (forall j :: 0 <= j < b && j != self && Speaks(pool, round, j) ==>
          |pool[j].responses[round]| < |pool[b].responses[round]|)
  }

  lemma OfferIsLength(pool: Pool, round: int, j: nat)
    requires j < |pool|
    ensures Offer(pool, round, j) == if Speaks(pool, round, j) then |pool[j].responses[round]| else 0
    ensures Responds(pool, round, j) <==> Speaks(pool, round, j)
  {
  }

  /** The choice among all but `self`: the lowest index that speaks longest, or -1 if nobody else speaks. */
  lemma ChoiceOnTexts(pool: Pool, round: int, self: int)
    ensures var b := Longest(pool, round, self, |pool|);
      && (b == -1 <==> forall j :: 0 <= j < |pool| && j != self ==> !Speaks(pool, round, j))
      && (b >= 0 ==> SpeaksLongest(pool, round, self, b))
  {
    LongestIsBest(pool, round, self, |pool|);
    forall j: nat | j < |pool|
      ensures Offer(pool, round, j) == if Speaks(pool, round, j) then |pool[j].responses[round]| else 0
    {
      OfferIsLength(pool, round, j);
    }
  }

  /** A right vote: an active analyst backs who speaks longest among the others, with weight 5. */
  predicate RightVote(pool: Pool, round: int, v: Vote) {
    && 0 <= v.voter < |pool| && !pool[v.voter].stats.pruned && !pool[v.voter].complete
    && v.score == 5 && SpeaksLongest(pool, round, v.voter, v.votee)
  }

  lemma {:induction false} BallotsOnTexts(pool: Pool, round: int, n: nat)
    requires n <= |pool|
    ensures forall v :: v in Ballots(pool, round, n) ==> RightVote(pool, round, v) && v.voter < n
  {
    if n > 0 {
      BallotsOnTexts(pool, round, n - 1);
      ChoiceOnTexts(pool, round, n - 1);
    }
  }

  predicate InOrder(votes: seq<Vote>) {
    forall k, l :: 0 <= k < l < |votes| ==> votes[k].voter < votes[l].voter
  }

  lemma {:induction false} BallotsInOrder(pool: Pool, round: int, n: nat)
    requires n <= |pool|
    ensures InOrder(Ballots(pool, round, n))
  {
    if n > 0 {
      BallotsInOrder(pool, round, n - 1);
      BallotsOnTexts(pool, round, n - 1);
    }
  }

  predicate Votes(votes: seq<Vote>, i: int) { exists k :: 0 <= k < |votes| && votes[k].voter == i }

  /** Somebody other than `i` speaks. */
  predicate OtherSpeaks(pool: Pool, round: int, i: int) {
    exists j :: 0 <= j < |pool| && j != i && Speaks(pool, round, j)
  }

  lemma {:induction false} BallotsOfAll(pool: Pool, round: int, n: nat, i: nat)
    requires i < n <= |pool| && pool[i].IsActive() && OtherSpeaks(pool, round, i)
    ensures Votes(Ballots(pool, round, n), i)
  {
    var votes := Ballots(pool, round, n);
    if i == n - 1 {
      ChoiceOnTexts(pool, round, i);
      assert votes[|votes| - 1].voter == i;
    } else {
      BallotsOfAll(pool, round, n - 1, i);
      var k :| 0 <= k < |Ballots(pool, round, n - 1)| && Ballots(pool, round, n - 1)[k].voter == i;
      assert votes[k].voter == i;
    }
  }

  /**
   The votes of an election, told from the pool before it prunes: every active analyst
   for whom somebody else speaks votes once, in the order of the indices, and rightly.
   */
  lemma VotesOnTexts(pool: Pool, round: int)
    ensures var votes := Election(pool, round).votes;
      && (forall v :: v in votes ==> RightVote(pool, round, v))
      && InOrder(votes)
      && (forall i: nat :: i < |pool| && !pool[i].stats.pruned && !pool[i].complete && OtherSpeaks(pool, round, i) ==>
            Votes(votes, i))
  {
    BallotsOnTexts(pool, round, |pool|);
    BallotsInOrder(pool, round, |pool|);
    forall i: nat | i < |pool| && pool[i].IsActive() && OtherSpeaks(pool, round, i)
      ensures Votes(Election(pool, round).votes, i)
    {
      BallotsOfAll(pool, round, |pool|, i);
    }
  }

  /** There are two active analysts, and both speak. */
  predicate TwoSpeakers(pool: Pool, round: int) {
    Count(pool, Active) == 2 && forall j :: 0 <= j < |pool| && pool[j].IsActive() ==> Speaks(pool, round, j)
  }

  lemma {:induction false} AllSpeak(pool: Pool, round: int, n: nat)
    requires n <= |pool|
    ensures Responders(pool, round, n) <= Actives(pool, n)
    ensures Responders(pool, round, n) == Actives(pool, n)
      <==> forall j :: 0 <= j < n && pool[j].IsActive() ==> Speaks(pool, round, j)
  {
    if n > 0 {
      AllSpeak(pool, round, n - 1);
      OfferIsLength(pool, round, n - 1);
    }
  }

  /**
   The winner, told from the pool before the election prunes: nobody with fewer than two
   active analysts or without a text; the first of two active analysts that both speak;
   otherwise who speaks longest, the lowest index first.
   */
  lemma WinnerOnTexts(pool: Pool, round: int)
    ensures var w := Election(pool, round).winner;
      && (w == -1 <==> Count(pool, Active) < 2 || forall j :: 0 <= j < |pool| ==> !Speaks(pool, round, j))
      && (w != -1 ==>
            if TwoSpeakers(pool, round) then
              Speaks(pool, round, w) && forall j :: 0 <= j < w ==> !Speaks(pool, round, j)
            else SpeaksLongest(pool, round, -1, w))
  {
    ActivesAreCounted(pool, |pool|);
    assert pool[..|pool|] == pool;
    AllSpeak(pool, round, |pool|);
    NoResponders(pool, round, |pool|);
    FirstResponderIsFirst(pool, round, |pool|);
    ChoiceOnTexts(pool, round, -1);
    forall j: nat | j < |pool| ensures Responds(pool, round, j) <==> Speaks(pool, round, j) {
      OfferIsLength(pool, round, j);
    }
  }
}
