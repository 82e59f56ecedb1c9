/** One analyst: its value, the events of its life, and the object that is updated in place. */
module Analysts {
  import opened Sequences

  datatype Role = Security | Performance | Correctness | Style | Dynamic | Judge

  /** A system prompt: the fixed text of a base role, or the text given for a recruit. */
  datatype Prompt = Builtin(of: Role) | Custom(text: string)

  const SCORE_ADOPTED := 2
  const SCORE_CHALLENGE_WON := 1

  datatype Stats = Stats(
    proposalsAdopted: int, challengesWon: int, roundsActive: int,
    roundsSinceContrib: int, totalScore: int, pruned: bool)

  /** What the LLM client does with a query: it returns a text and an error, or throws. */
  datatype Reply = Answer(text: string, error: string) | Exception(what: string)

  datatype AnalystState = AnalystState(
    role: Role, model: string, systemPrompt: Prompt,
    responses: seq<string>, stats: Stats, complete: bool, lastError: string)
  {
    predicate IsActive() { !stats.pruned && !complete }

    /** The response of a round, or the empty string when there is none. */
    function Response(round: int): string {
      if round < 0 || round >= |responses| then "" else responses[round]
    }
  }

  function NewAnalyst(role: Role, model: string, systemPrompt: Prompt): AnalystState {
    AnalystState(role, model, systemPrompt, [], Stats(0, 0, 0, 0, 0, false), false, "")
  }

  predicate Succeeded(r: Reply) { r.Answer? && r.error == "" }

  /** The text a reply leaves in the response list; a failure leaves an empty one. */
  function TextOf(r: Reply): string { if Succeeded(r) then r.text else "" }

  function WithActivity(s: Stats, hadResponse: bool): Stats {
    if hadResponse then s.(roundsActive := s.roundsActive + 1, roundsSinceContrib := 0)
    else s.(roundsSinceContrib := s.roundsSinceContrib + 1)
  }

  function AfterReply(a: AnalystState, r: Reply): AnalystState {
    match r
    case Exception(what) => a.(lastError := what, responses := a.responses + [""])
    case Answer(text, error) =>
      if error != "" then a.(lastError := error, responses := a.responses + [""])
      else a.(responses := a.responses + [text], stats := WithActivity(a.stats, text != ""))
  }

  /** What a call of one of an analyst's methods makes happen to it; `Noted` is activity recorded outside a reply. */
  datatype Event =
    | Replied(reply: Reply) | Noted(hadResponse: bool) | ProposalAdopted | ChallengeWon | Pruned | Completed

  function After(a: AnalystState, e: Event): AnalystState {
    match e
    case Replied(r) => AfterReply(a, r)
    case Noted(hadResponse) => a.(stats := WithActivity(a.stats, hadResponse))
    case ProposalAdopted =>
      a.(stats := a.stats.(proposalsAdopted := a.stats.proposalsAdopted + 1,
                           totalScore := a.stats.totalScore + SCORE_ADOPTED, roundsSinceContrib := 0))
    case ChallengeWon =>
      a.(stats := a.stats.(challengesWon := a.stats.challengesWon + 1,
                           totalScore := a.stats.totalScore + SCORE_CHALLENGE_WON, roundsSinceContrib := 0))
    case Pruned => a.(stats := a.stats.(pruned := true))
    case Completed => a.(complete := true)
  }

  function Life(a: AnalystState, events: seq<Event>): AnalystState {
    if events == [] then a else After(Life(a, events[..|events| - 1]), events[|events| - 1])
  }

  // ----- what a whole life adds up to -----

  predicate IsAdoption(e: Event) { e.ProposalAdopted? }
  predicate IsWin(e: Event) { e.ChallengeWon? }
  predicate IsSpokenRound(e: Event) {
    || (e.Replied? && e.reply.Answer? && e.reply.error == "" && e.reply.text != "")
    || (e.Noted? && e.hadResponse)
  }

  predicate IsEmptyRound(e: Event) {
    || (e.Replied? && e.reply.Answer? && e.reply.error == "" && e.reply.text == "")
    || (e.Noted? && !e.hadResponse)
  }

  predicate Contributes(e: Event) { IsAdoption(e) || IsWin(e) || IsSpokenRound(e) }

  function Texts(events: seq<Event>): seq<string> {
    if events == [] then []
    else
      var e := events[|events| - 1];
      Texts(events[..|events| - 1]) + if e.Replied? then [TextOf(e.reply)] else []
  }

  /** The score is 2 per adopted proposal and 1 per challenge won, whatever else happens and in whatever order. */
  lemma {:induction false} ScoreIsWeightedSum(role: Role, model: string, prompt: Prompt, events: seq<Event>)
    ensures var s := Life(NewAnalyst(role, model, prompt), events).stats;
      && s.totalScore == 2 * Count(events, IsAdoption) + Count(events, IsWin)
      && s.proposalsAdopted == Count(events, IsAdoption) && s.challengesWon == Count(events, IsWin)
      && s.roundsActive == Count(events, IsSpokenRound)
  {
    if events != [] { ScoreIsWeightedSum(role, model, prompt, events[..|events| - 1]); }
  }

  /** One response per query, in order, empty where the query failed. */
  lemma {:induction false} ResponsesAreTexts(role: Role, model: string, prompt: Prompt, events: seq<Event>)
    ensures Life(NewAnalyst(role, model, prompt), events).responses == Texts(events)
  {
    if events != [] { ResponsesAreTexts(role, model, prompt, events[..|events| - 1]); }
  }

  /**
   The idle counter is the number of rounds answered with an empty text since the
   last contribution.  A round that failed with an error does not count as idle.
   */
  lemma {:induction false} IdleCountsEmptyRounds(role: Role, model: string, prompt: Prompt, events: seq<Event>)
    returns (last: nat)
    ensures last <= |events|
    ensures last > 0 ==> Contributes(events[last - 1])
    ensures forall i :: last <= i < |events| ==> !Contributes(events[i])
    ensures Life(NewAnalyst(role, model, prompt), events).stats.roundsSinceContrib
         == Count(events[last..], IsEmptyRound)
  {
    if events == [] {
      last := 0;
    } else {
      var n := |events| - 1;
      if Contributes(events[n]) {
        last := |events|;
        assert events[last..] == [];
      } else {
        last := IdleCountsEmptyRounds(role, model, prompt, events[..n]);
        assert events[last..][..|events[last..]| - 1] == events[..n][last..];
        assert forall i :: last <= i < n ==> events[..n][i] == events[i];
      }
    }
  }

  predicate IsReply(e: Event) { e.Replied? }

  /** The text a reply has if it is one: neither an error nor an exception. */
  function TextIfAny(r: Reply): string { if r.Answer? && r.error == "" then r.text else "" }

  /** The k-th response is what the k-th reply said, empty for an error or an exception. */
  lemma {:induction false} RepliesAreKept(role: Role, model: string, prompt: Prompt, events: seq<Event>, i: nat)
    requires i < |events| && events[i].Replied?
    ensures var a := Life(NewAnalyst(role, model, prompt), events);
      var k := Count(events[..i], IsReply);
      && |a.responses| == Count(events, IsReply) && k < |a.responses|
      && a.responses[k] == TextIfAny(events[i].reply) == a.Response(k)
  {
    var n := |events| - 1;
    CountReplies(role, model, prompt, events);
    CountReplies(role, model, prompt, events[..n]);
    if i < n {
      RepliesAreKept(role, model, prompt, events[..n], i);
      assert events[..n][..i] == events[..i];
    }
  }

  lemma {:induction false} CountReplies(role: Role, model: string, prompt: Prompt, events: seq<Event>)
    ensures |Life(NewAnalyst(role, model, prompt), events).responses| == Count(events, IsReply)
  {
    if events != [] { CountReplies(role, model, prompt, events[..|events| - 1]); }
  }

  /** An analyst is active exactly until it is pruned or completed; what it is never changes. */
  lemma {:induction false} ActiveUntilStopped(role: Role, model: string, prompt: Prompt, events: seq<Event>)
    ensures var a := Life(NewAnalyst(role, model, prompt), events);
      && (a.IsActive() <==> Pruned !in events && Completed !in events)
      && (a.stats.pruned <==> Pruned in events) && (a.complete <==> Completed in events)
      && a.role == role && a.model == model && a.systemPrompt == prompt
  {
    if events != [] {
      var n := |events| - 1;
      ActiveUntilStopped(role, model, prompt, events[..n]);
      assert events == events[..n] + [events[n]];
    }
  }

  /** The text of a failure, of either kind. */
  function FailureText(r: Reply): string { if r.Exception? then r.what else r.error }

  predicate Failed(e: Event) { e.Replied? && (e.reply.Exception? || e.reply.error != "") }

  /** The last error is that of the last reply that failed, or empty if none has. */
  lemma {:induction false} LastErrorIsLast(role: Role, model: string, prompt: Prompt, events: seq<Event>, i: int)
    requires -1 <= i < |events| && (i >= 0 ==> Failed(events[i]))
    requires forall j :: i < j < |events| ==> !Failed(events[j])
    ensures Life(NewAnalyst(role, model, prompt), events).lastError
      == if i < 0 then "" else FailureText(events[i].reply)
  {
    if events != [] && i < |events| - 1 {
      LastErrorIsLast(role, model, prompt, events[..|events| - 1], i);
    }
  }

  /** Pruned and complete are for life. */
  lemma {:induction false} InactiveForLife(a: AnalystState, events: seq<Event>)
    ensures (a.stats.pruned ==> Life(a, events).stats.pruned) && (a.complete ==> Life(a, events).complete)
    ensures a.responses <= Life(a, events).responses
  {
    if events != [] { InactiveForLife(a, events[..|events| - 1]); }
  }

  class Analyst {
    const role: Role
    const model: string
    const systemPrompt: Prompt
    var responses: seq<string>
    var stats: Stats
    var complete: bool
    var lastError: string

    ghost function State(): AnalystState
      reads this
    {
      AnalystState(role, model, systemPrompt, responses, stats, complete, lastError)
    }

    constructor (role: Role, model: string, systemPrompt: Prompt)
      ensures State() == NewAnalyst(role, model, systemPrompt)
    {
      this.role, this.model, this.systemPrompt := role, model, systemPrompt;
      responses, stats, complete, lastError := [], Stats(0, 0, 0, 0, 0, false), false, "";
    }

    predicate IsActive()
      reads this
    {
      !stats.pruned && !complete
    }

    method GetResponse(round: int) returns (text: string)
      ensures text == State().Response(round)
    {
      if round < 0 || round >= |responses| {
        return "";
      }
      text := responses[round];
    }

    /** Queries the LLM once; the reply is whatever the client does. */
    method ExecuteRound(reply: Reply) returns (ok: bool)
      modifies this
      ensures State() == After(old(State()), Replied(reply)) && ok == Succeeded(reply)
    {
      match reply {
        case Exception(what) =>
          lastError := what;
          responses := responses + [""];
          return false;
        case Answer(text, error) =>
          if error != "" {
            lastError := error;
            responses := responses + [""];
            return false;
          }
          responses := responses + [text];
          RecordRoundActivity(text != "");
          return true;
      }
    }

    method RecordRoundActivity(hadResponse: bool)
      modifies this`stats
      ensures stats == WithActivity(old(stats), hadResponse)
    {
      if hadResponse {
        stats := stats.(roundsActive := stats.roundsActive + 1);
        stats := stats.(roundsSinceContrib := 0);
      } else {
        stats := stats.(roundsSinceContrib := stats.roundsSinceContrib + 1);
      }
    }

    method RecordProposalAdopted()
      modifies this`stats
      ensures State() == After(old(State()), ProposalAdopted)
    {
      stats := stats.(proposalsAdopted := stats.proposalsAdopted + 1);
      stats := stats.(totalScore := stats.totalScore + SCORE_ADOPTED);
      stats := stats.(roundsSinceContrib := 0);
    }

    method RecordChallengeWon()
      modifies this`stats
      ensures State() == After(old(State()), ChallengeWon)
    {
      stats := stats.(challengesWon := stats.challengesWon + 1);
      stats := stats.(totalScore := stats.totalScore + SCORE_CHALLENGE_WON);
      stats := stats.(roundsSinceContrib := 0);
    }

    method MarkPruned()
      modifies this`stats
      ensures State() == After(old(State()), Pruned)
    {
      stats := stats.(pruned := true);
    }

    method MarkComplete()
      modifies this`complete
      ensures State() == After(old(State()), Completed)
    {
      complete := true;
    }
  }
}
