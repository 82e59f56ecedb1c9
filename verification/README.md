# Verified model of Code-Tribunal

Code-Tribunal lets a council of LLM "analysts" debate: they answer in parallel rounds, vote for
one another's answers, and recruits that contribute too little are pruned. This project models the
parts of it that hold state, run concurrently or compute, and proves what they do for all inputs and
all runs.

| module | models |
|---|---|
| `ThreadPoolModel`, `ThreadPoolSafety`, `ThreadPoolDrain`, `ThreadPoolWait`, `ThreadPoolCalls`, `ThreadPoolObject` | the work queue of `src/util/Concurrent.cpp`, one shared access per step, all interleavings |
| `Analysts`, `Rounds`, `Elections`, `Councils`, `CouncilLife` | analysts, the parallel round, voting and pruning, the debate, and histories of a council |
| `ElectionTexts`, `DebateTexts` | what elections and debates decide, told from the texts alone |
| `CircuitBreakers`, `Retry` | the circuit breaker and the retry loop with exponential backoff |
| `Hashing` | 32-bit FNV-1a (section 2 of draft-eastlake-fnv) and base 16 (section 8 of RFC 4648, lower case) |
| `Metrics` | percentiles, totals per provider, token histogram |
| `JsonEscape` | the bounded escaping loop for JSON strings (section 7 of RFC 8259) |
| `ConfigParser`, `ConfigLoading` | the configuration line grammar and the loading of a file |
| `Sequences`, `Machine` | counting; the range of an int, powers of two and white space |

Code that changes objects or arrays is modelled by classes and methods with loops, each proved equal to
a function; the theorems are about those functions. `dafny verify dfyconfig.toml` checks everything.

## How the program is read

- Work queue: every lock, unlock, shared read or write, notify, task end and join is a step of its own.
  Condition variables may wake up spuriously. The logs of accepted, started and finished tasks are
  additions of the model.
- Analyst threads: query, recording, and the read and the write of the counter are steps of their own.
- The LLM is an arbitrary function of round and analyst that gives a text, an error or an exception.
- Clocks, jitter, the outcomes of protected calls and the file's text are parameters. Times are whole
  milliseconds.
- Durations and the backoff multiplier are real numbers.

## Where code and documentation differ, the code is followed

- `src/core/Election.h` promises pruning only with enough analysts and low contribution together; the
  code prunes from index 4 on, on idleness or on low score (`Elections.PrunesExactly`).
- `src/core/Election.h` contradicts itself on ties, to the earliest analyst and -1; the code takes the lowest id
  (`Elections.VotingSystem.SelectWinner`).
- `src/core/Election.h` calls the list of an election those removed in that round; the code lists everybody ever
  pruned (`Elections.PrunedIdsAreThePruned`).
- The repository's README counts failed rounds as idle; the code does not (`Analysts.IdleCountsEmptyRounds`).
- `src/core/ConfigParser.h` says loading never fails; a malformed number throws (`ConfigLoading.FailsExactly`,
  `ConfigLoading.MalformedThrows`).
- A comment in `src/core/ConfigParser.cpp` says the environment overrides the file, `API_KEY_SUPPORT.md` the
  opposite; the file wins (`ConfigLoading.EnvironmentOnlyFills`).
- `wait` may miss its signal, because decrement and `notify_all` run outside the mutex
  (`ThreadPoolWait.LostDoneSignal` shows a run, `ThreadPoolWait.OnlyWindowStrands` says exactly when).
- The final winner of a debate on a fresh council is always the first analyst, and its returned round
  count is always zero (`Councils.FinalWinnerIsFirst`); a second debate on the same council repeats the
  elections of the first (`Councils.SecondDebateIsStale`).
- Only newline, tab and carriage return are escaped among the control characters, so the output is
  strict JSON exactly for texts without the others (`JsonEscape.FittingIsStrict`, `JsonEscape.BellIsNotStrict`).
- The counter of successful threads is not synchronised, so it may come out too small, but never zero for a
  success, so the debate goes on as it should (`Rounds.ParallelEqualsSequential`, `Rounds.LostCount`).
- An exception that is not a `std::exception` passes the breaker uncounted, so the load bound holds for failures
  and not for all admissions (`CircuitBreakers.FailureBound`, `CircuitBreakers.UncaughtExceedsBound`).
- Removing an analyst moves the later ones forward, a pruned one even among the first four
  (`CouncilLife.BaseNeverPruned`, `CouncilLife.RemovalExposesPruned`).
- A breaker threshold below 1 acts like 1, and a half-open breaker admits every call.

## Model

| member | source | states |
|---|---|---|
| `ThreadPoolSafety.InvAlways` | src/util/Concurrent.cpp:33-116 | For any number of workers and clients and every interleaving: the mutex has one holder; accepted tasks = started tasks in start order + queue; each started task is finished or in exactly one worker's hands; `active_tasks_` counts the workers between increment and decrement; no wake-up of the queue is lost; workers leave only a stopped, empty queue; a satisfied `wait` sees everything finished |
| `ThreadPoolSafety.MutualExclusionKept` | src/util/Concurrent.cpp:35-38 | Every step of every thread keeps the mutex with exactly the thread whose phase says so |
| `ThreadPoolSafety.ExactlyOnceKept` | src/util/Concurrent.cpp:97-108 | Every step keeps exactly-once, first-in-first-out execution, through both ends of a task: returning, and throwing an exception that the worker suppresses |
| `ThreadPoolSafety.ActiveCountedKept` | src/util/Concurrent.cpp:100-110 | Every step keeps `active_tasks_` equal to the number of workers between increment and decrement |
| `ThreadPoolSafety.NoLostWakeupKept` | src/util/Concurrent.cpp:39-42 | While a worker sleeps, there are at least as many workers on their way to the queue plus `notify_one` calls still owed as queued tasks |
| `ThreadPoolSafety.StopDrainsKept` | src/util/Concurrent.cpp:51-56 | Every step keeps: a sleeper after `stop_` means a `notify_all` is still owed, and exited workers mean a stopped, empty queue |
| `ThreadPoolSafety.WaitIsSoundKept` | src/util/Concurrent.cpp:44-49 | Every step keeps: a client that found the `wait` predicate true holds the mutex over a pool whose accepted tasks have all finished |
| `ThreadPoolSafety.QuiescentIsFinished` | src/util/Concurrent.cpp:46-48 | An empty queue with `active_tasks_` at zero, and no worker between pop and increment, means every accepted task has finished |
| `ThreadPoolDrain.NoTaskIsStranded` | src/util/Concurrent.cpp:33-42 | With at least one worker, a non-empty queue always has a worker awake or an enqueuer that still owes its `notify_one` |
| `ThreadPoolDrain.FirstInFirstOut` | src/util/Concurrent.cpp:96-98 | The k-th accepted task is the k-th started, is held by at most one worker, and is finished exactly when it has started and nobody holds it |
| `ThreadPoolDrain.ActiveIsBounded` | src/util/Concurrent.cpp:100-110 | `active_tasks_` is always between zero and the number of workers |
| `ThreadPoolDrain.LogsGrow` | src/util/Concurrent.cpp:33-42 | Along every run nothing accepted, started or finished is forgotten, and after `stop_` nothing more is accepted |
| `ThreadPoolDrain.WaitReturnsFinished` | src/util/Concurrent.cpp:44-49 | When a `wait` is satisfied, every task accepted up to then has finished, in particular all those accepted before it was called |
| `ThreadPoolDrain.WorkDecreases` | src/util/Concurrent.cpp:79-116 | After `stop_` a measure of queue and worker phases falls with each worker step and rises with no other step |
| `ThreadPoolDrain.StopBoundsWork` | src/util/Concurrent.cpp:79-116 | After `stop_` the workers of any continuation take at most 10 steps per queued task and per worker, and nothing is accepted |
| `ThreadPoolDrain.StopNeverBlocks` | src/util/Concurrent.cpp:51-63 | Once `stop_` is set, and until all workers have exited, a worker, the holder of the mutex or a client that owes a `notify_all` can take a step |
| `ThreadPoolDrain.StopWakesForGood` | src/util/Concurrent.cpp:51-56 | From the moment a `stop` has called `notify_all`, no worker sleeps and none falls asleep, whatever the schedule and whoever else calls `stop` |
| `ThreadPoolDrain.NobodySleepsAgain` | src/util/Concurrent.cpp:84-94 | Along every run, once `stop_` is set and nobody sleeps, nobody falls asleep |
| `ThreadPoolDrain.JoinersWokeAllKept` | src/util/Concurrent.cpp:56-63 | Every step keeps: while a client joins the workers, `stop_` is set and no worker sleeps |
| `ThreadPoolDrain.StopFinishesEverything` | src/util/Concurrent.cpp:58-63 | When all workers have exited, `stop_` is set, the queue is empty, no task is active and every accepted task has finished |
| `ThreadPoolWait.OnlyWindowStrands` | src/util/Concurrent.cpp:110-115 | A step takes away the promise that a waiter over a finished queue will be signalled exactly when it is the waiter falling asleep after the last signal (decrement and notify run outside the mutex) |
| `ThreadPoolWait.WaitersHear` | src/util/Concurrent.cpp:110-115 | The runs at every moment of which a sleeping waiter over a finished queue has a signal still to come are exactly those without such a step |
| `ThreadPoolWait.LostDoneSignal` | src/util/Concurrent.cpp:110-115 | A concrete run with one worker, one client and one task after which `wait` sleeps over a finished queue and no thread can take a step |
| `ThreadPoolCalls.EnqueueVerdict` | src/util/Concurrent.cpp:33-42 | The test of `stop_` decides alone: set, the call throws and leaves everything as it was; not set, the task goes to the end of the queue and is accepted, whatever the queue holds |
| `ThreadPoolCalls.EnqueueAcceptsOrStopped` | src/util/Concurrent.cpp:33-42 | Along every interleaving, an `enqueue` that has ended has had its task accepted since it was called, unless `stop_` was set |
| `ThreadPoolCalls.EnqueueAlone` | src/util/Concurrent.cpp:33-42 | Undisturbed on a running pool, `enqueue` appends its task and wakes exactly one sleeping worker if there is one |
| `ThreadPoolCalls.EnqueueRefused` | src/util/Concurrent.cpp:36-38 | Undisturbed on a stopped pool, `enqueue` leaves the pool as it was |
| `ThreadPoolCalls.WaitReturns` | src/util/Concurrent.cpp:44-49 | Over an empty queue with `active_tasks_` at zero, `wait` comes back at once and changes nothing |
| `ThreadPoolCalls.WaitSleeps` | src/util/Concurrent.cpp:44-49 | While there is a task queued or active, `wait` falls asleep and frees the mutex |
| `ThreadPoolCalls.StopAlone` | src/util/Concurrent.cpp:51-64 | `stop` sets the flag, wakes every sleeping worker and then joins |
| `ThreadPoolCalls.StopReturns` | src/util/Concurrent.cpp:58-63 | A joining `stop` comes back exactly when all workers have exited |
| `ThreadPoolCalls.WorkerIdles` | src/util/Concurrent.cpp:84-94 | Over an empty queue a worker leaves if the pool is stopped, and otherwise sleeps |
| `ThreadPoolCalls.WorkerRunsFront` | src/util/Concurrent.cpp:96-110 | Over a non-empty queue, stopped or not, a worker takes the task at the front and finishes it, even if it throws |
| `ThreadPoolCalls.WorkerSignals` | src/util/Concurrent.cpp:113-115 | After a task a worker wakes all sleeping waiters exactly if it sees the queue empty and nobody active |
| `ThreadPoolModel.ThreadCount` | src/util/Concurrent.cpp:8-21 | A positive request is taken as it is; otherwise one less than the processors, or two if there are fewer than two; never none |
| `ThreadPoolObject.ThreadPool.constructor` | src/util/Concurrent.cpp:18-27 | A new pool is the initial state of the machine, with at least one worker |
| `ThreadPoolObject.ThreadPool.WorkerStep` | src/util/Concurrent.cpp:79-116 | The statement a worker executes next changes the fields as the machine says |
| `ThreadPoolObject.ThreadPool.EnqueueStep` | src/util/Concurrent.cpp:33-42 | The statement `enqueue` executes next changes the fields as the machine says; after `stop_` it throws and changes nothing |
| `ThreadPoolObject.ThreadPool.WaitStep` | src/util/Concurrent.cpp:44-49 | The statement `wait` executes next changes the fields as the machine says |
| `ThreadPoolObject.ThreadPool.StopStep` | src/util/Concurrent.cpp:51-64 | The statement `stop` executes next changes the fields as the machine says |
| `ThreadPoolObject.ThreadPool.Follow` | src/util/Concurrent.cpp:33-116 | Executing any schedule on the object is a run of the machine and keeps the invariant |
| `Analysts.ScoreIsWeightedSum` | src/core/Analyst.cpp:55-74 | Over any life of an analyst, the score is 2 per adopted proposal plus 1 per challenge won, and the counters count |
| `Analysts.ResponsesAreTexts` | src/core/Analyst.cpp:16-46 | Over any life, the responses are one text per reply in order, empty for an error or an exception |
| `Analysts.IdleCountsEmptyRounds` | src/core/Analyst.cpp:55-74 | `rounds_since_contrib` is the number of empty rounds since the last contribution; rounds that fail do not count |
| `Analysts.InactiveForLife` | src/core/Analyst.cpp:80-90 | Pruned and completed are for ever, and responses are only appended |
| `Analysts.RepliesAreKept` | src/core/Analyst.cpp:48-53 | Over any life, `get_response` of k is the text of the k-th reply the analyst has had |
| `Analysts.ActiveUntilStopped` | src/core/Analyst.cpp:76-90 | Over any life an analyst is active until it is pruned or completed, and its role, model and prompt stay |
| `Analysts.LastErrorIsLast` | src/core/Analyst.cpp:24-45 | Over any life `last_error` is that of the last reply that failed, and empty without one |
| `Analysts.Analyst.ExecuteRound` | src/core/Analyst.cpp:16-46 | One reply is recorded: text, error or exception; only text touches the activity |
| `Analysts.Analyst.GetResponse` | src/core/Analyst.cpp:48-53 | The response of a round, empty outside the range |
| `Analysts.Analyst.RecordRoundActivity` | src/core/Analyst.cpp:67-74 | A non-empty round resets the idle counter, an empty one raises it |
| `Analysts.Analyst.RecordProposalAdopted` | src/core/Analyst.cpp:55-59 | Credits 2 points and resets the idle counter |
| `Analysts.Analyst.RecordChallengeWon` | src/core/Analyst.cpp:61-65 | Credits 1 point and resets the idle counter |
| `Analysts.Analyst.MarkPruned` | src/core/Analyst.cpp:80-82 | Sets the pruned flag and nothing else |
| `Rounds.ParallelEqualsSequential` | src/core/Pool.cpp:58-86 | For every interleaving of the analyst threads and of the unsynchronised reads and writes of the counter, once joined: the pool is that of running the active analysts in index order, the count is at most the sequential one and zero only if nobody succeeded, and it is the sequential one exactly when no thread has overwritten a count it had not read |
| `Rounds.ThreadsStayOnTrack` | src/core/Pool.cpp:64-76 | At any moment of a round each thread has touched only its own analyst, with its own reply; the count is exact until a thread overwrites another's and too small from then on |
| `Rounds.LostCount` | src/core/Pool.cpp:71-74 | Two threads that both succeed can leave a count of one |
| `Rounds.RoundTerminates` | src/core/Pool.cpp:78-83 | Every schedule has at most four steps per active analyst |
| `Rounds.InIndexOrderAt` | src/core/Pool.cpp:66-76 | What a round does to each analyst: an active one records its reply, an inactive one is unchanged |
| `Rounds.SuccessesPositive` | src/core/Pool.cpp:72-85 | The count is positive exactly when some active analyst succeeds |
| `Rounds.FreshPool` | src/core/Pool.cpp:8-33 | A new pool has one analyst per model, at most four, each with its own model, with the roles security, performance, correctness and style in this order, and with nothing said and no score |
| `Rounds.AnalystPool.constructor` | src/core/Pool.cpp:8-33 | At most four base analysts, one per model, with their fixed roles |
| `Rounds.AnalystPool.AddAnalyst` | src/core/Pool.cpp:35-47 | Appends a fresh analyst, or refuses at sixteen |
| `Rounds.AnalystPool.RemoveAnalyst` | src/core/Pool.cpp:49-56 | Erases exactly the analyst at the index, or refuses |
| `Rounds.AnalystPool.ExecuteRound` | src/core/Pool.cpp:58-86 | Whatever thread is scheduled at each step, leaves the pool of the sequential round and a count that tells whether anybody succeeded |
| `Rounds.AnalystPool.ActiveCount` | src/core/Pool.cpp:111-119 | The number of active analysts |
| `Elections.ElectionClosedForm` | src/core/Election.cpp:78-156 | The winner of vote, tally and selection in closed form: -1 without two active analysts and a response, the lower index when both of two respond, otherwise the lowest-index longest responder |
| `ElectionTexts.WinnerOnTexts` | src/core/Election.cpp:12-23 | The winner told from the stored texts before pruning: nobody exactly with fewer than two active analysts or without a non-empty text; the first of two active analysts that both have one; otherwise the active analyst with the longest text, the lowest index first |
| `ElectionTexts.VotesOnTexts` | src/core/Election.cpp:117-156 | The votes told from the stored texts before pruning: every active analyst votes once, in index order and with weight 5, exactly if another active one has a text, and for the longest of these, the lowest index first |
| `ElectionTexts.ChoiceOnTexts` | src/core/Election.cpp:127-144 | The choice of the inner loop has a text at least as long as every other and longer than every one before it; it is -1 exactly when nobody else has a text |
| `Elections.VoteCount` | src/core/Election.cpp:117-156 | The number of votes is the number of active analysts, one less, or zero, as two or more, one or nobody responded |
| `Elections.BallotsAreFair` | src/core/Election.cpp:131-151 | Every vote comes from an active analyst, weighs 5, and goes to another active analyst that responded |
| `Elections.LongestIsBest` | src/core/Election.cpp:127-144 | The inner loop finds the lowest index with the longest non-empty response other than the voter, or -1 if nobody else responded |
| `Elections.TallyConserves` | src/core/Election.cpp:78-86 | The tally totals sum to 5 times the votes |
| `Elections.ElectionConserves` | src/core/Election.cpp:12-23 | In every election all analysts together receive 5 per vote |
| `Elections.PrunesExactly` | src/core/Election.cpp:48-76 | An election prunes exactly the active analysts at index 4 or above that are idle for 3 rounds or score below 2; the first four are never touched |
| `Elections.PruneTwice` | src/core/Election.cpp:48-76 | Pruning again changes nothing |
| `Elections.ActivesAreCounted` | src/core/Pool.cpp:111-119 | The active analysts of the closed form are those `active_count` counts |
| `Elections.PrunedIdsAreThePruned` | src/core/Election.cpp:27-32 | The recorded list holds exactly the pruned analysts, in increasing order |
| `Elections.SameBallots` | src/core/Election.cpp:117-156 | The votes depend only on who is active and on how long the responses of the round are |
| `Elections.VotingSystem.GenerateVotesForRound` | src/core/Election.cpp:117-156 | The nested loops give the ballots |
| `Elections.VotingSystem.TallyVotes` | src/core/Election.cpp:78-86 | The map has exactly the ids voted for, each with the sum of its scores |
| `Elections.VotingSystem.SelectWinner` | src/core/Election.cpp:88-104 | The lowest id with the highest positive score, or -1 |
| `Elections.VotingSystem.PruneInactiveAnalysts` | src/core/Election.cpp:48-76 | Leaves the pruned pool; the return value is the drop in `active_count` |
| `Elections.VotingSystem.Decide` | src/core/Election.cpp:16-23 | Votes and winner before pruning: the closed form of the pool as it is |
| `Elections.VotingSystem.RunElectionRound` | src/core/Election.cpp:12-46 | The result is decided before pruning, lists the pruned after it, and is appended to the history |
| `CouncilLife.EveryAnalystHasALife` | src/core/Pool.cpp:35-86 | In every history of rounds, elections, prunings, recruits, removals and calls of single analysts' methods, each analyst is a fresh one that lived through some events |
| `CouncilLife.OneEventAtMost` | src/core/Pool.cpp:49-86 | Each event of the council is at most one event in an analyst's life; a removal only moves those behind it; who is pruned is whom a pruning must or a call asks to |
| `CouncilLife.ScoresAlwaysAddUp` | src/core/Analyst.cpp:55-65 | In every history every score is 2 per adopted proposal plus 1 per challenge won |
| `CouncilLife.BaseNeverPruned` | src/core/Election.cpp:51-55 | None of the first four analysts is ever pruned, exactly in the histories in which no removal among the first four happens while index 4 is pruned and nobody calls `mark_pruned` on one of them |
| `CouncilLife.RemovalExposesPruned` | src/core/Pool.cpp:49-56 | Removing the first of five brings a pruned recruit among the first four |
| `CouncilLife.RecruitsMustScore` | src/core/Election.cpp:64-72 | In every history, an election spares nobody beyond the first four that has no adopted proposal and at most one challenge won |
| `CouncilLife.PrunedListsNest` | src/core/Election.cpp:25-32 | In histories whose removals are all behind the pruned analysts, each pruned list contains every earlier one |
| `CouncilLife.RecordedStayPruned` | src/core/Election.cpp:25-32 | In such histories whoever a list names stays pruned at that index, which is 4 or higher if the first four are never harmed |
| `CouncilLife.PrunedListsIncrease` | src/core/Election.cpp:25-32 | In every history each pruned list is strictly increasing |
| `CouncilLife.SteadyKeepsPruned` | src/core/Pool.cpp:49-56 | A step keeps every pruned index pruned exactly if it is not a removal at or before a pruned analyst |
| `CouncilLife.RemovalBetweenElections` | src/core/Pool.cpp:49-56 | Of two elections with a removal in between, the second list contains the first exactly if the removal is behind the pruned analysts |
| `CouncilLife.RemovalBreaksNesting` | src/core/Pool.cpp:49-56 | A history whose second pruned list lacks an index of the first |
| `Councils.DebateKeepsPace` | src/core/Council.cpp:41-70 | On a fresh council, for every LLM behaviour: after k rounds each analyst holds exactly k responses, and the debate ends with the first round in which all fail |
| `Councils.HistoryIsAligned` | src/core/Council.cpp:41-70 | The history has one election per round before the first in which all fail; its k-th entry is numbered k and is the election of round k's replies alone |
| `DebateTexts.FreshWinner` | src/core/Election.cpp:78-156 | On a fresh council of three or four, for every LLM behaviour: the winner of each round is the analyst whose reply in that round is the longest text, the lowest index first, or nobody if all replies are empty or fail |
| `DebateTexts.FreshWinnerOfFew` | src/core/Election.cpp:78-156 | In a council of two the winner is the only one that answered, or the first if both did; in one of one there is none |
| `Councils.ElectionIsMemoryless` | src/core/Election.cpp:139-143 | Round k elects on response k of what the council heard, and on nothing else |
| `Councils.GoodRoundsStopAtFailure` | src/core/Council.cpp:41-46 | The rounds counted are those before the first in which every analyst fails |
| `Councils.LateRecruitIsUnheard` | src/core/Election.cpp:131-144 | Whoever joins after at least one round stays a response behind: in no later election does anybody vote for it |
| `Councils.FinalWinnerIsFirst` | src/core/Council.cpp:80-90 | No debate credits a score, so on a fresh council the final winner is the first analyst, nobody is pruned, and the returned round count is zero |
| `Councils.SecondDebateIsStale` | src/core/Council.cpp:41-46 | A second debate restarts its round numbers, so it repeats the elections of the first one for as long as that lasted |
| `Councils.CouncilOrchestrator.InitializeAnalysts` | src/core/Council.cpp:12-25 | Succeeds exactly with a client and a model, and then has a fresh pool and an empty history |
| `Councils.CouncilOrchestrator.RunRound` | src/core/Council.cpp:52-70 | One round and, unless nobody succeeded, one election |
| `Councils.CouncilOrchestrator.RunRounds` | src/core/Council.cpp:40-46 | The loop stops after the first round that fails |
| `Councils.CouncilOrchestrator.RunDebate` | src/core/Council.cpp:27-50 | Rounds, then the result; without initialisation an empty result |
| `Councils.FinalizeResults` | src/core/Council.cpp:72-128 | First analyst with the highest total score, its non-empty responses of the configured rounds, the number of pruned analysts, all statistics |
| `Councils.TopScorer` | src/core/Council.cpp:80-90 | The lowest index with the highest total score above -1, or -1 |
| `DebateTexts.ResultLists` | src/core/Council.cpp:93-103 | The result lists the winner's non-empty responses among the configured rounds, each of them, and in the order of the rounds |
| `DebateTexts.FreshResult` | src/core/Council.cpp:72-103 | A debate on a fresh council returns, in order, the non-empty answers the LLM gave the first analyst in the configured rounds that ran |
| `DebateTexts.ResultCounts` | src/core/Council.cpp:105-111 | The statistics are those of each analyst at its index, and the pruned ones are counted |
| `CircuitBreakers.LogExplainsState` | src/util/Resilience.cpp:74-143 | After any log of calls and resets the state is explained by its last stretch: closed with the trailing failures below the threshold, open since a failure, half-open with fewer successes than needed and no failure |
| `CircuitBreakers.FailureBound` | src/util/Resilience.cpp:74-91 | If no admitted call succeeds and there is no reset, a run whose last admission is D ms after the first opening counts at most F + D/R failures, however many calls are attempted; the calls admitted beyond these are those whose exception is not a `std::exception` |
| `CircuitBreakers.LoadBound` | src/util/Resilience.cpp:74-91 | If moreover no exception goes uncaught, at most F + D/R calls are admitted |
| `CircuitBreakers.UncaughtExceedsBound` | src/util/Resilience.h:97-103 | Two uncaught exceptions pass a breaker that opens on the first failure: more admissions than the bound |
| `CircuitBreakers.LoadStep` | src/util/Resilience.cpp:126-142 | One event keeps the relation between counted failures, time and state behind the bound |
| `CircuitBreakers.OpensOnThreshold` | src/util/Resilience.cpp:132-141 | A closed breaker leaves that state exactly on the F-th consecutive failure, and only to open |
| `CircuitBreakers.AdmitsUntilOpened` | src/util/Resilience.cpp:74-91 | After any log without an opening every call was admitted, and the next one will be |
| `CircuitBreakers.ClosedAdmits` | src/util/Resilience.cpp:74-91 | A closed breaker admits every call, and being asked does not change it |
| `CircuitBreakers.RefusesExactly` | src/util/Resilience.cpp:74-91 | A call is refused exactly if the breaker is open and the recovery time since its last failure has not passed |
| `CircuitBreakers.OpenAdmitsAfterTimeout` | src/util/Resilience.cpp:74-91 | An open breaker runs a call exactly when the recovery time has passed since the failure that opened it; a refused call changes nothing |
| `CircuitBreakers.HalfOpenVerdict` | src/util/Resilience.cpp:113-131 | A half-open breaker admits calls, closes exactly on the S-th success or a reset, and reopens with a new timer exactly on a failure |
| `CircuitBreakers.CircuitBreaker.IsOpen` | src/util/Resilience.cpp:74-91 | Tells whether calls are refused, and turns half-open when the time has come |
| `CircuitBreakers.CircuitBreaker.RecordSuccess` | src/util/Resilience.cpp:113-124 | The state after a success |
| `CircuitBreakers.CircuitBreaker.RecordFailure` | src/util/Resilience.cpp:126-143 | The state after a failure at a time |
| `CircuitBreakers.CircuitBreaker.ResetBreaker` | src/util/Resilience.cpp:106-111 | The state after a reset |
| `CircuitBreakers.CircuitBreaker.Protect` | src/util/Resilience.h:92-104 | Refused, completed or rethrown, and the state after it |
| `CircuitBreakers.CircuitBreaker.Replay` | src/util/Resilience.h:92-104 | Performing a log on the object gives the state that is a function of the log |
| `Retry.Retryable` | src/util/Resilience.cpp:10-63 | At most `max_attempts` runs, every run but the last failed, success exactly if the last returned true; one pause fewer than runs, each the capped backoff, together at most (`max_attempts` - 1) caps; the message; and the int overflow when it happens |
| `Retry.Backoff` | src/util/Resilience.cpp:32-55 | Pause and next delay of one failed attempt, or the overflow |
| `Retry.TotalPause` | src/util/Resilience.cpp:40-51 | All pauses together take at most one cap each, and at most one cap per attempt but the last |
| `Retry.NoOverflow` | src/util/Resilience.cpp:34-38 | Delays of which 200 times fit into an int never overflow, whatever the jitter |
| `Retry.SafeForEveryJitter` | src/util/Resilience.cpp:34-54 | With jitter a step is safe for every draw exactly when 200 times its delay and the next delay fit into an int |
| `Retry.OverflowHappens` | src/util/Resilience.cpp:37-37 | A delay of 10737419 ms overflows when the jitter is drawn at 100 |
| `Retry.DelaysDouble` | src/util/Resilience.cpp:53-54 | With multiplier 2 the delays are the initial one times powers of two |
| `Retry.PauseIsRaised` | src/util/Resilience.cpp:34-43 | A pause is its delay raised by 0 to 100 percent as drawn, by none without jitter, rounded down, and then capped |
| `Retry.ScaleCuts` | src/util/Resilience.cpp:53-54 | Each further delay is the one before it times the multiplier, with the fraction cut off towards zero |
| `Retry.LastWhatIsLast` | src/util/Resilience.cpp:26-30 | The message kept is that of the last exception, or the initial one if none was thrown |
| `Retry.PresetSchedules` | src/util/Resilience.h:34-44 | The three presets: their attempts, caps, jitter and first delays |
| `Retry.PresetsNeverOverflow` | src/util/Resilience.h:34-44 | None of the three presets overflows |
| `Hashing.SingleByteNeverCollides` | src/util/Hash.cpp:101-119 | Two byte strings that differ in exactly one position have different hashes and different 8-digit texts |
| `Hashing.CommonSuffix` | src/util/Hash.cpp:105-108 | With a common suffix two byte strings collide exactly when the rest does |
| `Hashing.PrimeIsInvertible` | src/util/Hash.cpp:107-107 | Multiplying by the prime is undone by multiplying by 899433627 modulo 2^32 |
| `Hashing.TestVectors` | src/util/Hash.cpp:101-111 | The hash of nothing is 0x811c9dc5 and that of the byte `a` is 0xe40c292c, the published values of FNV-1a |
| `Hashing.MixInjective` | src/util/Hash.cpp:106-107 | One step of the hash is injective in the hash |
| `Hashing.MixSeparates` | src/util/Hash.cpp:106-107 | One step of the hash is injective in the byte |
| `Hashing.Fnv1aUint32` | src/util/Hash.cpp:101-111 | The loop computes 32-bit FNV-1a |
| `Hashing.Fnv1a` | src/util/Hash.cpp:113-119 | The hash in 8 lowercase hexadecimal digits |
| `Hashing.HexInjective` | src/util/Hash.cpp:117-118 | Numbers that fit the width have the same text exactly when they are equal |
| `Hashing.HexMeans` | src/util/Hash.cpp:117-118 | The fixed-width text of a number is lowercase and read as base 16 gives the number back |
| `Hashing.DecodeEncode` | src/util/Hash.cpp:125-155 | Decoding undoes encoding for every byte string |
| `Hashing.EncodeInjective` | src/util/Hash.cpp:125-135 | Different byte strings have different encodings |
| `Hashing.EncodeIsLowerHex` | src/util/Hash.cpp:129-132 | Every character of an encoding is a lowercase hexadecimal digit |
| `Hashing.EncodeDecode` | src/util/Hash.cpp:137-155 | Encoding the decoded text gives it back in lower case exactly when it consists of pairs of hexadecimal digits |
| `Hashing.PairDecodes` | src/util/Hash.cpp:146-148 | What each pair of characters decodes to: two digits, one digit before anything else, one digit after a blank or a sign, or nothing |
| `Hashing.SignIsDecoded` | src/util/Hash.cpp:146-148 | `+1` is decoded, though it is no hexadecimal text |
| `Hashing.Encode` | src/util/Hash.cpp:125-135 | Two characters per byte |
| `Hashing.HexEncode` | src/util/Hash.cpp:125-135 | The loop computes the encoding |
| `Hashing.HexDecode` | src/util/Hash.cpp:137-155 | The loop computes the decoding; odd length or a pair `std::stoi` rejects gives nothing |
| `Metrics.PercentileRank` | src/util/Metrics.cpp:197-200 | A percentile is a sample with at most k samples below it and at least k + 1 at or below it, k being the rank |
| `Metrics.ReportedPercentiles` | src/util/Metrics.cpp:172-203 | For p50, p95 and p99 with k the floor of 50, 95 and 99 percent of the number of a provider's debates: it is the duration of one of them, at most k of them took less, and more than k took no longer; zero without any |
| `Metrics.Rank` | src/util/Metrics.cpp:197-200 | The rank is floor(q n / 100) and a valid index |
| `Metrics.PercentilesOrdered` | src/util/Metrics.cpp:194-200 | p50 <= p95 <= p99, whatever the order of recording |
| `Metrics.SortSorts` | src/util/Metrics.cpp:195-195 | Sorting gives the same samples in ascending order |
| `Metrics.Outcomes` | src/util/Metrics.cpp:29-40 | Successes and failures of a provider add up to its total |
| `Metrics.StatsCount` | src/util/Metrics.cpp:29-40 | Total, successes and failures of a provider are the numbers of its debates of that kind |
| `Metrics.StatsAdd` | src/util/Metrics.cpp:29-40 | One more debate adds its tokens and its duration to its own provider and to no other |
| `Metrics.AverageTimesCount` | src/util/Metrics.cpp:42-51 | Average times count is the total duration of the provider |
| `Metrics.LongestIsLongest` | src/util/Metrics.cpp:38-38 | The maximum is the longest duration of the provider, or zero if none is positive |
| `Metrics.SharesAddUp` | src/util/Metrics.cpp:56-73 | Any count or token sum and the duration, summed over distinct providers that cover the records, equal the whole list's |
| `Metrics.AllStatsConserve` | src/util/Metrics.cpp:56-73 | The returned list adds up to the number of debates, their successes, failures and tokens, and averages times counts to their time |
| `Metrics.BeforeIsTotal` | src/util/Metrics.cpp:59-59 | The order of the provider names is total |
| `Metrics.BeforeIsAlphabetical` | src/util/Metrics.cpp:59-59 | The names are compared at the first place where they differ, a beginning before its continuation |
| `Metrics.BinRange` | src/util/Metrics.cpp:259-259 | Bin i is 500 i <= tokens < 500 (i + 1) |
| `Metrics.BinsAddUp` | src/util/Metrics.cpp:258-263 | With all counts above -500, the bins sum to the number of debates below 500 times their number |
| `Metrics.NegativeBins` | src/util/Metrics.cpp:259-259 | The first bin takes the counts between -500 and 500; -500 itself indexes before it |
| `Metrics.Collector.RecordDebate` | src/util/Metrics.cpp:15-21 | Appends the record, and its latency under its provider if it names one |
| `Metrics.Collector.GetProviderStats` | src/util/Metrics.cpp:23-54 | The loops compute the provider's statistics |
| `Metrics.Collector.GetAllStats` | src/util/Metrics.cpp:56-73 | Exactly the providers that occur, once each, in ascending order of their names, with their statistics |
| `Metrics.Collector.GetPercentiles` | src/util/Metrics.cpp:172-203 | Percentiles of the provider's latencies, zero without any; they agree with the latencies kept per provider |
| `Metrics.Collector.GetTokenDistribution` | src/util/Metrics.cpp:245-266 | Each of the 100 bins counts its debates; reports exactly the counts of -500 or less, which index before the first bin |
| `Metrics.Collector.ResetAll` | src/util/Metrics.cpp:268-274 | Forgets the records and the latencies |
| `JsonEscape.EscapeJsonString` | src/tribunal_http.c:373-413 | Never writes outside the buffer; the output is the tokens of the stripped text that fit, terminated and readable as a JSON string: the stripped text itself when everything fits, and strict JSON exactly without other control characters. Exactly if an `ESC [` is unclosed and what fits leaves room, the index runs over the end of the text |
| `JsonEscape.UnclosedOverruns` | src/tribunal_http.c:376-380 | `ESC [` alone, with room for eight, overruns |
| `JsonEscape.BellIsNotStrict` | src/tribunal_http.c:408-410 | A bell character is copied raw, which strict JSON forbids |
| `JsonEscape.FittingRoundTrip` | src/tribunal_http.c:382-410 | The tokens that fit, when all do, read back as the stripped text |
| `JsonEscape.TruncatedReadsBack` | src/tribunal_http.c:382-410 | For any room the output is readable: a prefix of the text plus at most one later plain character; it is cut only with at most one place left |
| `JsonEscape.SequenceInFront` | src/tribunal_http.c:376-380 | A closed sequence, from `ESC [` to the first `m`, is dropped and the rest of the text is kept as it would be alone |
| `JsonEscape.PlainInFront` | src/tribunal_http.c:373-381 | A beginning in which no `ESC [` starts is kept character by character |
| `JsonEscape.UnclosedTakesTheRest` | src/tribunal_http.c:376-380 | An `ESC [` without an `m` after it takes the rest of the text with it |
| `JsonEscape.ClosedMeans` | src/tribunal_http.c:376-380 | The index stays inside the text exactly if every `ESC [` has an `m` after it |
| `JsonEscape.UnescapeAll` | src/tribunal_http.c:382-410 | Reading an escaped text gives the text back |
| `JsonEscape.FittingIsStrict` | src/tribunal_http.c:382-410 | The tokens, when all fit, are a strict JSON string body exactly when the stripped text has no control character but newline, tab and carriage return |
| `JsonEscape.Put` | src/tribunal_http.c:382-410 | Writes a token whole or not at all |
| `JsonEscape.SkipAnsi` | src/tribunal_http.c:376-380 | Skips to the closing `m` or to the terminator |
| `JsonEscape.EscapeNext` | src/tribunal_http.c:375-411 | One turn of the loop keeps the final output |
| `ConfigParser.Grammar` | src/core/ConfigParser.cpp:39-65 | A line gives key and value exactly when it is padded key, `=`, padded value and an optional comment, the key tight, non-empty, without `=` and not starting with `#`, the value tight, non-empty and without `#` |
| `ConfigParser.ParseLine` | src/core/ConfigParser.cpp:39-65 | Trimming, splitting, trimming both sides, cutting the comment and trimming again reads the line as the grammar says |
| `ConfigParser.TrimText` | src/core/ConfigParser.cpp:117-130 | The two index loops trim |
| `ConfigParser.SixSpaces` | src/core/ConfigParser.cpp:117-130 | White space is tab, newline, vertical tab, form feed, carriage return and blank |
| `ConfigParser.TrimFindsCore` | src/core/ConfigParser.cpp:117-130 | Trimming gives a text exactly when that text is tight and surrounded by padding only |
| `ConfigParser.PaddingAround` | src/core/ConfigParser.cpp:41-41 | Padding around a line changes nothing |
| `ConfigParser.CutThenTrim` | src/core/ConfigParser.cpp:55-62 | Trimming before the comment is cut off makes no difference once the rest is trimmed |
| `ConfigLoading.StoiReads` | src/core/ConfigParser.cpp:69-69 | A number is read with any padding before, an optional sign and any text after its digits, and rejected exactly when an int cannot hold it |
| `ConfigLoading.StoiRejects` | src/core/ConfigParser.cpp:69-69 | Without a digit after padding and sign there is no number |
| `ConfigLoading.NumbersSurvive` | src/core/ConfigParser.cpp:69-69 | A printed number is read back exactly when an int can hold it |
| `ConfigLoading.PrintThenRead` | src/core/ConfigParser.cpp:21-27 | Reading a printed file gives back its entries, each one and in order |
| `ConfigLoading.LinesOfJoined` | src/core/ConfigParser.cpp:21-23 | A text is read as its lines, the last one with or without a newline |
| `ConfigLoading.EntriesOfLine` | src/core/ConfigParser.cpp:21-27 | A line adds the entry it is read as, or nothing |
| `ConfigLoading.NumberKeys` | src/core/ConfigParser.cpp:67-92 | Which name each number has in a file |
| `ConfigLoading.TextKeys` | src/core/ConfigParser.cpp:67-113 | Which name each text has in a file |
| `ConfigLoading.NoOtherKey` | src/core/ConfigParser.cpp:67-113 | No name but these and those of the two lists sets anything |
| `ConfigLoading.LastWins` | src/core/ConfigParser.cpp:67-113 | The last entry for a setting decides it |
| `ConfigLoading.UnsetStays` | src/core/ConfigParser.cpp:12-12 | A setting without an entry keeps its default |
| `ConfigLoading.ListsInOrder` | src/core/ConfigParser.cpp:93-96 | All models and endpoints are kept in file order |
| `ConfigLoading.FailsExactly` | src/core/ConfigParser.cpp:67-92 | Loading throws exactly when some entry for a number cannot be read as one |
| `ConfigLoading.MalformedThrows` | src/core/ConfigParser.cpp:68-69 | Loading the line `rounds=abc` throws |
| `ConfigLoading.PrintedFileLoads` | src/core/ConfigParser.cpp:12-32 | The same for a printed file: failure, last wins, defaults and lists |
| `ConfigLoading.Configuration.SetValue` | src/core/ConfigParser.cpp:67-114 | One entry sets what its key stands for; an unknown key changes nothing; a malformed number throws and changes nothing |
| `ConfigLoading.Load` | src/core/ConfigParser.cpp:12-32 | Line by line onto the defaults, or the defaults without a file, and then the environment; a malformed number ends it |
| `ConfigLoading.LoadConfiguration` | src/core/ConfigParser.cpp:12-37 | Loading with the program's own 22 keys and defaults |
| `ConfigLoading.Configuration.ApplyEnvironment` | src/core/ConfigParser.cpp:162-211 | Each of four texts is taken from the environment if it is empty |
| `ConfigLoading.EnvironmentOnlyFills` | src/core/ConfigParser.cpp:162-211 | A text of the file or the defaults stays, an empty one becomes the first offer that is not empty, and nothing else changes |
| `ConfigLoading.OffersInOrder` | src/core/ConfigParser.cpp:162-211 | The order in which the variables and credentials are offered for each text |
| `ConfigLoading.FileBeatsEnvironment` | src/core/ConfigParser.cpp:162-211 | The last value in the file for a text beats the environment |

## Left out

- Liveness of `wait` in general: it is false (see above); it is proved up to the one step that breaks it.
- Scheduling fairness: termination after `stop` is a bound on steps, not a claim that threads are scheduled.
- Two concurrent `stop` calls joining the same thread: both are modelled as waiting for all workers.
- `thread_count`, `pending_tasks`, `is_running` of the work queue: single reads.
- Rounds.ParallelEqualsSequential: `success_count++` is a read and a write of an int; that C++ gives such a race no meaning at all is not modelled.
- ThreadPoolObject.ThreadPool.WorkerStep: `tasks_.empty()` after a task is read without the mutex (src/util/Concurrent.cpp:113), the same kind of race; it is one read of the model.
- Exceptions in analyst threads that do not derive from `std::exception`: they end the program.
- The texts of prompts, role names, outcomes and summaries; `removal_immune` and fields nobody reads.
- Integer overflow of scores, counters and indices, except in `Retry`.
- Breaker and concurrency: the breaker is used from one thread, as its fields are not guarded.
- CircuitBreakers.CircuitBreaker.Protect: exceptions that do not derive from `std::exception` change no counter, which is modelled; what their types are is not.
- Retry.Retryable: logging, the sleeping itself and a null `error_msg` are not modelled, and the attempt counter is unbounded.
- Retry.DelaysDouble: real arithmetic instead of `double`; for the presets both are exact.
- OpenSSL SHA-256.
- Hashing.HexDecode: `std::stoi` accepts a blank or a sign before one digit; that leniency is modelled, and `Hashing.EncodeDecode` says when it matters.
- JsonEscape.EscapeJsonString: what is read beyond the terminator is not modelled; the method only reports that it happens.
- Metrics: locking (`get_all_stats` takes a mutex it already holds), the unused hour cut-offs, time series, Prometheus and JSON texts.
- Metrics.Collector.GetTokenDistribution: what is written before the first bin is not modelled; the method only reports that it happens.
- ConfigLoading.Load: how the credential files and `gcloud` are searched is not modelled; what they give is a parameter.
- Locale: white space is that of the C locale.
- HTTP server, routing, dashboard, curl clients, JSON scraping, database, logging: input, output and foreign code.
- Query classifier, configuration validator, endpoint rotation and job tables: they would add easy members only.
