/** One round over a pool of analysts: the threads, their interleavings, and the pool object. */
module Rounds {
  import opened Sequences
  import opened Analysts

  type Pool = seq<AnalystState>

  /** The LLM as an arbitrary oracle: what it does when the analyst at an index asks in a round. */
  type Llm = (nat, nat) -> Reply

  const MAX_MODELS := 16
  const BASE_ANALYST_COUNT := 4

  function RoleAt(i: nat): Role {
    match i
    case 0 => Security
    case 1 => Performance
    case 2 => Correctness
    case _ => Style
  }

  function BaseAnalyst(models: seq<string>, i: nat): AnalystState
    requires i < |models|
  {
    NewAnalyst(RoleAt(i), models[i], Builtin(RoleAt(i)))
  }

  function BaseAnalysts(models: seq<string>, n: nat): (pool: Pool)
    requires n <= |models|
    ensures |pool| == n
  {
    if n == 0 then [] else BaseAnalysts(models, n - 1) + [BaseAnalyst(models, n - 1)]
  }

  /** The number of base analysts: at most four, one per model. */
  function BaseSize(models: seq<string>): nat {
    if |models| < BASE_ANALYST_COUNT then |models| else BASE_ANALYST_COUNT
  }

  /** The pool the constructor builds. */
  function BasePool(models: seq<string>): Pool {
    BaseAnalysts(models, BaseSize(models))
  }

  lemma {:induction false} BaseAnalystsAt(models: seq<string>, n: nat)
    requires n <= |models|
    ensures forall i :: 0 <= i < n ==> BaseAnalysts(models, n)[i] == BaseAnalyst(models, i)
  {
    if n > 0 { BaseAnalystsAt(models, n - 1); }
  }

  /** A fresh pool: at most four analysts, each with its own model, and the roles in their fixed order. */
  lemma FreshPool(models: seq<string>, i: nat)
    requires i < |BasePool(models)|
    ensures |BasePool(models)| == (if |models| < 4 then |models| else 4)
    ensures var a := BasePool(models)[i];
      && a.model == models[i] && a.role == [Security, Performance, Correctness, Style][i]
      && a.systemPrompt == Builtin(a.role) && a.responses == [] && a.lastError == "" && !a.complete
      && a.stats == Stats(0, 0, 0, 0, 0, false)
  {
    BaseAnalystsAt(models, BaseSize(models));
  }

  predicate Active(a: AnalystState) { a.IsActive() }

  // ----- running the active analysts one after the other -----

  /** The first `n` analysts of a round, in index order: the pool and the number of successes. */
  function InIndexOrder(pool: Pool, llm: Llm, round: nat, n: nat): (r: (Pool, nat))
    requires n <= |pool|
    ensures |r.0| == |pool| && r.1 <= n
  {
    if n == 0 then (pool, 0)
    else
      var (p, count) := InIndexOrder(pool, llm, round, n - 1);
      if !pool[n - 1].IsActive() then (p, count)
      else (p[n - 1 := AfterReply(pool[n - 1], llm(round, n - 1))],
            count + if Succeeded(llm(round, n - 1)) then 1 else 0)
  }

  function RoundPool(pool: Pool, llm: Llm, round: nat): Pool {
    InIndexOrder(pool, llm, round, |pool|).0
  }

  function Successes(pool: Pool, llm: Llm, round: nat): nat {
    InIndexOrder(pool, llm, round, |pool|).1
  }

  /** Every active analyst answers, every inactive one is left alone. */
  lemma {:induction false} InIndexOrderAt(pool: Pool, llm: Llm, round: nat, n: nat)
    requires n <= |pool|
    ensures var p := InIndexOrder(pool, llm, round, n).0;
      && |p| == |pool|
      && (forall i :: 0 <= i < n ==> p[i] == if pool[i].IsActive() then AfterReply(pool[i], llm(round, i)) else pool[i])
      && (forall i :: n <= i < |pool| ==> p[i] == pool[i])
  {
    if n > 0 { InIndexOrderAt(pool, llm, round, n - 1); }
  }

  /** The count is positive exactly when some active analyst succeeds. */
  lemma {:induction false} SuccessesPositive(pool: Pool, llm: Llm, round: nat, n: nat)
    requires n <= |pool|
    ensures InIndexOrder(pool, llm, round, n).1 > 0
       <==> exists i :: 0 <= i < n && pool[i].IsActive() && llm(round, i).Answer? && llm(round, i).error == ""
  {
    if n > 0 {
      InIndexOrderAt(pool, llm, round, n - 1);
      SuccessesPositive(pool, llm, round, n - 1);
    }
  }

  // ----- the threads -----

  /**
   One thread per active analyst: it queries, updates its own analyst, and counts a
   success.  The shared count is not atomic: it is read and written in two steps.
   */
  datatype Thread = Absent | Spawned | Asked(reply: Reply) | Recorded(ok: bool) | Loaded(value: nat) | Done(ok: bool)

  datatype Parallel = Parallel(pool: Pool, threads: seq<Thread>, successes: nat)

  function SpawnThreads(pool: Pool): (threads: seq<Thread>)
    ensures |threads| == |pool|
  {
    if pool == [] then []
    else SpawnThreads(pool[..|pool| - 1]) + [if pool[|pool| - 1].IsActive() then Spawned else Absent]
  }

  lemma {:induction false} SpawnThreadsAt(pool: Pool)
    ensures forall i :: 0 <= i < |pool| ==> SpawnThreads(pool)[i] == if pool[i].IsActive() then Spawned else Absent
  {
    if pool != [] { SpawnThreadsAt(pool[..|pool| - 1]); }
  }

  function Spawn(pool: Pool): Parallel { Parallel(pool, SpawnThreads(pool), 0) }

  predicate CanRun(t: Thread) { !t.Absent? && !t.Done? }

  predicate CanStep(s: Parallel, i: nat) { i < |s.threads| && i < |s.pool| && CanRun(s.threads[i]) }

  /** The next phase of a thread that sees `count` in the shared counter and gets the reply `r`. */
  function NextPhase(t: Thread, r: Reply, count: nat): Thread
    requires CanRun(t)
  {
    match t
    case Spawned => Asked(r)
    case Asked(reply) => Recorded(Succeeded(reply))
    case Recorded(ok) => if ok then Loaded(count) else Done(false)
    case Loaded(_) => Done(true)
  }

  function ThreadStep(s: Parallel, llm: Llm, round: nat, i: nat): Parallel
    requires CanStep(s, i)
  {
    var t := s.threads[i];
    Parallel(if t.Asked? then s.pool[i := AfterReply(s.pool[i], t.reply)] else s.pool,
             s.threads[i := NextPhase(t, llm(round, i), s.successes)],
             if t.Loaded? then t.value + 1 else s.successes)
  }

  /** A step that overwrites a count other than the one the thread has read. */
  predicate LosesCount(s: Parallel, i: nat)
    requires i < |s.threads|
  {
    s.threads[i].Loaded? && s.threads[i].value != s.successes
  }

  /** `schedule` names, step after step, a thread of the round that can run. */
  predicate Schedulable(pool: Pool, llm: Llm, round: nat, schedule: seq<nat>)
    decreases |schedule|, 0
  {
    schedule == [] ||
    (Schedulable(pool, llm, round, schedule[..|schedule| - 1]) &&
     CanStep(Interleaved(pool, llm, round, schedule[..|schedule| - 1]), schedule[|schedule| - 1]))
  }

  function Interleaved(pool: Pool, llm: Llm, round: nat, schedule: seq<nat>): Parallel
    requires Schedulable(pool, llm, round, schedule)
    decreases |schedule|, 1
  {
    if schedule == [] then Spawn(pool)
    else ThreadStep(Interleaved(pool, llm, round, schedule[..|schedule| - 1]), llm, round, schedule[|schedule| - 1])
  }

  /** No step of the schedule overwrites a count it has not seen. */
  predicate NoLostCount(pool: Pool, llm: Llm, round: nat, schedule: seq<nat>)
    requires Schedulable(pool, llm, round, schedule)
  {
    schedule != [] ==>
      && NoLostCount(pool, llm, round, schedule[..|schedule| - 1])
      && !LosesCount(Interleaved(pool, llm, round, schedule[..|schedule| - 1]), schedule[|schedule| - 1])
  }

  /** All threads have been joined. */
  predicate Joined(s: Parallel) { forall i :: 0 <= i < |s.threads| ==> !CanRun(s.threads[i]) }

  predicate CountedOk(t: Thread) { t.Done? && t.ok }

  /** What thread `i` and its analyst look like at any moment of the round. */
  ghost predicate OnTrack(pool: Pool, llm: Llm, round: nat, s: Parallel, i: nat)
    requires i < |pool| == |s.pool| == |s.threads|
  {
    var r, t := llm(round, i), s.threads[i];
    && (t.Absent? <==> !pool[i].IsActive())
    && (t.Asked? ==> t.reply == r)
    && (t.Recorded? || t.Done? ==> t.ok == Succeeded(r))
    && (t.Loaded? ==> Succeeded(r))
    && s.pool[i] == if t.Recorded? || t.Loaded? || t.Done? then AfterReply(pool[i], r) else pool[i]
  }

  /**
   The shared counter: without a lost count it is the number of threads that have
   counted, and with one it is less for ever; either way it is zero only as long as none has.
   */
  ghost predicate Tally(s: Parallel, exact: bool) {
    var done := Count(s.threads, CountedOk);
    && (done > 0 ==> s.successes > 0)
    && (if exact then s.successes == done else s.successes < done)
    && (forall i :: 0 <= i < |s.threads| && s.threads[i].Loaded? ==>
          if exact then s.threads[i].value <= done else s.threads[i].value < done)
  }

  ghost predicate AllOnTrack(pool: Pool, llm: Llm, round: nat, s: Parallel) {
    |s.pool| == |s.threads| == |pool| && forall i :: 0 <= i < |pool| ==> OnTrack(pool, llm, round, s, i)
  }

  lemma StartsOnTrack(pool: Pool, llm: Llm, round: nat)
    ensures AllOnTrack(pool, llm, round, Spawn(pool)) && Tally(Spawn(pool), true)
  {
    SpawnThreadsAt(pool);
    CountZero(SpawnThreads(pool), CountedOk);
  }

  lemma StepStaysOnTrack(pool: Pool, llm: Llm, round: nat, s: Parallel, i: nat)
    requires AllOnTrack(pool, llm, round, s) && CanStep(s, i)
    ensures AllOnTrack(pool, llm, round, ThreadStep(s, llm, round, i))
  {
    var n := ThreadStep(s, llm, round, i);
    assert OnTrack(pool, llm, round, s, i);
    forall k | 0 <= k < |pool| ensures OnTrack(pool, llm, round, n, k) {
      assert OnTrack(pool, llm, round, s, k);
    }
  }

  lemma StepTallies(s: Parallel, llm: Llm, round: nat, i: nat, exact: bool)
    requires CanStep(s, i) && Tally(s, exact)
    ensures Tally(ThreadStep(s, llm, round, i), exact && !LosesCount(s, i))
  {
    CountUpdate(s.threads, i, NextPhase(s.threads[i], llm(round, i), s.successes), CountedOk);
  }

  /** Every moment of every schedule: each thread has touched only its own analyst, and the count is exact or short. */
  lemma {:induction false} ThreadsStayOnTrack(pool: Pool, llm: Llm, round: nat, schedule: seq<nat>)
    requires Schedulable(pool, llm, round, schedule)
    ensures AllOnTrack(pool, llm, round, Interleaved(pool, llm, round, schedule))
    ensures Tally(Interleaved(pool, llm, round, schedule), NoLostCount(pool, llm, round, schedule))
  {
    if schedule == [] {
      StartsOnTrack(pool, llm, round);
    } else {
      var before, i := schedule[..|schedule| - 1], schedule[|schedule| - 1];
      ThreadsStayOnTrack(pool, llm, round, before);
      var mid := Interleaved(pool, llm, round, before);
      StepStaysOnTrack(pool, llm, round, mid, i);
      StepTallies(mid, llm, round, i, NoLostCount(pool, llm, round, before));
    }
  }

  lemma {:induction false} JoinedCount(pool: Pool, llm: Llm, round: nat, s: Parallel, n: nat)
    requires n <= |pool| && AllOnTrack(pool, llm, round, s) && Joined(s)
    ensures Count(s.threads[..n], CountedOk) == InIndexOrder(pool, llm, round, n).1
  {
    if n > 0 {
      InIndexOrderAt(pool, llm, round, n - 1);
      assert s.threads[..n][..n - 1] == s.threads[..n - 1];
      assert OnTrack(pool, llm, round, s, n - 1);
      JoinedCount(pool, llm, round, s, n - 1);
    }
  }

  /** A round whose threads are on track and joined has the sequential pool, and that many threads have counted. */
  lemma OnTrackToTheEnd(pool: Pool, llm: Llm, round: nat, s: Parallel)
    requires AllOnTrack(pool, llm, round, s) && Joined(s)
    ensures s.pool == RoundPool(pool, llm, round)
    ensures Count(s.threads, CountedOk) == Successes(pool, llm, round)
  {
    InIndexOrderAt(pool, llm, round, |pool|);
    forall i | 0 <= i < |pool| ensures s.pool[i] == RoundPool(pool, llm, round)[i] {
      assert OnTrack(pool, llm, round, s, i);
    }
    JoinedCount(pool, llm, round, s, |pool|);
    assert s.threads[..|pool|] == s.threads;
  }

  /** The count of a round that may have lost some: at most the successes, and zero only if there were none. */
  predicate CountsFor(count: nat, successes: nat) {
    count <= successes && (count == 0 <==> successes == 0)
  }

  /**
   Main result of the round, whatever the interleaving: once all threads are joined the
   pool is that of the sequential round, the count tells whether anybody succeeded, and
   it is the sequential count exactly when no thread has overwritten another's.
   */
  lemma ParallelEqualsSequential(pool: Pool, llm: Llm, round: nat, schedule: seq<nat>)
    requires Schedulable(pool, llm, round, schedule) && Joined(Interleaved(pool, llm, round, schedule))
    ensures var s := Interleaved(pool, llm, round, schedule);
      && s.pool == RoundPool(pool, llm, round)
      && CountsFor(s.successes, Successes(pool, llm, round))
      && (s.successes == Successes(pool, llm, round) <==> NoLostCount(pool, llm, round, schedule))
  {
    ThreadsStayOnTrack(pool, llm, round, schedule);
    OnTrackToTheEnd(pool, llm, round, Interleaved(pool, llm, round, schedule));
  }

  function StepsDone(t: Thread): nat {
    match t
    case Absent => 0
    case Spawned => 0
    case Asked(_) => 1
    case Recorded(_) => 2
    case Loaded(_) => 3
    case Done(_) => 4
  }

  function TotalSteps(ts: seq<Thread>): nat {
    if ts == [] then 0 else TotalSteps(ts[..|ts| - 1]) + StepsDone(ts[|ts| - 1])
  }

  lemma {:induction false} TotalStepsUpdate(ts: seq<Thread>, i: nat, t: Thread)
    requires i < |ts|
    ensures TotalSteps(ts[i := t]) == TotalSteps(ts) - StepsDone(ts[i]) + StepsDone(t)
  {
    var n := |ts| - 1;
    if i == n {
      assert ts[i := t][..n] == ts[..n];
    } else {
      assert ts[i := t][..n] == ts[..n][i := t];
      TotalStepsUpdate(ts[..n], i, t);
    }
  }

  lemma {:induction false} StepsAtMost(ts: seq<Thread>, pool: Pool)
    requires |ts| == |pool|
    requires forall i :: 0 <= i < |ts| ==> (ts[i].Absent? <==> !pool[i].IsActive())
    ensures TotalSteps(ts) <= 4 * Count(pool, Active)
  {
    if ts != [] { StepsAtMost(ts[..|ts| - 1], pool[..|ts| - 1]); }
  }

  /** No schedule runs for ever: each active analyst's thread takes at most four steps. */
  lemma RoundTerminates(pool: Pool, llm: Llm, round: nat, schedule: seq<nat>)
    requires Schedulable(pool, llm, round, schedule)
    ensures |schedule| <= 4 * Count(pool, Active)
  {
    var s := Interleaved(pool, llm, round, schedule);
    ScheduleLength(pool, llm, round, schedule);
    ThreadsStayOnTrack(pool, llm, round, schedule);
    forall i | 0 <= i < |pool| ensures s.threads[i].Absent? <==> !pool[i].IsActive() {
      assert OnTrack(pool, llm, round, s, i);
    }
    StepsAtMost(s.threads, pool);
  }

  lemma {:induction false} ScheduleLength(pool: Pool, llm: Llm, round: nat, schedule: seq<nat>)
    requires Schedulable(pool, llm, round, schedule)
    ensures |schedule| <= TotalSteps(Interleaved(pool, llm, round, schedule).threads)
  {
    if schedule != [] {
      var before, i := schedule[..|schedule| - 1], schedule[|schedule| - 1];
      ScheduleLength(pool, llm, round, before);
      StepAdvances(Interleaved(pool, llm, round, before), llm, round, i);
    }
  }

  lemma StepAdvances(s: Parallel, llm: Llm, round: nat, i: nat)
    requires CanStep(s, i)
    ensures TotalSteps(ThreadStep(s, llm, round, i).threads) > TotalSteps(s.threads)
  {
    TotalStepsUpdate(s.threads, i, NextPhase(s.threads[i], llm(round, i), s.successes));
  }

  lemma RunSchedule(pool: Pool, llm: Llm, round: nat, schedule: seq<nat>, i: nat)
    requires Schedulable(pool, llm, round, schedule) && CanStep(Interleaved(pool, llm, round, schedule), i)
    ensures Schedulable(pool, llm, round, schedule + [i])
    ensures Interleaved(pool, llm, round, schedule + [i])
         == ThreadStep(Interleaved(pool, llm, round, schedule), llm, round, i)
  {
    assert (schedule + [i])[..|schedule + [i]| - 1] == schedule;
  }

  /** Everybody answers `text`. */
  function Echo(text: string): Llm { (round: nat, i: nat) => Answer(text, "") }

  /** One more step of a schedule, given the state it leads to. */
  lemma Then(pool: Pool, text: string, schedule: seq<nat>, i: nat, next: Parallel) returns (longer: seq<nat>)
    requires Schedulable(pool, Echo(text), 0, schedule)
    requires CanStep(Interleaved(pool, Echo(text), 0, schedule), i)
    requires ThreadStep(Interleaved(pool, Echo(text), 0, schedule), Echo(text), 0, i) == next
    ensures Schedulable(pool, Echo(text), 0, longer) && Interleaved(pool, Echo(text), 0, longer) == next
  {
    longer := schedule + [i];
    RunSchedule(pool, Echo(text), 0, schedule, i);
  }

  function Heard(a: AnalystState, text: string): AnalystState { AfterReply(a, Answer(text, "")) }

  lemma ReachFirstRecorded(a: AnalystState, b: AnalystState, text: string) returns (schedule: seq<nat>)
    requires a.IsActive() && b.IsActive()
    ensures Schedulable([a, b], Echo(text), 0, schedule)
    ensures Interleaved([a, b], Echo(text), 0, schedule)
         == Parallel([Heard(a, text), b], [Recorded(true), Spawned], 0)
  {
    var p, r := [a, b], Answer(text, "");
    SpawnThreadsAt(p);
    assert SpawnThreads(p) == [Spawned, Spawned];
    schedule := Then(p, text, [], 0, Parallel(p, [Asked(r), Spawned], 0));
    schedule := Then(p, text, schedule, 0, Parallel([Heard(a, text), b], [Recorded(true), Spawned], 0));
  }

  lemma ReachBothRecorded(a: AnalystState, b: AnalystState, text: string) returns (schedule: seq<nat>)
    requires a.IsActive() && b.IsActive()
    ensures Schedulable([a, b], Echo(text), 0, schedule)
    ensures Interleaved([a, b], Echo(text), 0, schedule)
         == Parallel([Heard(a, text), Heard(b, text)], [Recorded(true), Recorded(true)], 0)
  {
    var p, r := [a, b], Answer(text, "");
    schedule := ReachFirstRecorded(a, b, text);
    schedule := Then(p, text, schedule, 1, Parallel([Heard(a, text), b], [Recorded(true), Asked(r)], 0));
    schedule := Then(p, text, schedule, 1,
                     Parallel([Heard(a, text), Heard(b, text)], [Recorded(true), Recorded(true)], 0));
  }

  lemma ReachBothLoaded(a: AnalystState, b: AnalystState, text: string) returns (schedule: seq<nat>)
    requires a.IsActive() && b.IsActive()
    ensures Schedulable([a, b], Echo(text), 0, schedule)
    ensures Interleaved([a, b], Echo(text), 0, schedule)
         == Parallel([Heard(a, text), Heard(b, text)], [Loaded(0), Loaded(0)], 0)
  {
    var p, q := [a, b], [Heard(a, text), Heard(b, text)];
    schedule := ReachBothRecorded(a, b, text);
    schedule := Then(p, text, schedule, 0, Parallel(q, [Loaded(0), Recorded(true)], 0));
    schedule := Then(p, text, schedule, 1, Parallel(q, [Loaded(0), Loaded(0)], 0));
  }

  /** A count can be lost: two threads both succeed, and both read the counter before either writes it. */
  lemma LostCount(a: AnalystState, b: AnalystState, text: string) returns (schedule: seq<nat>)
    requires a.IsActive() && b.IsActive()
    ensures Schedulable([a, b], Echo(text), 0, schedule)
    ensures Joined(Interleaved([a, b], Echo(text), 0, schedule))
    ensures Interleaved([a, b], Echo(text), 0, schedule).successes == 1 && Successes([a, b], Echo(text), 0) == 2
  {
    var p, q := [a, b], [Heard(a, text), Heard(b, text)];
    schedule := ReachBothLoaded(a, b, text);
    schedule := Then(p, text, schedule, 0, Parallel(q, [Done(true), Loaded(0)], 1));
    schedule := Then(p, text, schedule, 1, Parallel(q, [Done(true), Done(true)], 1));
    assert InIndexOrder(p, Echo(text), 0, 1).1 == 1;
  }

  // ----- the pool object -----

  ghost function States(analysts: seq<Analyst>): (pool: Pool)
    reads analysts
    ensures |pool| == |analysts|
    ensures forall i :: 0 <= i < |analysts| ==> pool[i] == analysts[i].State()
  {
    seq(|analysts|, i requires 0 <= i < |analysts| reads analysts => analysts[i].State())
  }

  ghost predicate Distinct(analysts: seq<Analyst>) {
    forall i, j :: 0 <= i < j < |analysts| ==> analysts[i] != analysts[j]
  }

  /** The thread of analyst `i` stores its reply. */
  method Record(analysts: seq<Analyst>, i: nat, reply: Reply) returns (ok: bool)
    requires Distinct(analysts) && i < |analysts|
    modifies analysts[i]
    ensures States(analysts) == old(States(analysts))[i := AfterReply(old(States(analysts))[i], reply)]
    ensures ok == Succeeded(reply)
  {
    ok := analysts[i].ExecuteRound(reply);
  }

  /** The next step of thread `i`, on the analysts and the shared counter. */
  method StepThread(analysts: seq<Analyst>, t: Thread, i: nat, llm: Llm, round: nat, count: nat)
    returns (next: Thread, counted: nat)
    requires Distinct(analysts) && i < |analysts| && CanRun(t)
    modifies analysts[i]
    ensures States(analysts)
         == if t.Asked? then old(States(analysts))[i := AfterReply(old(States(analysts))[i], t.reply)]
            else old(States(analysts))
    ensures next == NextPhase(t, llm(round, i), count)
    ensures counted == if t.Loaded? then t.value + 1 else count
  {
    counted := count;
    match t {
      case Spawned => next := Asked(llm(round, i));
      case Asked(reply) =>
        var ok := Record(analysts, i, reply);
        next := Recorded(ok);
      case Recorded(ok) => next := if ok then Loaded(count) else Done(false);
      case Loaded(value) => next, counted := Done(true), value + 1;
    }
  }

  /** Lets some thread that can run take a step; `schedule` notes which. */
  method Turn(analysts: seq<Analyst>, threads: seq<Thread>, count: nat, llm: Llm, round: nat,
              ghost pool: Pool, ghost schedule: seq<nat>)
    returns (stepped: seq<Thread>, counted: nat, ghost longer: seq<nat>)
    requires Distinct(analysts) && |threads| == |analysts| && exists i :: 0 <= i < |threads| && CanRun(threads[i])
    requires Schedulable(pool, llm, round, schedule)
    requires Interleaved(pool, llm, round, schedule) == Parallel(States(analysts), threads, count)
    modifies analysts
    ensures |longer| == |schedule| + 1 && |stepped| == |analysts|
    ensures Schedulable(pool, llm, round, longer)
    ensures Interleaved(pool, llm, round, longer) == Parallel(States(analysts), stepped, counted)
  {
    var i :| 0 <= i < |threads| && CanRun(threads[i]);
    RunSchedule(pool, llm, round, schedule, i);
    longer := schedule + [i];
    var next;
    next, counted := StepThread(analysts, threads[i], i, llm, round, count);
    stepped := threads[i := next];
  }

  /** Runs the threads in any interleaving until all are joined. */
  method RunThreads(analysts: seq<Analyst>, spawned: seq<Thread>, llm: Llm, round: nat) returns (count: nat)
    requires Distinct(analysts) && spawned == SpawnThreads(States(analysts))
    modifies analysts
    ensures States(analysts) == RoundPool(old(States(analysts)), llm, round)
    ensures CountsFor(count, Successes(old(States(analysts)), llm, round))
  {
    ghost var pool, schedule: seq<nat> := States(analysts), [];
    var threads := spawned;
    count := 0;
    while exists i :: 0 <= i < |threads| && CanRun(threads[i])
      invariant |threads| == |analysts| && Schedulable(pool, llm, round, schedule)
      invariant Interleaved(pool, llm, round, schedule) == Parallel(States(analysts), threads, count)
      decreases 4 * Count(pool, Active) - |schedule|
    {
      RoundTerminates(pool, llm, round, schedule);
      threads, count, schedule := Turn(analysts, threads, count, llm, round, pool, schedule);
    }
    ParallelEqualsSequential(pool, llm, round, schedule);
  }

  class AnalystPool {
    var analysts: seq<Analyst>

    /** The pool owns its analysts: no two indices share one. */
    ghost predicate Valid()
      reads this
    {
      Distinct(analysts)
    }

    ghost function View(): Pool
      reads this, analysts
    {
      States(analysts)
    }

    constructor (models: seq<string>)
      ensures Valid() && View() == BasePool(models)
      ensures fresh(analysts)
    {
      var built: seq<Analyst> := [];
      var i := 0;
      while i < BASE_ANALYST_COUNT && i < |models|
        invariant 0 <= i <= BASE_ANALYST_COUNT && i <= |models|
        invariant |built| == i && Distinct(built) && fresh(built)
        invariant States(built) == BaseAnalysts(models, i)
      {
        var analyst := new Analyst(RoleAt(i), models[i], Builtin(RoleAt(i)));
        built := built + [analyst];
        i := i + 1;
      }
      analysts := built;
    }

    method AddAnalyst(role: Role, model: string, systemPrompt: Prompt) returns (added: bool)
      requires Valid()
      modifies this
      ensures Valid() && added == (old(|analysts|) < 16)
      ensures View() == if added then old(View()) + [NewAnalyst(role, model, systemPrompt)] else old(View())
      ensures fresh(set a | a in analysts && a !in old(analysts))
    {
      if |analysts| >= MAX_MODELS {
        return false;
      }
      var analyst := new Analyst(role, model, systemPrompt);
      analysts := analysts + [analyst];
      return true;
    }

    method RemoveAnalyst(index: nat) returns (removed: bool)
      requires Valid()
      modifies this
      ensures Valid() && removed == (index < old(|analysts|))
      ensures View() == if removed then old(View())[..index] + old(View())[index + 1..] else old(View())
      ensures forall a :: a in analysts ==> a in old(analysts)
    {
      if index >= |analysts| {
        return false;
      }
      analysts := analysts[..index] + analysts[index + 1..];
      return true;
    }

    method ActiveCount() returns (count: nat)
      ensures count == Count(View(), Active)
    {
      count := 0;
      for i := 0 to |analysts|
        invariant count == Count(View()[..i], Active)
      {
        assert View()[..i + 1][..i] == View()[..i];
        if analysts[i].IsActive() {
          count := count + 1;
        }
      }
      assert View()[..|analysts|] == View();
    }

    method GetStats() returns (stats: seq<Stats>)
      ensures |stats| == |View()| && forall i :: 0 <= i < |stats| ==> stats[i] == View()[i].stats
    {
      stats := [];
      for i := 0 to |analysts|
        invariant |stats| == i && forall k :: 0 <= k < i ==> stats[k] == View()[k].stats
      {
        stats := stats + [analysts[i].stats];
      }
    }

    /** Starts a thread per active analyst and joins them all; the count may have lost some successes, but not all. */
    method ExecuteRound(llm: Llm, round: nat) returns (count: nat)
      requires Valid()
      modifies analysts
      ensures Valid() && analysts == old(analysts)
      ensures View() == RoundPool(old(View()), llm, round)
      ensures CountsFor(count, Successes(old(View()), llm, round))
    {
      var members, threads: seq<Thread> := analysts, [];
      for i := 0 to |members|
        invariant threads == SpawnThreads(States(members)[..i])
      {
        assert States(members)[..i + 1][..i] == States(members)[..i];
        threads := threads + [if members[i].IsActive() then Spawned else Absent];
      }
      assert States(members)[..|members|] == States(members);
      count := RunThreads(members, threads, llm, round);
    }
  }
}
