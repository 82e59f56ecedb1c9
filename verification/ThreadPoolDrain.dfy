/**
 What the invariant of the work queue means to its callers: no stranded task,
 first-in first-out execution, a sound `wait`, and a `stop` that drains.
 */
module ThreadPoolDrain {
  import opened Sequences
  import opened ThreadPoolModel
  import opened ThreadPoolSafety

  /** In no reachable state is a task queued while all workers sleep and nobody is about to wake one. */
  lemma NoTaskIsStranded(workers: nat, clients: nat, run: seq<Action>)
    requires workers >= 1 && ValidRun(Initial(workers, clients), run)
    ensures var s := Final(Initial(workers, clients), run);
      s.tasks != [] ==>
        || (exists w :: 0 <= w < |s.workers| && !s.workers[w].Asleep? && !s.workers[w].Exited?)
        || (exists c :: 0 <= c < |s.clients| && OwesOne(s.clients[c]))
  {
    var s := Final(Initial(workers, clients), run);
    InvAlways(workers, clients, run);
    ThreadsStay(Initial(workers, clients), run);
    CountZero(s.workers, Seeking);
    CountZero(s.clients, OwesOne);
    assert s.tasks != [] ==> !s.workers[0].Exited?;
  }

  /** No step creates or destroys a thread, and no step forgets a task. */
  lemma StepGrows(s: State, a: Action)
    requires Enabled(s, a)
    ensures var n := Next(s, a);
      && |n.workers| == |s.workers| && |n.clients| == |s.clients|
      && s.accepted <= n.accepted && s.started <= n.started && s.finished <= n.finished
      && (s.stop ==> n.stop && n.accepted == s.accepted)
  {
  }

  lemma {:induction false} ThreadsStay(s: State, run: seq<Action>)
    requires ValidRun(s, run)
    ensures |Final(s, run).workers| == |s.workers| && |Final(s, run).clients| == |s.clients|
  {
    if run != [] {
      var prefix := run[..|run| - 1];
      ThreadsStay(s, prefix);
      StepGrows(Final(s, prefix), run[|run| - 1]);
    }
  }

  predicate Has(p: WorkerPhase, ticket: nat) { HoldsTask(p) && p.ticket == ticket }

  /**
   The k-th task taken from the queue is the k-th task accepted, and an accepted
   task is queued, in the hands of exactly one worker, or finished.
   */
  lemma FirstInFirstOut(workers: nat, clients: nat, run: seq<Action>, k: nat)
    requires ValidRun(Initial(workers, clients), run)
    requires k < |Final(Initial(workers, clients), run).accepted|
    ensures var s := Final(Initial(workers, clients), run);
      && (k < |s.started| ==> s.started[k] == s.accepted[k])
      && (k >= |s.started| ==> s.accepted == s.started + s.tasks && !HeldBySome(s, k) && k !in s.finished)
      && (k < |s.started| ==> (k in s.finished <==> !HeldBySome(s, k)))
      && (forall v, w | 0 <= v < |s.workers| && 0 <= w < |s.workers| ::
            Has(s.workers[v], k) && Has(s.workers[w], k) ==> v == w)
  {
    InvAlways(workers, clients, run);
  }

  /** `active_tasks_` is between 0 and the number of workers. */
  lemma ActiveIsBounded(workers: nat, clients: nat, run: seq<Action>)
    requires ValidRun(Initial(workers, clients), run)
    ensures 0 <= Final(Initial(workers, clients), run).active <= workers
  {
    InvAlways(workers, clients, run);
    ThreadsStay(Initial(workers, clients), run);
  }

  /** Tasks are never forgotten: each log only grows. */
  lemma {:induction false} LogsGrow(s: State, run: seq<Action>)
    requires ValidRun(s, run)
    ensures s.accepted <= Final(s, run).accepted && s.started <= Final(s, run).started
    ensures s.finished <= Final(s, run).finished
    ensures s.stop ==> Final(s, run).stop && Final(s, run).accepted == s.accepted
  {
    if run != [] {
      var prefix := run[..|run| - 1];
      LogsGrow(s, prefix);
      StepGrows(Final(s, prefix), run[|run| - 1]);
    }
  }

  /**
   When a client's `wait()` returns, every task accepted before the call, and
   indeed every task accepted so far, has finished.
   */
  lemma WaitReturnsFinished(workers: nat, clients: nat, before: seq<Action>, during: seq<Action>, c: nat)
    requires ValidRun(Initial(workers, clients), before)
    requires ValidRun(Final(Initial(workers, clients), before), during)
    requires c < |Final(Final(Initial(workers, clients), before), during).clients|
    requires Final(Final(Initial(workers, clients), before), during).clients[c].WaitSatisfied?
    ensures var called := Final(Initial(workers, clients), before);
      var s := Final(called, during);
      && AllFinished(s)
      && (forall t: nat :: t < |called.accepted| ==> t in s.finished)
  {
    var called := Final(Initial(workers, clients), before);
    InvAlways(workers, clients, before);
    InvFrom(called, during);
    LogsGrow(called, during);
  }

  lemma {:induction false} InvFrom(s: State, run: seq<Action>)
    requires Inv(s) && ValidRun(s, run)
    ensures Inv(Final(s, run))
  {
    if run != [] {
      var prefix := run[..|run| - 1];
      InvFrom(s, prefix);
      InvKept(Final(s, prefix), run[|run| - 1]);
    }
  }

  // ----- stop -----

  /** An upper bound on the steps a worker still takes before the queue gives it another task. */
  function Rank(p: WorkerPhase): nat {
    match p
    case Exited => 0
    case Testing => 1
    case Contending => 2
    case Asleep => 3
    case Signalling => 3
    case SawEmpty => 4
    case Decremented => 5
    case Returned => 6
    case Caught => 7
    case Running(_) => 8
    case Counted(_) => 9
    case Popped(_) => 10
  }

  function Ranks(ws: seq<WorkerPhase>): nat {
    if ws == [] then 0 else Ranks(ws[..|ws| - 1]) + Rank(ws[|ws| - 1])
  }

  lemma {:induction false} RanksUpdate(ws: seq<WorkerPhase>, w: nat, p: WorkerPhase)
    requires w < |ws|
    ensures Ranks(ws[w := p]) == Ranks(ws) - Rank(ws[w]) + Rank(p)
  {
    var n := |ws| - 1;
    if w == n {
      assert ws[w := p][..n] == ws[..n];
    } else {
      assert ws[w := p][..n] == ws[..n][w := p];
      RanksUpdate(ws[..n], w, p);
    }
  }

  lemma {:induction false} RanksBelow(ws: seq<WorkerPhase>, vs: seq<WorkerPhase>)
    requires |ws| == |vs|
    requires forall w :: 0 <= w < |ws| ==> Rank(vs[w]) <= Rank(ws[w])
    ensures Ranks(vs) <= Ranks(ws) <= 10 * |ws|
  {
    if ws != [] { RanksBelow(ws[..|ws| - 1], vs[..|vs| - 1]); }
  }

  /** Queue length and worker phases, weighted so that taking a task goes down. */
  function Work(s: State): nat {
    10 * |s.tasks| + Ranks(s.workers)
  }

  lemma WorkerRank(s: State, w: nat)
    requires s.stop && Enabled(s, Worker(w))
    ensures var n := WorkerNext(s, w);
      && n.workers == s.workers[w := n.workers[w]]
      && 10 * |n.tasks| + Rank(n.workers[w]) < 10 * |s.tasks| + Rank(s.workers[w])
  {
  }

  /** Once `stop_` is set, every step of every worker makes `Work` smaller and no other step makes it larger. */
  lemma WorkDecreases(s: State, a: Action)
    requires s.stop && MutualExclusion(s) && Enabled(s, a)
    ensures Work(Next(s, a)) + Indicator(a.Worker?) <= Work(s)
  {
    match a
    case Worker(w) =>
      WorkerRank(s, w);
      RanksUpdate(s.workers, w, WorkerNext(s, w).workers[w]);
    case SpuriousWorker(w) => RanksUpdate(s.workers, w, Contending);
    case Client(c, k) =>
      ClientEffect(s, c, k);
      RanksBelow(s.workers, ClientNext(s, c, k).workers);
    case _ =>
  }

  predicate IsWorkerStep(a: Action) { a.Worker? }

  /** After `stop_`, nothing more is accepted and the workers take at most `Work` steps, whatever the schedule. */
  lemma {:induction false} StopBoundsWork(s: State, run: seq<Action>)
    requires Inv(s) && s.stop && ValidRun(s, run)
    ensures Final(s, run).accepted == s.accepted && Final(s, run).stop
    ensures Count(run, IsWorkerStep) + Work(Final(s, run)) <= Work(s) <= 10 * (|s.tasks| + |s.workers|)
  {
    RanksBelow(s.workers, s.workers);
    if run != [] {
      var prefix := run[..|run| - 1];
      StopBoundsWork(s, prefix);
      InvFrom(s, prefix);
      StepGrows(Final(s, prefix), run[|run| - 1]);
      WorkDecreases(Final(s, prefix), run[|run| - 1]);
    }
  }

  /** Once `stop_` is set and nobody sleeps, nobody falls asleep again. */
  lemma NobodySleepsNext(s: State, a: Action)
    requires Enabled(s, a) && s.stop && !SomeAsleep(s)
    ensures Next(s, a).stop && !SomeAsleep(Next(s, a))
  {
    match a
    case Worker(w) => assert !s.workers[w].Asleep?;
    case _ =>
  }

  lemma {:induction false} NobodySleepsAgain(s: State, run: seq<Action>)
    requires s.stop && !SomeAsleep(s) && ValidRun(s, run)
    ensures Final(s, run).stop && !SomeAsleep(Final(s, run))
  {
    if run != [] {
      NobodySleepsAgain(s, run[..|run| - 1]);
      NobodySleepsNext(Final(s, run[..|run| - 1]), run[|run| - 1]);
    }
  }

  /** Whoever has called `notify_all` in `stop()` has left nobody asleep. */
  ghost predicate JoinersWokeAll(s: State) {
    (exists c :: 0 <= c < |s.clients| && s.clients[c].Joining?) ==> s.stop && !SomeAsleep(s)
  }

  lemma JoinersWokeAllKept(s: State, a: Action)
    requires Enabled(s, a) && Inv(s) && JoinersWokeAll(s)
    ensures JoinersWokeAll(Next(s, a))
  {
    if exists c :: 0 <= c < |s.clients| && s.clients[c].Joining? {
      NobodySleepsNext(s, a);
    } else if a.Client? {
      NewJoinerWokeAll(s, a.c, a.wakes);
    }
  }

  lemma NewJoinerWokeAll(s: State, c: nat, k: nat)
    requires Enabled(s, Client(c, k)) && MutualExclusion(s) && StopDrains(s)
    requires forall d :: 0 <= d < |s.clients| ==> !s.clients[d].Joining?
    ensures JoinersWokeAll(ClientNext(s, c, k))
  {
    ClientEffect(s, c, k);
    ClientWakeups(s, c, k);
    var n := ClientNext(s, c, k);
    assert n.clients[c].Joining? ==> s.clients[c].StopOwes? && OwesAll(s.clients[c]);
    assert forall d :: 0 <= d < |n.clients| && d != c ==> n.clients[d] == s.clients[d];
  }

  /**
   From the moment a `stop()` has called `notify_all`, whatever the schedule and whoever
   else calls `stop()`, no worker sleeps and none can fall asleep.
   */
  lemma StopWakesForGood(workers: nat, clients: nat, before: seq<Action>, c: nat, after: seq<Action>)
    requires ValidRun(Initial(workers, clients), before)
    requires c < |Final(Initial(workers, clients), before).clients|
    requires Final(Initial(workers, clients), before).clients[c].Joining?
    requires ValidRun(Final(Initial(workers, clients), before), after)
    ensures !SomeAsleep(Final(Final(Initial(workers, clients), before), after))
  {
    JoinersAlwaysWokeAll(workers, clients, before);
    NobodySleepsAgain(Final(Initial(workers, clients), before), after);
  }

  lemma {:induction false} JoinersAlwaysWokeAll(workers: nat, clients: nat, run: seq<Action>)
    requires ValidRun(Initial(workers, clients), run)
    ensures JoinersWokeAll(Final(Initial(workers, clients), run))
  {
    if run != [] {
      var prefix := run[..|run| - 1];
      JoinersAlwaysWokeAll(workers, clients, prefix);
      InvAlways(workers, clients, prefix);
      JoinersWokeAllKept(Final(Initial(workers, clients), prefix), run[|run| - 1]);
    }
  }

  /** A step that brings the end nearer: a worker's, or one of a client that holds the mutex or owes a `notify_all`. */
  predicate Advances(s: State, a: Action) {
    a.Worker? ||
    (a.Client? && a.c < |s.clients| && (s.holder == HeldByClient(a.c) || OwesAll(s.clients[a.c])))
  }

  /** After `stop_` is set, until the last worker has left, somebody can take such a step. */
  lemma StopNeverBlocks(s: State)
    requires Inv(s) && s.stop && !AllExited(s)
    ensures exists a :: Enabled(s, a) && Advances(s, a)
  {
    match s.holder
    case HeldByWorker(w) => assert Enabled(s, Worker(w)) && Advances(s, Worker(w));
    case HeldByClient(c) =>
      assert Enabled(s, Client(c, 0)) && Advances(s, Client(c, 0));
    case Free =>
      if w: nat :| w < |s.workers| && !s.workers[w].Exited? && !s.workers[w].Asleep? {
        assert Enabled(s, Worker(w)) && Advances(s, Worker(w));
      } else {
        assert SomeAsleep(s);
        var c :| 0 <= c < |s.clients| && OwesAll(s.clients[c]);
        assert Enabled(s, Client(c, 0)) && Advances(s, Client(c, 0));
      }
  }

  /** When `stop()` has joined the workers, every accepted task has finished. */
  lemma StopFinishesEverything(workers: nat, clients: nat, run: seq<Action>)
    requires workers >= 1 && ValidRun(Initial(workers, clients), run)
    requires AllExited(Final(Initial(workers, clients), run))
    ensures var s := Final(Initial(workers, clients), run);
      s.stop && s.tasks == [] && s.active == 0 && AllFinished(s)
  {
    var s := Final(Initial(workers, clients), run);
    InvAlways(workers, clients, run);
    ThreadsStay(Initial(workers, clients), run);
    assert s.workers[0].Exited?;
    CountConstant(s.workers, IsActive, false);
    QuiescentIsFinished(s);
  }
}
