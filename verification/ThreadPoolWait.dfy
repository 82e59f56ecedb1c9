/**
 Can a client sleep in `wait()` over a finished queue?  A worker decrements
 `active_tasks_` and signals without the mutex, so the answer is yes exactly
 through one window, shown here by a run and shown to be the only one.
 */
module ThreadPoolWait {
  import opened ThreadPoolModel
  import opened ThreadPoolSafety

  /** A worker that has not yet decided whether to signal `done_cv_`. */
  predicate MaySignal(p: WorkerPhase) {
    p.Popped? || p.Decremented? || p.SawEmpty? || p.Signalling?
  }

  /** Nobody sleeps in `wait` over a finished queue unless a signal is on its way. */
  ghost predicate WaitersWillHear(s: State) {
    s.tasks == [] && s.active == 0 && (exists c :: 0 <= c < |s.clients| && s.clients[c].WaitAsleep?) ==>
      exists w :: 0 <= w < |s.workers| && MaySignal(s.workers[w])
  }

  /** The window: a waiter has found work in progress, and goes to sleep after that work has ended unseen. */
  predicate FallsAsleepLate(s: State, a: Action) {
    && a.Client? && a.c < |s.clients| && s.clients[a.c].WaitMustSleep?
    && s.tasks == [] && s.active == 0
    && (forall w :: 0 <= w < |s.workers| ==> !MaySignal(s.workers[w]))
  }

  lemma WorkerKeepsHearing(s: State, w: nat)
    requires Enabled(s, Worker(w)) && WaitersWillHear(s) && s.active >= 0
    ensures WaitersWillHear(WorkerNext(s, w))
  {
    var n := WorkerNext(s, w);
    if n.tasks == [] && n.active == 0 && exists c :: 0 <= c < |n.clients| && n.clients[c].WaitAsleep? {
      var c :| 0 <= c < |n.clients| && n.clients[c].WaitAsleep?;
      assert s.clients[c].WaitAsleep?;
      if s.tasks == [] && s.active == 0 {
        var v :| 0 <= v < |s.workers| && MaySignal(s.workers[v]);
        assert MaySignal(n.workers[v]);
      } else {
        assert MaySignal(n.workers[w]);
      }
    }
  }

  lemma ClientHearing(s: State, c: nat, k: nat)
    requires Enabled(s, Client(c, k))
    ensures var n := ClientNext(s, c, k);
      && n.active == s.active && (n.tasks == [] ==> s.tasks == [])
      && |n.clients| == |s.clients| && n.clients == s.clients[c := n.clients[c]]
      && |n.workers| == |s.workers|
      && (forall w :: 0 <= w < |s.workers| ==> MaySignal(n.workers[w]) == MaySignal(s.workers[w]))
      && (n.clients[c].WaitAsleep? <==> s.clients[c].WaitMustSleep?)
      && (s.clients[c].WaitMustSleep? ==> n.tasks == s.tasks)
  {
  }

  /** A step strands the waiters exactly when it goes through the window. */
  lemma OnlyWindowStrands(s: State, a: Action)
    requires Enabled(s, a) && WaitersWillHear(s) && s.active >= 0
    ensures WaitersWillHear(Next(s, a)) <==> !FallsAsleepLate(s, a)
  {
    match a
    case Worker(w) => WorkerKeepsHearing(s, w);
    case Client(c, k) =>
      var n := ClientNext(s, c, k);
      ClientHearing(s, c, k);
      if FallsAsleepLate(s, a) {
        assert n.clients[c].WaitAsleep?;
      } else if n.tasks == [] && n.active == 0 && exists d :: 0 <= d < |n.clients| && n.clients[d].WaitAsleep? {
        var w :| 0 <= w < |s.workers| && MaySignal(s.workers[w]);
        assert MaySignal(n.workers[w]);
      }
    case _ => OthersKeepHearing(s, a);
  }

  lemma OthersKeepHearing(s: State, a: Action)
    requires Enabled(s, a) && WaitersWillHear(s) && !a.Worker? && !a.Client?
    ensures WaitersWillHear(Next(s, a))
  {
    var n := Next(s, a);
    if n.tasks == [] && n.active == 0 && exists d :: 0 <= d < |n.clients| && n.clients[d].WaitAsleep? {
      var d :| 0 <= d < |n.clients| && n.clients[d].WaitAsleep?;
      assert s.clients[d].WaitAsleep?;
      var w :| 0 <= w < |s.workers| && MaySignal(s.workers[w]);
      assert MaySignal(n.workers[w]);
    }
  }

  /** No step of `run` goes through the window. */
  ghost predicate AvoidsWindow(s: State, run: seq<Action>)
    requires ValidRun(s, run)
  {
    run != [] ==>
      && AvoidsWindow(s, run[..|run| - 1])
      && !FallsAsleepLate(Final(s, run[..|run| - 1]), run[|run| - 1])
  }

  /** At every moment of `run`, a waiter over a finished queue will be signalled. */
  ghost predicate HearThroughout(s: State, run: seq<Action>)
    requires ValidRun(s, run)
  {
    WaitersWillHear(Final(s, run)) && (run != [] ==> HearThroughout(s, run[..|run| - 1]))
  }

  /** The runs at every moment of which the waiters will hear are exactly those that avoid the window. */
  lemma {:induction false} WaitersHear(workers: nat, clients: nat, run: seq<Action>)
    requires ValidRun(Initial(workers, clients), run)
    ensures HearThroughout(Initial(workers, clients), run) <==> AvoidsWindow(Initial(workers, clients), run)
  {
    if run != [] {
      var prefix := run[..|run| - 1];
      WaitersHear(workers, clients, prefix);
      if HearThroughout(Initial(workers, clients), prefix) {
        InvAlways(workers, clients, prefix);
        OnlyWindowStrands(Final(Initial(workers, clients), prefix), run[|run| - 1]);
      }
    }
  }

  /** Every thread is blocked for good, up to spurious wake-ups and new calls. */
  ghost predicate Stuck(s: State) {
    forall a :: Enabled(s, a) ==> a.SpuriousWorker? || a.SpuriousClient? || a.Call?
  }

  /** One worker has run the one task it was given and is about to decrement `active_tasks_`. */
  function TaskJustReturned(task: Task): State {
    State([], 1, false, Free, [Returned], [Outside], [task], [task], {0})
  }

  lemma ReachTaskPushed(task: Task) returns (run: seq<Action>)
    ensures ValidRun(Initial(1, 1), run)
    ensures Final(Initial(1, 1), run)
         == State([task], 0, false, HeldByClient(0), [Contending], [EnqueuePushed], [task], [], {})
  {
    var s0 := Initial(1, 1);
    var s1 := s0.(clients := [EnqueueContending(task)]);
    run := Then(s0, [], Call(0, Enqueue(task)), s1);
    run := Then(s0, run, Client(0, 0), s1.(clients := [EnqueueTesting(task)], holder := HeldByClient(0)));
    run := Then(s0, run, Client(0, 0),
                State([task], 0, false, HeldByClient(0), [Contending], [EnqueuePushed], [task], [], {}));
  }

  lemma ReachTaskQueued(task: Task) returns (run: seq<Action>)
    ensures ValidRun(Initial(1, 1), run)
    ensures Final(Initial(1, 1), run) == State([task], 0, false, Free, [Contending], [Outside], [task], [], {})
  {
    var s0 := Initial(1, 1);
    run := ReachTaskPushed(task);
    var s1 := State([task], 0, false, Free, [Contending], [Outside], [task], [], {});
    run := Then(s0, run, Client(0, 0), s1.(clients := [EnqueueOwes]));
    run := Then(s0, run, Client(0, 0), s1);
  }

  lemma ReachTaskTaken(task: Task) returns (run: seq<Action>)
    ensures ValidRun(Initial(1, 1), run)
    ensures Final(Initial(1, 1), run)
         == State([], 0, false, HeldByWorker(0), [Popped(0)], [Outside], [task], [task], {})
  {
    var s0 := Initial(1, 1);
    run := ReachTaskQueued(task);
    run := Then(s0, run, Worker(0), State([task], 0, false, HeldByWorker(0), [Testing], [Outside], [task], [], {}));
    run := Then(s0, run, Worker(0), State([], 0, false, HeldByWorker(0), [Popped(0)], [Outside], [task], [task], {}));
  }

  lemma ReachTaskRunning(task: Task) returns (run: seq<Action>)
    ensures ValidRun(Initial(1, 1), run)
    ensures Final(Initial(1, 1), run) == State([], 1, false, Free, [Running(0)], [Outside], [task], [task], {})
  {
    var s0 := Initial(1, 1);
    run := ReachTaskTaken(task);
    run := Then(s0, run, Worker(0), State([], 1, false, HeldByWorker(0), [Counted(0)], [Outside], [task], [task], {}));
    run := Then(s0, run, Worker(0), State([], 1, false, Free, [Running(0)], [Outside], [task], [task], {}));
  }

  lemma ReachTaskReturned(task: Task) returns (run: seq<Action>)
    ensures ValidRun(Initial(1, 1), run)
    ensures Final(Initial(1, 1), run) == TaskJustReturned(task)
  {
    var s0 := Initial(1, 1);
    run := ReachTaskRunning(task);
    if task.throws {
      run := Then(s0, run, Worker(0), TaskJustReturned(task).(workers := [Caught]));
    }
    run := Then(s0, run, Worker(0), TaskJustReturned(task));
  }

  lemma ReachWaiterDecided(task: Task) returns (run: seq<Action>)
    ensures ValidRun(Initial(1, 1), run)
    ensures Final(Initial(1, 1), run)
         == TaskJustReturned(task).(holder := HeldByClient(0), clients := [WaitMustSleep])
  {
    var s0 := Initial(1, 1);
    run := ReachTaskReturned(task);
    var s1 := TaskJustReturned(task).(holder := HeldByClient(0));
    run := Then(s0, run, Call(0, Wait), s1.(holder := Free, clients := [WaitContending]));
    run := Then(s0, run, Client(0, 0), s1.(clients := [WaitTesting]));
    run := Then(s0, run, Client(0, 0), s1.(clients := [WaitSawEmpty]));
    run := Then(s0, run, Client(0, 0), s1.(clients := [WaitMustSleep]));
  }

  lemma ReachSignalling(task: Task) returns (run: seq<Action>)
    ensures ValidRun(Initial(1, 1), run)
    ensures Final(Initial(1, 1), run)
         == State([], 0, false, HeldByClient(0), [Signalling], [WaitMustSleep], [task], [task], {0})
  {
    var s0 := Initial(1, 1);
    run := ReachWaiterDecided(task);
    var s1 := State([], 0, false, HeldByClient(0), [Signalling], [WaitMustSleep], [task], [task], {0});
    run := Then(s0, run, Worker(0), s1.(workers := [Decremented]));
    run := Then(s0, run, Worker(0), s1.(workers := [SawEmpty]));
    run := Then(s0, run, Worker(0), s1);
  }

  lemma ReachSignalMissed(task: Task) returns (run: seq<Action>)
    ensures ValidRun(Initial(1, 1), run)
    ensures Final(Initial(1, 1), run)
         == State([], 0, false, HeldByClient(0), [Contending], [WaitMustSleep], [task], [task], {0})
  {
    var s0 := Initial(1, 1);
    run := ReachSignalling(task);
    var s1 := State([], 0, false, HeldByClient(0), [Contending], [WaitMustSleep], [task], [task], {0});
    run := Then(s0, run, Worker(0), s1);
  }

  /**
   The window is real: one worker, one client, one task.  The client enqueues and
   waits; the task ends between its test of `active_tasks_` and its sleep.
   */
  lemma LostDoneSignal(task: Task) returns (run: seq<Action>)
    ensures ValidRun(Initial(1, 1), run)
    ensures var s := Final(Initial(1, 1), run);
      && s.clients == [WaitAsleep] && s.workers == [Asleep]
      && s.tasks == [] && s.active == 0 && s.finished == {0} && s.accepted == [task]
      && Stuck(s)
  {
    var s0 := Initial(1, 1);
    run := ReachSignalMissed(task);
    var s2 := State([], 0, false, Free, [Asleep], [WaitAsleep], [task], [task], {0});
    run := Then(s0, run, Client(0, 0), s2.(workers := [Contending]));
    run := Then(s0, run, Worker(0), s2.(workers := [Testing], holder := HeldByWorker(0)));
    run := Then(s0, run, Worker(0), s2);
  }

  /** Appends one action to a run, given the state it leads to. */
  lemma Then(s: State, run: seq<Action>, a: Action, n: State) returns (longer: seq<Action>)
    requires ValidRun(s, run) && Enabled(Final(s, run), a) && Next(Final(s, run), a) == n
    ensures longer == run + [a] && ValidRun(s, longer) && Final(s, longer) == n
  {
    longer := run + [a];
    RunExtend(s, run, a);
  }
}
