/**
 What each call of the work queue does: from any state in which it can run undisturbed,
 and, for `enqueue`, along every interleaving.
 */
module ThreadPoolCalls {
  import opened ThreadPoolModel
  import opened ThreadPoolDrain
  import opened ThreadPoolWait

  // ----- enqueue -----

  /** The test of `stop_` decides: the task is pushed and accepted exactly if it is not set. */
  lemma EnqueueVerdict(s: State, c: nat, k: nat)
    requires Enabled(s, Client(c, k)) && s.clients[c].EnqueueTesting?
    ensures var n, t := ClientNext(s, c, k), s.clients[c].task;
      if s.stop then n == s.(clients := s.clients[c := Outside], holder := Free)
      else n == s.(clients := s.clients[c := EnqueuePushed], tasks := s.tasks + [t], accepted := s.accepted + [t])
  {
  }

  /** The task was accepted after the first `from` tasks. */
  predicate AcceptedSince(s: State, from: nat, t: Task) { from <= |s.accepted| && t in s.accepted[from..] }

  /** Where an `enqueue` of `t`, called when `from` tasks had been accepted, can be. */
  ghost predicate Enqueues(s: State, c: nat, t: Task, from: nat) {
    && c < |s.clients|
    && match s.clients[c]
       case EnqueueContending(u) => u == t
       case EnqueueTesting(u) => u == t
       case EnqueuePushed => AcceptedSince(s, from, t)
       case EnqueueOwes => AcceptedSince(s, from, t)
       case Outside => AcceptedSince(s, from, t) || s.stop
       case _ => false
  }

  predicate IsCallOf(a: Action, c: nat) { a.Call? && a.c == c }

  lemma AcceptedStays(s: State, a: Action, from: nat, t: Task)
    requires Enabled(s, a) && AcceptedSince(s, from, t)
    ensures AcceptedSince(Next(s, a), from, t)
  {
    StepGrows(s, a);
    var n := Next(s, a);
    assert n.accepted[from..][..|s.accepted| - from] == s.accepted[from..];
  }

  lemma EnqueueGoesOn(s: State, a: Action, c: nat, t: Task, from: nat)
    requires Enabled(s, a) && Enqueues(s, c, t, from) && from <= |s.accepted| && !IsCallOf(a, c)
    ensures Enqueues(Next(s, a), c, t, from)
  {
    StepGrows(s, a);
    if AcceptedSince(s, from, t) { AcceptedStays(s, a, from, t); }
    if a.Client? && a.c == c && s.clients[c].EnqueueTesting? {
      EnqueueVerdict(s, c, a.wakes);
      if !s.stop {
        assert (s.accepted + [t])[from..] == s.accepted[from..] + [t];
      }
    } else if !(a.Client? && a.c == c) {
      OthersLeaveEnqueue(s, a, c);
    }
  }

  /** Nobody else moves a client out of `enqueue`, or into anything while it is outside. */
  lemma OthersLeaveEnqueue(s: State, a: Action, c: nat)
    requires Enabled(s, a) && c < |s.clients| && !s.clients[c].WaitAsleep?
    requires !IsCallOf(a, c) && !(a.Client? && a.c == c)
    ensures Next(s, a).clients[c] == s.clients[c]
  {
    StepGrows(s, a);
  }

  predicate NoCallOf(run: seq<Action>, c: nat) { forall i :: 0 <= i < |run| ==> !IsCallOf(run[i], c) }

  lemma {:induction false} EnqueueAlongRun(s: State, c: nat, t: Task, run: seq<Action>)
    requires c < |s.clients| && s.clients[c] == EnqueueContending(t) && ValidRun(s, run) && NoCallOf(run, c)
    ensures Enqueues(Final(s, run), c, t, |s.accepted|)
  {
    if run != [] {
      var prefix := run[..|run| - 1];
      EnqueueAlongRun(s, c, t, prefix);
      LogsGrow(s, prefix);
      EnqueueGoesOn(Final(s, prefix), run[|run| - 1], c, t, |s.accepted|);
    }
  }

  /** Along every interleaving, an `enqueue` that has ended has had its task accepted, unless `stop_` was set. */
  lemma EnqueueAcceptsOrStopped(s: State, c: nat, t: Task, run: seq<Action>)
    requires c < |s.clients| && s.clients[c] == EnqueueContending(t) && ValidRun(s, run) && NoCallOf(run, c)
    ensures var n := Final(s, run);
      |n.clients| == |s.clients| && (n.clients[c].Outside? ==> AcceptedSince(n, |s.accepted|, t) || n.stop)
  {
    ThreadsStay(s, run);
    EnqueueAlongRun(s, c, t, run);
  }

  /** A call of a client that nobody disturbs: it takes the mutex if it is free, and `n` is where it leaves the pool. */
  predicate Undisturbed(s: State, c: nat) {
    c < |s.clients| && s.clients[c].Outside? && s.holder.Free?
  }

  /** `enqueue` on a running pool: the task goes to the end of the queue and one sleeping worker is woken. */
  lemma EnqueueAlone(s: State, c: nat, t: Task, k: nat) returns (run: seq<Action>)
    requires Undisturbed(s, c) && !s.stop
    requires SomeAsleep(s) ==> k < |s.workers| && s.workers[k].Asleep?
    ensures ValidRun(s, run)
    ensures Final(s, run) == s.(tasks := s.tasks + [t], accepted := s.accepted + [t],
                                workers := if SomeAsleep(s) then s.workers[k := Contending] else s.workers)
  {
    var p := s.(tasks := s.tasks + [t], accepted := s.accepted + [t]);
    run := EnqueueTested(s, c, t);
    run := Then(s, run, Client(c, k), p.(clients := s.clients[c := EnqueuePushed], holder := HeldByClient(c)));
    run := Then(s, run, Client(c, k), p.(clients := s.clients[c := EnqueueOwes]));
    var q := p.(workers := if SomeAsleep(s) then s.workers[k := Contending] else s.workers);
    assert s.clients[c := Outside] == s.clients;
    run := Then(s, run, Client(c, k), q);
  }

  lemma EnqueueTested(s: State, c: nat, t: Task) returns (run: seq<Action>)
    requires Undisturbed(s, c)
    ensures ValidRun(s, run)
    ensures Final(s, run) == s.(clients := s.clients[c := EnqueueTesting(t)], holder := HeldByClient(c))
  {
    run := Then(s, [], Call(c, Enqueue(t)), s.(clients := s.clients[c := EnqueueContending(t)]));
    run := Then(s, run, Client(c, 0), s.(clients := s.clients[c := EnqueueTesting(t)], holder := HeldByClient(c)));
  }

  /** `enqueue` on a stopped pool changes nothing. */
  lemma EnqueueRefused(s: State, c: nat, t: Task) returns (run: seq<Action>)
    requires Undisturbed(s, c) && s.stop
    ensures ValidRun(s, run) && Final(s, run) == s
  {
    run := EnqueueTested(s, c, t);
    assert s.clients[c := Outside] == s.clients;
    run := Then(s, run, Client(c, 0), s);
  }

  // ----- wait -----

  lemma WaitTested(s: State, c: nat) returns (run: seq<Action>)
    requires Undisturbed(s, c)
    ensures ValidRun(s, run)
    ensures Final(s, run) == s.(clients := s.clients[c := WaitTesting], holder := HeldByClient(c))
  {
    run := Then(s, [], Call(c, Wait), s.(clients := s.clients[c := WaitContending]));
    run := Then(s, run, Client(c, 0), s.(clients := s.clients[c := WaitTesting], holder := HeldByClient(c)));
  }

  /** `wait` over an empty queue without active tasks returns at once. */
  lemma WaitReturns(s: State, c: nat) returns (run: seq<Action>)
    requires Undisturbed(s, c) && s.tasks == [] && s.active == 0
    ensures ValidRun(s, run) && Final(s, run) == s
  {
    run := WaitTested(s, c);
    run := Then(s, run, Client(c, 0), s.(clients := s.clients[c := WaitSawEmpty], holder := HeldByClient(c)));
    run := Then(s, run, Client(c, 0), s.(clients := s.clients[c := WaitSatisfied], holder := HeldByClient(c)));
    assert s.clients[c := Outside] == s.clients;
    run := Then(s, run, Client(c, 0), s);
  }

  /** `wait` while there is work goes to sleep and releases the mutex. */
  lemma WaitSleeps(s: State, c: nat) returns (run: seq<Action>)
    requires Undisturbed(s, c) && (s.tasks != [] || s.active != 0)
    ensures ValidRun(s, run) && Final(s, run) == s.(clients := s.clients[c := WaitAsleep])
  {
    run := WaitTested(s, c);
    if s.tasks == [] {
      run := Then(s, run, Client(c, 0), s.(clients := s.clients[c := WaitSawEmpty], holder := HeldByClient(c)));
    }
    run := Then(s, run, Client(c, 0), s.(clients := s.clients[c := WaitMustSleep], holder := HeldByClient(c)));
    run := Then(s, run, Client(c, 0), s.(clients := s.clients[c := WaitAsleep]));
  }

  // ----- stop -----

  lemma StopFlags(s: State, c: nat) returns (run: seq<Action>)
    requires Undisturbed(s, c)
    ensures ValidRun(s, run)
    ensures Final(s, run) == s.(stop := true, clients := s.clients[c := StopRaised], holder := HeldByClient(c))
  {
    run := Then(s, [], Call(c, Stop), s.(clients := s.clients[c := StopContending]));
    run := Then(s, run, Client(c, 0), s.(clients := s.clients[c := StopHolding], holder := HeldByClient(c)));
    run := Then(s, run, Client(c, 0),
                s.(stop := true, clients := s.clients[c := StopRaised], holder := HeldByClient(c)));
  }

  /** `stop` sets the flag, wakes every sleeping worker and waits for them. */
  lemma StopAlone(s: State, c: nat) returns (run: seq<Action>)
    requires Undisturbed(s, c)
    ensures ValidRun(s, run)
    ensures var n := Final(s, run);
      && n == s.(stop := true, clients := s.clients[c := Joining], workers := n.workers)
      && |n.workers| == |s.workers|
      && forall w :: 0 <= w < |s.workers| ==> n.workers[w] == if s.workers[w].Asleep? then Contending else s.workers[w]
  {
    run := StopFlags(s, c);
    var p := s.(stop := true);
    run := Then(s, run, Client(c, 0), p.(clients := s.clients[c := StopOwes]));
    run := Then(s, run, Client(c, 0), p.(clients := s.clients[c := Joining], workers := WakeWorkers(s.workers)));
  }

  /** `stop` returns as soon as all workers have left. */
  lemma StopReturns(s: State, c: nat)
    requires c < |s.clients| && s.clients[c].Joining?
    ensures Enabled(s, Client(c, 0)) <==> AllExited(s)
    ensures AllExited(s) ==> ClientNext(s, c, 0) == s.(clients := s.clients[c := Outside])
  {
  }

  // ----- the workers -----

  predicate AtTop(s: State, w: nat) { w < |s.workers| && s.workers[w].Contending? && s.holder.Free? }

  lemma WorkerTests(s: State, w: nat) returns (run: seq<Action>)
    requires AtTop(s, w)
    ensures ValidRun(s, run)
    ensures Final(s, run) == s.(workers := s.workers[w := Testing], holder := HeldByWorker(w))
  {
    run := Then(s, [], Worker(w), s.(workers := s.workers[w := Testing], holder := HeldByWorker(w)));
  }

  /** A worker over an empty queue sleeps, or leaves if the pool is stopped. */
  lemma WorkerIdles(s: State, w: nat) returns (run: seq<Action>)
    requires AtTop(s, w) && s.tasks == []
    ensures ValidRun(s, run)
    ensures Final(s, run) == s.(workers := s.workers[w := if s.stop then Exited else Asleep])
  {
    run := WorkerTests(s, w);
    run := Then(s, run, Worker(w), s.(workers := s.workers[w := if s.stop then Exited else Asleep]));
  }

  lemma WorkerTakes(s: State, w: nat) returns (run: seq<Action>)
    requires AtTop(s, w) && s.tasks != []
    ensures ValidRun(s, run)
    ensures Final(s, run) == s.(workers := s.workers[w := Popped(|s.started|)], holder := HeldByWorker(w),
                                tasks := s.tasks[1..], started := s.started + [s.tasks[0]])
  {
    run := WorkerTests(s, w);
    run := Then(s, run, Worker(w), s.(workers := s.workers[w := Popped(|s.started|)], holder := HeldByWorker(w),
                                      tasks := s.tasks[1..], started := s.started + [s.tasks[0]]));
  }

  lemma WorkerStarts(s: State, w: nat) returns (run: seq<Action>)
    requires AtTop(s, w) && s.tasks != []
    ensures ValidRun(s, run)
    ensures Final(s, run) == s.(workers := s.workers[w := Running(|s.started|)], active := s.active + 1,
                                tasks := s.tasks[1..], started := s.started + [s.tasks[0]])
  {
    run := WorkerTakes(s, w);
    var p := s.(active := s.active + 1, tasks := s.tasks[1..], started := s.started + [s.tasks[0]]);
    run := Then(s, run, Worker(w), p.(workers := s.workers[w := Counted(|s.started|)], holder := HeldByWorker(w)));
    run := Then(s, run, Worker(w), p.(workers := s.workers[w := Running(|s.started|)]));
  }

  /** A worker over a non-empty queue, stopped or not, runs the task at its front to the end, even if it throws. */
  lemma WorkerRunsFront(s: State, w: nat) returns (run: seq<Action>)
    requires AtTop(s, w) && s.tasks != []
    ensures ValidRun(s, run)
    ensures Final(s, run) == s.(workers := s.workers[w := Decremented], tasks := s.tasks[1..],
                                started := s.started + [s.tasks[0]], finished := s.finished + {|s.started|})
  {
    run := WorkerStarts(s, w);
    var p := s.(tasks := s.tasks[1..], started := s.started + [s.tasks[0]], finished := s.finished + {|s.started|});
    if s.tasks[0].throws {
      run := Then(s, run, Worker(w), p.(workers := s.workers[w := Caught], active := s.active + 1));
    }
    run := Then(s, run, Worker(w), p.(workers := s.workers[w := Returned], active := s.active + 1));
    run := Then(s, run, Worker(w), p.(workers := s.workers[w := Decremented]));
  }

  /** After a task a worker wakes all sleeping waiters exactly if it sees the queue empty and nobody active. */
  lemma WorkerSignals(s: State, w: nat) returns (run: seq<Action>)
    requires w < |s.workers| && s.workers[w].Decremented?
    ensures ValidRun(s, run)
    ensures var n := Final(s, run);
      && n == s.(workers := s.workers[w := Contending], clients := n.clients) && |n.clients| == |s.clients|
      && forall c :: 0 <= c < |s.clients| ==>
           n.clients[c]
             == if s.tasks == [] && s.active == 0 && s.clients[c].WaitAsleep? then WaitContending else s.clients[c]
  {
    if s.tasks != [] {
      run := Then(s, [], Worker(w), s.(workers := s.workers[w := Contending]));
    } else {
      run := Then(s, [], Worker(w), s.(workers := s.workers[w := SawEmpty]));
      if s.active == 0 {
        run := Then(s, run, Worker(w), s.(workers := s.workers[w := Signalling]));
        run := Then(s, run, Worker(w), s.(workers := s.workers[w := Contending], clients := WakeWaiters(s.clients)));
      } else {
        run := Then(s, run, Worker(w), s.(workers := s.workers[w := Contending]));
      }
    }
  }
}
