/**
 What every reachable state of the work queue satisfies, for any number of
 workers and clients and any interleaving of their steps.
 */
module ThreadPoolSafety {
  import opened Sequences
  import opened ThreadPoolModel

  /** The mutex is held by exactly the thread whose phase says so. */
  ghost predicate MutualExclusion(s: State) {
    && (s.holder.HeldByWorker? ==> s.holder.w < |s.workers|)
    && (s.holder.HeldByClient? ==> s.holder.c < |s.clients|)
    && (forall w :: 0 <= w < |s.workers| ==> (WorkerHolds(s.workers[w]) <==> s.holder == HeldByWorker(w)))
    && (forall c :: 0 <= c < |s.clients| ==> (ClientHolds(s.clients[c]) <==> s.holder == HeldByClient(c)))
  }

  ghost predicate HeldBySome(s: State, t: nat) {
    exists w :: 0 <= w < |s.workers| && HoldsTask(s.workers[w]) && s.workers[w].ticket == t
  }

  /** Accepted tasks are started in order, each once, and a started task is finished or in one worker's hands. */
  ghost predicate ExactlyOnce(s: State) {
    && s.accepted == s.started + s.tasks
    && (forall t :: t in s.finished ==> 0 <= t < |s.started|)
    && (forall w :: 0 <= w < |s.workers| && HoldsTask(s.workers[w]) ==>
         s.workers[w].ticket < |s.started| && s.workers[w].ticket !in s.finished)
    && (forall v, w :: 0 <= v < w < |s.workers| && HoldsTask(s.workers[v]) && HoldsTask(s.workers[w]) ==>
         s.workers[v].ticket != s.workers[w].ticket)
    && (forall t: nat :: t < |s.started| ==> t in s.finished || HeldBySome(s, t))
  }

  ghost predicate ActiveCounted(s: State) {
    s.active == Count(s.workers, IsActive)
  }

  /**
   While some worker sleeps, every queued task has a worker on its way to the
   queue or a `notify_one` still to come, one for each task.
   */
  ghost predicate NoLostWakeup(s: State) {
    SomeAsleep(s) ==> |s.tasks| <= Count(s.workers, Seeking) + Count(s.clients, OwesOne)
  }

  /** Workers leave only after `stop_`, and only an empty queue; nobody sleeps once `notify_all` has run. */
  ghost predicate StopDrains(s: State) {
    && ((exists w :: 0 <= w < |s.workers| && s.workers[w].Exited?) ==> s.stop && s.tasks == [])
    && (s.stop && SomeAsleep(s) ==> exists c :: 0 <= c < |s.clients| && OwesAll(s.clients[c]))
    && (forall c :: 0 <= c < |s.clients| && OwesAll(s.clients[c]) ==> s.stop)
    && (forall c :: 0 <= c < |s.clients| && s.clients[c].Joining? ==> s.stop)
  }

  /** Every accepted task has finished. */
  predicate AllFinished(s: State) {
    forall t: nat :: t < |s.accepted| ==> t in s.finished
  }

  /** A client in `wait` that found the predicate true holds the mutex over a finished queue. */
  ghost predicate WaitIsSound(s: State) {
    forall c :: 0 <= c < |s.clients| ==>
      && (s.clients[c].WaitSawEmpty? ==> s.tasks == [])
      && (s.clients[c].WaitSatisfied? ==> AllFinished(s))
  }

  ghost predicate Inv(s: State) {
    MutualExclusion(s) && ExactlyOnce(s) && ActiveCounted(s) && NoLostWakeup(s) && StopDrains(s) && WaitIsSound(s)
  }

  lemma {:induction false} CountConstant<T>(xs: seq<T>, p: T -> bool, b: bool)
    requires forall i :: 0 <= i < |xs| ==> p(xs[i]) == b
    ensures Count(xs, p) == if b then |xs| else 0
  {
    if xs != [] { CountConstant(xs[..|xs| - 1], p, b); }
  }

  lemma InitialHolds(workers: nat, clients: nat)
    ensures Inv(Initial(workers, clients))
  {
    var s := Initial(workers, clients);
    CountConstant(s.workers, IsActive, false);
  }

  // ----- each part is kept by each step -----

  /** The mutex stays where it is, or `me` takes it while free, or `me` releases it. */
  predicate Passes(h: Holder, h': Holder, me: Holder) {
    h' == h || (h == Free && h' == me) || (h == me && h' == Free)
  }

  /** What a worker's step can change besides its own phase. */
  lemma WorkerEffect(s: State, w: nat)
    requires Enabled(s, Worker(w))
    requires WorkerHolds(s.workers[w]) <==> s.holder == HeldByWorker(w)
    ensures var n := WorkerNext(s, w);
      && |n.workers| == |s.workers| && n.workers == s.workers[w := n.workers[w]]
      && (n.clients == s.clients || n.clients == WakeWaiters(s.clients))
      && Passes(s.holder, n.holder, HeldByWorker(w))
      && (WorkerHolds(n.workers[w]) <==> n.holder == HeldByWorker(w))
      && n.active == s.active + Indicator(IsActive(n.workers[w])) - Indicator(IsActive(s.workers[w]))
      && n.accepted == s.accepted && n.stop == s.stop
      && (n.tasks == [] || |n.tasks| - Indicator(Seeking(n.workers[w])) <= |s.tasks| - Indicator(Seeking(s.workers[w])))
      && (n.workers[w].Asleep? ==> n.tasks == [] && !s.stop)
      && (n.workers[w].Exited? ==> n.tasks == [] && s.stop)
      && (s.tasks == [] ==> n.tasks == [])
  {
  }

  /** What a client's step can change besides its own phase. */
  lemma ClientEffect(s: State, c: nat, k: nat)
    requires Enabled(s, Client(c, k))
    requires ClientHolds(s.clients[c]) <==> s.holder == HeldByClient(c)
    ensures var n := ClientNext(s, c, k);
      && |n.clients| == |s.clients| && n.clients == s.clients[c := n.clients[c]]
      && |n.workers| == |s.workers|
      && (forall w :: 0 <= w < |s.workers| ==>
           n.workers[w] == s.workers[w] || (s.workers[w].Asleep? && n.workers[w].Contending?))
      && Passes(s.holder, n.holder, HeldByClient(c))
      && (ClientHolds(n.clients[c]) <==> n.holder == HeldByClient(c))
      && n.active == s.active && n.started == s.started && n.finished == s.finished
      && ((n.tasks == s.tasks && n.accepted == s.accepted)
          || exists t :: !s.stop && n.tasks == s.tasks + [t] && n.accepted == s.accepted + [t])
      && (n.clients[c].EnqueuePushed? ==> !s.stop)
      && (s.stop ==> n.stop && n.tasks == s.tasks)
      && (!s.stop && n.stop ==> OwesAll(n.clients[c]))
      && (OwesAll(n.clients[c]) || n.clients[c].Joining? ==> n.stop || OwesAll(s.clients[c]))
      && (OwesAll(s.clients[c]) ==> OwesAll(n.clients[c]) || !SomeAsleep(n))
  {
    if s.clients[c].EnqueueTesting? && !s.stop {
      var t := s.clients[c].task;
      assert ClientNext(s, c, k).tasks == s.tasks + [t];
    }
  }

  lemma MutualExclusionKept(s: State, a: Action)
    requires Enabled(s, a) && MutualExclusion(s)
    ensures MutualExclusion(Next(s, a))
  {
    match a
    case Worker(w) => WorkerMutex(s, w);
    case Client(c, k) => ClientMutex(s, c, k);
    case _ =>
  }

  lemma WorkerMutex(s: State, w: nat)
    requires Enabled(s, Worker(w)) && MutualExclusion(s)
    ensures MutualExclusion(WorkerNext(s, w))
  {
    WorkerEffect(s, w);
    var n := WorkerNext(s, w);
    assert forall c :: 0 <= c < |n.clients| ==> ClientHolds(n.clients[c]) == ClientHolds(s.clients[c]);
  }

  lemma ClientMutex(s: State, c: nat, k: nat)
    requires Enabled(s, Client(c, k)) && MutualExclusion(s)
    ensures MutualExclusion(ClientNext(s, c, k))
  {
    ClientEffect(s, c, k);
    var n := ClientNext(s, c, k);
    assert forall w :: 0 <= w < |n.workers| ==> WorkerHolds(n.workers[w]) == WorkerHolds(s.workers[w]);
  }

  /** Steps that neither take nor finish a task. */
  lemma SameHoldings(s: State, n: State)
    requires ExactlyOnce(s)
    requires n.started == s.started && n.finished == s.finished && n.accepted == n.started + n.tasks
    requires |n.workers| == |s.workers|
    requires forall w :: 0 <= w < |s.workers| ==>
      && HoldsTask(n.workers[w]) == HoldsTask(s.workers[w])
      && (HoldsTask(s.workers[w]) ==> n.workers[w].ticket == s.workers[w].ticket)
    ensures ExactlyOnce(n)
  {
    forall t: nat | t < |n.started| && t !in n.finished ensures HeldBySome(n, t) {
      var w :| 0 <= w < |s.workers| && HoldsTask(s.workers[w]) && s.workers[w].ticket == t;
      assert HoldsTask(n.workers[w]) && n.workers[w].ticket == t;
    }
  }

  lemma TakeKeepsExactlyOnce(s: State, w: nat)
    requires Enabled(s, Worker(w)) && ExactlyOnce(s) && s.workers[w].Testing? && s.tasks != []
    ensures ExactlyOnce(WorkerNext(s, w))
  {
    var n := WorkerNext(s, w);
    assert n.workers[w] == Popped(|s.started|);
    forall t: nat | t < |n.started| && t !in n.finished ensures HeldBySome(n, t) {
      if t < |s.started| {
        var v :| 0 <= v < |s.workers| && HoldsTask(s.workers[v]) && s.workers[v].ticket == t;
        assert n.workers[v] == s.workers[v];
      } else {
        assert n.workers[w].ticket == t;
      }
    }
  }

  lemma FinishKeepsExactlyOnce(s: State, w: nat)
    requires Enabled(s, Worker(w)) && ExactlyOnce(s) && s.workers[w].Running?
    ensures ExactlyOnce(WorkerNext(s, w))
  {
    var n := WorkerNext(s, w);
    forall t: nat | t < |n.started| && t !in n.finished ensures HeldBySome(n, t) {
      var v :| 0 <= v < |s.workers| && HoldsTask(s.workers[v]) && s.workers[v].ticket == t;
      assert n.workers[v] == s.workers[v];
    }
  }

  lemma WorkerKeepsExactlyOnce(s: State, w: nat)
    requires Enabled(s, Worker(w)) && ExactlyOnce(s)
    ensures ExactlyOnce(WorkerNext(s, w))
  {
    if s.workers[w].Testing? && s.tasks != [] {
      TakeKeepsExactlyOnce(s, w);
    } else if s.workers[w].Running? {
      FinishKeepsExactlyOnce(s, w);
    } else {
      SameHoldings(s, WorkerNext(s, w));
    }
  }

  lemma ClientKeepsExactlyOnce(s: State, c: nat, k: nat)
    requires Enabled(s, Client(c, k)) && MutualExclusion(s) && ExactlyOnce(s)
    ensures ExactlyOnce(ClientNext(s, c, k))
  {
    ClientEffect(s, c, k);
    SameHoldings(s, ClientNext(s, c, k));
  }

  lemma ExactlyOnceKept(s: State, a: Action)
    requires Enabled(s, a) && MutualExclusion(s) && ExactlyOnce(s)
    ensures ExactlyOnce(Next(s, a))
  {
    match a
    case Worker(w) => WorkerKeepsExactlyOnce(s, w);
    case Client(c, k) => ClientKeepsExactlyOnce(s, c, k);
    case _ => SameHoldings(s, Next(s, a));
  }

  lemma ActiveCountedKept(s: State, a: Action)
    requires Enabled(s, a) && MutualExclusion(s) && ActiveCounted(s)
    ensures ActiveCounted(Next(s, a))
  {
    match a
    case Worker(w) =>
      WorkerEffect(s, w);
      CountUpdate(s.workers, w, WorkerNext(s, w).workers[w], IsActive);
    case Client(c, k) =>
      ClientEffect(s, c, k);
      CountSame(s.workers, ClientNext(s, c, k).workers, IsActive);
    case _ => CountSame(s.workers, Next(s, a).workers, IsActive);
  }

  lemma WorkerKeepsWakeups(s: State, w: nat)
    requires Enabled(s, Worker(w)) && MutualExclusion(s) && NoLostWakeup(s)
    ensures NoLostWakeup(WorkerNext(s, w))
  {
    var n := WorkerNext(s, w);
    WorkerEffect(s, w);
    if SomeAsleep(n) && n.tasks != [] {
      var v :| 0 <= v < |n.workers| && n.workers[v].Asleep?;
      assert s.workers[v].Asleep?;
      CountUpdate(s.workers, w, n.workers[w], Seeking);
      CountSame(s.clients, n.clients, OwesOne);
    }
  }

  /** A client adds at most one task, and then owes a wake-up; it gives one up only to wake a sleeper. */
  lemma ClientWakeups(s: State, c: nat, k: nat)
    requires Enabled(s, Client(c, k))
    ensures var n := ClientNext(s, c, k);
      && |n.tasks| - Indicator(OwesOne(n.clients[c])) <= |s.tasks| - Indicator(OwesOne(s.clients[c]))
           + Indicator(s.clients[c].EnqueueOwes?)
      && (s.clients[c].EnqueueOwes? ==> n.tasks == s.tasks && !OwesOne(n.clients[c]))
      && (s.clients[c].EnqueueOwes? ==> n.workers == if SomeAsleep(s) then s.workers[k := Contending] else s.workers)
      && (!s.clients[c].EnqueueOwes? && !s.clients[c].StopOwes? ==> n.workers == s.workers)
      && (s.clients[c].StopOwes? ==> !SomeAsleep(n))
  {
  }

  lemma ClientKeepsWakeups(s: State, c: nat, k: nat)
    requires Enabled(s, Client(c, k)) && MutualExclusion(s) && NoLostWakeup(s)
    ensures NoLostWakeup(ClientNext(s, c, k))
  {
    var n := ClientNext(s, c, k);
    ClientEffect(s, c, k);
    ClientWakeups(s, c, k);
    if SomeAsleep(n) {
      CountUpdate(s.clients, c, n.clients[c], OwesOne);
      if s.clients[c].EnqueueOwes? && SomeAsleep(s) { CountUpdate(s.workers, k, Contending, Seeking); }
    }
  }

  lemma NoLostWakeupKept(s: State, a: Action)
    requires Enabled(s, a) && MutualExclusion(s) && NoLostWakeup(s)
    ensures NoLostWakeup(Next(s, a))
  {
    match a
    case Worker(w) => WorkerKeepsWakeups(s, w);
    case Client(c, k) => ClientKeepsWakeups(s, c, k);
    case SpuriousWorker(w) => CountUpdate(s.workers, w, Contending, Seeking);
    case _ => CountSame(s.clients, Next(s, a).clients, OwesOne);
  }

  lemma WorkerKeepsDrain(s: State, w: nat)
    requires Enabled(s, Worker(w)) && MutualExclusion(s) && StopDrains(s)
    ensures StopDrains(WorkerNext(s, w))
  {
    var n := WorkerNext(s, w);
    WorkerEffect(s, w);
    if n.stop && SomeAsleep(n) {
      var v :| 0 <= v < |n.workers| && n.workers[v].Asleep?;
      assert s.workers[v].Asleep?;
      var c :| 0 <= c < |s.clients| && OwesAll(s.clients[c]);
      assert OwesAll(n.clients[c]);
    }
  }

  lemma ClientKeepsDrain(s: State, c: nat, k: nat)
    requires Enabled(s, Client(c, k)) && MutualExclusion(s) && StopDrains(s)
    ensures StopDrains(ClientNext(s, c, k))
  {
    var n := ClientNext(s, c, k);
    ClientEffect(s, c, k);
    if n.stop && SomeAsleep(n) {
      if s.stop {
        var v :| 0 <= v < |n.workers| && n.workers[v].Asleep?;
        assert s.workers[v].Asleep?;
        var d :| 0 <= d < |s.clients| && OwesAll(s.clients[d]);
        assert OwesAll(n.clients[d]);
      } else {
        assert OwesAll(n.clients[c]);
      }
    }
  }

  lemma StopDrainsKept(s: State, a: Action)
    requires Enabled(s, a) && MutualExclusion(s) && StopDrains(s)
    ensures StopDrains(Next(s, a))
  {
    match a
    case Worker(w) => WorkerKeepsDrain(s, w);
    case Client(c, k) => ClientKeepsDrain(s, c, k);
    case _ => OthersKeepDrain(s, a);
  }

  lemma OthersKeepDrain(s: State, a: Action)
    requires Enabled(s, a) && StopDrains(s) && !a.Worker? && !a.Client?
    ensures StopDrains(Next(s, a))
  {
    var n := Next(s, a);
    if n.stop && SomeAsleep(n) {
      var c :| 0 <= c < |s.clients| && OwesAll(s.clients[c]);
      assert OwesAll(n.clients[c]);
    }
  }

  /** With the queue empty, no active worker and the mutex held by a client, nothing is left in flight. */
  lemma QuiescentIsFinished(s: State)
    requires ExactlyOnce(s) && ActiveCounted(s)
    requires s.tasks == [] && s.active == 0
    requires forall w :: 0 <= w < |s.workers| ==> !s.workers[w].Popped?
    ensures AllFinished(s)
  {
    CountZero(s.workers, IsActive);
    assert forall w :: 0 <= w < |s.workers| ==> !HoldsTask(s.workers[w]) by {
      assert forall w :: 0 <= w < |s.workers| ==> !IsActive(s.workers[w]);
    }
  }

  lemma WorkerKeepsWait(s: State, w: nat)
    requires Enabled(s, Worker(w)) && MutualExclusion(s) && WaitIsSound(s)
    ensures WaitIsSound(WorkerNext(s, w))
  {
    WorkerEffect(s, w);
    var n := WorkerNext(s, w);
    assert s.finished <= n.finished;
    forall c | 0 <= c < |n.clients|
      ensures (n.clients[c].WaitSawEmpty? ==> n.tasks == []) && (n.clients[c].WaitSatisfied? ==> AllFinished(n))
    {
      assert n.clients[c].WaitSawEmpty? || n.clients[c].WaitSatisfied? ==> n.clients[c] == s.clients[c];
    }
  }

  lemma ClientWaits(s: State, c: nat, k: nat)
    requires Enabled(s, Client(c, k))
    ensures var n := ClientNext(s, c, k);
      && (n.clients[c].WaitSawEmpty? ==> n.tasks == [])
      && (n.clients[c].WaitSatisfied? ==> s.clients[c].WaitSawEmpty? && s.active == 0 && n.tasks == s.tasks)
      && (ClientHolds(s.clients[c]) || (n.tasks == s.tasks && n.accepted == s.accepted))
  {
  }

  lemma ClientKeepsWait(s: State, c: nat, k: nat)
    requires Enabled(s, Client(c, k)) && MutualExclusion(s) && ExactlyOnce(s) && ActiveCounted(s) && WaitIsSound(s)
    ensures WaitIsSound(ClientNext(s, c, k))
  {
    ClientEffect(s, c, k);
    ClientWaits(s, c, k);
    if s.clients[c].WaitSawEmpty? && s.active == 0 {
      QuiescentIsFinished(s);
    }
  }

  lemma WaitIsSoundKept(s: State, a: Action)
    requires Enabled(s, a) && MutualExclusion(s) && ExactlyOnce(s) && ActiveCounted(s) && WaitIsSound(s)
    ensures WaitIsSound(Next(s, a))
  {
    match a
    case Worker(w) => WorkerKeepsWait(s, w);
    case Client(c, k) => ClientKeepsWait(s, c, k);
    case _ =>
  }

  lemma InvKept(s: State, a: Action)
    requires Enabled(s, a) && Inv(s)
    ensures Inv(Next(s, a))
  {
    MutualExclusionKept(s, a);
    ExactlyOnceKept(s, a);
    ActiveCountedKept(s, a);
    NoLostWakeupKept(s, a);
    StopDrainsKept(s, a);
    WaitIsSoundKept(s, a);
  }

  /** Main safety result: the invariant holds after every run of every pool. */
  lemma {:induction false} InvAlways(workers: nat, clients: nat, run: seq<Action>)
    requires ValidRun(Initial(workers, clients), run)
    ensures Inv(Final(Initial(workers, clients), run))
  {
    var s0 := Initial(workers, clients);
    if run == [] {
      InitialHolds(workers, clients);
    } else {
      var prefix := run[..|run| - 1];
      InvAlways(workers, clients, prefix);
      InvKept(Final(s0, prefix), run[|run| - 1]);
    }
  }
}
