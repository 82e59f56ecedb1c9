/**
 The work queue as a state machine.

 One action is one access to a shared variable, one mutex operation or one
 condition-variable operation of one thread, so that every interleaving the
 C++ memory of `src/util/Concurrent.cpp` allows between two such accesses is a
 run of this machine.  Testing a wait predicate and releasing the mutex to sleep
 are two actions for a client in `wait()`, because `active_tasks_` is decremented
 outside the mutex and can change in between.
 */
module ThreadPoolModel {
  /** A queued callable; `throws` says how its body ends. */
  datatype Task = Task(id: nat, throws: bool)

  /** Where a worker thread is inside `worker_loop`. */
  datatype WorkerPhase =
    | Contending              // about to lock queue_mutex_, at the top of the loop or after a wake-up
    | Testing                 // holds the mutex, about to evaluate the wait predicate
    | Asleep                  // blocked in queue_cv_.wait, mutex released
    | Popped(ticket: nat)     // holds the mutex, has popped the front task
    | Counted(ticket: nat)    // holds the mutex, has incremented active_tasks_
    | Running(ticket: nat)    // executes the task without the mutex
    | Caught                  // the task has thrown; the exception is about to be suppressed
    | Returned                // about to decrement active_tasks_
    | Decremented             // about to read tasks_.empty(), without the mutex
    | SawEmpty                // about to read active_tasks_, without the mutex
    | Signalling              // about to call done_cv_.notify_all
    | Exited

  /** Where a client thread is inside `enqueue`, `wait` or `stop`. */
  datatype ClientPhase =
    | Outside
    | EnqueueContending(task: Task)
    | EnqueueTesting(task: Task)   // holds the mutex, about to read stop_
    | EnqueuePushed                // holds the mutex, has pushed
    | EnqueueOwes                  // mutex released, about to call queue_cv_.notify_one
    | WaitContending
    | WaitTesting                  // holds the mutex, about to read tasks_.empty()
    | WaitSawEmpty                 // holds the mutex, about to read active_tasks_
    | WaitMustSleep                // holds the mutex, predicate was false
    | WaitAsleep                   // blocked in done_cv_.wait
    | WaitSatisfied                // holds the mutex, predicate was true, about to return
    | StopContending
    | StopHolding                  // holds the mutex, about to set stop_
    | StopRaised                   // holds the mutex, has set stop_
    | StopOwes                     // mutex released, about to call queue_cv_.notify_all
    | Joining

  datatype Holder = Free | HeldByWorker(w: nat) | HeldByClient(c: nat)

  datatype Request = Enqueue(task: Task) | Wait | Stop

  /**
   The shared variables, the phase of every thread, and a log: the tasks accepted
   by `enqueue`, the tasks taken from the queue, and the tickets (positions in
   `started`) of the tasks whose body is over.
   */
  datatype State = State(
    tasks: seq<Task>, active: int, stop: bool, holder: Holder,
    workers: seq<WorkerPhase>, clients: seq<ClientPhase>,
    accepted: seq<Task>, started: seq<Task>, finished: set<nat>)

  datatype Action =
    | Call(c: nat, request: Request)   // a client enters enqueue, wait or stop
    | Client(c: nat, wakes: nat)       // a client's next step; `wakes` is whom notify_one picks
    | Worker(w: nat)                   // a worker's next step
    | SpuriousWorker(w: nat)           // queue_cv_.wait wakes up on its own
    | SpuriousClient(c: nat)           // done_cv_.wait wakes up on its own

  predicate WorkerHolds(p: WorkerPhase) { p.Testing? || p.Popped? || p.Counted? }

  predicate ClientHolds(p: ClientPhase) {
    p.EnqueueTesting? || p.EnqueuePushed? || p.WaitTesting? || p.WaitSawEmpty? || p.WaitMustSleep?
    || p.WaitSatisfied? || p.StopHolding? || p.StopRaised?
  }

  predicate ClientContends(p: ClientPhase) {
    p.EnqueueContending? || p.WaitContending? || p.StopContending?
  }

  predicate HoldsTask(p: WorkerPhase) { p.Popped? || p.Counted? || p.Running? }
  predicate IsActive(p: WorkerPhase) { p.Counted? || p.Running? || p.Caught? || p.Returned? }
  predicate Seeking(p: WorkerPhase) { p.Contending? || p.Testing? }
  predicate OwesOne(p: ClientPhase) { p.EnqueuePushed? || p.EnqueueOwes? }
  predicate OwesAll(p: ClientPhase) { p.StopRaised? || p.StopOwes? }

  predicate SomeAsleep(s: State) { exists w :: 0 <= w < |s.workers| && s.workers[w].Asleep? }
  predicate AllExited(s: State) { forall w :: 0 <= w < |s.workers| ==> s.workers[w].Exited? }

  predicate Enabled(s: State, a: Action) {
    match a
    case Call(c, _) => c < |s.clients| && s.clients[c].Outside?
    case Client(c, k) =>
      && c < |s.clients|
      && var p := s.clients[c];
      && !p.Outside? && !p.WaitAsleep?
      && (ClientContends(p) ==> s.holder.Free?)
      && (p.EnqueueOwes? && SomeAsleep(s) ==> k < |s.workers| && s.workers[k].Asleep?)
      && (p.Joining? ==> AllExited(s))
    case Worker(w) =>
      && w < |s.workers|
      && !s.workers[w].Asleep? && !s.workers[w].Exited?
      && (s.workers[w].Contending? ==> s.holder.Free?)
    case SpuriousWorker(w) => w < |s.workers| && s.workers[w].Asleep?
    case SpuriousClient(c) => c < |s.clients| && s.clients[c].WaitAsleep?
  }

  function WakeWorkers(ws: seq<WorkerPhase>): seq<WorkerPhase> {
    seq(|ws|, i requires 0 <= i < |ws| => if ws[i].Asleep? then Contending else ws[i])
  }

  function WakeWaiters(cs: seq<ClientPhase>): seq<ClientPhase> {
    seq(|cs|, i requires 0 <= i < |cs| => if cs[i].WaitAsleep? then WaitContending else cs[i])
  }

  /** Where a worker goes when the body of task `t` ends, by returning or by throwing. */
  function AfterTask(started: seq<Task>, t: nat): WorkerPhase {
    if t < |started| && started[t].throws then Caught else Returned
  }

  /** One step of `worker_loop`. */
  function WorkerNext(s: State, w: nat): State
    requires Enabled(s, Worker(w))
  {
    match s.workers[w]
    case Contending => s.(workers := s.workers[w := Testing], holder := HeldByWorker(w))
    case Testing =>
      if s.tasks != [] then
        s.(workers := s.workers[w := Popped(|s.started|)],
           started := s.started + [s.tasks[0]], tasks := s.tasks[1..])
      else if s.stop then s.(workers := s.workers[w := Exited], holder := Free)
      else s.(workers := s.workers[w := Asleep], holder := Free)
    case Popped(t) => s.(workers := s.workers[w := Counted(t)], active := s.active + 1)
    case Counted(t) => s.(workers := s.workers[w := Running(t)], holder := Free)
    case Running(t) => s.(workers := s.workers[w := AfterTask(s.started, t)], finished := s.finished + {t})
    case Caught => s.(workers := s.workers[w := Returned])
    case Returned => s.(workers := s.workers[w := Decremented], active := s.active - 1)
    case Decremented => s.(workers := s.workers[w := if s.tasks == [] then SawEmpty else Contending])
    case SawEmpty => s.(workers := s.workers[w := if s.active == 0 then Signalling else Contending])
    case Signalling => s.(workers := s.workers[w := Contending], clients := WakeWaiters(s.clients))
  }

  /** One step of `enqueue`, `wait` or `stop`. */
  function ClientNext(s: State, c: nat, k: nat): State
    requires Enabled(s, Client(c, k))
  {
    match s.clients[c]
    case EnqueueContending(t) => s.(clients := s.clients[c := EnqueueTesting(t)], holder := HeldByClient(c))
    case EnqueueTesting(t) =>
      if s.stop then s.(clients := s.clients[c := Outside], holder := Free)   // throws
      else s.(clients := s.clients[c := EnqueuePushed],
              tasks := s.tasks + [t], accepted := s.accepted + [t])
    case EnqueuePushed => s.(clients := s.clients[c := EnqueueOwes], holder := Free)
    case EnqueueOwes =>
      s.(clients := s.clients[c := Outside],
         workers := if SomeAsleep(s) then s.workers[k := Contending] else s.workers)
    case WaitContending => s.(clients := s.clients[c := WaitTesting], holder := HeldByClient(c))
    case WaitTesting => s.(clients := s.clients[c := if s.tasks == [] then WaitSawEmpty else WaitMustSleep])
    case WaitSawEmpty => s.(clients := s.clients[c := if s.active == 0 then WaitSatisfied else WaitMustSleep])
    case WaitMustSleep => s.(clients := s.clients[c := WaitAsleep], holder := Free)
    case WaitSatisfied => s.(clients := s.clients[c := Outside], holder := Free)
    case StopContending => s.(clients := s.clients[c := StopHolding], holder := HeldByClient(c))
    case StopHolding => s.(clients := s.clients[c := StopRaised], stop := true)
    case StopRaised => s.(clients := s.clients[c := StopOwes], holder := Free)
    case StopOwes => s.(clients := s.clients[c := Joining], workers := WakeWorkers(s.workers))
    case Joining => s.(clients := s.clients[c := Outside])
  }

  function Entry(r: Request): ClientPhase {
    match r
    case Enqueue(t) => EnqueueContending(t)
    case Wait => WaitContending
    case Stop => StopContending
  }

  function Next(s: State, a: Action): State
    requires Enabled(s, a)
  {
    match a
    case Call(c, r) => s.(clients := s.clients[c := Entry(r)])
    case Client(c, k) => ClientNext(s, c, k)
    case Worker(w) => WorkerNext(s, w)
    case SpuriousWorker(w) => s.(workers := s.workers[w := Contending])
    case SpuriousClient(c) => s.(clients := s.clients[c := WaitContending])
  }

  /** The number of workers the constructor creates, given `hardware_concurrency()`. */
  function ThreadCount(requested: nat, hardware: nat): (n: nat)
    ensures n >= 1
    ensures requested > 0 ==> n == requested
    ensures requested == 0 ==> n == if hardware >= 2 then hardware - 1 else 2
  {
    if requested > 0 then requested
    else
      var cpus := if hardware > 0 then hardware else 1;
      if cpus > 1 then cpus - 1 else 2
  }

  function Initial(workers: nat, clients: nat): State {
    State([], 0, false, Free, seq(workers, _ => Contending), seq(clients, _ => Outside), [], [], {})
  }

  /** `run` is an execution from `s`: each action is enabled where it happens. */
  predicate ValidRun(s: State, run: seq<Action>)
    decreases |run|, 0
  {
    run == [] ||
    (ValidRun(s, run[..|run| - 1]) && Enabled(Final(s, run[..|run| - 1]), run[|run| - 1]))
  }

  function Final(s: State, run: seq<Action>): State
    requires ValidRun(s, run)
    decreases |run|, 1
  {
    if run == [] then s else Next(Final(s, run[..|run| - 1]), run[|run| - 1])
  }

  lemma RunExtend(s: State, run: seq<Action>, a: Action)
    requires ValidRun(s, run) && Enabled(Final(s, run), a)
    ensures ValidRun(s, run + [a]) && Final(s, run + [a]) == Next(Final(s, run), a)
  {
    assert (run + [a])[..|run + [a]| - 1] == run;
  }
}
