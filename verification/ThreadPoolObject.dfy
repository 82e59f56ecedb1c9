/** The pool as an object: its fields are updated in place, one step of one thread at a time. */
module ThreadPoolObject {
  import opened ThreadPoolModel
  import opened ThreadPoolSafety

  class ThreadPool {
    var tasks: seq<Task>
    var activeTasks: int
    var stop: bool
    var holder: Holder
    var workers: seq<WorkerPhase>
    var clients: seq<ClientPhase>
    // the log; `worker_loop` keeps the task itself where this keeps its position in `started`
    var accepted: seq<Task>
    var started: seq<Task>
    var finished: set<nat>

    function Snapshot(): State
      reads this
    {
      State(tasks, activeTasks, stop, holder, workers, clients, accepted, started, finished)
    }

    constructor (requested: nat, hardware: nat, users: nat)
      ensures Snapshot() == Initial(ThreadCount(requested, hardware), users)
      ensures Inv(Snapshot()) && |workers| >= 1
    {
      tasks, activeTasks, stop, holder := [], 0, false, Free;
      workers := seq(ThreadCount(requested, hardware), _ => Contending);
      clients := seq(users, _ => Outside);
      accepted, started, finished := [], [], {};
      new;
      InitialHolds(ThreadCount(requested, hardware), users);
    }

    /** One step of `worker_loop` by worker `w`. */
    method WorkerStep(w: nat)
      requires Enabled(Snapshot(), Worker(w))
      modifies this
      ensures Snapshot() == WorkerNext(old(Snapshot()), w)
    {
      match workers[w] {
        case Contending => holder, workers := HeldByWorker(w), workers[w := Testing];
        case Testing =>
          if tasks != [] {
            workers := workers[w := Popped(|started|)];
            started := started + [tasks[0]];
            tasks := tasks[1..];
          } else {
            holder, workers := Free, workers[w := if stop then Exited else Asleep];
          }
        case Popped(t) => activeTasks, workers := activeTasks + 1, workers[w := Counted(t)];
        case Counted(t) => holder, workers := Free, workers[w := Running(t)];
        case Running(t) => finished, workers := finished + {t}, workers[w := AfterTask(started, t)];
        case Caught => workers := workers[w := Returned];
        case Returned => activeTasks, workers := activeTasks - 1, workers[w := Decremented];
        case Decremented => workers := workers[w := if tasks == [] then SawEmpty else Contending];
        case SawEmpty => workers := workers[w := if activeTasks == 0 then Signalling else Contending];
        case Signalling => clients, workers := WakeWaiters(clients), workers[w := Contending];
      }
    }

    /** One step of `enqueue` by client `c`; `k` is the sleeper `notify_one` picks. */
    method EnqueueStep(c: nat, k: nat)
      requires Enabled(Snapshot(), Client(c, k))
      requires var p := clients[c]; p.EnqueueContending? || p.EnqueueTesting? || p.EnqueuePushed? || p.EnqueueOwes?
      modifies this
      ensures Snapshot() == ClientNext(old(Snapshot()), c, k)
    {
      match clients[c] {
        case EnqueueContending(t) => holder, clients := HeldByClient(c), clients[c := EnqueueTesting(t)];
        case EnqueueTesting(t) =>
          if stop {
            holder, clients := Free, clients[c := Outside];
          } else {
            tasks, accepted := tasks + [t], accepted + [t];
            clients := clients[c := EnqueuePushed];
          }
        case EnqueuePushed => holder, clients := Free, clients[c := EnqueueOwes];
        case EnqueueOwes =>
          if SomeAsleep(Snapshot()) {
            workers := workers[k := Contending];
          }
          clients := clients[c := Outside];
      }
    }

    /** One step of `wait` by client `c`. */
    method WaitStep(c: nat)
      requires Enabled(Snapshot(), Client(c, 0))
      requires var p := clients[c];
        p.WaitContending? || p.WaitTesting? || p.WaitSawEmpty? || p.WaitMustSleep? || p.WaitSatisfied?
      modifies this
      ensures Snapshot() == ClientNext(old(Snapshot()), c, 0)
    {
      match clients[c] {
        case WaitContending => holder, clients := HeldByClient(c), clients[c := WaitTesting];
        case WaitTesting => clients := clients[c := if tasks == [] then WaitSawEmpty else WaitMustSleep];
        case WaitSawEmpty => clients := clients[c := if activeTasks == 0 then WaitSatisfied else WaitMustSleep];
        case WaitMustSleep => holder, clients := Free, clients[c := WaitAsleep];
        case WaitSatisfied => holder, clients := Free, clients[c := Outside];
      }
    }

    /** One step of `stop` by client `c`. */
    method StopStep(c: nat)
      requires Enabled(Snapshot(), Client(c, 0))
      requires var p := clients[c];
        p.StopContending? || p.StopHolding? || p.StopRaised? || p.StopOwes? || p.Joining?
      modifies this
      ensures Snapshot() == ClientNext(old(Snapshot()), c, 0)
    {
      match clients[c] {
        case StopContending => holder, clients := HeldByClient(c), clients[c := StopHolding];
        case StopHolding => stop, clients := true, clients[c := StopRaised];
        case StopRaised => holder, clients := Free, clients[c := StopOwes];
        case StopOwes => workers, clients := WakeWorkers(workers), clients[c := Joining];
        case Joining => clients := clients[c := Outside];
      }
    }

    /** Executes any action a scheduler may pick. */
    method Execute(a: Action)
      requires Enabled(Snapshot(), a)
      modifies this
      ensures Snapshot() == Next(old(Snapshot()), a)
    {
      match a {
        case Call(c, r) => clients := clients[c := Entry(r)];
        case SpuriousWorker(w) => workers := workers[w := Contending];
        case SpuriousClient(c) => clients := clients[c := WaitContending];
        case Worker(w) => WorkerStep(w);
        case Client(c, k) =>
          var p := clients[c];
          if p.EnqueueContending? || p.EnqueueTesting? || p.EnqueuePushed? || p.EnqueueOwes? {
            EnqueueStep(c, k);
          } else if p.WaitContending? || p.WaitTesting? || p.WaitSawEmpty? || p.WaitMustSleep? || p.WaitSatisfied? {
            WaitStep(c);
          } else {
            StopStep(c);
          }
      }
    }

    /** Follows a schedule, skipping what is not enabled: the object only ever goes through runs of the machine. */
    method Follow(schedule: seq<Action>) returns (ghost run: seq<Action>)
      requires Inv(Snapshot())
      modifies this
      ensures ValidRun(old(Snapshot()), run) && Snapshot() == Final(old(Snapshot()), run)
      ensures Inv(Snapshot())
    {
      run := [];
      for i := 0 to |schedule|
        invariant ValidRun(old(Snapshot()), run) && Snapshot() == Final(old(Snapshot()), run)
        invariant Inv(Snapshot())
      {
        var a := schedule[i];
        if Enabled(Snapshot(), a) {
          RunExtend(old(Snapshot()), run, a);
          InvKept(Snapshot(), a);
          Execute(a);
          run := run + [a];
        }
      }
    }
  }
}
