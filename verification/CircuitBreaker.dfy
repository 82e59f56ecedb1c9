/** The circuit breaker: the object, its log, and what the log says about its state. */
module CircuitBreakers {

  datatype State = Closed | Open | HalfOpen

  /** How the protected function ends; an exception that is not a `std::exception` is not caught. */
  datatype Outcome = Returns | Throws | ThrowsOther

  /**
   One use of the breaker.  A call asks for admission at `now` and, if admitted, ends
   at `end`.  A query is a call of `is_open()` from outside, which also moves the state.
   */
  datatype Event =
    | Call(now: int, end: int, outcome: Outcome)
    | Query(now: int)
    | Reset(now: int)

  datatype Config = Config(failureThreshold: int, recoveryTimeout: int, successThreshold: int)

  datatype Breaker = Breaker(state: State, failures: int, successes: int, lastFailure: int)

  const INITIAL := Breaker(Closed, 0, 0, 0)

  /** Whether a call asking at `now` is refused. */
  predicate Refuses(c: Config, b: Breaker, now: int) {
    b.state.Open? && now - b.lastFailure < c.recoveryTimeout
  }

  function AfterQuery(c: Config, b: Breaker, now: int): Breaker {
    if b.state.Open? && now - b.lastFailure >= c.recoveryTimeout then b.(state := HalfOpen, successes := 0) else b
  }

  function AfterSuccess(c: Config, b: Breaker): Breaker {
    match b.state
    case HalfOpen =>
      if b.successes + 1 >= c.successThreshold then Breaker(Closed, 0, b.successes + 1, b.lastFailure)
      else b.(successes := b.successes + 1)
    case Closed => b.(failures := 0)
    case Open => b
  }

  function AfterFailure(c: Config, b: Breaker, end: int): Breaker {
    match b.state
    case HalfOpen => b.(state := Open, lastFailure := end)
    case Closed =>
      if b.failures + 1 >= c.failureThreshold then Breaker(Open, b.failures + 1, b.successes, end)
      else b.(failures := b.failures + 1)
    case Open => b
  }

  function After(c: Config, b: Breaker, e: Event): Breaker {
    match e
    case Reset(_) => Breaker(Closed, 0, 0, b.lastFailure)
    case Query(now) => AfterQuery(c, b, now)
    case Call(now, end, outcome) =>
      if Refuses(c, b, now) then b
      else
        var a := AfterQuery(c, b, now);
        match outcome
        case Returns => AfterSuccess(c, a)
        case Throws => AfterFailure(c, a, end)
        case ThrowsOther => a
  }

  /** The breaker after a log, from a fresh one. */
  function Run(c: Config, log: seq<Event>): Breaker {
    if log == [] then INITIAL else After(c, Run(c, log[..|log| - 1]), log[|log| - 1])
  }

  function Ends(e: Event): int { if e.Call? then e.end else e.now }

  /** The clock never goes back: within a call, and from one event to the next. */
  predicate Timely(log: seq<Event>) {
    forall i :: 0 <= i < |log| ==> log[i].now <= Ends(log[i]) && (i > 0 ==> Ends(log[i - 1]) <= log[i].now)
  }

  /** The constructor accepts any thresholds; one below 1 acts like 1. */
  function AtLeastOne(threshold: int): int { if threshold < 1 then 1 else threshold }

  predicate Admits(c: Config, b: Breaker, e: Event) { e.Call? && !Refuses(c, b, e.now) }

  predicate Admitted(c: Config, log: seq<Event>, i: nat)
    requires i < |log|
  {
    Admits(c, Run(c, log[..i]), log[i])
  }

  /** The number of calls among the first `n` events that reach the protected function. */
  function Admissions(c: Config, log: seq<Event>, n: nat): nat
    requires n <= |log|
  {
    if n == 0 then 0 else Admissions(c, log, n - 1) + if Admitted(c, log, n - 1) then 1 else 0
  }

  lemma RunNext(c: Config, log: seq<Event>, n: nat)
    requires n < |log|
    ensures Run(c, log[..n + 1]) == After(c, Run(c, log[..n]), log[n])
  {
    assert log[..n + 1][..n] == log[..n];
  }

  /** Calls of the events `m..n` that reach the function and end with `outcome`. */
  function Ended(c: Config, log: seq<Event>, outcome: Outcome, m: nat, n: nat): (count: nat)
    requires m <= n <= |log|
  {
    if n == m then 0
    else Ended(c, log, outcome, m, n - 1) + if Admitted(c, log, n - 1) && log[n - 1].outcome == outcome then 1 else 0
  }

  // ----- load bound -----

  /** No reset, and no call that reaches the function succeeds. */
  predicate NoSuccess(c: Config, log: seq<Event>) {
    forall i :: 0 <= i < |log| ==> !log[i].Reset? && (Admitted(c, log, i) ==> !log[i].outcome.Returns?)
  }

  /** The calls among the first `n` events that the breaker has counted as failures. */
  function Failures(c: Config, log: seq<Event>, n: nat): nat
    requires n <= |log|
  {
    Ended(c, log, Throws, 0, n)
  }

  /** Calls that end with an exception the breaker does not catch, and so does not count. */
  function Uncaught(c: Config, log: seq<Event>, n: nat): nat
    requires n <= |log|
  {
    Ended(c, log, ThrowsOther, 0, n)
  }

  /** When the breaker first opened among the first `n` events. */
  datatype Opening = Never | At(time: int)

  function FirstOpening(c: Config, log: seq<Event>, n: nat): Opening
    requires n <= |log|
  {
    if n == 0 then Never
    else
      var o := FirstOpening(c, log, n - 1);
      if o.Never? && Run(c, log[..n]).state.Open? then At(Ends(log[n - 1])) else o
  }

  /** The failures `a` up to `clock`, told from what the breaker remembers. */
  ghost predicate LoadInv(c: Config, b: Breaker, a: int, o: Opening, clock: int) {
    var f := AtLeastOne(c.failureThreshold);
    match o
    case Never => b.state.Closed? && 0 <= a == b.failures < f
    case At(t) =>
      && !b.state.Closed? && a >= f
      && (a - f) * c.recoveryTimeout <= b.lastFailure - t
      && b.lastFailure <= clock
      && (b.state.HalfOpen? ==> b.lastFailure + c.recoveryTimeout <= clock)
  }

  lemma LoadStep(c: Config, b: Breaker, a: int, o: Opening, clock: int, e: Event)
    requires c.recoveryTimeout >= 1 && LoadInv(c, b, a, o, clock)
    requires clock <= e.now <= Ends(e) && !e.Reset? && (Admits(c, b, e) ==> !e.outcome.Returns?)
    ensures var b' := After(c, b, e);
      LoadInv(c, b', a + (if Admits(c, b, e) && e.outcome.Throws? then 1 else 0),
              if o.Never? && b'.state.Open? then At(Ends(e)) else o, Ends(e))
  {
    if o.At? {
      Distribute(a - AtLeastOne(c.failureThreshold), c.recoveryTimeout);
    }
  }

  lemma Distribute(a: int, r: int)
    ensures (a + 1) * r == a * r + r
  {
  }

  lemma {:induction false} LoadSoFar(c: Config, log: seq<Event>, n: nat)
    requires c.recoveryTimeout >= 1 && Timely(log) && NoSuccess(c, log) && 0 < n <= |log|
    ensures LoadInv(c, Run(c, log[..n]), Failures(c, log, n), FirstOpening(c, log, n), Ends(log[n - 1]))
  {
    RunNext(c, log, n - 1);
    if n > 1 {
      LoadSoFar(c, log, n - 1);
      LoadStep(c, Run(c, log[..n - 1]), Failures(c, log, n - 1), FirstOpening(c, log, n - 1),
               Ends(log[n - 2]), log[n - 1]);
    } else {
      assert Run(c, log[..0]) == INITIAL && Failures(c, log, 0) == 0 && FirstOpening(c, log, 0) == Never;
      LoadStep(c, INITIAL, 0, Never, log[0].now, log[0]);
    }
  }

  /** F + D/R, with D the time from the first opening to `now`, or F if the breaker never opened. */
  function Bound(c: Config, o: Opening, now: int): int
    requires c.recoveryTimeout >= 1
  {
    AtLeastOne(c.failureThreshold) + match o { case Never => 0 case At(t) => (now - t) / c.recoveryTimeout }
  }

  /**
   While no admitted call succeeds, a run whose last admission comes D milliseconds after
   the first opening counts at most F + D/R failures, however many calls ask; what it
   admits beyond them are calls whose exception the breaker does not catch.
   */
  lemma FailureBound(c: Config, log: seq<Event>, n: nat)
    requires c.recoveryTimeout >= 1 && Timely(log) && NoSuccess(c, log)
    requires n < |log| && Admitted(c, log, n)
    ensures Failures(c, log, n + 1) <= Bound(c, FirstOpening(c, log, n), log[n].now)
    ensures Admissions(c, log, n + 1) == Failures(c, log, n + 1) + Uncaught(c, log, n + 1)
  {
    AdmissionsSplit(c, log, n + 1);
    if n > 0 {
      LoadSoFar(c, log, n);
      RoomForOne(c, Run(c, log[..n]), Failures(c, log, n), FirstOpening(c, log, n), Ends(log[n - 1]), log[n]);
    }
  }

  /** At an admission there is room for one more failure. */
  lemma RoomForOne(c: Config, b: Breaker, a: int, o: Opening, clock: int, e: Event)
    requires c.recoveryTimeout >= 1 && LoadInv(c, b, a, o, clock) && clock <= e.now && Admits(c, b, e)
    ensures a + 1 <= Bound(c, o, e.now)
  {
    if o.At? {
      var f, r := AtLeastOne(c.failureThreshold), c.recoveryTimeout;
      Distribute(a - f, r);
      DivideBound(a + 1 - f, r, e.now - o.time);
    }
  }

  lemma {:induction false} AdmissionsSplit(c: Config, log: seq<Event>, n: nat)
    requires n <= |log|
    ensures Admissions(c, log, n) == Ended(c, log, Returns, 0, n) + Failures(c, log, n) + Uncaught(c, log, n)
    ensures NoSuccess(c, log) ==> Ended(c, log, Returns, 0, n) == 0
  {
    if n > 0 { AdmissionsSplit(c, log, n - 1); }
  }

  /** Load bound: if moreover every failing call ends with a `std::exception`, that many calls are admitted at most. */
  lemma LoadBound(c: Config, log: seq<Event>, n: nat)
    requires c.recoveryTimeout >= 1 && Timely(log) && NoSuccess(c, log)
    requires n < |log| && Admitted(c, log, n) && Uncaught(c, log, n + 1) == 0
    ensures Admissions(c, log, n + 1) <= Bound(c, FirstOpening(c, log, n), log[n].now)
  {
    FailureBound(c, log, n);
  }

  /** Two uncaught calls get past a breaker that opens on the first failure. */
  lemma UncaughtExceedsBound()
    ensures var c, log := Config(1, 10, 1), [Call(0, 0, ThrowsOther), Call(0, 0, ThrowsOther)];
      && Timely(log) && NoSuccess(c, log) && Admitted(c, log, 1)
      && Admissions(c, log, 2) == 2 > Bound(c, FirstOpening(c, log, 1), 0) == 1
  {
    var c, e := Config(1, 10, 1), Call(0, 0, ThrowsOther);
    var log := [e, e];
    assert log[..0] == [] && log[..1] == [e];
    RunNext(c, log, 0);
    assert Run(c, log[..0]) == INITIAL && Run(c, log[..1]) == INITIAL;
    assert Admissions(c, log, 1) == 1;
  }

  lemma DivideBound(a: int, r: int, d: int)
    requires r >= 1 && a * r <= d
    ensures a <= d / r
  {
    assert d < (d / r + 1) * r;
  }

  // ----- what the log says about the state -----

  predicate NoReset(log: seq<Event>, m: nat, n: nat)
    requires m <= n <= |log|
  {
    forall i :: m <= i < n ==> !log[i].Reset?
  }

  /** Closed: since `m`, where a success, a reset or the start was, fewer failures than the threshold and no success. */
  ghost predicate ClosedStory(c: Config, log: seq<Event>, m: nat, n: nat)
    requires m <= n <= |log|
  {
    && (m > 0 ==> log[m - 1].Reset? || (Admitted(c, log, m - 1) && log[m - 1].outcome.Returns?))
    && NoReset(log, m, n) && Ended(c, log, Returns, m, n) == 0
    && Run(c, log[..n]).failures == Ended(c, log, Throws, m, n) < AtLeastOne(c.failureThreshold)
  }

  /** Open: event `m` was a failure that reached the function, and nobody has asked since its timeout. */
  ghost predicate OpenStory(c: Config, log: seq<Event>, m: nat, n: nat)
    requires m < n <= |log|
  {
    && Admitted(c, log, m) && log[m].outcome.Throws?
    && Run(c, log[..n]).lastFailure == log[m].end
    && NoReset(log, m, n)
    && forall i :: m < i < n ==> log[i].now < log[m].end + c.recoveryTimeout
  }

  /**
   Half-open: event `m` asked after the timeout of an open breaker; since then there were
   fewer successes than the threshold and no failure.
   */
  ghost predicate HalfOpenStory(c: Config, log: seq<Event>, m: nat, n: nat)
    requires m < n <= |log|
  {
    var before := Run(c, log[..m]);
    && before.state.Open? && log[m].now >= before.lastFailure + c.recoveryTimeout
    && NoReset(log, m, n) && Ended(c, log, Throws, m, n) == 0
    && Run(c, log[..n]).successes == Ended(c, log, Returns, m, n) < AtLeastOne(c.successThreshold)
  }

  ghost predicate Story(c: Config, log: seq<Event>, m: nat, n: nat)
    requires m <= n <= |log|
  {
    match Run(c, log[..n]).state
    case Closed => ClosedStory(c, log, m, n)
    case Open => m < n && OpenStory(c, log, m, n)
    case HalfOpen => m < n && HalfOpenStory(c, log, m, n)
  }

  /** The breaker's state is always explained by its log. */
  lemma {:induction false} LogExplainsState(c: Config, log: seq<Event>, n: nat) returns (m: nat)
    requires n <= |log|
    ensures m <= n && Story(c, log, m, n)
  {
    if n == 0 {
      m := 0;
    } else {
      m := LogExplainsState(c, log, n - 1);
      m := NextChapter(c, log, m, n - 1);
    }
  }

  lemma NextChapter(c: Config, log: seq<Event>, m: nat, n: nat) returns (k: nat)
    requires m <= n < |log| && Story(c, log, m, n)
    ensures k <= n + 1 && Story(c, log, k, n + 1)
  {
    RunNext(c, log, n);
    var b, e := Run(c, log[..n]), log[n];
    match b.state {
      case Closed => k := FromClosed(c, log, m, n);
      case Open => k := FromOpen(c, log, m, n);
      case HalfOpen => k := FromHalfOpen(c, log, m, n);
    }
  }

  lemma FromClosed(c: Config, log: seq<Event>, m: nat, n: nat) returns (k: nat)
    requires m <= n < |log| && Run(c, log[..n]).state.Closed? && ClosedStory(c, log, m, n)
    ensures k <= n + 1 && Story(c, log, k, n + 1)
  {
    RunNext(c, log, n);
    var e := log[n];
    if e.Reset? || (e.Call? && e.outcome.Returns?) { k := n + 1; }
    else if Run(c, log[..n + 1]).state.Open? { k := n; }
    else { k := m; }
  }

  lemma FromOpen(c: Config, log: seq<Event>, m: nat, n: nat) returns (k: nat)
    requires m < n < |log| && Run(c, log[..n]).state.Open? && OpenStory(c, log, m, n)
    ensures k <= n + 1 && Story(c, log, k, n + 1)
  {
    RunNext(c, log, n);
    var e, after := log[n], Run(c, log[..n + 1]);
    assert Ended(c, log, Returns, n, n) == 0 == Ended(c, log, Throws, n, n);
    match after.state {
      case Closed => k := n + 1;
      case HalfOpen => k := n;
      case Open => k := if Admitted(c, log, n) then n else m;
    }
  }

  lemma FromHalfOpen(c: Config, log: seq<Event>, m: nat, n: nat) returns (k: nat)
    requires m < n < |log| && Run(c, log[..n]).state.HalfOpen? && HalfOpenStory(c, log, m, n)
    ensures k <= n + 1 && Story(c, log, k, n + 1)
  {
    RunNext(c, log, n);
    match Run(c, log[..n + 1]).state {
      case Closed => k := n + 1;
      case Open => k := n;
      case HalfOpen => k := m;
    }
  }

  /** A closed breaker lets every call through, and a query leaves it as it is. */
  lemma ClosedAdmits(c: Config, log: seq<Event>, n: nat)
    requires n < |log| && Run(c, log[..n]).state.Closed?
    ensures log[n].Call? ==> Admitted(c, log, n)
    ensures log[n].Query? ==> Run(c, log[..n + 1]) == Run(c, log[..n])
  {
    RunNext(c, log, n);
  }

  /** Until it first opens, the breaker is closed. */
  lemma {:induction false} ClosedUntilOpened(c: Config, log: seq<Event>, n: nat)
    requires n <= |log| && FirstOpening(c, log, n).Never?
    ensures Run(c, log[..n]).state.Closed?
  {
    if n == 0 {
      assert log[..0] == [];
    } else {
      ClosedUntilOpened(c, log, n - 1);
      RunNext(c, log, n - 1);
    }
  }

  function Calls(log: seq<Event>, n: nat): nat
    requires n <= |log|
  {
    if n == 0 then 0 else Calls(log, n - 1) + if log[n - 1].Call? then 1 else 0
  }

  /** Until it first opens, a fresh breaker admits every call, whatever the thresholds. */
  lemma {:induction false} AdmitsUntilOpened(c: Config, log: seq<Event>, n: nat)
    requires n <= |log| && FirstOpening(c, log, n).Never?
    ensures Admissions(c, log, n) == Calls(log, n)
    ensures n < |log| && log[n].Call? ==> Admitted(c, log, n)
  {
    ClosedUntilOpened(c, log, n);
    if n > 0 {
      AdmitsUntilOpened(c, log, n - 1);
    }
  }

  /** An open breaker refuses a call before the timeout and admits it from then on; the rest is admitted always. */
  lemma RefusesExactly(c: Config, log: seq<Event>, n: nat)
    requires n < |log| && log[n].Call?
    ensures var b := Run(c, log[..n]);
      !Admitted(c, log, n) <==> b.state.Open? && log[n].now < b.lastFailure + c.recoveryTimeout
  {
  }

  /** Closed opens exactly on the failure that makes the run of failures reach the threshold. */
  lemma OpensOnThreshold(c: Config, log: seq<Event>, n: nat) returns (m: nat)
    requires n < |log| && Run(c, log[..n]).state.Closed?
    ensures m <= n && ClosedStory(c, log, m, n)
    ensures !Run(c, log[..n + 1]).state.Closed?
       <==> log[n].Call? && log[n].outcome.Throws? && Ended(c, log, Throws, m, n) + 1 == AtLeastOne(c.failureThreshold)
    ensures !Run(c, log[..n + 1]).state.HalfOpen?
  {
    m := LogExplainsState(c, log, n);
    RunNext(c, log, n);
  }

  /** An open breaker lets a call through exactly when the timeout has passed since the last failing call ended. */
  lemma OpenAdmitsAfterTimeout(c: Config, log: seq<Event>, n: nat) returns (m: nat)
    requires n < |log| && Run(c, log[..n]).state.Open?
    ensures m < n && OpenStory(c, log, m, n)
    ensures Admitted(c, log, n) <==> log[n].Call? && log[n].now >= log[m].end + c.recoveryTimeout
    ensures log[n].Call? && !Admitted(c, log, n) ==> Run(c, log[..n + 1]) == Run(c, log[..n])
  {
    m := LogExplainsState(c, log, n);
    RunNext(c, log, n);
  }

  /** Half-open admits every call; the last missing success closes it, any failure reopens it and restarts the timer. */
  lemma HalfOpenVerdict(c: Config, log: seq<Event>, n: nat) returns (m: nat)
    requires n < |log| && Run(c, log[..n]).state.HalfOpen?
    ensures m < n && HalfOpenStory(c, log, m, n)
    ensures log[n].Call? ==> Admitted(c, log, n)
    ensures Run(c, log[..n + 1]).state.Closed?
       <==> log[n].Reset? || (log[n].Call? && log[n].outcome.Returns?
              && Ended(c, log, Returns, m, n) + 1 == AtLeastOne(c.successThreshold))
    ensures Run(c, log[..n + 1]).state.Open? <==> log[n].Call? && log[n].outcome.Throws?
    ensures Run(c, log[..n + 1]).state.Open? ==> Run(c, log[..n + 1]).lastFailure == log[n].end
  {
    m := LogExplainsState(c, log, n);
    RunNext(c, log, n);
  }

  // ----- the object -----

  /** What the caller of `call` sees. */
  datatype CallResult = Completed | Rejected | Rethrown

  class CircuitBreaker {
    const config: Config
    var state: State
    var failureCount: int
    var successCount: int
    var lastFailureTime: int

    function Value(): Breaker
      reads this
    {
      Breaker(state, failureCount, successCount, lastFailureTime)
    }

    constructor (config: Config)
      ensures this.config == config && Value() == INITIAL
    {
      this.config := config;
      state, failureCount, successCount, lastFailureTime := Closed, 0, 0, 0;
    }

    method IsOpen(now: int) returns (open: bool)
      modifies this
      ensures open == Refuses(config, old(Value()), now)
      ensures Value() == AfterQuery(config, old(Value()), now)
    {
      if state == Open {
        var elapsed := now - lastFailureTime;
        if elapsed >= config.recoveryTimeout {
          state := HalfOpen;
          successCount := 0;
          return false;
        }
        return true;
      }
      return false;
    }

    method ResetBreaker()
      modifies this
      ensures forall now :: Value() == After(config, old(Value()), Reset(now))
    {
      state := Closed;
      failureCount := 0;
      successCount := 0;
    }

    method RecordSuccess()
      modifies this
      ensures Value() == AfterSuccess(config, old(Value()))
    {
      if state == HalfOpen {
        successCount := successCount + 1;
        if successCount >= config.successThreshold {
          state := Closed;
          failureCount := 0;
        }
      } else if state == Closed {
        failureCount := 0;
      }
    }

    method RecordFailure(now: int)
      modifies this
      ensures Value() == AfterFailure(config, old(Value()), now)
    {
      if state == HalfOpen {
        state := Open;
        lastFailureTime := now;
      } else if state == Closed {
        failureCount := failureCount + 1;
        if failureCount >= config.failureThreshold {
          state := Open;
          lastFailureTime := now;
        }
      }
    }

    /** Runs the protected function, unless the breaker is open; `outcome` and `end` are the function's doing. */
    method Protect(now: int, end: int, outcome: Outcome) returns (result: CallResult)
      modifies this
      ensures Value() == After(config, old(Value()), Call(now, end, outcome))
      ensures result == if Refuses(config, old(Value()), now) then Rejected
                        else if outcome.Returns? then Completed else Rethrown
    {
      var open := IsOpen(now);
      if open {
        return Rejected;
      }
      match outcome {
        case Returns => RecordSuccess(); result := Completed;
        case Throws => RecordFailure(end); result := Rethrown;
        case ThrowsOther => result := Rethrown;
      }
    }

    /** Lives through a log, event by event. */
    method Replay(log: seq<Event>)
      requires Value() == INITIAL
      modifies this
      ensures Value() == Run(config, log)
    {
      for i := 0 to |log|
        invariant Value() == Run(config, log[..i])
      {
        RunNext(config, log, i);
        match log[i] {
          case Reset(_) => ResetBreaker();
          case Query(now) => var open := IsOpen(now);
          case Call(now, end, outcome) => var result := Protect(now, end, outcome);
        }
      }
      assert log[..|log|] == log;
    }
  }
}
