/** Retrying with exponential backoff, jitter and a cap, in 32-bit arithmetic. */
module Retry {
  import opened Machine

  datatype Policy = Policy(maxAttempts: int, initialDelay: int, maxDelay: int, multiplier: real, jitter: bool)

  const AGGRESSIVE := Policy(5, 50, 2000, 2.0, true)
  const MODERATE := Policy(3, 100, 5000, 2.0, true)
  const CONSERVATIVE := Policy(2, 500, 10000, 1.5, false)

  /** What one run of the function does; an exception that is not a `std::exception` is not caught. */
  datatype Attempt = Yes | No | Raises(what: string) | RaisesOther

  /** `Overflowed`: an `int` operation leaves its range, where C++ promises nothing. */
  datatype Verdict = Succeeded | Exhausted | Propagated | Overflowed

  /** The error text: the caller's or an exception's, or the note about `n` exhausted attempts. */
  datatype Message = Text(text: string) | ExhaustedNote(n: int)

  predicate Fits(x: int) { INT_MIN <= x <= INT_MAX }

  /** Conversion of a double to an int: towards zero. */
  function Truncate(x: real): (n: int)
    ensures x >= 0.0 ==> n as real <= x < n as real + 1.0
    ensures x < 0.0 ==> n as real - 1.0 < x <= n as real
  {
    if x >= 0.0 then x.Floor else -((-x).Floor)
  }

  /** Division of ints: towards zero. */
  function Quotient(a: int, b: int): int
    requires b > 0
  {
    if a >= 0 then a / b else -((-a) / b)
  }

  function Scale(delay: int, multiplier: real): int {
    Truncate(delay as real * multiplier)
  }

  function Stretch(delay: int, percent: int): int {
    delay * (100 + percent)
  }

  /** The delay before the cap and the jitter of the k-th pause, counting from 1. */
  function Delay(p: Policy, k: int): int
    requires k >= 1
  {
    if k == 1 then p.initialDelay else Scale(Delay(p, k - 1), p.multiplier)
  }

  /** The k-th pause, given the jitter percentages drawn. */
  function Pause(p: Policy, jitter: nat -> int, k: nat): int
    requires k >= 1
  {
    var d := if p.jitter then Quotient(Stretch(Delay(p, k), jitter(k)), 100) else Delay(p, k);
    if d > p.maxDelay then p.maxDelay else d
  }

  /** The arithmetic around the k-th pause stays in range. */
  predicate InRange(p: Policy, jitter: nat -> int, k: nat)
    requires k >= 1
  {
    (p.jitter ==> Fits(Stretch(Delay(p, k), jitter(k)))) && Fits(Delay(p, k + 1))
  }

  /** The error text after `n` runs: the last exception's, or the caller's if there was none. */
  function LastWhat(fn: nat -> Attempt, n: nat, initial: string): string {
    if n == 0 then initial else if fn(n).Raises? then fn(n).what else LastWhat(fn, n - 1, initial)
  }

  /** The pauses are those of the policy, in order from the first. */
  predicate Planned(p: Policy, jitter: nat -> int, pauses: seq<int>) {
    forall k :: 0 <= k < |pauses| ==> pauses[k] == Pause(p, jitter, k + 1)
  }

  lemma PlannedNext(p: Policy, jitter: nat -> int, pauses: seq<int>, pause: int)
    requires Planned(p, jitter, pauses) && pause == Pause(p, jitter, |pauses| + 1)
    ensures Planned(p, jitter, pauses + [pause])
  {
  }

  function Total(pauses: seq<int>): int {
    if pauses == [] then 0 else Total(pauses[..|pauses| - 1]) + pauses[|pauses| - 1]
  }

  lemma {:induction false} TotalCapped(pauses: seq<int>, cap: int)
    requires forall k :: 0 <= k < |pauses| ==> pauses[k] <= cap
    ensures Total(pauses) <= |pauses| * cap
  {
    if pauses != [] {
      var n := |pauses| - 1;
      TotalCapped(pauses[..n], cap);
      assert (n + 1) * cap == n * cap + cap;
    }
  }

  /** All pauses of a policy together take at most one cap per pause, and so one cap per attempt but the last. */
  lemma TotalPause(p: Policy, jitter: nat -> int, pauses: seq<int>)
    requires Planned(p, jitter, pauses)
    ensures Total(pauses) <= |pauses| * p.maxDelay
    ensures |pauses| < p.maxAttempts && p.maxDelay >= 0 ==> Total(pauses) <= (p.maxAttempts - 1) * p.maxDelay
  {
    TotalCapped(pauses, p.maxDelay);
    if |pauses| < p.maxAttempts && p.maxDelay >= 0 {
      MoreTimes(|pauses|, p.maxAttempts - 1, p.maxDelay);
    }
  }

  lemma MoreTimes(m: int, n: int, c: int)
    requires m <= n && 0 <= c
    ensures m * c <= n * c
  {
    assert (n - m) * c >= 0;
  }

  /** The k-th pause and the delay for the next one; `paused` unless the arithmetic overflows before it. */
  method Backoff(p: Policy, jitter: nat -> int, k: nat, delay: int)
    returns (fits: bool, paused: bool, actual: int, next: int)
    requires k >= 1 && delay == Delay(p, k)
    ensures fits == InRange(p, jitter, k) && (fits ==> paused)
    ensures paused ==> actual == Pause(p, jitter, k)
    ensures fits ==> next == Delay(p, k + 1)
  {
    assert Delay(p, k + 1) == Scale(delay, p.multiplier);
    actual, next := delay, 0;
    if p.jitter {
      var percent := jitter(k);
      if !Fits(Stretch(delay, percent)) {
        return false, false, actual, next;
      }
      actual := Quotient(Stretch(delay, percent), 100);
    }
    if actual > p.maxDelay {
      actual := p.maxDelay;
    }
    next := Scale(delay, p.multiplier);
    fits, paused := Fits(next), true;
  }

  /** All pauses together take at most one cap per attempt but the last. */
  predicate WithinCaps(p: Policy, pauses: seq<int>) {
    p.maxAttempts >= 1 && p.maxDelay >= 0 ==> Total(pauses) <= (p.maxAttempts - 1) * p.maxDelay
  }

  lemma PlannedIsCapped(p: Policy, jitter: nat -> int, pauses: seq<int>)
    requires Planned(p, jitter, pauses) && (|pauses| < p.maxAttempts || pauses == [])
    ensures WithinCaps(p, pauses)
  {
    if p.maxAttempts >= 1 { TotalPause(p, jitter, pauses); }
  }

  /** The pause after attempt `k`, which has failed and is not the last. */
  method PauseAfter(p: Policy, jitter: nat -> int, k: nat, delay: int, before: seq<int>)
    returns (fits: bool, pauses: seq<int>, next: int)
    requires 1 <= k < p.maxAttempts && delay == Delay(p, k) && |before| == k - 1 && Planned(p, jitter, before)
    ensures fits == InRange(p, jitter, k) && Planned(p, jitter, pauses) && WithinCaps(p, pauses)
    ensures if fits then |pauses| == k && next == Delay(p, k + 1) else k - 1 <= |pauses| <= k
  {
    pauses := before;
    var paused, actual;
    fits, paused, actual, next := Backoff(p, jitter, k, delay);
    if paused {
      PlannedNext(p, jitter, pauses, actual);
      pauses := pauses + [actual];
    }
    PlannedIsCapped(p, jitter, pauses);
  }

  /**
   Runs the function until it returns true, at most `maxAttempts` times, with a pause
   after every failure but the last.  `fn(k)` is what its k-th run does.
   */
  method Retryable(fn: nat -> Attempt, p: Policy, jitter: nat -> int, errorMsg: string)
    returns (verdict: Verdict, runs: nat, pauses: seq<int>, message: Message)
    ensures runs <= if p.maxAttempts > 0 then p.maxAttempts else 0
    ensures forall k: nat :: 1 <= k < runs ==> (fn(k).No? || fn(k).Raises?) && InRange(p, jitter, k)
    ensures match verdict
      case Succeeded => runs >= 1 && fn(runs).Yes?
      case Propagated => runs >= 1 && fn(runs).RaisesOther?
      case Exhausted =>
        if p.maxAttempts > 0 then runs == p.maxAttempts && (fn(runs).No? || fn(runs).Raises?) else runs == 0
      case Overflowed => 1 <= runs < p.maxAttempts && (fn(runs).No? || fn(runs).Raises?) && !InRange(p, jitter, runs)
    ensures verdict != Overflowed ==> |pauses| == if runs == 0 then 0 else runs - 1
    ensures verdict == Overflowed ==> runs - 1 <= |pauses| <= runs
    ensures Planned(p, jitter, pauses)
    ensures WithinCaps(p, pauses)
    ensures message == if verdict == Exhausted && LastWhat(fn, runs, errorMsg) == "" then ExhaustedNote(p.maxAttempts)
                       else Text(LastWhat(fn, runs, errorMsg))
  {
    var delay := p.initialDelay;
    var text := errorMsg;
    runs, pauses := 0, [];
    PlannedIsCapped(p, jitter, pauses);
    var attempt := 1;
    while attempt <= p.maxAttempts
      invariant attempt == runs + 1 && (runs <= p.maxAttempts || runs == 0)
      invariant forall k: nat :: 1 <= k <= runs ==> fn(k).No? || fn(k).Raises?
      invariant forall k: nat :: 1 <= k <= runs && k < p.maxAttempts ==> InRange(p, jitter, k)
      invariant |pauses| == if runs == p.maxAttempts && runs > 0 then runs - 1 else runs
      invariant Planned(p, jitter, pauses) && WithinCaps(p, pauses)
      invariant runs < p.maxAttempts ==> delay == Delay(p, runs + 1)
      invariant text == LastWhat(fn, runs, errorMsg)
    {
      runs := runs + 1;
      match fn(runs) {
        case Yes => return Succeeded, runs, pauses, Text(text);
        case RaisesOther => return Propagated, runs, pauses, Text(text);
        case Raises(what) => text := what;
        case No =>
      }
      if attempt < p.maxAttempts {
        var fits;
        fits, pauses, delay := PauseAfter(p, jitter, attempt, delay, pauses);
        if !fits {
          return Overflowed, runs, pauses, Text(text);
        }
      }
      attempt := attempt + 1;
    }
    verdict := Exhausted;
    message := if text == "" then ExhaustedNote(p.maxAttempts) else Text(text);
  }

  /** The error text is that of the last run that raised a `std::exception`, or the caller's if none has. */
  lemma {:induction false} LastWhatIsLast(fn: nat -> Attempt, n: nat, initial: string, k: nat)
    requires k <= n && (k > 0 ==> fn(k).Raises?) && forall j: nat :: k < j <= n ==> !fn(j).Raises?
    ensures LastWhat(fn, n, initial) == if k == 0 then initial else fn(k).what
  {
    if k < n { LastWhatIsLast(fn, n - 1, initial, k); }
  }

  /** A pause is the delay raised by its percentage and rounded down, or the cap if that is more. */
  lemma PauseIsRaised(p: Policy, jitter: nat -> int, k: nat)
    requires k >= 1 && Delay(p, k) >= 0 && 0 <= jitter(k) <= 100
    ensures var d, percent := Delay(p, k), if p.jitter then jitter(k) else 0;
      var raised := d * (100 + percent) / 100;
      && Pause(p, jitter, k) == (if raised > p.maxDelay then p.maxDelay else raised)
      && d <= raised <= 2 * d
  {
    RaisedBetween(Delay(p, k), if p.jitter then jitter(k) else 0);
  }

  lemma RaisedBetween(d: int, percent: int)
    requires d >= 0 && 0 <= percent <= 100
    ensures Stretch(d, percent) >= 0 && d <= d * (100 + percent) / 100 <= 2 * d
    ensures percent == 0 ==> d * (100 + percent) / 100 == d
  {
    assert d * 100 <= d * (100 + percent) <= d * 200 by {
      assert d * percent >= 0;
      assert d * (100 - percent) >= 0;
    }
  }

  /** A real number with its fraction cut off. */
  ghost predicate CutsTo(exact: real, n: int) {
    && (exact >= 0.0 ==> n as real <= exact < n as real + 1.0)
    && (exact < 0.0 ==> n as real - 1.0 < exact <= n as real)
  }

  lemma ScaleCuts(d: int, multiplier: real)
    ensures CutsTo(d as real * multiplier, Scale(d, multiplier))
  {
  }

  /** The first delay, and the growth from each delay to the next; `ScaleCuts` says by how much. */
  lemma DelaySteps(p: Policy, k: nat)
    requires k >= 1
    ensures Delay(p, 1) == p.initialDelay
    ensures Delay(p, k + 1) == Scale(Delay(p, k), p.multiplier)
  {
  }

  /** The presets: how often they try, how long they may pause, and how their delays grow. */
  lemma PresetSchedules()
    ensures AGGRESSIVE.maxAttempts == 5 && AGGRESSIVE.maxDelay == 2000
    ensures Delay(AGGRESSIVE, 1) == 50 && Delay(AGGRESSIVE, 2) == 100
    ensures Delay(AGGRESSIVE, 3) == 200 && Delay(AGGRESSIVE, 4) == 400
    ensures MODERATE.maxAttempts == 3 && MODERATE.maxDelay == 5000
    ensures Delay(MODERATE, 1) == 100 && Delay(MODERATE, 2) == 200
    ensures CONSERVATIVE.maxAttempts == 2 && CONSERVATIVE.maxDelay == 10000
    ensures Delay(CONSERVATIVE, 1) == 500 && !CONSERVATIVE.jitter && AGGRESSIVE.jitter && MODERATE.jitter
  {
    DelaysDouble(AGGRESSIVE, 2);
    DelaysDouble(AGGRESSIVE, 3);
    DelaysDouble(AGGRESSIVE, 4);
    DelaysDouble(MODERATE, 2);
    assert Power2(1) == 2 && Power2(2) == 4 && Power2(3) == 8;
  }

  /** Percentages as drawn by the generator. */
  ghost predicate Percentages(jitter: nat -> int) { forall k :: 0 <= jitter(k) <= 100 }

  /** A policy whose delays stay below an hundredth of half the range never overflows. */
  lemma NoOverflow(p: Policy, jitter: nat -> int)
    requires Percentages(jitter)
    requires forall k :: 1 <= k <= p.maxAttempts ==> Fits(200 * Delay(p, k))
    ensures forall k: nat :: 1 <= k < p.maxAttempts ==> InRange(p, jitter, k)
  {
    forall k: nat | 1 <= k < p.maxAttempts ensures InRange(p, jitter, k) {
      StretchBetween(Delay(p, k), jitter(k));
    }
  }

  lemma StretchAtMostDouble(d: int, percent: int)
    requires d >= 0 && 0 <= percent <= 100
    ensures 0 <= Stretch(d, percent) <= 200 * d == Stretch(d, 100)
  {
    assert d * (100 - percent) >= 0;
    assert d * (100 + percent) >= 0;
  }

  /** A stretched delay lies between 0 and twice the delay in hundredths, on the side of its sign. */
  lemma StretchBetween(d: int, percent: int)
    requires 0 <= percent <= 100
    ensures if d >= 0 then 0 <= Stretch(d, percent) <= 200 * d else 200 * d <= Stretch(d, percent) <= 0
  {
    if d >= 0 { StretchAtMostDouble(d, percent); } else { StretchAtMostDouble(-d, percent); }
  }

  /** The condition is exact: a pause is safe for every jitter exactly when doubling its delay is. */
  lemma SafeForEveryJitter(p: Policy, k: nat)
    requires k >= 1 && p.jitter
    ensures (forall jitter: nat -> int :: Percentages(jitter) ==> InRange(p, jitter, k))
       <==> Fits(200 * Delay(p, k)) && Fits(Delay(p, k + 1))
  {
    var worst: nat -> int := (i: nat) => 100;
    assert Percentages(worst) && Stretch(Delay(p, k), worst(k)) == 200 * Delay(p, k);
    forall jitter: nat -> int | Percentages(jitter) && Fits(200 * Delay(p, k)) && Fits(Delay(p, k + 1))
      ensures InRange(p, jitter, k)
    {
      StretchBetween(Delay(p, k), jitter(k));
    }
  }

  /** A delay just above a two-hundredth of the range overflows when the jitter is drawn at its highest. */
  lemma OverflowHappens()
    ensures !InRange(Policy(2, 10_737_419, 20_000_000, 1.0, true), (i: nat) => 100, 1)
  {
  }

  /** With multiplier 2 the delays double. */
  lemma {:induction false} DelaysDouble(p: Policy, k: nat)
    requires k >= 1 && p.multiplier == 2.0
    ensures Delay(p, k) == p.initialDelay * Power2(k - 1)
  {
    if k > 1 {
      DelaysDouble(p, k - 1);
      var d := Delay(p, k - 1);
      assert Scale(d, 2.0) == d * 2;
    }
  }

  /** None of the three presets can overflow, whatever jitter is drawn. */
  lemma PresetsNeverOverflow(p: Policy, jitter: nat -> int)
    requires p == AGGRESSIVE || p == MODERATE || p == CONSERVATIVE
    requires Percentages(jitter)
    ensures forall k: nat :: 1 <= k < p.maxAttempts ==> InRange(p, jitter, k)
  {
    forall k | 1 <= k <= p.maxAttempts ensures Delay(p, k) >= 0 && 200 * Delay(p, k) <= INT_MAX {
      if p == CONSERVATIVE {
        assert Delay(p, 1) == 500;
        assert Scale(500, 1.5) == 750;
      } else {
        DelaysDouble(p, k);
        PowerBelow(k - 1);
      }
    }
    NoOverflow(p, jitter);
  }

  lemma PowerBelow(n: nat)
    requires n <= 4
    ensures Power2(n) <= 16
  {
    assert Power2(4) == 2 * Power2(3) == 4 * Power2(2) == 8 * Power2(1) == 16 * Power2(0);
    if n == 3 { assert Power2(3) == 8; }
  }
}
