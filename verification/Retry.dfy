/** `retry`: the attempts it makes and how long it waits between them. */
module Retry {
  import opened FetchPool

  /** One attempt: its outcome and the wait the server asked for. */
  datatype Try = Try(outcome: Outcome, after: nat)

  datatype End = Succeeded | GaveUp | Exhausted | Cancelled

  /** The loop variable `delay` before the wait with index i. */
  function DelayAt(backoff: nat, maxBackoff: nat, i: nat): (d: nat) {
    if i == 0 then backoff
    else
      var d := DelayAt(backoff, maxBackoff, i - 1);
      if d < maxBackoff / 2 then d * 2 else maxBackoff
  }

  /** d doubled i times. */
  function Doubled(d: nat, i: nat): (r: nat) {
    if i == 0 then d else 2 * Doubled(d, i - 1)
  }

  lemma {:induction false} DoubledGrows(d: nat, i: nat)
    ensures d <= Doubled(d, i)
  {
    if i > 0 { DoubledGrows(d, i - 1); }
  }

  /** Exponential backoff in closed form: the delay doubles for as long as the double
      stays below the maximum, and is the maximum from then on. */
  lemma {:induction false} BackoffIsExponential(backoff: nat, maxBackoff: nat, i: nat)
    requires 0 < backoff <= maxBackoff
    ensures DelayAt(backoff, maxBackoff, i) ==
            if i == 0 || Doubled(backoff, i - 1) < maxBackoff / 2 then Doubled(backoff, i) else maxBackoff
    ensures backoff <= DelayAt(backoff, maxBackoff, i) <= maxBackoff
    ensures i > 0 ==> DelayAt(backoff, maxBackoff, i - 1) <= DelayAt(backoff, maxBackoff, i)
  {
    DoubledGrows(backoff, i);
    if i > 0 { BackoffIsExponential(backoff, maxBackoff, i - 1); }
  }

  /** One wait: at least what the server asked for; for any other reason never above the
      maximum or five quarters of the delay; and above three quarters of the delay less
      one unless that is more than the maximum. */
  ghost predicate WaitOk(d: int, delay: nat, maxBackoff: nat, after: nat) {
    && after <= d && (d == after || (d <= maxBackoff && 4 * d <= 5 * delay))
    && (d >= maxBackoff || 4 * d > 3 * delay - 4)
  }

  lemma Scaled(d: real, low: real, high: real)
    requires d >= 0.0 && low <= high
    ensures d * low <= d * high
  {
    assert d * (high - low) >= 0.0;
  }

  lemma Rounded(x: real, delay: nat)
    requires delay as real * 0.75 <= x <= delay as real * 1.25
    ensures 3 * delay - 4 < 4 * x.Floor <= 5 * delay
  {
    var d := x.Floor;
    assert d as real <= x < d as real + 1.0;
    assert (4 * d) as real <= (5 * delay) as real;
    assert (3 * delay) as real < (4 * d + 4) as real;
  }

  /** The delay with a random factor, in whole nanoseconds. */
  function Jittered(delay: nat, factor: real): (d: int)
    requires 0.75 <= factor < 1.25
    ensures 3 * delay - 4 < 4 * d <= 5 * delay
  {
    Scaled(delay as real, 0.75, factor);
    Scaled(delay as real, factor, 1.25);
    Rounded(delay as real * factor, delay);
    (delay as real * factor).Floor
  }

  /** The wait after an attempt. */
  function WaitFor(delay: nat, factor: real, maxBackoff: nat, after: nat): (d: int)
    requires 0.75 <= factor < 1.25
    ensures WaitOk(d, delay, maxBackoff, after)
  {
    var d := Jittered(delay, factor);
    var capped := if d > maxBackoff then maxBackoff else d;
    if after > capped then after else capped
  }

  /** The waits made so far, each with the delay and the reply it belongs to. */
  ghost predicate Waited(waits: seq<int>, backoff: nat, maxBackoff: nat, tries: nat -> Try) {
    forall i | 0 <= i < |waits| :: WaitOk(waits[i], DelayAt(backoff, maxBackoff, i), maxBackoff, tries(i).after)
  }

  ghost predicate AllRetryable(tries: nat -> Try, n: nat) {
    forall i: nat | i < n :: tries(i).outcome == Retryable
  }

  /** retry. `tries(i)` is attempt i; `jitter(i)` the random factor of wait i; `before(i)`
      and `during(i)` tell whether the context is seen done before attempt i and during
      wait i. Without a bound on attempts a run that always meets retryable errors ends
      only when it is cancelled, at the latest before attempt `horizon`. */
  method Retry(backoff: nat, maxBackoff: nat, maxAttempts: int, tries: nat -> Try, jitter: nat -> real,
               before: nat -> bool, during: nat -> bool, ghost horizon: nat)
      returns (end: End, attempts: nat, waits: seq<int>)
    requires 0 < backoff <= maxBackoff && (maxAttempts > 0 || before(horizon))
    requires forall i :: 0.75 <= jitter(i) < 1.25
    ensures end == Succeeded <==> attempts > 0 && tries(attempts - 1).outcome == Committed
    ensures end == GaveUp <==> attempts > 0 && tries(attempts - 1).outcome == Permanent
    ensures end == Exhausted ==> 0 < maxAttempts == attempts
    ensures end == Cancelled ==> before(attempts) || (attempts > 0 && during(attempts - 1))
    ensures AllRetryable(tries, if end in {Succeeded, GaveUp} then attempts - 1 else attempts)
    ensures maxAttempts > 0 ==> attempts <= maxAttempts
    ensures |waits| == (if end == Cancelled then attempts else attempts - 1)
            && Waited(waits, backoff, maxBackoff, tries)
  {
    var delay := backoff;
    attempts, waits := 0, [];
    while !before(attempts)
      invariant |waits| == attempts && delay == DelayAt(backoff, maxBackoff, attempts)
      invariant AllRetryable(tries, attempts) && Waited(waits, backoff, maxBackoff, tries)
      invariant if maxAttempts > 0 then attempts < maxAttempts else attempts <= horizon
      decreases (if maxAttempts > 0 then maxAttempts else horizon) - attempts
    {
      var t, factor := tries(attempts), jitter(attempts);
      attempts := attempts + 1;
      match t.outcome {
        case Committed => return Succeeded, attempts, waits;
        case Permanent => return GaveUp, attempts, waits;
        case Retryable =>
      }
      if maxAttempts > 0 && attempts >= maxAttempts {
        return Exhausted, attempts, waits;
      }
      waits := waits + [WaitFor(delay, factor, maxBackoff, t.after)];
      if during(attempts - 1) {
        return Cancelled, attempts, waits;
      }
      delay := if delay < maxBackoff / 2 then delay * 2 else maxBackoff;
    }
    return Cancelled, attempts, waits;
  }
}
