/** The shared response-body pacer: one deadline moved forward by every caller. */
module Pacer {
  import opened Common

  const NANOSECONDS := 1_000_000_000

  /** Euclidean division of a natural number. */
  function Quotient(a: nat, b: nat): (q: nat)
    requires b > 0
    ensures q * b <= a < q * b + b
  {
    assert a == a / b * b + a % b;
    assert a / b >= 0;
    a / b
  }

  lemma Scale(d: int, e: int, r: int)
    requires d <= e && r >= 0
    ensures d * r <= r * e
  {
    assert (e - d) * r >= 0;
  }

  /** Transmission time of n bytes in whole nanoseconds, rounded down. */
  function Delay(n: nat, rateKbit: int): (d: nat)
    requires rateKbit > 0
  {
    Quotient(n * 8 * NANOSECONDS, rateKbit * 1000)
  }

  /** The deadline after a call that takes the lock at `now`. */
  function Advance(next: int, now: int, n: nat, rateKbit: int): (r: int)
    requires rateKbit > 0
    ensures r >= now && r >= next
  {
    (if next < now then now else next) + Delay(n, rateKbit)
  }

  /** The delay is neither shorter nor longer, to the nanosecond, than the bits take. */
  lemma DelayIsExact(n: nat, rateKbit: int)
    requires rateKbit > 0
    ensures Delay(n, rateKbit) * (rateKbit * 1000) <= n * 8_000_000_000 < (Delay(n, rateKbit) + 1) * (rateKbit * 1000)
  {
    var d, r := Delay(n, rateKbit), rateKbit * 1000;
    assert (d + 1) * r == d * r + r;
  }

  class Pacer {
    var next: int   // nanoseconds

    constructor (start: int)
      ensures next == start
    {
      next := start;
    }

    /** Wait: a caller that is not cancelled returns no earlier than the deadline. The
        transmission begins at the old deadline or now, whichever is later, and takes as
        long as its bits take at the rate, in whole nanoseconds. */
    method Wait(now: int, n: nat, rateKbit: int) returns (deadline: Option<int>)
      modifies this
      ensures rateKbit <= 0 ==> deadline == None && next == old(next)
      ensures rateKbit > 0 ==> deadline == Some(next) && next == Advance(old(next), now, n, rateKbit)
      ensures rateKbit > 0 ==>
                var begin := if old(next) >= now then old(next) else now;
                (next - begin) * (rateKbit * 1000) <= n * 8_000_000_000 < (next - begin + 1) * (rateKbit * 1000)
    {
      if rateKbit <= 0 {
        return None;
      }
      if next < now {
        next := now;
      }
      ghost var begin := next;
      DelayIsExact(n, rateKbit);
      next := next + Delay(n, rateKbit);
      assert next - begin == Delay(n, rateKbit);
      return Some(next);
    }
  }

  /** One call, in the order the lock is taken: when, for how many bytes, and the time
      it returned without error, if it did. */
  datatype Call = Call(now: int, n: nat, returned: Option<int>)

  function NextAfter(next: int, calls: seq<Call>, rateKbit: int): (r: int)
    requires rateKbit > 0
  {
    if calls == [] then next
    else
      var c := calls[|calls| - 1];
      Advance(NextAfter(next, calls[..|calls| - 1], rateKbit), c.now, c.n, rateKbit)
  }

  /** No caller returns before its deadline. */
  ghost predicate Paced(next: int, calls: seq<Call>, rateKbit: int)
    requires rateKbit > 0
  {
    forall i | 0 <= i < |calls| && calls[i].returned.Some? ::
      calls[i].returned.value >= NextAfter(next, calls[..i + 1], rateKbit)
  }

  /** The calls that start at or after t0 and return by t. */
  predicate Within(c: Call, t0: int, t: int) {
    c.now >= t0 && c.returned.Some? && c.returned.value <= t
  }

  function Bytes(calls: seq<Call>, t0: int, t: int): (n: nat) {
    if calls == [] then 0
    else Bytes(calls[..|calls| - 1], t0, t) + if Within(calls[|calls| - 1], t0, t) then calls[|calls| - 1].n else 0
  }

  function Number(calls: seq<Call>, t0: int, t: int): (n: nat) {
    if calls == [] then 0
    else Number(calls[..|calls| - 1], t0, t) + if Within(calls[|calls| - 1], t0, t) then 1 else 0
  }

  function Delays(calls: seq<Call>, t0: int, t: int, rateKbit: int): (n: nat)
    requires rateKbit > 0
  {
    if calls == [] then 0
    else
      Delays(calls[..|calls| - 1], t0, t, rateKbit)
      + if Within(calls[|calls| - 1], t0, t) then Delay(calls[|calls| - 1].n, rateKbit) else 0
  }

  /** The deadline has room for every call in the window, one after the other. */
  lemma {:induction false} Backlog(next: int, calls: seq<Call>, rateKbit: int, t0: int, t: int)
    requires rateKbit > 0
    ensures Number(calls, t0, t) > 0 ==> NextAfter(next, calls, rateKbit) >= t0 + Delays(calls, t0, t, rateKbit)
    ensures Number(calls, t0, t) == 0 ==> Delays(calls, t0, t, rateKbit) == 0
  {
    if calls != [] {
      Backlog(next, calls[..|calls| - 1], rateKbit, t0, t);
    }
  }

  lemma {:induction false} WindowHolds(next: int, calls: seq<Call>, rateKbit: int, t0: int, t: int)
    requires rateKbit > 0 && Paced(next, calls, rateKbit) && t0 <= t
    ensures Delays(calls, t0, t, rateKbit) <= t - t0
  {
    if calls != [] {
      var init, last := calls[..|calls| - 1], calls[|calls| - 1];
      if Within(last, t0, t) {
        Backlog(next, calls, rateKbit, t0, t);
        assert calls[..|calls|] == calls;
        assert calls[|calls| - 1].returned.value >= NextAfter(next, calls[..|calls| - 1 + 1], rateKbit);
      } else {
        forall i | 0 <= i < |init| && init[i].returned.Some?
          ensures init[i].returned.value >= NextAfter(next, init[..i + 1], rateKbit) {
          assert init[..i + 1] == calls[..i + 1] && init[i] == calls[i];
        }
        WindowHolds(next, init, rateKbit, t0, t);
      }
    }
  }

  lemma DelayCovers(n: nat, rateKbit: int)
    requires rateKbit > 0
    ensures n * 8 * NANOSECONDS <= Delay(n, rateKbit) * (rateKbit * 1000) + (rateKbit * 1000 - 1)
  {
  }

  lemma {:induction false} BytesCovered(calls: seq<Call>, t0: int, t: int, rateKbit: int)
    requires rateKbit > 0
    ensures Bytes(calls, t0, t) * 8 * NANOSECONDS <=
            Delays(calls, t0, t, rateKbit) * (rateKbit * 1000) + Number(calls, t0, t) * (rateKbit * 1000 - 1)
  {
    if calls != [] {
      var init, last := calls[..|calls| - 1], calls[|calls| - 1];
      BytesCovered(init, t0, t, rateKbit);
      if Within(last, t0, t) {
        DelayCovers(last.n, rateKbit);
        AddCovered(Bytes(init, t0, t), last.n, Delays(init, t0, t, rateKbit), Delay(last.n, rateKbit),
                   Number(init, t0, t), rateKbit * 1000);
      }
    }
  }

  lemma AddCovered(b: nat, n: nat, d: nat, e: nat, k: nat, r: int)
    requires b * 8 * NANOSECONDS <= d * r + k * (r - 1) && n * 8 * NANOSECONDS <= e * r + (r - 1)
    ensures (b + n) * 8 * NANOSECONDS <= (d + e) * r + (k + 1) * (r - 1)
  {
    assert (d + e) * r == d * r + e * r;
    assert (k + 1) * (r - 1) == k * (r - 1) + (r - 1);
  }

  /** The rate bound, for any concurrent callers at a constant rate: the bits of all
      calls that start at or after t0 and return by t are at most the rate times the
      elapsed time, with less than one nanosecond of rounding per call. */
  lemma RateBound(next: int, calls: seq<Call>, rateKbit: int, t0: int, t: int)
    requires rateKbit > 0 && Paced(next, calls, rateKbit) && t0 <= t
    ensures Bytes(calls, t0, t) * 8 * NANOSECONDS <=
            rateKbit * 1000 * (t - t0) + Number(calls, t0, t) * (rateKbit * 1000 - 1)
  {
    WindowHolds(next, calls, rateKbit, t0, t);
    BytesCovered(calls, t0, t, rateKbit);
    Scale(Delays(calls, t0, t, rateKbit), t - t0, rateKbit * 1000);
  }

  function Total(calls: seq<Call>): (n: nat) {
    if calls == [] then 0 else Total(calls[..|calls| - 1]) + calls[|calls| - 1].n
  }

  /** Every call comes while the line is still busy. */
  ghost predicate Busy(next: int, calls: seq<Call>, rateKbit: int)
    requires rateKbit > 0
  {
    forall i | 0 <= i < |calls| :: calls[i].now <= NextAfter(next, calls[..i], rateKbit)
  }

  /** The other side of the rate bound: while the line is busy no time is lost, so the last
      deadline is no later than the bits of all calls take at the rate. */
  lemma {:induction false} NoTimeIsLost(next: int, calls: seq<Call>, rateKbit: int)
    requires rateKbit > 0 && Busy(next, calls, rateKbit)
    ensures (NextAfter(next, calls, rateKbit) - next) * (rateKbit * 1000) <= Total(calls) * 8_000_000_000
  {
    if calls != [] {
      var init, last := calls[..|calls| - 1], calls[|calls| - 1];
      forall i | 0 <= i < |init| ensures init[i].now <= NextAfter(next, init[..i], rateKbit) {
        assert init[..i] == calls[..i] && init[i] == calls[i];
      }
      NoTimeIsLost(next, init, rateKbit);
      assert last.now <= NextAfter(next, calls[..|calls| - 1], rateKbit);
      DelayIsExact(last.n, rateKbit);
      AddTimes(NextAfter(next, init, rateKbit) - next, Delay(last.n, rateKbit), rateKbit * 1000);
    }
  }

  lemma AddTimes(a: int, b: int, r: int)
    ensures (a + b) * r == a * r + b * r
  {
  }
}
