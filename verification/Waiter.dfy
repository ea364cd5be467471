/** Polling until a predicate holds or a deadline passes. */
module Waiter {
  import opened Wrappers

  /** How one call of the predicate ends. */
  datatype Poll<+T> = Truthy(value: T) | Falsy | Throws(error: Exn)

  datatype Waited<+T> = Got(value: T) | TimedOut(last: Option<Exn>) | Aborted

  /** A monotonic clock. */
  class Clock {
    var now: real

    constructor ()
    {
      now := 0.0;
    }

    method Pass(time: real)
      requires time >= 0.0
      modifies this
      ensures now == old(now) + time
    {
      now := now + time;
    }
  }

  /** How long one call of the predicate takes, and by how much the sleep after it overshoots. */
  datatype Lap = Lap(call: real, over: real)

  ghost predicate Forward(laps: nat -> Lap) {
    forall k :: laps(k).call >= 0.0 && laps(k).over >= 0.0
  }

  /** When the k-th poll would begin, if none before it ends the wait. */
  function Begins(laps: nat -> Lap, interval: real, k: nat): real {
    if k == 0 then 0.0 else Begins(laps, interval, k - 1) + laps(k - 1).call + interval + laps(k - 1).over
  }

  /** An error the loop tolerates: any exception that is not an interrupt. */
  predicate Tolerated<T>(p: Poll<T>) {
    p.Falsy? || (p.Throws? && !p.error.Interrupt?)
  }

  /** The most polls that can begin before the deadline. */
  function PollLimit(timeout: real, interval: real): int
    requires interval > 0.0
  {
    if timeout <= 0.0 then 0 else -((-(timeout / interval)).Floor)
  }

  /** It is the least number of intervals that cover the timeout. */
  lemma PollLimitExact(timeout: real, interval: real)
    requires interval > 0.0
    ensures var limit := PollLimit(timeout, interval);
            if timeout <= 0.0 then limit == 0
            else limit > 0 && (limit - 1) as real * interval < timeout <= limit as real * interval
  {
    if timeout > 0.0 {
      var quotient, limit := timeout / interval, PollLimit(timeout, interval);
      assert quotient * interval == timeout;
      assert (limit - 1) as real < quotient <= limit as real;
      Scaled((limit - 1) as real, quotient, interval);
      Scaled(quotient, limit as real, interval);
      if limit <= 0 { Scaled(limit as real, 0.0, interval); }
    }
  }

  lemma Scaled(p: real, q: real, c: real)
    requires c > 0.0
    ensures p < q ==> p * c < q * c
    ensures p <= q ==> p * c <= q * c
  {
    assert (q - p) * c == q * c - p * c;
  }

  lemma {:induction false} BeginsAtLeast(laps: nat -> Lap, interval: real, k: nat)
    requires Forward(laps)
    ensures Begins(laps, interval, k) >= k as real * interval
  {
    if k > 0 {
      BeginsAtLeast(laps, interval, k - 1);
      assert k as real * interval == (k - 1) as real * interval + interval;
    }
  }

  lemma BelowLimit(laps: nat -> Lap, timeout: real, interval: real, polls: nat)
    requires interval > 0.0 && Forward(laps) && Begins(laps, interval, polls) < timeout
    ensures polls < PollLimit(timeout, interval)
  {
    BeginsAtLeast(laps, interval, polls);
    BelowQuotient(polls as real, timeout, interval);
  }

  lemma BelowQuotient(p: real, t: real, c: real)
    requires c > 0.0 && p >= 0.0 && p * c < t
    ensures t > 0.0 && p < t / c
  {
    var quotient := t / c;
    assert quotient * c == t;
    assert p * c >= 0.0;
    Scaled(quotient, p, c);
  }

  /** The last error among that many polls: none if none threw, else that of a poll after which
      none threw. */
  ghost predicate LastErrorOf<T(!new)>(poll: nat -> Poll<T>, polls: nat, last: Option<Exn>) {
    match last
    case None => forall k: nat :: k < polls ==> !poll(k).Throws?
    case Some(e) =>
      exists k: nat :: k < polls && poll(k) == Throws(e) && forall j: nat :: k < j < polls ==> !poll(j).Throws?
  }

  lemma NoErrorExact<T(!new)>(poll: nat -> Poll<T>, polls: nat, last: Option<Exn>)
    requires LastErrorOf(poll, polls, last)
    ensures last == None <==> forall k: nat :: k < polls ==> !poll(k).Throws?
  {
  }

  /** `poll(k)` is how the k-th call of the predicate ends, and `laps(k)` how long it and the sleep
      after it take. The loop polls as long as the next poll would begin before the deadline,
      and at most ceil(timeout / interval) times. It returns only what the last call gave, all
      earlier calls having been falsy or errors that are no interrupt; it times out only when
      that is true of every call and the next one would begin at the deadline or later. */
  method WaitUntil<T(!new)>(clock: Clock, poll: nat -> Poll<T>, laps: nat -> Lap, timeout: real, interval: real)
    returns (r: Waited<T>, polls: nat)
    requires interval > 0.0 && Forward(laps)
    modifies clock
    ensures polls <= PollLimit(timeout, interval)
    ensures polls > 0 ==> Begins(laps, interval, polls - 1) < timeout
    ensures forall k: nat :: k + 1 < polls ==> Tolerated(poll(k))
    ensures r.Got? ==> polls > 0 && poll(polls - 1) == Truthy(r.value)
    ensures r.Aborted? ==> polls > 0 && poll(polls - 1) == Throws(Interrupt)
    ensures r.TimedOut? ==> Begins(laps, interval, polls) >= timeout
    ensures r.TimedOut? ==> forall k: nat :: k < polls ==> Tolerated(poll(k))
    ensures r.TimedOut? ==> LastErrorOf(poll, polls, r.last)
    ensures clock.now == old(clock.now) + if r.TimedOut? then Begins(laps, interval, polls)
                                          else Begins(laps, interval, polls - 1) + laps(polls - 1).call
  {
    var deadline := clock.now + timeout;
    polls := 0;
    var last := None;
    while clock.now < deadline
      invariant clock.now == old(clock.now) + Begins(laps, interval, polls)
      invariant polls <= PollLimit(timeout, interval)
      invariant polls > 0 ==> Begins(laps, interval, polls - 1) < timeout
      invariant forall k: nat :: k < polls ==> Tolerated(poll(k))
      invariant LastErrorOf(poll, polls, last)
      decreases PollLimit(timeout, interval) - polls
    {
      BelowLimit(laps, timeout, interval, polls);
      polls := polls + 1;
      clock.Pass(laps(polls - 1).call);
      match poll(polls - 1) {
        case Truthy(v) => return Got(v), polls;
        case Falsy =>
        case Throws(e) =>
          if e.Interrupt? { return Aborted, polls; }
          last := Some(e);
      }
      clock.Pass(interval + laps(polls - 1).over);
    }
    return TimedOut(last), polls;
  }
}
