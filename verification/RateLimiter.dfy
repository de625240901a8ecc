/** The request rate limiter as a run of calls against the clock. */
module RateLimiter {

  datatype Rate = Rate(requests: nat, period: nat)

  // `used` counts granted and refused calls alike.
  datatype Bucket = Bucket(nextRefill: nat, used: nat)

  function Fresh(rate: Rate, now: nat): Bucket {
    Bucket(now + rate.period, 0)
  }

  function Allow(b: Bucket, rate: Rate, now: nat): (Bucket, bool) {
    if b.used < rate.requests then (b.(used := b.used + 1), true)
    else if b.nextRefill <= now then (Bucket(now + rate.period, 1), true)
    else (b.(used := b.used + 1), false)
  }

  class Limiter {
    var nextRefill: nat
    var usedTokens: nat

    ghost function View(): Bucket
      reads this
    {
      Bucket(nextRefill, usedTokens)
    }

    constructor (rate: Rate, now: nat)
      ensures View() == Fresh(rate, now)
    {
      nextRefill, usedTokens := now + rate.period, 0;
    }

    method IsAllowed(rate: Rate, now: nat) returns (r: bool)
      modifies this
      ensures (View(), r) == Allow(old(View()), rate, now)
    {
      var used := usedTokens;
      usedTokens := usedTokens + 1;
      if used < rate.requests {
        return true;
      }
      if nextRefill <= now {
        nextRefill := now + rate.period;
        usedTokens := 1;
        return true;
      }
      r := false;
    }

    /** The soft check foretells the call, without making it. */
    method IsAllowedSoft(rate: Rate, now: nat) returns (r: bool)
      ensures r == Allow(View(), rate, now).1
    {
      r := usedTokens < rate.requests || nextRefill <= now;
    }
  }

  // ---- Runs ----

  predicate Sorted(times: seq<nat>) {
    forall i, j | 0 <= i < j < |times| :: times[i] <= times[j]
  }

  // The calls granted at times from lo up to, not including, hi.
  function Granted(b: Bucket, rate: Rate, times: seq<nat>, lo: nat, hi: nat): nat
    decreases |times|
  {
    if times == [] then 0
    else
      var (next, ok) := Allow(b, rate, times[0]);
      (if ok && lo <= times[0] < hi then 1 else 0) + Granted(next, rate, times[1..], lo, hi)
  }

  // An interval of one period.
  function GrantedInWindow(b: Bucket, rate: Rate, times: seq<nat>, lo: nat): nat {
    Granted(b, rate, times, lo, lo + rate.period)
  }

  function Left(b: Bucket, rate: Rate): nat {
    if b.used < rate.requests then rate.requests - b.used else 0
  }

  // What one refill hands out: itself, and the rest of the requests.
  function PerRefill(rate: Rate): nat {
    if rate.requests == 0 then 1 else rate.requests
  }

  lemma {:induction false} NoneAfter(b: Bucket, rate: Rate, times: seq<nat>, lo: nat, hi: nat)
    requires forall i | 0 <= i < |times| :: times[i] >= hi
    ensures Granted(b, rate, times, lo, hi) == 0
    decreases |times|
  {
    if times != [] {
      NoneAfter(Allow(b, rate, times[0]).0, rate, times[1..], lo, hi);
    }
  }

  // No refill falls before hi.
  lemma {:induction false} WithoutRefill(b: Bucket, rate: Rate, times: seq<nat>, lo: nat, hi: nat)
    requires Sorted(times) && b.nextRefill >= hi
    ensures Granted(b, rate, times, lo, hi) <= Left(b, rate)
    decreases |times|
  {
    if times != [] {
      var next := Allow(b, rate, times[0]).0;
      if times[0] >= hi {
        NoneAfter(b, rate, times, lo, hi);
      } else {
        WithoutRefill(next, rate, times[1..], lo, hi);
      }
    }
  }

  // At most one refill falls in an interval one period long.
  lemma {:induction false} WithOneRefill(b: Bucket, rate: Rate, times: seq<nat>, lo: nat)
    requires Sorted(times) && forall i | 0 <= i < |times| :: times[i] >= lo
    ensures GrantedInWindow(b, rate, times, lo) <= Left(b, rate) + PerRefill(rate)
    decreases |times|
  {
    if times != [] {
      var next := Allow(b, rate, times[0]).0;
      if b.used >= rate.requests && b.nextRefill <= times[0] {
        WithoutRefill(next, rate, times[1..], lo, lo + rate.period);
      } else {
        WithOneRefill(next, rate, times[1..], lo);
      }
    }
  }

  /** From any state, under any non-decreasing clock, an interval of one period sees at most
      twice the allowed requests, and one grant when none are allowed. */
  lemma {:induction false} WindowBound(b: Bucket, rate: Rate, times: seq<nat>, lo: nat)
    requires Sorted(times)
    ensures GrantedInWindow(b, rate, times, lo) <= rate.requests + PerRefill(rate)
    ensures rate.requests >= 1 ==> GrantedInWindow(b, rate, times, lo) <= 2 * rate.requests
    decreases |times|
  {
    if times != [] {
      if times[0] < lo {
        WindowBound(Allow(b, rate, times[0]).0, rate, times[1..], lo);
      } else {
        WithOneRefill(b, rate, times, lo);
      }
    }
  }

  // ---- What is always granted ----

  // Every call is granted.
  predicate AllGranted(b: Bucket, rate: Rate, times: seq<nat>)
    decreases |times|
  {
    times != [] ==> Allow(b, rate, times[0]).1 && AllGranted(Allow(b, rate, times[0]).0, rate, times[1..])
  }

  /** What is left of the requests is granted at any times. */
  lemma {:induction false} RestIsGranted(b: Bucket, rate: Rate, times: seq<nat>)
    requires b.used + |times| <= rate.requests
    ensures AllGranted(b, rate, times)
    decreases |times|
  {
    if times != [] {
      RestIsGranted(b.(used := b.used + 1), rate, times[1..]);
    }
  }

  /** Once the refill is due, however late, as many calls as a refill hands out are granted, whatever was used before. */
  lemma {:induction false} RefillIsGranted(b: Bucket, rate: Rate, times: seq<nat>)
    requires |times| <= PerRefill(rate) && forall i | 0 <= i < |times| :: b.nextRefill <= times[i]
    ensures AllGranted(b, rate, times)
    decreases |times|
  {
    if times != [] {
      if b.used < rate.requests {
        RefillIsGranted(b.(used := b.used + 1), rate, times[1..]);
      } else if rate.requests > 0 {
        RestIsGranted(Bucket(times[0] + rate.period, 1), rate, times[1..]);
      }
    }
  }

  /** With the requests used up and the refill not due, every call is refused. */
  lemma {:induction false} NoneIsGranted(b: Bucket, rate: Rate, times: seq<nat>, lo: nat, hi: nat)
    requires b.used >= rate.requests && forall i | 0 <= i < |times| :: times[i] < b.nextRefill
    ensures Granted(b, rate, times, lo, hi) == 0
    decreases |times|
  {
    if times != [] {
      NoneIsGranted(b.(used := b.used + 1), rate, times[1..], lo, hi);
    }
  }

  // ---- The bound is reached ----

  function Repeat(t: nat, n: nat): (s: seq<nat>)
    ensures |s| == n && forall i | 0 <= i < n :: s[i] == t
  {
    seq(n, i => t)
  }

  lemma {:induction false} Burst(b: Bucket, rate: Rate, t: nat, n: nat, rest: seq<nat>, lo: nat, hi: nat)
    requires lo <= t < hi && b.used + n <= rate.requests
    ensures Granted(b, rate, Repeat(t, n) + rest, lo, hi) == n + Granted(b.(used := b.used + n), rate, rest, lo, hi)
    decreases n
  {
    var times := Repeat(t, n) + rest;
    if n == 0 {
      assert times == rest;
    } else {
      Burst(b.(used := b.used + 1), rate, t, n - 1, rest, lo, hi);
      assert times[1..] == Repeat(t, n - 1) + rest;
    }
  }

  // Enough calls at the moment of the first refill to use up what is left and then the refill.
  function TwoBursts(rate: Rate): seq<nat> {
    Repeat(rate.period, rate.requests) + Repeat(rate.period, PerRefill(rate))
  }

  lemma SecondBurst(rate: Rate, lo: nat, hi: nat)
    requires lo <= rate.period < hi
    ensures Granted(Bucket(rate.period, rate.requests), rate, Repeat(rate.period, PerRefill(rate)), lo, hi) == PerRefill(rate)
  {
    var p, n := rate.period, PerRefill(rate);
    assert Repeat(p, n)[1..] == Repeat(p, n - 1) + [];
    if rate.requests > 0 {
      Burst(Bucket(p + p, 1), rate, p, n - 1, [], lo, hi);
    }
  }

  /** The bound is met by a limiter that was just created. */
  lemma BoundIsReached(rate: Rate)
    requires rate.period >= 1
    ensures Sorted(TwoBursts(rate))
    ensures GrantedInWindow(Fresh(rate, 0), rate, TwoBursts(rate), rate.period) == rate.requests + PerRefill(rate)
  {
    var p := rate.period;
    Burst(Fresh(rate, 0), rate, p, rate.requests, Repeat(p, PerRefill(rate)), p, p + p);
    SecondBurst(rate, p, p + p);
  }

  lemma {:induction false} EmptyWindow(b: Bucket, rate: Rate, times: seq<nat>, lo: nat)
    ensures Granted(b, rate, times, lo, lo) == 0
    decreases |times|
  {
    if times != [] {
      EmptyWindow(Allow(b, rate, times[0]).0, rate, times[1..], lo);
    }
  }

  /** Twice the allowed requests is a bound exactly when some are allowed or the period is no whole second. */
  lemma TwiceBoundsExactly(rate: Rate)
    ensures rate.requests >= 1 || rate.period == 0 <==>
      forall b, times: seq<nat>, lo: nat | Sorted(times) :: GrantedInWindow(b, rate, times, lo) <= 2 * rate.requests
  {
    if rate.requests >= 1 || rate.period == 0 {
      forall b, times: seq<nat>, lo: nat | Sorted(times)
        ensures GrantedInWindow(b, rate, times, lo) <= 2 * rate.requests
      {
        WindowBound(b, rate, times, lo);
        EmptyWindow(b, rate, times, lo);
      }
    } else {
      BoundIsReached(rate);
    }
  }
}
