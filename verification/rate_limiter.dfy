// The token bucket of internal/alerting/notifiers.go. Times are nanoseconds.
module RateLimiters {

  const HOUR := 3_600_000_000_000

  // Integer conversion of a quotient: rounding toward zero.
  function Truncated(a: int): int {
    if a >= 0 then a / HOUR else -((-a) / HOUR)
  }

  // int(elapsed.Hours() * float64(max)), over the reals.
  function Accrued(elapsed: int, max: int): int {
    Truncated(elapsed * max)
  }

  datatype Bucket = Bucket(tokens: int, max: int, last: int) {
    // What every call finds in a limiter made for a non-negative rate.
    predicate Valid() { 0 <= tokens <= max }
  }

  function Refill(b: Bucket, now: int): Bucket {
    var add := Accrued(now - b.last, b.max);
    if add <= 0 then b
    else Bucket(if b.tokens + add > b.max then b.max else b.tokens + add, b.max, now)
  }

  function Take(b: Bucket): (Bucket, bool) {
    if b.tokens > 0 then (b.(tokens := b.tokens - 1), true) else (b, false)
  }

  function Step(b: Bucket, now: int): (Bucket, bool) {
    Take(Refill(b, now))
  }

  class RateLimiter {
    var tokens: int
    var maxTokens: int
    var lastRefill: int

    ghost function View(): Bucket
      reads this
    {
      Bucket(tokens, maxTokens, lastRefill)
    }

    constructor (maxPerHour: int, now: int)
      ensures View() == Bucket(maxPerHour, maxPerHour, now)
    {
      tokens, maxTokens, lastRefill := maxPerHour, maxPerHour, now;
    }

    method Allow(now: int) returns (ok: bool)
      modifies this
      ensures (View(), ok) == Step(old(View()), now)
      ensures old(View()).Valid() ==> View().Valid()
    {
      var elapsed := now - lastRefill;
      var tokensToAdd := Accrued(elapsed, maxTokens);
      if tokensToAdd > 0 {
        tokens := tokens + tokensToAdd;
        if tokens > maxTokens {
          tokens := maxTokens;
        }
        lastRefill := now;
      }
      if tokens > 0 {
        tokens := tokens - 1;
        return true;
      }
      return false;
    }
  }

  // ---- Runs ----

  // The bucket after calls at the given times, and how many were allowed.
  function Run(b: Bucket, times: seq<int>): (Bucket, nat)
    decreases |times|
  {
    if times == [] then (b, 0)
    else
      var first := Step(b, times[0]);
      var rest := Run(first.0, times[1..]);
      (rest.0, rest.1 + if first.1 then 1 else 0)
  }

  // A clock that does not run backwards, from start on.
  predicate Monotone(start: int, times: seq<int>)
    decreases |times|
  {
    times == [] || (start <= times[0] && Monotone(times[0], times[1..]))
  }

  lemma StepKeeps(b: Bucket, now: int)
    requires b.Valid() && b.last <= now
    ensures Step(b, now).0.Valid() && Step(b, now).0.max == b.max
    ensures b.last <= Step(b, now).0.last <= now
  {}

  lemma {:induction false} RunKeeps(b: Bucket, times: seq<int>)
    requires b.Valid() && Monotone(b.last, times)
    ensures Run(b, times).0.Valid() && Run(b, times).0.max == b.max
    ensures b.last <= Run(b, times).0.last
    ensures times != [] ==> Run(b, times).0.last <= times[|times| - 1]
    decreases |times|
  {
    if times != [] {
      StepKeeps(b, times[0]);
      var next := Step(b, times[0]).0;
      assert Monotone(next.last, times[1..]);
      RunKeeps(next, times[1..]);
    }
  }

  lemma MulMonotone(a: int, b: int, m: int)
    requires a <= b && m >= 0
    ensures a * m <= b * m
  {}

  lemma AccruedBounds(elapsed: int, max: int)
    requires elapsed >= 0 && max >= 0
    ensures Accrued(elapsed, max) >= 0
    ensures Accrued(elapsed, max) * HOUR <= elapsed * max < Accrued(elapsed, max) * HOUR + HOUR
  {
    MulMonotone(0, elapsed, max);
  }

  lemma AccruedMonotone(x: int, y: int, max: int)
    requires 0 <= x <= y && max >= 0
    ensures 0 <= Accrued(x, max) <= Accrued(y, max)
  {
    AccruedBounds(x, max);
    AccruedBounds(y, max);
    MulMonotone(x, y, max);
  }

  // Splitting an interval never accrues more than the whole.
  lemma AccruedSplits(x: int, y: int, max: int)
    requires x >= 0 && y >= 0 && max >= 0
    ensures Accrued(x, max) + Accrued(y, max) <= Accrued(x + y, max) <= Accrued(x, max) + Accrued(y, max) + 1
  {
    AccruedBounds(x, max);
    AccruedBounds(y, max);
    AccruedBounds(x + y, max);
    assert (x + y) * max == x * max + y * max;
  }

  // ---- Upper bound ----

  // What a run can spend: the tokens at hand and what accrues until end.
  lemma {:induction false} Budget(b: Bucket, times: seq<int>, end: int)
    requires b.Valid() && Monotone(b.last, times) && b.last <= end
    requires forall i :: 0 <= i < |times| ==> times[i] <= end
    ensures Run(b, times).1 <= b.tokens + Accrued(end - b.last, b.max)
    decreases |times|
  {
    AccruedBounds(end - b.last, b.max);
    if times != [] {
      var now := times[0];
      StepKeeps(b, now);
      var next := Step(b, now).0;
      Budget(next, times[1..], end);
      AccruedSplits(now - b.last, end - now, b.max);
      AccruedBounds(now - b.last, b.max);
    }
  }

  // Over any window, at most max + 1 calls more than what the window accrues.
  lemma WindowBound(b: Bucket, times: seq<int>, t1: int, t2: int)
    requires b.Valid() && b.last <= t1 <= t2 && Monotone(t1, times)
    requires forall i :: 0 <= i < |times| ==> times[i] <= t2
    ensures Run(b, times).1 <= b.max + 1 + Accrued(t2 - t1, b.max)
  {
    if times == [] {
      AccruedMonotone(0, t2 - t1, b.max);
    } else if Accrued(times[0] - b.last, b.max) == 0 {
      WindowWithoutRefill(b, times, t2, t2 - t1);
    } else {
      WindowWithRefill(b, times, t2, t2 - t1);
    }
  }

  lemma WindowWithoutRefill(b: Bucket, times: seq<int>, t2: int, d: int)
    requires b.Valid() && times != [] && Monotone(b.last, times) && t2 - times[0] <= d
    requires forall i :: 0 <= i < |times| ==> times[i] <= t2
    requires Accrued(times[0] - b.last, b.max) == 0
    ensures Run(b, times).1 <= b.max + 1 + Accrued(d, b.max)
  {
    Budget(b, times, t2);
    AccruedBetween(b.last, times[0], t2, b.max);
    AccruedMonotone(t2 - times[0], d, b.max);
  }

  lemma WindowWithRefill(b: Bucket, times: seq<int>, t2: int, d: int)
    requires b.Valid() && times != [] && Monotone(b.last, times) && t2 - times[0] <= d
    requires forall i :: 0 <= i < |times| ==> times[i] <= t2
    requires Accrued(times[0] - b.last, b.max) != 0
    ensures Run(b, times).1 <= b.max + Accrued(d, b.max)
  {
    RefilledRun(b, times);
    FullAtMost(b, times[0]);
    Budget(Refill(b, times[0]), times, t2);
    AccruedMonotone(t2 - times[0], d, b.max);
  }

  lemma AccruedBetween(x: int, y: int, z: int, max: int)
    requires x <= y <= z && max >= 0
    ensures Accrued(z - x, max) <= Accrued(y - x, max) + Accrued(z - y, max) + 1
  {
    AccruedSplits(y - x, z - y, max);
    assert (y - x) + (z - y) == z - x;
  }

  lemma FullAtMost(b: Bucket, now: int)
    requires b.Valid() && b.last <= now && Accrued(now - b.last, b.max) != 0
    ensures Refill(b, now).Valid() && Refill(b, now).last == now && Refill(b, now).max == b.max
  {
    AccruedBounds(now - b.last, b.max);
  }

  // A refill at the time of the first call changes nothing.
  lemma RefilledRun(b: Bucket, times: seq<int>)
    requires b.Valid() && times != [] && b.last <= times[0]
    ensures Run(Refill(b, times[0]), times) == Run(b, times)
  {
    AccruedBounds(0, b.max);
    AccruedBounds(times[0] - b.last, b.max);
    assert Refill(Refill(b, times[0]), times[0]) == Refill(b, times[0]);
  }

  // The bound is reached: a full bucket emptied just before a token accrues.
  lemma WindowBoundTight(max: int)
    returns (times: seq<int>, t1: int, t2: int)
    requires 1 <= max < HOUR
    ensures 0 <= t1 <= t2 && Monotone(t1, times) && forall i :: 0 <= i < |times| ==> times[i] <= t2
    ensures Run(Bucket(max, max, 0), times).1 == max + 1 + Accrued(t2 - t1, max)
  {
    t1 := (HOUR - 1) / max;
    t2 := t1 + 1;
    assert t1 * max < HOUR <= t2 * max by {
      assert HOUR - 1 == t1 * max + (HOUR - 1) % max;
      assert t2 * max == t1 * max + max;
    }
    times := seq(max, _ => t1) + [t2];
    MulMonotone(0, t1, max);
    Burst(Bucket(max, max, 0), max, t1, t2);
  }

  // With no tokens at all, or one every nanosecond, no run reaches it.
  lemma WindowBoundMissed(b: Bucket, times: seq<int>, t1: int, t2: int)
    requires b.Valid() && b.last <= t1 <= t2 && Monotone(t1, times)
    requires forall i :: 0 <= i < |times| ==> times[i] <= t2
    requires b.max == 0 || b.max >= HOUR
    ensures Run(b, times).1 <= b.max + Accrued(t2 - t1, b.max)
  {
    if times == [] {
      AccruedMonotone(0, t2 - t1, b.max);
    } else if Accrued(times[0] - b.last, b.max) == 0 {
      AllOrNothing(b, times, t2, t2 - t1);
    } else {
      WindowWithRefill(b, times, t2, t2 - t1);
    }
  }

  lemma AllOrNothing(b: Bucket, times: seq<int>, t2: int, d: int)
    requires b.Valid() && times != [] && Monotone(b.last, times) && t2 - times[0] <= d
    requires forall i :: 0 <= i < |times| ==> times[i] <= t2
    requires (b.max == 0 || b.max >= HOUR) && Accrued(times[0] - b.last, b.max) == 0
    ensures Run(b, times).1 <= b.max + Accrued(d, b.max)
  {
    Budget(b, times, t2);
    AtOnceOrNever(times[0] - b.last, t2 - b.last, t2 - times[0], b.max);
    AccruedMonotone(t2 - times[0], d, b.max);
  }

  lemma AtOnceOrNever(early: int, whole: int, late: int, max: int)
    requires early >= 0 && late >= 0 && whole == early + late
    requires (max == 0 || max >= HOUR) && Accrued(early, max) == 0
    ensures Accrued(whole, max) == Accrued(late, max)
  {
    AccruedBounds(early, max);
    if early >= 1 {
      MulMonotone(1, early, max);
    }
  }

  lemma {:induction false} Burst(b: Bucket, k: nat, t1: int, t2: int)
    requires b.tokens == k && b.max >= 1 && b.last == 0 <= t1 <= t2
    requires t1 * b.max < HOUR <= t2 * b.max
    ensures Monotone(t1, seq(k, _ => t1) + [t2])
    ensures Run(b, seq(k, _ => t1) + [t2]).1 == k + 1
    decreases k
  {
    var times := seq(k, _ => t1) + [t2];
    MulMonotone(0, t1, b.max);
    if k == 0 {
      assert times[1..] == [];
    } else {
      assert times[0] == t1 && times[1..] == seq(k - 1, _ => t1) + [t2];
      Burst(b.(tokens := k - 1), k - 1, t1, t2);
    }
  }

  // ---- Denials ----

  // A call is denied exactly when the bucket is empty and no token has accrued.
  lemma DeniedExactly(b: Bucket, now: int)
    requires b.Valid() && b.last <= now && b.max >= 1
    ensures !Step(b, now).1 <==> b.tokens == 0 && (now - b.last) * b.max < HOUR
    ensures !Step(b, now).1 ==> Step(b, now).0 == b
  {
    AccruedBounds(now - b.last, b.max);
  }

  // The next call after a denial at t is allowed once hour/max has passed.
  lemma NextCallAllowed(b: Bucket, t: int, now: int)
    requires b.Valid() && b.last <= t <= now && b.max >= 1
    requires !Step(b, t).1 && (now - t) * b.max >= HOUR
    ensures Step(Step(b, t).0, now).1
  {
    DeniedExactly(b, t);
    DeniedExactly(b, now);
    MulMonotone(now - t, now - b.last, b.max);
  }

  // Whatever calls come between: by then at least one of them was allowed.
  lemma SomeCallAllowed(b: Bucket, t: int, times: seq<int>)
    requires b.Valid() && b.last <= t && b.max >= 1 && !Step(b, t).1
    requires times != [] && Monotone(t, times) && (times[|times| - 1] - t) * b.max >= HOUR
    ensures Run(Step(b, t).0, times).1 >= 1
  {
    DeniedExactly(b, t);
    LateCallAllowed(b, t, times);
  }

  lemma {:induction false} LateCallAllowed(b: Bucket, t: int, times: seq<int>)
    requires b.Valid() && b.last <= t && b.max >= 1
    requires times != [] && Monotone(t, times) && (times[|times| - 1] - t) * b.max >= HOUR
    ensures Run(b, times).1 >= 1
    decreases |times|
  {
    DeniedExactly(b, times[0]);
    if |times| == 1 {
      MulMonotone(times[0] - t, times[0] - b.last, b.max);
    } else if !Step(b, times[0]).1 {
      assert Monotone(t, times[1..]);
      LateCallAllowed(b, t, times[1..]);
    }
  }

  // One more call at the end of a run.
  lemma {:induction false} RunOneMore(b: Bucket, times: seq<int>, now: int)
    ensures var r, last := Run(b, times), Step(Run(b, times).0, now);
            Run(b, times + [now]) == (last.0, r.1 + if last.1 then 1 else 0)
    decreases |times|
  {
    if times == [] {
      assert ([] + [now])[1..] == [];
    } else {
      assert (times + [now])[1..] == times[1..] + [now];
      RunOneMore(Step(b, times[0]).0, times[1..], now);
    }
  }

  // After a denial at t, any calls, and hour/max: the call at now is denied
  // exactly when they left the bucket empty and nothing has accrued since the
  // last refill; and then at least one of them was allowed.
  lemma LateCallDeniedExactly(b: Bucket, t: int, times: seq<int>, now: int)
    requires b.Valid() && b.last <= t && b.max >= 1 && !Step(b, t).1
    requires Monotone(t, times + [now]) && (now - t) * b.max >= HOUR
    ensures var between := Run(Step(b, t).0, times);
            var left := between.0;
            && (!Step(left, now).1 <==> left.tokens == 0 && (now - left.last) * b.max < HOUR)
            && (!Step(left, now).1 ==> between.1 >= 1)
  {
    DeniedExactly(b, t);
    MonotoneParts(b.last, t, times, now);
    RunKeeps(b, times);
    DeniedExactly(Run(b, times).0, now);
    RunOneMore(b, times, now);
    LateCallAllowed(b, t, times + [now]);
  }

  // A later call may still be denied: the one in between took the token.
  lemma LaterCallMayBeDenied()
    ensures var b := Bucket(1, 1, 0);
            var denied := Step(Step(b, 0).0, 0);
            var later := Step(denied.0, 3_600_000_000_000);
            !denied.1 && later.1 && !Step(later.0, 3_600_000_000_000).1
  {}

  // ---- Lower bound ----

  // No refill of the run hits the cap.
  predicate Uncapped(b: Bucket, times: seq<int>)
    decreases |times|
  {
    times == [] ||
    (b.tokens + Accrued(times[0] - b.last, b.max) <= b.max && Uncapped(Step(b, times[0]).0, times[1..]))
  }

  // Without capping no token is lost, and rounding down loses less than half.
  lemma {:induction false} Conservation(b: Bucket, times: seq<int>)
    requires b.Valid() && Monotone(b.last, times) && Uncapped(b, times)
    ensures var r := Run(b, times);
            2 * HOUR * (r.0.tokens + r.1 - b.tokens) >= (r.0.last - b.last) * b.max
    decreases |times|
  {
    if times != [] {
      var now := times[0];
      StepKeeps(b, now);
      AccruedBounds(now - b.last, b.max);
      var next := Step(b, now).0;
      assert Monotone(next.last, times[1..]);
      Conservation(next, times[1..]);
      var r := Run(next, times[1..]).0;
      assert (r.last - next.last) * b.max + (next.last - b.last) * b.max == (r.last - b.last) * b.max;
    }
  }

  // Between a denial at t1 and one at the end of the run, more than
  // ((t2 - t1) * max / hour - 1) / 2 calls were allowed.
  lemma AllowedBetweenDenials(b: Bucket, t1: int, times: seq<int>, t2: int)
    requires b.Valid() && b.last <= t1 && b.max >= 1 && !Step(b, t1).1
    requires Monotone(t1, times + [t2]) && Uncapped(b, times)
    requires !Step(Run(b, times).0, t2).1
    ensures 2 * HOUR * Run(b, times).1 > (t2 - t1) * b.max - HOUR
  {
    DeniedExactly(b, t1);
    MonotoneParts(b.last, t1, times, t2);
    RunKeeps(b, times);
    Conservation(b, times);
    var r := Run(b, times).0;
    DeniedExactly(r, t2);
    Telescope(b.last, t1, r.last, t2, b.max);
  }

  lemma Telescope(start: int, t1: int, last: int, t2: int, m: int)
    requires start <= t1 && m >= 0
    ensures (t2 - t1) * m <= (t2 - last) * m + (last - start) * m
  {
    MulMonotone(0, t1 - start, m);
    assert (t2 - t1) * m + (t1 - start) * m == (t2 - last) * m + (last - start) * m;
  }

  lemma {:induction false} MonotoneParts(start: int, t1: int, times: seq<int>, t2: int)
    requires start <= t1 && Monotone(t1, times + [t2])
    ensures Monotone(start, times) && t1 <= t2
    ensures times != [] ==> times[|times| - 1] <= t2
    decreases |times|
  {
    if times != [] {
      assert (times + [t2])[1..] == times[1..] + [t2];
      MonotoneParts(times[0], times[0], times[1..], t2);
    } else {
      assert (times + [t2])[0] == t2;
    }
  }
}
