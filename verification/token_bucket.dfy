/**
 * The token bucket that throttles requests (connection.ts), over exact reals and a clock
 * in whole milliseconds.
 */
module TokenBucket {
  import opened Reals

  /** `Never` is JavaScript's Infinity: nothing is ever refilled. */
  datatype Retry = AfterMs(ms: int) | Never

  datatype Verdict = Allowed | Refused(retry: Retry)

  datatype Bucket = Bucket(capacity: real, rate: real, tokens: real, last: int)

  datatype Request = Request(now: int, cost: real)

  /** What refilling adds over a number of milliseconds. */
  function Gain(rate: real, ms: int): real {
    (ms as real / 1000.0) * rate
  }

  function Refilled(b: Bucket, now: int): real {
    Min(b.capacity, b.tokens + Gain(b.rate, now - b.last))
  }

  function RetryAfter(missing: real, rate: real): Retry {
    if rate == 0.0 then Never else AfterMs(Ceil((missing / rate) * 1000.0))
  }

  function Decide(b: Bucket, request: Request): Verdict {
    var tokens := Refilled(b, request.now);
    if tokens >= request.cost then Allowed else Refused(RetryAfter(request.cost - tokens, b.rate))
  }

  function After(b: Bucket, request: Request): Bucket {
    var tokens := Refilled(b, request.now);
    b.(tokens := if tokens >= request.cost then tokens - request.cost else tokens, last := request.now)
  }

  class TokenBucketRateLimiter {
    const capacity: real
    const refillRatePerSec: real
    var tokens: real
    var lastRefillTimestamp: int

    function State(): Bucket
      reads this
    {
      Bucket(capacity, refillRatePerSec, tokens, lastRefillTimestamp)
    }

    constructor (capacity: real, refillRatePerSec: real, now: int)
      ensures State() == Bucket(capacity, refillRatePerSec, capacity, now)
    {
      this.capacity, this.refillRatePerSec := capacity, refillRatePerSec;
      tokens, lastRefillTimestamp := capacity, now;
    }

    method TryConsume(cost: real, now: int) returns (verdict: Verdict)
      modifies this
      ensures verdict == Decide(old(State()), Request(now, cost))
      ensures State() == After(old(State()), Request(now, cost))
    {
      var elapsedSec := (now - lastRefillTimestamp) as real / 1000.0;
      tokens := Min(capacity, tokens + elapsedSec * refillRatePerSec);
      lastRefillTimestamp := now;
      if tokens >= cost {
        tokens := tokens - cost;
        return Allowed;
      }
      var missingTokens := cost - tokens;
      return Refused(RetryAfter(missingTokens, refillRatePerSec));
    }
  }

  // --- runs ---

  function Verdicts(b: Bucket, requests: seq<Request>): (v: seq<Verdict>)
    ensures |v| == |requests|
    decreases |requests|
  {
    if requests == [] then [] else [Decide(b, requests[0])] + Verdicts(After(b, requests[0]), requests[1..])
  }

  function AdmittedCost(b: Bucket, requests: seq<Request>): real
    decreases |requests|
  {
    if requests == [] then 0.0
    else
      (if Decide(b, requests[0]) == Allowed then requests[0].cost else 0.0) +
      AdmittedCost(After(b, requests[0]), requests[1..])
  }

  /** The clock never goes back. */
  ghost predicate ClockAdvances(start: int, requests: seq<Request>) {
    && (forall i :: 0 <= i < |requests| ==> start <= requests[i].now)
    && (forall i, j :: 0 <= i < j < |requests| ==> requests[i].now <= requests[j].now)
  }

  ghost predicate Sensible(b: Bucket) {
    b.rate >= 0.0 && 0.0 <= b.tokens <= b.capacity
  }

  lemma GainMonotone(rate: real, a: int, b: int)
    requires rate >= 0.0 && a <= b
    ensures Gain(rate, a) <= Gain(rate, b)
    ensures Gain(rate, 0) == 0.0
  {
    var x, y := a as real / 1000.0, b as real / 1000.0;
    assert (y - x) * rate >= 0.0;
    assert y * rate - x * rate == (y - x) * rate;
  }

  lemma GainAdds(rate: real, a: int, b: int)
    ensures Gain(rate, a) + Gain(rate, b) == Gain(rate, a + b)
  {
    var x, y := a as real / 1000.0, b as real / 1000.0;
    assert (a + b) as real / 1000.0 == x + y;
    assert (x + y) * rate == x * rate + y * rate;
  }

  lemma AfterSensible(b: Bucket, request: Request)
    requires Sensible(b) && b.last <= request.now
    requires request.cost >= 0.0
    ensures Sensible(After(b, request))
  {
    GainMonotone(b.rate, 0, request.now - b.last);
  }

  /** Tokens spent plus tokens left never exceed what the bucket held plus what flowed in. */
  lemma {:induction false} Conservation(b: Bucket, requests: seq<Request>)
    requires Sensible(b) && ClockAdvances(b.last, requests) && requests != []
    requires forall i :: 0 <= i < |requests| ==> requests[i].cost >= 0.0
    ensures AdmittedCost(b, requests) <= b.tokens + Gain(b.rate, requests[|requests| - 1].now - b.last)
    decreases |requests|
  {
    var b', rest := After(b, requests[0]), requests[1..];
    AfterSensible(b, requests[0]);
    if rest == [] {
      assert AdmittedCost(b', rest) == 0.0;
    } else {
      Conservation(b', rest);
      GainAdds(b.rate, requests[0].now - b.last, rest[|rest| - 1].now - requests[0].now);
    }
  }

  /**
   * In any stretch of requests, starting from any reachable bucket, the admitted cost is at
   * most the capacity plus what is refilled between the first and the last of them.
   */
  lemma AdmittedBound(b: Bucket, requests: seq<Request>)
    requires Sensible(b) && ClockAdvances(b.last, requests) && requests != []
    requires forall i :: 0 <= i < |requests| ==> requests[i].cost >= 0.0
    ensures AdmittedCost(b, requests) <= b.capacity + Gain(b.rate, requests[|requests| - 1].now - requests[0].now)
  {
    var first, b', rest := requests[0], After(b, requests[0]), requests[1..];
    AfterSensible(b, first);
    if rest == [] {
      assert AdmittedCost(b', rest) == 0.0;
      GainMonotone(b.rate, 0, 0);
    } else {
      Conservation(b', rest);
    }
  }

  // --- refused requests leave no trace ---

  /** A refused request is invisible to every later refill. */
  lemma RefusedRefill(b: Bucket, request: Request, later: int)
    requires b.rate >= 0.0 && b.last <= request.now <= later
    requires Decide(b, request) != Allowed
    ensures Refilled(After(b, request), later) == Refilled(b, later)
  {
    GainAdds(b.rate, request.now - b.last, later - request.now);
    GainMonotone(b.rate, 0, later - request.now);
  }

  lemma SameAfterRefused(b: Bucket, refused: Request, requests: seq<Request>)
    requires b.rate >= 0.0 && b.last <= refused.now && ClockAdvances(refused.now, requests)
    requires Decide(b, refused) != Allowed
    ensures Verdicts(After(b, refused), requests) == Verdicts(b, requests)
  {
    if requests != [] {
      RefusedRefill(b, refused, requests[0].now);
      assert After(After(b, refused), requests[0]) == After(b, requests[0]);
    }
  }

  function Without<T>(s: seq<T>, i: nat): seq<T>
    requires i < |s|
  {
    s[..i] + s[i + 1..]
  }

  lemma WithoutTail<T>(s: seq<T>, i: nat)
    requires i < |s|
    ensures Without(s, i) == if i == 0 then s[1..] else [s[0]] + Without(s[1..], i - 1)
  {
  }

  /** Leaving a refused request out of a run changes no other verdict, waiting times included. */
  lemma {:induction false} RefusedInvisible(b: Bucket, requests: seq<Request>, i: nat)
    requires b.rate >= 0.0 && ClockAdvances(b.last, requests) && i < |requests|
    requires Verdicts(b, requests)[i] != Allowed
    ensures Verdicts(b, Without(requests, i)) == Without(Verdicts(b, requests), i)
    decreases |requests|
  {
    var b', rest := After(b, requests[0]), requests[1..];
    WithoutTail(requests, i);
    WithoutTail(Verdicts(b, requests), i);
    assert Verdicts(b, requests)[1..] == Verdicts(b', rest);
    if i == 0 {
      SameAfterRefused(b, requests[0], rest);
    } else {
      RefusedInvisible(b', rest, i - 1);
      VerdictsCons(b, requests[0], Without(rest, i - 1));
    }
  }

  lemma VerdictsCons(b: Bucket, first: Request, rest: seq<Request>)
    ensures Verdicts(b, [first] + rest) == [Decide(b, first)] + Verdicts(After(b, first), rest)
  {
    assert ([first] + rest)[1..] == rest;
  }

  // --- the waiting time is the least one that works ---

  lemma CeilLeast(x: real, k: int)
    ensures Ceil(x) <= k <==> x <= k as real
  {
  }

  lemma WaitEnough(missing: real, rate: real, k: int)
    requires rate > 0.0
    ensures (missing / rate) * 1000.0 <= k as real <==> missing <= Gain(rate, k)
  {
    var q, s := missing / rate, k as real / 1000.0;
    assert q * rate == missing;
    if q <= s {
      assert (s - q) * rate >= 0.0;
      assert s * rate - q * rate == (s - q) * rate;
    } else {
      assert (q - s) * rate > 0.0;
      assert q * rate - s * rate == (q - s) * rate;
    }
    assert q * 1000.0 <= k as real <==> q <= s;
  }

  /**
   * After a refusal, the same request made k milliseconds later, with nothing in between,
   * is admitted if and only if k is at least the reported waiting time.
   */
  lemma RetryIsLeast(b: Bucket, request: Request, k: nat)
    requires b.rate >= 0.0 && b.last <= request.now && request.cost <= b.capacity
    requires Decide(b, request).Refused?
    ensures var retry := Decide(b, request).retry;
            && (retry == Never <==> b.rate == 0.0)
            && (retry == Never ==> Decide(After(b, request), request.(now := request.now + k)) != Allowed)
            && (retry.AfterMs? ==> retry.ms >= 1)
            && (retry.AfterMs? ==> (Decide(After(b, request), request.(now := request.now + k)) == Allowed <==> k >= retry.ms))
  {
    var tokens := Refilled(b, request.now);
    var missing := request.cost - tokens;
    assert Refilled(After(b, request), request.now + k) == Min(b.capacity, tokens + Gain(b.rate, k));
    if b.rate == 0.0 {
      assert Gain(b.rate, k) == 0.0;
    } else {
      WaitEnough(missing, b.rate, k);
      CeilLeast((missing / b.rate) * 1000.0, k);
      WaitEnough(missing, b.rate, 0);
      CeilLeast((missing / b.rate) * 1000.0, 0);
      GainMonotone(b.rate, 0, 0);
    }
  }

  // --- exactly when a request is admitted ---

  /** The bucket after the first n requests. */
  function StateAt(b: Bucket, requests: seq<Request>, n: nat): Bucket
    requires n <= |requests|
  {
    if n == 0 then b else After(StateAt(b, requests, n - 1), requests[n - 1])
  }

  lemma {:induction false} VerdictAt(b: Bucket, requests: seq<Request>, n: nat)
    requires n < |requests|
    ensures Verdicts(b, requests)[n] == Decide(StateAt(b, requests, n), requests[n])
    decreases n
  {
    if n > 0 {
      StateShift(b, requests, n);
      VerdictAt(After(b, requests[0]), requests[1..], n - 1);
    }
  }

  lemma {:induction false} StateShift(b: Bucket, requests: seq<Request>, n: nat)
    requires 0 < n <= |requests|
    ensures StateAt(b, requests, n) == StateAt(After(b, requests[0]), requests[1..], n - 1)
    decreases n
  {
    if n > 1 {
      StateShift(b, requests, n - 1);
    } else {
      assert StateAt(b, requests, 0) == b;
    }
  }

  /** The cost of what was admitted among the requests from the i-th up to the n-th, that one left out. */
  function Spent(b: Bucket, requests: seq<Request>, i: nat, n: nat): real
    requires n <= |requests|
    decreases n
  {
    if n <= i then 0.0
    else Spent(b, requests, i, n - 1) + if Verdicts(b, requests)[n - 1] == Allowed then requests[n - 1].cost else 0.0
  }

  /** Taking x at the n-th request would overdraw neither what was held nor, over any stretch, the capacity. */
  ghost predicate Covered(b: Bucket, requests: seq<Request>, n: nat, x: real)
    requires n < |requests|
  {
    && Spent(b, requests, 0, n) + x <= b.tokens + Gain(b.rate, requests[n].now - b.last)
    && forall i :: 0 <= i <= n ==> Spent(b, requests, i, n) + x <= b.capacity + Gain(b.rate, requests[n].now - requests[i].now)
  }

  lemma NoTimeNoGain(rate: real)
    ensures Gain(rate, 0) == 0.0
  {
  }

  lemma {:induction false} ShapeKept(b: Bucket, requests: seq<Request>, n: nat)
    requires n <= |requests|
    ensures var s := StateAt(b, requests, n);
            s.capacity == b.capacity && s.rate == b.rate && (n > 0 ==> s.last == requests[n - 1].now)
  {
    if n > 0 { ShapeKept(b, requests, n - 1); }
  }

  /** What the bucket holds when the n-th request comes is the least of what the stretches leave. */
  lemma {:induction false} LevelIff(b: Bucket, requests: seq<Request>, n: nat, x: real)
    requires n < |requests|
    ensures x <= Refilled(StateAt(b, requests, n), requests[n].now) <==> Covered(b, requests, n, x)
    decreases n
  {
    NoTimeNoGain(b.rate);
    if n == 0 {
      assert Spent(b, requests, 0, 0) == 0.0;
    } else {
      var before, at := StateAt(b, requests, n - 1), requests[n - 1].now;
      var took := if Verdicts(b, requests)[n - 1] == Allowed then requests[n - 1].cost else 0.0;
      var flow := Gain(b.rate, requests[n].now - at);
      ShapeKept(b, requests, n - 1);
      VerdictAt(b, requests, n - 1);
      assert Refilled(StateAt(b, requests, n), requests[n].now) == Min(b.capacity, Refilled(before, at) - took + flow);
      LevelIff(b, requests, n - 1, x + took - flow);
      CoveredStep(b, requests, n, x, took, flow);
    }
  }

  lemma {:induction false} CoveredStep(b: Bucket, requests: seq<Request>, n: nat, x: real, took: real, flow: real)
    requires 0 < n < |requests|
    requires took == if Verdicts(b, requests)[n - 1] == Allowed then requests[n - 1].cost else 0.0
    requires flow == Gain(b.rate, requests[n].now - requests[n - 1].now)
    ensures Covered(b, requests, n, x) <==> x <= b.capacity && Covered(b, requests, n - 1, x + took - flow)
  {
    NoTimeNoGain(b.rate);
    GainAdds(b.rate, requests[n - 1].now - b.last, requests[n].now - requests[n - 1].now);
    forall i | 0 <= i < n
      ensures Spent(b, requests, i, n) + x <= b.capacity + Gain(b.rate, requests[n].now - requests[i].now) <==>
              Spent(b, requests, i, n - 1) + (x + took - flow) <= b.capacity + Gain(b.rate, requests[n - 1].now - requests[i].now)
    {
      GainAdds(b.rate, requests[n - 1].now - requests[i].now, requests[n].now - requests[n - 1].now);
    }
    assert Spent(b, requests, n, n) == 0.0;
  }

  /**
   * A request is admitted if and only if, with it, no stretch of requests that ends with it
   * costs more than the capacity and what is refilled over the stretch, and the whole run no
   * more than what was held at the start and what is refilled since.
   */
  lemma AdmittedIff(b: Bucket, requests: seq<Request>, n: nat)
    requires n < |requests|
    ensures Verdicts(b, requests)[n] == Allowed <==> Covered(b, requests, n, requests[n].cost)
  {
    VerdictAt(b, requests, n);
    LevelIff(b, requests, n, requests[n].cost);
  }

  function TotalCost(requests: seq<Request>): real {
    if requests == [] then 0.0 else TotalCost(requests[..|requests| - 1]) + requests[|requests| - 1].cost
  }

  lemma {:induction false} SpentWithin(b: Bucket, requests: seq<Request>, i: nat, n: nat)
    requires n <= |requests| && forall k :: 0 <= k < |requests| ==> requests[k].cost >= 0.0
    ensures 0.0 <= Spent(b, requests, i, n) <= Spent(b, requests, 0, n) <= TotalCost(requests[..n])
    decreases n
  {
    if n > 0 {
      SpentWithin(b, requests, i, n - 1);
      assert requests[..n][..n - 1] == requests[..n - 1];
    }
  }

  lemma {:induction false} TotalGrows(requests: seq<Request>, n: nat)
    requires n <= |requests| && forall k :: 0 <= k < |requests| ==> requests[k].cost >= 0.0
    ensures TotalCost(requests[..n]) <= TotalCost(requests)
    decreases |requests| - n
  {
    if n < |requests| {
      TotalGrows(requests, n + 1);
      assert requests[..n + 1][..n] == requests[..n];
    } else {
      assert requests[..n] == requests;
    }
  }

  /** Requests that cost no more than what the bucket holds are all admitted. */
  lemma {:induction false} WithinHoldings(b: Bucket, requests: seq<Request>, n: nat)
    requires Sensible(b) && ClockAdvances(b.last, requests) && n < |requests|
    requires (forall k :: 0 <= k < |requests| ==> requests[k].cost >= 0.0) && TotalCost(requests) <= b.tokens
    ensures Verdicts(b, requests)[n] == Allowed
  {
    TotalGrows(requests, n + 1);
    assert requests[..n + 1][..n] == requests[..n];
    GainMonotone(b.rate, 0, requests[n].now - b.last);
    SpentWithin(b, requests, 0, n);
    forall i | 0 <= i <= n
      ensures Spent(b, requests, i, n) + requests[n].cost <= b.capacity + Gain(b.rate, requests[n].now - requests[i].now)
    {
      SpentWithin(b, requests, i, n);
      GainMonotone(b.rate, 0, requests[n].now - requests[i].now);
    }
    AdmittedIff(b, requests, n);
  }

  /** As long as no refill is cut off at the capacity, tokens left and spent add up to tokens held and refilled. */
  lemma {:induction false} ExactAccount(b: Bucket, requests: seq<Request>, n: nat)
    requires 0 < n <= |requests|
    requires forall k :: 0 <= k < n ==> NotCutOff(StateAt(b, requests, k), requests[k].now)
    ensures StateAt(b, requests, n).tokens + Spent(b, requests, 0, n) == b.tokens + Gain(b.rate, requests[n - 1].now - b.last)
    decreases n
  {
    assert NotCutOff(StateAt(b, requests, n - 1), requests[n - 1].now);
    ShapeKept(b, requests, n - 1);
    VerdictAt(b, requests, n - 1);
    if n > 1 {
      ExactAccount(b, requests, n - 1);
      GainAdds(b.rate, requests[n - 2].now - b.last, requests[n - 1].now - requests[n - 2].now);
    } else {
      assert StateAt(b, requests, 0) == b && Spent(b, requests, 0, 0) == 0.0;
    }
  }

  predicate NotCutOff(b: Bucket, now: int) {
    b.tokens + Gain(b.rate, now - b.last) <= b.capacity
  }

  /** Two calls in the millisecond in which the limiter was made. */
  method TwoAtOnce(now: int) returns (first: Verdict, second: Verdict, tokens: real)
    ensures first == Allowed && second == Allowed && tokens == 48.0
  {
    var limiter := new TokenBucketRateLimiter(50.0, 100.0, now);
    NoTimeNoGain(100.0);
    first := limiter.TryConsume(1.0, now);
    second := limiter.TryConsume(1.0, now);
    tokens := limiter.tokens;
  }
}
