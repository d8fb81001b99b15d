/** The delays a dial round waits between failed attempts. */
module Backoff {
  /** `ReconnectPolicy`, in milliseconds; the multiplier is a real number, so its rounding is not modelled. */
  datatype Policy = Policy(initialDelay: int, maxDelay: int, multiplier: real, maxAttempts: int)

  function Min(a: int, b: int): int {
    if a <= b then a else b
  }

  function Max(a: int, b: int): int {
    if a >= b then a else b
  }

  /** The delay that follows `delay`; converting the product to an integer drops the fraction. */
  function NextDelay(p: Policy, delay: int): int {
    Min(p.maxDelay, Max(0, ((delay as real) * p.multiplier).Floor))
  }

  /** The delay after the failure number `k` of a round, counting from zero. */
  function Delay(p: Policy, k: nat): int {
    if k == 0 then p.initialDelay else NextDelay(p, Delay(p, k - 1))
  }

  ghost predicate Sane(p: Policy) {
    0 <= p.initialDelay && 0 <= p.maxDelay && p.multiplier >= 1.0
  }

  lemma ProductGrows(x: real, m: real)
    requires 0.0 <= x && m >= 1.0
    ensures x <= x * m
  {
  }

  lemma NextDelayGrows(p: Policy, d: int)
    requires Sane(p) && 0 <= d <= p.maxDelay
    ensures d <= NextDelay(p, d)
  {
    ProductGrows(d as real, p.multiplier);
  }

  /** From the second delay on, none is above the maximum; none is ever negative. */
  lemma {:induction false} DelayBounds(p: Policy, k: nat)
    requires Sane(p)
    ensures 0 <= Delay(p, k)
    ensures k > 0 || p.initialDelay <= p.maxDelay ==> Delay(p, k) <= p.maxDelay
  {
    if k == 0 {
    } else {
      DelayBounds(p, k - 1);
    }
  }

  lemma CappedFloor(cap: int, x: real)
    requires 0 <= cap && 0.0 <= x
    ensures
      var n := Min(cap, Max(0, x.Floor));
      n <= cap && (n as real) <= x && (n == cap || x < (n + 1) as real)
  {
  }

  lemma NextIsCapped(p: Policy, d: int, x: real)
    requires Sane(p) && 0 <= d && x == (d as real) * p.multiplier
    ensures
      var next := NextDelay(p, d);
      next <= p.maxDelay && (next as real) <= x && (next == p.maxDelay || x < (next + 1) as real)
  {
    ProductGrows(d as real, p.multiplier);
    assert NextDelay(p, d) == Min(p.maxDelay, Max(0, x.Floor));
    CappedFloor(p.maxDelay, x);
  }

  /**
    Each delay but the first is the product of the one before and the multiplier, rounded down and capped:
    the largest whole number that is above neither.
   */
  lemma EachDelay(p: Policy, k: nat, product: real)
    requires Sane(p) && product == (Delay(p, k) as real) * p.multiplier
    ensures Delay(p, 0) == p.initialDelay
    ensures
      var next := Delay(p, k + 1);
      next <= p.maxDelay && (next as real) <= product && (next == p.maxDelay || product < (next + 1) as real)
  {
    DelayBounds(p, k);
    NextIsCapped(p, Delay(p, k), product);
  }

  lemma DelayStep(p: Policy, k: nat)
    requires Sane(p)
    ensures k > 0 || p.initialDelay <= p.maxDelay ==> Delay(p, k) <= Delay(p, k + 1)
  {
    DelayBounds(p, k);
    if k > 0 || p.initialDelay <= p.maxDelay { NextDelayGrows(p, Delay(p, k)); }
  }

  lemma {:induction false} DelayMonotone(p: Policy, i: nat, j: nat)
    requires Sane(p) && p.initialDelay <= p.maxDelay && i <= j
    ensures Delay(p, i) <= Delay(p, j)
    decreases j
  {
    if i == j {
    } else {
      DelayMonotone(p, i, j - 1);
      DelayStep(p, j - 1);
    }
  }

  /** The delays never shrink if and only if the first one is not above the maximum. */
  lemma MonotoneIff(p: Policy)
    requires Sane(p)
    ensures p.initialDelay <= p.maxDelay <==> forall i: nat, j: nat | i <= j :: Delay(p, i) <= Delay(p, j)
  {
    if p.initialDelay <= p.maxDelay {
      forall i: nat, j: nat | i <= j
        ensures Delay(p, i) <= Delay(p, j)
      {
        DelayMonotone(p, i, j);
      }
    } else {
      DelayBounds(p, 1);
      assert Delay(p, 0) > Delay(p, 1);
    }
  }

  function Pow2(k: nat): nat {
    if k == 0 then 1 else 2 * Pow2(k - 1)
  }

  /** The uncapped delay: the initial one doubled `k` times. */
  function Uncapped(initial: int, k: nat): int {
    initial * Pow2(k)
  }

  lemma UncappedDoubles(initial: int, k: nat)
    requires 0 <= initial
    ensures Uncapped(initial, k + 1) == 2 * Uncapped(initial, k) && 0 <= Uncapped(initial, k)
  {
    MovesOut(initial, Pow2(k));
  }

  lemma MovesOut(x: int, y: nat)
    requires 0 <= x
    ensures x * (2 * y) == 2 * (x * y) && 0 <= x * y
  {
  }

  lemma DoubleFloor(d: int)
    ensures ((d as real) * 2.0).Floor == 2 * d
  {
    assert (d as real) * 2.0 == (2 * d) as real;
  }

  lemma NextDelayDoubles(p: Policy, d: int)
    requires p.multiplier == 2.0
    ensures NextDelay(p, d) == Min(p.maxDelay, Max(0, 2 * d))
  {
    DoubleFloor(d);
  }

  lemma DoubleCapped(cap: int, full: int)
    requires 0 <= full && 0 <= cap
    ensures Min(cap, Max(0, 2 * Min(cap, full))) == Min(cap, 2 * full)
  {
  }

  /** One doubling, from an exact delay or from the first one, capped or not. */
  lemma DoublingStep(p: Policy, k: nat)
    requires Sane(p) && p.multiplier == 2.0 && k > 0
    requires k > 1 ==> Delay(p, k - 1) == Min(p.maxDelay, Uncapped(p.initialDelay, k - 1))
    ensures Delay(p, k) == Min(p.maxDelay, Uncapped(p.initialDelay, k))
  {
    NextDelayDoubles(p, Delay(p, k - 1));
    UncappedDoubles(p.initialDelay, k - 1);
    DoubleCapped(p.maxDelay, Uncapped(p.initialDelay, k - 1));
  }

  /**
    With the default multiplier the k-th delay is the initial one doubled k times and capped. For the first
    delay, which the code does not cap, that is so only if it is not above the maximum.
   */
  lemma {:induction false} Doubling(p: Policy, k: nat)
    requires Sane(p) && p.multiplier == 2.0
    ensures Delay(p, k) == Min(p.maxDelay, p.initialDelay * Pow2(k)) <==> k > 0 || p.initialDelay <= p.maxDelay
  {
    if k == 0 {
    } else {
      Doubling(p, k - 1);
      DoublingStep(p, k);
    }
  }

  /** The sleep requested over the first `n` failures of a round, each delay with its jitter. */
  function Requested(p: Policy, jitters: seq<nat>, n: nat): int
    requires n <= |jitters|
  {
    if n == 0 then 0 else Requested(p, jitters, n - 1) + Delay(p, n - 1) + jitters[n - 1]
  }

  function Sum(xs: seq<int>): int {
    if xs == [] then 0 else xs[0] + Sum(xs[1..])
  }

  lemma {:induction false} SumSnoc(xs: seq<int>, x: int)
    ensures Sum(xs + [x]) == Sum(xs) + x
  {
    if xs == [] {
      assert xs + [x] == [x] && [x][1..] == [];
    } else {
      SumSnoc(xs[1..], x);
      assert (xs + [x])[1..] == xs[1..] + [x];
    }
  }

  /** What is requested over `n` failures is the sum of the first `n` delays and of the first `n` jitters. */
  lemma {:induction false} RequestedIsSum(p: Policy, jitters: seq<nat>, n: nat)
    requires n <= |jitters|
    ensures Requested(p, jitters, n) == Sum(seq(n, k requires 0 <= k => Delay(p, k))) + Sum(jitters[..n])
  {
    if n == 0 {
    } else {
      RequestedIsSum(p, jitters, n - 1);
      var delays := seq(n - 1, k requires 0 <= k => Delay(p, k));
      SumSnoc(delays, Delay(p, n - 1));
      assert seq(n, k requires 0 <= k => Delay(p, k)) == delays + [Delay(p, n - 1)];
      SumSnoc(jitters[..n - 1], jitters[n - 1]);
      assert jitters[..n] == jitters[..n - 1] + [jitters[n - 1]];
    }
  }

  /** The generator draws from [0, delay / 2]; without a positive delay there is no jitter. */
  ghost predicate JitterOk(p: Policy, jitters: seq<nat>) {
    forall k | 0 <= k < |jitters| :: jitters[k] <= if Delay(p, k) > 0 then Delay(p, k) / 2 else 0
  }

  /**
    `n` failures in a row ask for at most one and a half times `n` maximal delays, and what the first delay,
    which is not capped, has above the maximum.
   */
  lemma {:induction false} RequestedBound(p: Policy, jitters: seq<nat>, n: nat)
    requires Sane(p) && n <= |jitters| && JitterOk(p, jitters)
    ensures 2 * Requested(p, jitters, n) <= 3 * (n * p.maxDelay + Max(0, p.initialDelay - p.maxDelay))
  {
    if n == 0 {
    } else {
      RequestedBound(p, jitters, n - 1);
      DelayBounds(p, n - 1);
      assert n * p.maxDelay == (n - 1) * p.maxDelay + p.maxDelay;
      if n == 1 { assert Requested(p, jitters, 0) == 0; }
    }
  }

  // ---- The dial round ----

  datatype RoundEnd = Connected | GaveUp | StillFailing

  /** The number of failures before the first success, or all of them. */
  function Failures(results: seq<bool>): nat {
    if results == [] || results[0] then 0 else 1 + Failures(results[1..])
  }

  lemma {:induction false} FailuresAt(results: seq<bool>, k: nat)
    requires k <= |results| && forall i | 0 <= i < k :: !results[i]
    ensures Failures(results) >= k
    ensures k < |results| && results[k] ==> Failures(results) == k
    ensures k == |results| ==> Failures(results) == k
  {
    if k == 0 {
    } else {
      FailuresAt(results[1..], k - 1);
    }
  }

  /**
    The inner loop of the worker, fed with the results of its dials and the jitter drawn after each. It
    stops at a success, at the limit of the policy, or when the script ends (the pipe is still failing).
   */
  method DialRound(p: Policy, results: seq<bool>, jitters: seq<nat>)
    returns (end: RoundEnd, attempts: nat, slept: int)
    requires |jitters| == |results|
    ensures attempts <= |results| && slept == Requested(p, jitters, attempts)
    ensures attempts == if p.maxAttempts == 0 then Failures(results)
                        else Min(Failures(results), Max(0, p.maxAttempts))
    ensures end == if p.maxAttempts != 0 && attempts >= p.maxAttempts then GaveUp
                   else if attempts < |results| then Connected else StillFailing
  {
    attempts, slept := 0, 0;
    var delay := p.initialDelay;
    while true
      invariant attempts <= |results| && delay == Delay(p, attempts)
      invariant slept == Requested(p, jitters, attempts)
      invariant forall i | 0 <= i < attempts :: !results[i]
      invariant p.maxAttempts != 0 ==> attempts <= Max(0, p.maxAttempts)
      decreases |results| - attempts
    {
      FailuresAt(results, attempts);
      if p.maxAttempts != 0 && attempts >= p.maxAttempts {
        return GaveUp, attempts, slept;
      }
      if attempts == |results| {
        return StillFailing, attempts, slept;
      }
      if results[attempts] {
        return Connected, attempts, slept;
      }
      slept := slept + delay + jitters[attempts];
      attempts := attempts + 1;
      delay := NextDelay(p, delay);
    }
  }
}
