/** Capped exponential backoff (producer/utils.py) and its total over a streak. */
module Backoff {
  import opened Wrappers

  function Pow2(n: nat): (p: nat)
    ensures p >= 1
  {
    if n == 0 then 1 else 2 * Pow2(n - 1)
  }

  /** None stands for the ValueError on a negative attempt. */
  function ExponentialBackoff(attempt: int, base: int, maxDelay: int): Option<int> {
    if attempt < 0 then None else
      var delay := base * Pow2(attempt);
      Some(if delay < maxDelay then delay else maxDelay)
  }

  /** A negative attempt is refused; the first delay is the base, every next one doubles it, and the cap bounds them. */
  lemma DelayDoubles(attempt: int, base: nat, maxDelay: nat)
    ensures ExponentialBackoff(attempt, base, maxDelay).None? <==> attempt < 0
    ensures ExponentialBackoff(0, base, maxDelay) == Some(if base < maxDelay then base else maxDelay)
    ensures attempt >= 0 ==>
      var delay := ExponentialBackoff(attempt, base, maxDelay).value;
      ExponentialBackoff(attempt + 1, base, maxDelay) == Some(if 2 * delay < maxDelay then 2 * delay else maxDelay)
  {
    if attempt >= 0 {
      var p := Pow2(attempt);
      assert Pow2(attempt + 1) == 2 * p;
      assert base * (2 * p) == 2 * (base * p) && base * p >= 0;
    }
  }

  /** The delays of the attempts 0 .. n - 1 added up. */
  function TotalDelay(n: nat, base: int, maxDelay: int): int {
    if n == 0 then 0 else TotalDelay(n - 1, base, maxDelay) + ExponentialBackoff(n - 1, base, maxDelay).value
  }

  /** How many of the first n delays stay below the cap. */
  function BelowCap(n: nat, base: int, maxDelay: int): (k: nat)
    ensures k <= n
  {
    if n == 0 then 0 else BelowCap(n - 1, base, maxDelay) + if base * Pow2(n - 1) < maxDelay then 1 else 0
  }

  lemma {:induction false} DelaysGrow(i: nat, j: nat, base: nat)
    requires i <= j
    ensures base * Pow2(i) <= base * Pow2(j)
  {
    if i < j {
      DelaysGrow(i, j - 1, base);
      assert base * Pow2(j) == 2 * (base * Pow2(j - 1));
    }
  }

  /** Delays do not shrink: once one reaches the cap, so do all later ones. */
  lemma {:induction false} BelowCapIsPrefix(n: nat, base: nat, maxDelay: int)
    ensures var k := BelowCap(n, base, maxDelay);
      forall i: nat | i < n :: base * Pow2(i) < maxDelay <==> i < k
  {
    if n > 0 {
      BelowCapIsPrefix(n - 1, base, maxDelay);
      forall i: nat | i < n
        ensures base * Pow2(i) <= base * Pow2(n - 1)
      {
        DelaysGrow(i, n - 1, base);
      }
    }
  }

  lemma DoubleLess(base: int, p: int)
    ensures base * (2 * p - 1) == base * (p - 1) + base * p
  {
  }

  lemma OneMore(count: int, delay: int)
    ensures (count + 1) * delay == count * delay + delay
  {
  }

  /** The sum of n capped delays: a geometric part below the cap and the cap for the rest. */
  lemma {:induction false} TotalDelayClosedForm(n: nat, base: nat, maxDelay: int)
    ensures var k := BelowCap(n, base, maxDelay);
      TotalDelay(n, base, maxDelay) == base * (Pow2(k) - 1) + (n - k) * maxDelay
  {
    if n > 0 {
      TotalDelayClosedForm(n - 1, base, maxDelay);
      BelowCapIsPrefix(n, base, maxDelay);
      var k := BelowCap(n - 1, base, maxDelay);
      if base * Pow2(n - 1) < maxDelay {
        assert k == n - 1;
        DoubleLess(base, Pow2(n - 1));
        assert (n - 1 - k) * maxDelay == 0 && (n - n) * maxDelay == 0;
      } else {
        OneMore(n - 1 - k, maxDelay);
      }
    }
  }

  lemma {:induction false} TotalDelayMonotone(n: nat, m: nat, base: nat, maxDelay: nat)
    requires n <= m
    ensures 0 <= TotalDelay(n, base, maxDelay) <= TotalDelay(m, base, maxDelay)
  {
    if n < m {
      TotalDelayMonotone(n, m - 1, base, maxDelay);
      assert base * Pow2(m - 1) >= 0;
    } else if n > 0 {
      TotalDelayMonotone(n - 1, m - 1, base, maxDelay);
      assert base * Pow2(n - 1) >= 0;
    }
  }

  const BASE := 1
  const MAX_DELAY := 60
  const MAX_RECONNECT_ATTEMPTS := 10

  /** Ten failed attempts in a row sleep 303 seconds in all, fewer attempts no more. */
  lemma StreakDelay(n: nat)
    requires n <= MAX_RECONNECT_ATTEMPTS
    ensures TotalDelay(n, BASE, MAX_DELAY) <= 303
    ensures TotalDelay(MAX_RECONNECT_ATTEMPTS, BASE, MAX_DELAY) == 303
  {
    assert TotalDelay(10, 1, 60) == 303 by {
      TotalDelayClosedForm(10, 1, 60);
      assert Pow2(3) == 8;
      assert Pow2(5) == 32;
      assert Pow2(6) == 64;
      BelowCapIsPrefix(10, 1, 60);
      assert 1 * Pow2(5) < 60 <= 1 * Pow2(6);
      assert BelowCap(10, 1, 60) == 6;
    }
    TotalDelayMonotone(n, 10, BASE, MAX_DELAY);
  }
}
