/** Repeating a step on a number until it is settled. */
module Iteration {
  import opened Prelude

  /** Where `n` stands after `k` steps. */
  function After(step: int -> int, n: int, k: nat): int {
    if k == 0 then n else step(After(step, n, k - 1))
  }

  /** A settled number stays; one below `bar` rises; one at or above it stays there, and is settled exactly when the
      next is. */
  ghost predicate Climbing(step: int -> int, settled: int -> bool, bar: int) {
    && (forall n :: settled(n) ==> step(n) == n)
    && (forall n :: n < bar && !settled(n) ==> n < step(n))
    && (forall n :: bar <= n ==> bar <= step(n) && (settled(n) <==> settled(step(n))))
  }

  lemma {:induction false} Stays(step: int -> int, settled: int -> bool, bar: int, n: int, j: nat, k: nat)
    requires Climbing(step, settled, bar) && j <= k && settled(After(step, n, j))
    ensures settled(After(step, n, k))
    decreases k
  {
    if j < k {
      Stays(step, settled, bar, n, j, k - 1);
    }
  }

  lemma {:induction false} Climbs(step: int -> int, settled: int -> bool, bar: int, n: int, k: nat)
    requires Climbing(step, settled, bar) && !settled(After(step, n, k))
    ensures Min(bar, n + k) <= After(step, n, k)
    decreases k
  {
    if k > 0 {
      assert !settled(After(step, n, k - 1));
      Climbs(step, settled, bar, n, k - 1);
    }
  }

  lemma {:induction false} NeverSettles(step: int -> int, settled: int -> bool, bar: int, n: int, j: nat, k: nat)
    requires Climbing(step, settled, bar) && j <= k && bar <= After(step, n, j) && !settled(After(step, n, j))
    ensures bar <= After(step, n, k) && !settled(After(step, n, k))
    decreases k
  {
    if j < k {
      NeverSettles(step, settled, bar, n, j, k - 1);
    }
  }

  /** It settles within as many steps as it takes to reach the bar, or never. */
  lemma SoonOrNever(step: int -> int, settled: int -> bool, bar: int, n: int)
    requires Climbing(step, settled, bar)
    ensures (exists k :: settled(After(step, n, k))) <==> settled(After(step, n, Max(0, bar - n)))
  {
    var enough := Max(0, bar - n);
    if k: nat :| settled(After(step, n, k)) {
      if k <= enough {
        Stays(step, settled, bar, n, k, enough);
      } else if !settled(After(step, n, enough)) {
        Climbs(step, settled, bar, n, enough);
        NeverSettles(step, settled, bar, n, enough, k);
      }
    }
  }
}
