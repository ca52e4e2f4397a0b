/** Enumerating the numbers that satisfy a condition which recurs with a known period. */
module Enumeration {

  /** From every number that satisfies `h`, another one is reached after `period`. */
  ghost predicate Recurs(h: int -> bool, period: nat) {
    period > 0 && forall n :: h(n) ==> h(n + period)
  }

  /** The first number after `n` that satisfies `h`. */
  ghost function FirstAfter(h: int -> bool, n: int, period: nat): (r: int)
    requires Recurs(h, period) && h(n)
    ensures n < r <= n + period && h(r)
    ensures forall j :: n < j < r ==> !h(j)
  {
    Climb(h, n + 1, n + period)
  }

  ghost function Climb(h: int -> bool, lo: int, hi: int): (r: int)
    requires lo <= hi && h(hi)
    ensures lo <= r <= hi && h(r)
    ensures forall j :: lo <= j < r ==> !h(j)
    decreases hi - lo
  {
    if h(lo) then lo else Climb(h, lo + 1, hi)
  }

  lemma FirstAfterIsUnique(h: int -> bool, n: int, period: nat, r: int)
    requires Recurs(h, period) && h(n) && n < r && h(r) && forall j :: n < j < r ==> !h(j)
    ensures r == FirstAfter(h, n, period)
  {
    assert h(FirstAfter(h, n, period));
  }

  /** The `k`-th number, counted from 0, that satisfies `h`. */
  ghost function Position(h: int -> bool, k: nat, period: nat): (n: int)
    requires Recurs(h, period) && h(0)
    ensures h(n) && k <= n
  {
    if k == 0 then 0 else FirstAfter(h, Position(h, k - 1, period), period)
  }

  /** Every natural number that satisfies `h` has its turn. */
  lemma PositionsCover(h: int -> bool, period: nat, n: nat)
    requires Recurs(h, period) && h(0)
    ensures h(n) <==> exists k :: Position(h, k, period) == n
  {
    if h(n) {
      var k := Bracket(h, period, n);
    }
  }

  lemma {:induction false} Bracket(h: int -> bool, period: nat, n: nat) returns (k: nat)
    requires Recurs(h, period) && h(0)
    ensures Position(h, k, period) <= n < Position(h, k + 1, period)
    ensures h(n) ==> Position(h, k, period) == n
    decreases n
  {
    if n == 0 {
      k := 0;
    } else {
      k := Bracket(h, period, n - 1);
      if n == Position(h, k + 1, period) {
        k := k + 1;
      }
    }
    assert Position(h, k + 1, period) == FirstAfter(h, Position(h, k, period), period);
  }

  /** Counting from `a` instead of 0 moves the first number after it by `a`. */
  lemma FirstAfterShifts(h: int -> bool, g: int -> bool, a: int, period: nat)
    requires Recurs(h, period) && Recurs(g, period) && h(a) && g(0)
    requires forall j :: j >= 0 ==> (g(j) <==> h(a + j))
    ensures FirstAfter(h, a, period) == a + FirstAfter(g, 0, period)
  {
    var r := FirstAfter(g, 0, period);
    forall j | a < j < a + r
      ensures !h(j)
    {
      assert j == a + (j - a) && !g(j - a);
    }
    FirstAfterIsUnique(h, a, period, a + r);
  }

  // ---- increasing times ----

  /** The time after the `i`-th is later, and past the end if that one is. */
  ghost predicate GoesUp(time: nat -> int, past: nat -> bool, i: nat) {
    time(i) < time(i + 1) && (past(i) ==> past(i + 1))
  }

  lemma {:induction false} GoesUpFurther(time: nat -> int, past: nat -> bool, j: nat, k: nat)
    requires j < k && forall i :: GoesUp(time, past, i)
    ensures time(j) < time(k) && (past(j) ==> past(k))
    decreases k
  {
    assert GoesUp(time, past, k - 1);
    if j < k - 1 {
      GoesUpFurther(time, past, j, k - 1);
    }
  }

  /** No time that is not past the end lies between one and the next. */
  lemma NoneBetween(time: nat -> int, past: nat -> bool, j: nat, k: nat)
    requires (forall i :: GoesUp(time, past, i)) && !past(j) && time(k) < time(j)
    ensures time(k + 1) <= time(j) && !past(k + 1)
  {
    if j < k {
      GoesUpFurther(time, past, j, k);
    } else if k + 1 < j {
      GoesUpFurther(time, past, k + 1, j);
    }
  }

  // ---- even times ----

  ghost predicate Adds(f: nat -> int, step: int, i: nat) {
    f(i + 1) == f(i) + step
  }

  lemma {:induction false} ArithmeticProgression(f: nat -> int, step: int, k: nat)
    requires forall i :: Adds(f, step, i)
    ensures f(k) == f(0) + k * step
    decreases k
  {
    if k > 0 {
      assert Adds(f, step, k - 1);
      ArithmeticProgression(f, step, k - 1);
      assert k * step == (k - 1) * step + step;
    }
  }
}
