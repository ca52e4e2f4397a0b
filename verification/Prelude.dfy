/** Result types shared by the modules. */
module Prelude {

  /** A value that may be missing (Python's `None`). */
  datatype Option<+T> = None | Some(value: T)

  /** A computed value, or the message of the exception that ended the computation. */
  datatype Result<+T> = Ok(value: T) | Err(message: string)

  function Max(a: int, b: int): int { if a >= b then a else b }

  function Min(a: int, b: int): int { if a <= b then a else b }

  // ---- least elements ----

  /** `r` is the least number at or above `from` that satisfies `p`, or `None` when there is none. */
  ghost predicate IsLeast(p: int -> bool, from: int, r: Option<int>) {
    match r
    case None => forall n :: from <= n ==> !p(n)
    case Some(m) => from <= m && p(m) && forall n :: from <= n < m ==> !p(n)
  }

  lemma LeastIsUnique(p: int -> bool, from: int, r: Option<int>, r': Option<int>)
    requires IsLeast(p, from, r) && IsLeast(p, from, r')
    ensures r == r'
  {
    assert r.Some? ==> p(r.value);
    assert r'.Some? ==> p(r'.value);
  }

  /** The simplest search: try every number in turn up to `last`. */
  function TryEach(p: int -> bool, from: int, last: int): Option<int>
    decreases last - from
  {
    if from > last then None
    else if p(from) then Some(from)
    else TryEach(p, from + 1, last)
  }

  lemma {:induction false} TryEachIsLeast(p: int -> bool, from: int, last: int)
    requires forall n :: n > last ==> !p(n)
    ensures IsLeast(p, from, TryEach(p, from, last))
    decreases last - from
  {
    if from <= last && !p(from) {
      TryEachIsLeast(p, from + 1, last);
    }
  }
}
