/**
 * Integer conventions of the Python code: `int()` of a float and the
 * bounds of a step-1 slice `a[start:stop]`.
 */
module Arith {

  function Min(a: int, b: int): int { if a <= b then a else b }
  function Max(a: int, b: int): int { if a >= b then a else b }

  /** Python's `int(x)` on a number: truncation toward zero. */
  function Trunc(x: real): (n: int)
    ensures x >= 0.0 ==> n as real <= x < n as real + 1.0
    ensures x < 0.0 ==> n as real - 1.0 < x <= n as real
  {
    if x >= 0.0 then x.Floor else -((-x).Floor)
  }

  /**
   * `n * f` for an integer `n` and a number `f`, written as repeated addition
   * so that reasoning about it stays linear; `TimesIsProduct` shows it is the product.
   */
  function Times(n: int, f: real): real
    decreases if n < 0 then -n else n
  {
    if n == 0 then 0.0 else if n < 0 then Times(n + 1, f) - f else Times(n - 1, f) + f
  }

  lemma {:induction false} TimesIsProduct(n: int, f: real)
    ensures Times(n, f) == n as real * f
    decreases if n < 0 then -n else n
  {
    if n < 0 {
      TimesIsProduct(n + 1, f);
    } else if n > 0 {
      TimesIsProduct(n - 1, f);
    }
  }

  /** A count scaled by a factor of at least one does not shrink. */
  lemma {:induction false} TimesAtLeast(n: nat, f: real)
    requires f >= 1.0
    ensures Times(n, f) >= n as real
    decreases n
  {
    if n > 0 {
      TimesAtLeast(n - 1, f);
    }
  }

  /** `int()` keeps a non-negative upper bound of its argument. */
  lemma TruncAtMost(x: real, n: int)
    requires n >= 0 && x <= n as real
    ensures Trunc(x) <= n
  {
  }

  /** `int()` keeps a lower bound of its argument. */
  lemma TruncAtLeast(x: real, n: int)
    requires x >= n as real
    ensures Trunc(x) >= n
  {
  }

  /** One bound of a slice of a sequence of length `n`: a negative bound counts from the end, then both are clamped to [0, n]. */
  function SliceBound(i: int, n: nat): (b: nat)
    ensures b <= n
    ensures 0 <= i <= n ==> b == i
    ensures i > n ==> b == n
    ensures i < 0 ==> b == Max(0, i + n)
  {
    if i < 0 then (if i + n < 0 then 0 else i + n)
    else if i > n then n
    else i
  }

  /** The indices selected by `a[start:stop]`: `lo <= k < hi`. */
  datatype Span = Span(lo: nat, hi: nat) {
    predicate Has(k: int) { lo <= k < hi }
    predicate IsEmpty() { hi <= lo }
    function Length(): nat { if hi <= lo then 0 else hi - lo }
  }

  function PySlice(start: int, stop: int, n: nat): (s: Span)
    ensures s.lo <= s.hi <= n
    ensures 0 <= start <= stop <= n ==> s == Span(start, stop)
    ensures 0 <= stop <= start ==> s.IsEmpty()
  {
    var lo := SliceBound(start, n);
    var hi := SliceBound(stop, n);
    Span(lo, if hi < lo then lo else hi)
  }
}
