/** Small value wrappers shared by the other modules. */
module Wrappers {

  datatype Option<+T> = None | Some(value: T)

  /** A JavaScript number as the scoring code uses it: an exact real, or NaN.
      Only the quotient 0/0 produces NaN in the modelled code; NaN then
      propagates through sums and products and makes every comparison false. */
  datatype Num = Finite(r: real) | NaN
  {
    /** `this < c` in JavaScript: false when this is NaN. */
    predicate Below(c: real) {
      Finite? && r < c
    }

    /** `this >= c` in JavaScript: false when this is NaN. */
    predicate AtLeast(c: real) {
      Finite? && r >= c
    }

    /** `this - d` in JavaScript: NaN when either side is NaN. */
    function Minus(d: Num): Num {
      if Finite? && d.Finite? then Finite(r - d.r) else NaN
    }

    /** `this * k` in JavaScript for a constant `k`. */
    function Times(k: real): Num {
      if Finite? then Finite(r * k) else NaN
    }
  }

  /** `a / b` in JavaScript for non-negative counts with `a <= b`:
      0/0 is NaN, every other quotient is an exact ratio in [0, 1]. */
  function Quotient(a: nat, b: nat): (q: Num)
    requires a <= b
    ensures q.NaN? <==> b == 0
    ensures q.Finite? ==> 0.0 <= q.r <= 1.0
    ensures q.Finite? && a == b ==> q.r == 1.0
  {
    if b == 0 then NaN else Finite(a as real / b as real)
  }

  /** `Math.max(a, b)` on counts. */
  function Max(a: nat, b: nat): nat {
    if a >= b then a else b
  }

  /** `Math.min(a, b)` on counts. */
  function Min(a: nat, b: nat): nat {
    if a <= b then a else b
  }

  /** `Math.round(x)`: nearest integer, halves rounded up. */
  function Round(x: real): (n: int)
    ensures x - 0.5 < n as real <= x + 0.5
  {
    (x + 0.5).Floor
  }

  lemma {:induction false} RoundMonotone(x: real, y: real)
    requires x <= y
    ensures Round(x) <= Round(y)
  {
  }

  /** `Math.max(0, Math.min(100, n))`. */
  function Clamp100(n: int): (c: int)
    ensures 0 <= c <= 100
    ensures 0 <= n <= 100 ==> c == n
  {
    if n < 0 then 0 else if n > 100 then 100 else n
  }
}
