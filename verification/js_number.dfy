/** JavaScript numbers as the calculator uses them.

    Exact reals stand in for IEEE-754 doubles; the one non-finite value the
    calculator can meet is NaN, produced by `parseInt`/`parseFloat` on text
    with no digits and propagated by every arithmetic operation. */
module JsNumber {

  datatype Number = Finite(val: real) | NaN

  /** `a + b`; NaN if either operand is NaN. */
  function Add(a: Number, b: Number): (r: Number)
    ensures r.Finite? <==> a.Finite? && b.Finite?
  {
    if a.Finite? && b.Finite? then Finite(a.val + b.val) else NaN
  }

  /** `a - b`; NaN if either operand is NaN. */
  function Sub(a: Number, b: Number): (r: Number)
    ensures r.Finite? <==> a.Finite? && b.Finite?
  {
    if a.Finite? && b.Finite? then Finite(a.val - b.val) else NaN
  }

  /** `a * b`; NaN if either operand is NaN. */
  function Mul(a: Number, b: Number): (r: Number)
    ensures r.Finite? <==> a.Finite? && b.Finite?
  {
    if a.Finite? && b.Finite? then Finite(a.val * b.val) else NaN
  }

  /** `n >= c`: every comparison with NaN is false. */
  predicate AtLeast(n: Number, c: real) {
    n.Finite? && n.val >= c
  }

  /** An integer as a JavaScript number. */
  function OfInt(i: int): Number {
    Finite(i as real)
  }

  /** `Math.round(x)`: the integer nearest to `x`, halves going towards +infinity. */
  function Round(x: real): (r: int)
    ensures x - 0.5 < r as real <= x + 0.5
  {
    (x + 0.5).Floor
  }

  lemma RoundMonotone(x: real, y: real)
    requires x <= y
    ensures Round(x) <= Round(y)
  {
    // Round(x) <= x + 0.5 <= y + 0.5 < Round(y) + 1, and both are integers.
    assert (Round(x) as real) < (Round(y) + 1) as real;
  }

  /** A value strictly inside (lo - 1/2, hi + 1/2) rounds into [lo, hi]. */
  lemma RoundWithin(x: real, lo: int, hi: int)
    requires lo as real - 0.5 <= x < hi as real + 0.5
    ensures lo <= Round(x) <= hi
  {
    assert (lo - 1) as real < Round(x) as real;
    assert (Round(x) as real) < (hi + 1) as real;
  }
}
