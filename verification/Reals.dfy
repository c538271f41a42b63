/** Bounds and products of reals, which stand for the floats of the implementation. */
module Reals {

  function Min(a: real, b: real): real {
    if b < a then b else a
  }

  function Max(a: real, b: real): real {
    if a < b then b else a
  }

  function Clamp01(v: real): real {
    if v < 0.0 then 0.0 else if v > 1.0 then 1.0 else v
  }

  lemma NonNegativeProduct(a: real, b: real)
    requires a >= 0.0 && b >= 0.0
    ensures a * b >= 0.0
  {
  }

  lemma ProductBound(p: real, q: real, r: real, s: real)
    requires 0.0 <= p <= r && 0.0 <= q <= s
    ensures 0.0 <= p * q <= r * s
  {
    assert p * q <= r * q;
    assert r * q <= r * s;
  }
}
