/** Saturating 64-bit arithmetic (src/digest.cpp:238-260). */
module Saturating {

  /** Every cost, allocation and demand in the planner saturates at this value. */
  const COST_CEILING: nat := 0x4000_0000_0000_0000

  function Min(a: nat, b: nat): nat {
    if a <= b then a else b
  }

  function Max(a: nat, b: nat): nat {
    if a >= b then a else b
  }

  /** The branch structure of the source: the sum is formed only when it cannot exceed the ceiling. */
  function SatAdd(a: nat, b: nat): (r: nat)
    ensures r == Min(a + b, COST_CEILING)
  {
    if a >= COST_CEILING || b >= COST_CEILING || a > COST_CEILING - b then COST_CEILING else a + b
  }

  lemma ClampAdd(a: nat, b: nat)
    ensures SatAdd(Min(a, COST_CEILING), b) == Min(a + b, COST_CEILING)
  {
  }

  function SatMul(a: nat, b: nat): (r: nat)
    ensures r == Min(a * b, COST_CEILING)
  {
    if a == 0 || b == 0 then 0
    else if a >= COST_CEILING || b >= COST_CEILING then
      assert a * b >= COST_CEILING by { ProductBound(a, b); }
      COST_CEILING
    else if a > COST_CEILING / b then
      assert a * b >= COST_CEILING by { QuotientBound(a, b); }
      COST_CEILING
    else
      assert a * b <= COST_CEILING by { QuotientFits(a, b); }
      a * b
  }

  lemma ProductBound(a: nat, b: nat)
    requires a > 0 && b > 0
    ensures a * b >= a && a * b >= b
  {
  }

  lemma QuotientBound(a: nat, b: nat)
    requires b > 0 && a > COST_CEILING / b
    ensures a * b >= COST_CEILING
  {
    var q := COST_CEILING / b;
    assert COST_CEILING == q * b + COST_CEILING % b;
    assert a * b >= (q + 1) * b;
  }

  lemma QuotientFits(a: nat, b: nat)
    requires b > 0 && a <= COST_CEILING / b
    ensures a * b <= COST_CEILING
  {
    var q := COST_CEILING / b;
    assert COST_CEILING == q * b + COST_CEILING % b;
    assert a * b <= q * b;
  }
}
