/**
 * The range-check gadget `less_than_10`: the product of (i − value) over
 * the loop's constants is connected to zero. The Goldilocks field is
 * prime, so a product of field elements vanishes exactly when one factor
 * does; the model multiplies integers, which vanish under the same
 * condition.
 */
module Range {

  /** ∏_{i < n} (i − v): the accumulator after n rounds of the loop. */
  function RangeProduct(v: int, n: nat): int {
    if n == 0 then 1 else RangeProduct(v, n - 1) * (n - 1 - v)
  }

  lemma MulZero(a: int, b: int)
    ensures a * b == 0 <==> a == 0 || b == 0
  {
  }

  /** The product vanishes exactly when v is one of the constants 0 … n − 1. */
  lemma {:induction false} RangeProductZero(v: int, n: nat)
    ensures RangeProduct(v, n) == 0 <==> 0 <= v < n
  {
    if n > 0 {
      RangeProductZero(v, n - 1);
      MulZero(RangeProduct(v, n - 1), n - 1 - v);
    }
  }

  /**
   * The constraint-building loop of `less_than_10`: `exp` starts at one
   * and is multiplied by (i − value) for i in 0..9. The Rust function then
   * connects `exp` to zero and always returns `Ok`: a value out of range
   * is never an error, only an unsatisfiable constraint.
   */
  method RangeAccumulator(value: nat) returns (exp: int)
    ensures exp == RangeProduct(value, 9)
    ensures exp == 0 <==> value <= 8
  {
    exp := 1;
    for i := 0 to 9
      invariant exp == RangeProduct(value, i)
    {
      var checked := i - value;
      exp := exp * checked;
    }
    RangeProductZero(value, 9);
  }

  /** `connect(exp, 0)` is satisfiable: the constraint `less_than_10` adds, as written. */
  predicate LessThan10(value: nat) {
    RangeProduct(value, 9) == 0
  }

  /** As written the gadget accepts exactly 0 ‥ 8. */
  lemma LessThan10Iff(value: nat)
    ensures LessThan10(value) <==> value <= 8
  {
    RangeProductZero(value, 9);
  }

  /** The documented contract "less than 10" fails at 9: the gadget rejects it. */
  lemma NineRejected()
    ensures 9 < 10 && !LessThan10(9)
  {
    LessThan10Iff(9);
  }

  /** The documented check: the loop run over 0..10. */
  predicate LessThanTen(value: nat) {
    RangeProduct(value, 10) == 0
  }

  /** The documented check accepts exactly the values below 10. */
  lemma LessThanTenIff(value: nat)
    ensures LessThanTen(value) <==> value < 10
  {
    RangeProductZero(value, 10);
  }
}
