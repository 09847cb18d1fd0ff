/**
 * The argument guard of the accumulator factory.
 *
 * The factory receives an arbitrary JavaScript value as its window size and checks it with
 * a "positive primitive integer" predicate, built from a "primitive integer" predicate,
 * which in turn is built from a "finite integer" test on the numeric value.
 */
module Validate {

  /** An IEEE-754 double as far as the guard can tell them apart: rounding is not modelled. */
  datatype Double = Finite(r: real) | PosInf | NegInf | NotANumber

  /**
   * The JavaScript values a caller can pass: a primitive number (`typeof v == "number"`),
   * a boxed `Number` object wrapping a double, or anything else (string, null, ...).
   */
  datatype JsValue = Primitive(num: Double) | Boxed(num: Double) | NonNumeric

  /**
   * The finite-integer test: the value is below +Infinity, above -Infinity and equal to its
   * own floor. The two range comparisons leave only finite values (every comparison with
   * NaN is false), and of those only the integers equal their floor.
   */
  predicate IsFiniteInteger(d: Double) {
    d.Finite? && d.r.Floor as real == d.r
  }

  /** A primitive number (not a boxed object) that is a finite integer. */
  predicate IsPrimitiveInteger(v: JsValue) {
    v.Primitive? && IsFiniteInteger(v.num)
  }

  /** The guard the factory applies to the window size. */
  predicate IsPositivePrimitiveInteger(v: JsValue) {
    IsPrimitiveInteger(v) && v.num.r > 0.0
  }

  /** The primitive JavaScript number holding the integer `k`. */
  function IntegerValue(k: nat): JsValue {
    Primitive(Finite(k as real))
  }

  /**
   * The guard holds exactly of the primitive numbers 1, 2, 3, ...; the window size it
   * admits is the integer itself.
   */
  lemma GuardAdmitsExactlyPositiveIntegers(v: JsValue)
    ensures IsPositivePrimitiveInteger(v) <==> exists k: nat :: k >= 1 && v == IntegerValue(k)
  {
    if IsPositivePrimitiveInteger(v) {
      var k: nat := v.num.r.Floor;
      assert v == IntegerValue(k);
    }
  }

  /** Zero, negatives, fractions, NaN, infinities, boxed numbers and non-numbers are refused. */
  lemma GuardRejects(n: nat, x: real)
    ensures !IsPositivePrimitiveInteger(Primitive(Finite(0.0)))
    ensures !IsPositivePrimitiveInteger(Primitive(Finite(-(n as real))))
    ensures x.Floor as real != x ==> !IsPositivePrimitiveInteger(Primitive(Finite(x)))
    ensures !IsPositivePrimitiveInteger(Primitive(NotANumber))
    ensures !IsPositivePrimitiveInteger(Primitive(PosInf))
    ensures !IsPositivePrimitiveInteger(Primitive(NegInf))
    ensures !IsPositivePrimitiveInteger(Boxed(Finite(n as real + 1.0)))
    ensures !IsPositivePrimitiveInteger(NonNumeric)
  {
  }
}
