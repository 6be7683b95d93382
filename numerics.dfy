/**
 * Exact-real stand-ins for the JavaScript `Math` functions the pricing code uses.
 *
 * The transcendental functions are not computable over `real`, so they are
 * supplied by the caller as a `MathLib` value and constrained only by the few
 * facts the model relies on (`Axioms`).
 */
module Numerics {

  /** `Math.exp`, `Math.sqrt` and `Math.log`, supplied from outside the model. */
  datatype MathLib = MathLib(exp: real -> real, sqrt: real -> real, log: real -> real)

  /** The only properties of the transcendental functions that the model uses. */
  ghost predicate Axioms(m: MathLib)
  {
    (forall x :: m.exp(x) > 0.0) &&
    (forall x :: x > 0.0 ==> m.exp(x) > 1.0) &&
    (forall x :: x > 0.0 ==> m.sqrt(x) > 0.0)
  }

  /** −x, as a function so that the exponent of a discount is recognisable. */
  function Negate(x: real): real
  {
    -x
  }

  /**
   * exp(x)·exp(−x) = 1, instantiated only for exponents written `Negate(x)`. Only the
   * lattice's put–call parity needs it, so it is kept apart from `Axioms`.
   */
  ghost predicate ExpInverse(m: MathLib)
  {
    forall x {:trigger m.exp(Negate(x))} :: m.exp(x) * m.exp(Negate(x)) == 1.0
  }

  /** `Math.PI`, as the shortest decimal that rounds to its IEEE double. */
  const Pi: real := 3.141592653589793

  /** `Math.pow` for a non-negative integer exponent. */
  function Pow(b: real, e: nat): real
  {
    if e == 0 then 1.0 else b * Pow(b, e - 1)
  }

  /** `Math.max` of two values. */
  function Max(a: real, b: real): (r: real)
    ensures r >= a && r >= b
    ensures r == a || r == b
  {
    if a >= b then a else b
  }

  /** `Math.min` of two integers. */
  function Min(a: int, b: int): (r: int)
    ensures r <= a && r <= b
    ensures r == a || r == b
  {
    if a <= b then a else b
  }

  /** `Math.abs`. */
  function Abs(x: real): (r: real)
    ensures r >= 0.0
    ensures r == x || r == -x
  {
    if x < 0.0 then -x else x
  }

  lemma {:induction false} PowOne(e: nat)
    ensures Pow(1.0, e) == 1.0
  {
    if e > 0 {
      PowOne(e - 1);
    }
  }

  lemma {:induction false} PowNonNegative(b: real, e: nat)
    requires b >= 0.0
    ensures Pow(b, e) >= 0.0
  {
    if e > 0 {
      PowNonNegative(b, e - 1);
    }
  }

  lemma {:induction false} PowPositive(b: real, e: nat)
    requires b > 0.0
    ensures Pow(b, e) > 0.0
  {
    if e > 0 {
      PowPositive(b, e - 1);
    }
  }
}
