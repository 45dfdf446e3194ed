/** The scalar arithmetic the pricing engine relies on, over mathematical reals.
    The transcendental functions of the vector library (exp, ln, sqrt) are not
    defined here: every member that needs them takes a `Math` value and assumes
    of it only what `Lawful` states. */
module RealMath {

  /** The uninterpreted transcendental functions, plus the stand-in for a
      quotient by zero (IEEE gives +-Inf or NaN there, which has no real value;
      the model leaves it open). */
  datatype Math = Math(
    exp: real -> real,
    ln: real -> real,
    sqrt: real -> real,
    quotByZero: real -> real)

  /** The only facts about the transcendentals that any proof uses. */
  ghost predicate Lawful(m: Math) {
    && (forall x :: m.exp(x) > 0.0)
    && (forall x :: x > 0.0 ==> m.sqrt(x) > 0.0)
  }

  function Abs(x: real): real {
    if x < 0.0 then -x else x
  }

  /** Floating-point division `a / b`: the real quotient when `b` is nonzero. */
  function Div(m: Math, a: real, b: real): real {
    if b == 0.0 then m.quotByZero(a) else a / b
  }
}
