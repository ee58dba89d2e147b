/** Multiplication of reals by name, so that proofs can hide it and use only the facts below. */
module Reals {

  function Mul(a: real, b: real): real { a * b }

  function Sq(x: real): real { Mul(x, x) }

  lemma MulComm(a: real, b: real)
    ensures Mul(a, b) == Mul(b, a)
  {
  }

  lemma MulAdd(a: real, b: real, c: real)
    ensures Mul(a, b + c) == Mul(a, b) + Mul(a, c)
    ensures Mul(b + c, a) == Mul(b, a) + Mul(c, a)
    ensures Mul(a, b - c) == Mul(a, b) - Mul(a, c)
    ensures Mul(b - c, a) == Mul(b, a) - Mul(c, a)
  {
  }

  lemma MulAssoc(a: real, b: real, c: real)
    ensures Mul(a, Mul(b, c)) == Mul(Mul(a, b), c)
  {
  }

  lemma MulOne(a: real)
    ensures Mul(1.0, a) == Mul(a, 1.0) == a
    ensures Mul(0.0, a) == Mul(a, 0.0) == 0.0
  {
  }

  lemma MulPositive(a: real, b: real)
    requires a >= 0.0 && b >= 0.0
    ensures Mul(a, b) >= 0.0
    ensures a > 0.0 && b > 0.0 ==> Mul(a, b) > 0.0
  {
  }

  lemma MulGrow(z: real, x: real)
    requires z >= 1.0 && x >= 0.0
    ensures Mul(z, x) >= x
  {
    MulPositive(z - 1.0, x);
    MulAdd(x, z, 1.0);
  }

  lemma Square(x: real)
    ensures Sq(x) >= 0.0
    ensures Sq(x) == 0.0 ==> x == 0.0
  {
    if x > 0.0 {
      MulPositive(x, x);
    } else if x < 0.0 {
      MulPositive(-x, -x);
      MulNegate(x);
    }
  }

  lemma MulNegate(x: real)
    ensures Mul(-x, -x) == Mul(x, x)
  {
  }

  lemma Quotient(x: real, k: real)
    requires k != 0.0
    ensures Mul(k, x / k) == x
  {
  }

  lemma Reciprocal(z: real)
    requires z != 0.0
    ensures Mul(z, 1.0 / z) == 1.0
  {
  }
}
