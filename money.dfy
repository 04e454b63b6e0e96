/** Arithmetic on amounts of money and hours, which are modelled as exact reals. */
module Money {

  /** The product of two amounts, kept as one term so that the solver does not reason about it nonlinearly. */
  function Times(a: real, b: real): (p: real)
    ensures a == 0.0 || b == 0.0 ==> p == 0.0
  {
    a * b
  }

  /** `int(x)` on a real: truncation toward zero. */
  function Trunc(x: real): (n: int)
    ensures x >= 0.0 ==> 0 <= n && n as real <= x < n as real + 1.0
    ensures x < 0.0 ==> n <= 0 && n as real - 1.0 < x <= n as real
  {
    if x >= 0.0 then x.Floor else -((-x).Floor)
  }
}
