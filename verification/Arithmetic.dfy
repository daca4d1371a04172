/** Laws of products that the solver is not left to find by itself. */
module Arithmetic {
  lemma {:induction false} MulMono(k: nat, x: int, y: int)
    requires x <= y
    ensures x * k <= y * k && k * x <= k * y
  {
  }

  lemma {:induction false} Distribute(a: int, b: int, k: int)
    ensures (a + b) * k == a * k + b * k
  {
  }

  lemma {:induction false} RealMulMono(a: real, x: real, y: real)
    requires 0.0 <= a && x <= y
    ensures a * x <= a * y
  {
  }

  lemma {:induction false} RealDistribute(x: real, y: real, a: real)
    ensures (x + y) * a == x * a + y * a
  {
  }
}
