/** Products and rounded-up quotients of natural numbers. */
module Arithmetic {

  lemma {:induction false} MulMonotone(a: nat, b: nat, c: nat)
    ensures a <= b ==> 0 <= a * c <= b * c
  {
  }

  lemma {:induction false} NextMultiple(n: nat, d: nat)
    requires n > 0
    ensures n * d == (n - 1) * d + d
  {
  }

  function CeilDiv(n: nat, d: nat): nat
    requires d > 0
  {
    (n + d - 1) / d
  }

  /** The least number of parts of size `d` that hold `n`. */
  lemma {:induction false} CeilDivLeast(n: nat, d: nat, k: nat)
    requires d > 0
    ensures CeilDiv(n, d) <= k <==> n <= k * d
  {
    var q, r := (n + d - 1) / d, (n + d - 1) % d;
    assert n + d - 1 == q * d + r;
    MulMonotone(q, k, d);
    MulMonotone(k + 1, q, d);
    NextMultiple(k + 1, d);
  }
}
