/** Products and quotients of natural numbers. */
module Arith {
  lemma MulMono(k: nat, a: nat, b: nat)
    requires a <= b
    ensures k * a <= k * b
  {}

  lemma Cancel(a: nat, n: nat, m: nat)
    requires a * n < m * n
    ensures a < m
  {
    if a >= m { MulMono(n, m, a); }
  }

  /** Division that drops the remainder: how often `b` can be taken from `a`. */
  function Div(a: nat, b: nat): nat
    requires b > 0
  {
    if a < b then 0 else 1 + Div(a - b, b)
  }

  lemma {:induction false} DivIs(a: nat, b: nat)
    requires b > 0
    ensures Div(a, b) * b <= a < Div(a, b) * b + b
  {
    if a >= b {
      DivIs(a - b, b);
      var q := Div(a - b, b);
      assert (q + 1) * b == q * b + b;
    }
  }

  lemma DivAtMost(a: nat, b: nat, q: nat)
    requires b > 0 && a <= q * b
    ensures Div(a, b) <= q
  {
    hide Div;
    DivIs(a, b);
    assert (q + 1) * b == q * b + b;
    Cancel(Div(a, b), b, q + 1);
  }

  lemma ShareAtMost(k: nat, a: nat, b: nat)
    requires a <= b && b > 0
    ensures Div(k * a, b) <= k
  {
    hide Div;
    MulMono(k, a, b);
    DivAtMost(k * a, b, k);
  }

  lemma Multiple(q: nat, a: nat)
    requires a > 0
    ensures q * a % a == 0
  {
    var d, r := q * a / a, q * a % a;
    assert d * a + r == q * a;
    assert (d + 1) * a == d * a + a && (q + 1) * a == q * a + a;
    Cancel(q, a, d + 1);
    Cancel(d, a, q + 1);
  }
}
