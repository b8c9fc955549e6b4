/** Facts about multiplication, division and remainder that the other modules call by name. */
module Arith {

  // The smallest step from 1 in a 32-bit float: 2 to the power -23.
  const EPSILON: real := 1.0 / 8388608.0

  function Least(a: nat, b: nat): nat { if a <= b then a else b }

  lemma {:induction false} MulMono(a: int, b: int, c: int)
    requires a <= b && 0 <= c
    ensures a * c <= b * c
  {
  }

  lemma {:induction false} DivModUnique(n: nat, p: nat, q: nat, r: nat)
    requires p >= 1 && n == q * p + r && r < p
    ensures n / p == q && n % p == r
  {
    var q', r' := n / p, n % p;
    assert n == q' * p + r';
    if q' < q {
      MulMono(q' + 1, q, p);
    } else if q < q' {
      MulMono(q + 1, q', p);
    }
  }

  // Counting on by one either stays in the block or starts the next.
  lemma {:induction false} NextInBlock(n: nat, p: nat)
    requires p >= 1
    ensures if n % p + 1 < p then (n + 1) % p == n % p + 1 && (n + 1) / p == n / p
            else (n + 1) % p == 0 && (n + 1) / p == n / p + 1
  {
    var q, r := n / p, n % p;
    if r + 1 < p {
      DivModUnique(n + 1, p, q, r + 1);
    } else {
      assert (q + 1) * p == q * p + p;
      DivModUnique(n + 1, p, q + 1, 0);
    }
  }

  lemma {:induction false} SameResidue(a: nat, d: nat, k: nat)
    requires k >= 1
    ensures (a + d) % k == a % k <==> d % k == 0
  {
    var q, r, u, v := a / k, a % k, d / k, d % k;
    assert (q + u) * k == q * k + u * k;
    if r + v < k {
      DivModUnique(a + d, k, q + u, r + v);
    } else {
      assert (q + u + 1) * k == (q + u) * k + k;
      DivModUnique(a + d, k, q + u + 1, r + v - k);
    }
  }

  lemma {:induction false} Recomposed(n: nat, a: nat, b: nat, m: nat, s: nat, q: nat, r: nat)
    requires n == m * a + s && m == q * b + r && r < b && s < a
    ensures n == q * (a * b) + (r * a + s) && r * a + s < a * b
  {
    assert m * a == (q * b) * a + r * a;
    assert (q * b) * a == q * (a * b);
    MulMono(r + 1, b, a);
    assert (r + 1) * a == r * a + a;
  }

  lemma {:induction false} Divided(n: nat, p: nat)
    requires p > 0
    ensures n == n / p * p + n % p && n % p < p
  {
  }

  lemma {:induction false} DivTwice(n: nat, a: nat, b: nat)
    requires a > 0 && b > 0
    ensures a * b > 0 && n / a / b == n / (a * b)
  {
    var m, s := n / a, n % a;
    var q, r := m / b, m % b;
    Divided(n, a);
    Divided(m, b);
    Recomposed(n, a, b, m, s, q, r);
    DivModUnique(n, a * b, q, r * a + s);
  }

  lemma {:induction false} QuotientReaches(m: nat, k: nat, t: nat)
    requires k >= 1
    ensures m / k >= t <==> m >= t * k
  {
    var q := m / k;
    if q >= t {
      MulMono(t, q, k);
    } else {
      MulMono(q + 1, t, k);
    }
  }
}
