/** Facts about products and remainders that the solver does not find inside larger proofs. */
module Arithmetic {

  lemma Collect(g: int, p: int, k: int, q: int)
    ensures (g * p) * k + g * q == g * (p * k + q)
  {}

  lemma Recombine(a: int, b: int, k: int, u: int, v: int)
    ensures u * b + v * (a - b * k) == v * a + (u - v * k) * b
  {}

  lemma Factor(d: int, u: int, x: int, v: int, y: int)
    ensures u * (d * x) + v * (d * y) == d * (u * x + v * y)
  {}

  lemma Bezout(d: int, q: int, len: int, u: int, v: int, w: int)
    requires u * (len - q) + v * q == 1 && d * q == w * len
    ensures d == len * (d * u + (v - u) * w)
  {}

  function Times(i: nat, n: nat): nat {
    if i == 0 then 0 else Times(i - 1, n) + n
  }

  lemma {:induction false} TimesIsProduct(i: nat, n: nat)
    ensures Times(i, n) == i * n
  {
    if i > 0 {
      TimesIsProduct(i - 1, n);
      Distribute(i - 1, 1, n);
    }
  }

  lemma Distribute(x: int, y: int, n: int)
    ensures (x + y) * n == x * n + y * n
  {}

  lemma Spread(g: int, t: int, k: int)
    ensures g * (t - k) == g * t - g * k
  {}

  lemma Residue(g: nat, i: nat, k: int, off: int)
    requires i < g && off == i + g * k
    ensures off % g == i && off == g * (off / g) + off % g
  {
    var r, t := off % g, off / g;
    Spread(g, t, k);
    Spread(g, k, t);
    if i < r { NoMultipleBelow(g, r - i, k - t); }
    if r < i { NoMultipleBelow(g, i - r, t - k); }
  }

  lemma Cancel(g: nat, x: int, y: int)
    requires g > 0 && g * x == g * y
    ensures x == y
  {
    calc { g * (x - y); 0; }
  }

  lemma PositiveProduct(d: nat, t: int)
    requires d * t > 0
    ensures d <= d * t
  {}

  lemma NoMultipleBelow(n: nat, d: int, k: int)
    requires 0 < d < n
    ensures d != n * k
  {}
}
