/** Products and quotients. */
module Arithmetic {

  lemma Distribute(a: int, b: int, n: int)
    ensures (a - b) * n == a * n - b * n
  {}

  lemma MulAtLeast(k: int, n: nat)
    requires k >= 1
    ensures k * n >= n
  {}

  lemma MulMonotone(a: int, b: int, n: nat)
    requires a <= b
    ensures a * n <= b * n
  {}

  lemma MulCancel(n: nat, a: int, b: int)
    requires n >= 1 && n * a == n * b
    ensures a == b
  {
    assert n * (a - b) == 0;
  }

  lemma QuotientBelow(a: nat, d: nat, n: nat)
    requires d >= 1 && a < n * d
    ensures a / d < n
  {
    var q := a / d;
    assert a == q * d + a % d;
    if q >= n {
      MulMonotone(n, q, d);
    }
  }

  lemma DivUnique(a: nat, n: nat, q: nat, r: nat)
    requires n >= 1 && a == q * n + r && r < n
    ensures a / n == q && a % n == r
  {
    var k := q - a / n;
    Distribute(q, a / n, n);
    assert k * n == a % n - r;
    if k >= 1 {
      MulAtLeast(k, n);
    } else if k <= -1 {
      MulAtLeast(-k, n);
      Distribute(0, k, n);
    }
  }

  lemma DivMod(a: nat, b: nat)
    requires b >= 1
    ensures a == (a / b) * b + a % b && 0 <= a % b < b
  {}

  lemma Regroup(q: nat, d: nat, r: nat, b: nat, s: nat)
    ensures (q * d + r) * b + s == q * (b * d) + (r * b + s)
  {}

  lemma Recompose(a: nat, b: nat, d: nat, q: nat, r: nat, s: nat)
    requires b >= 1 && d >= 1 && a == (q * d + r) * b + s && r < d && s < b
    ensures b * d >= 1 && a / (b * d) == q
  {
    Regroup(q, d, r, b, s);
    MulMonotone(r, d - 1, b);
    MulMonotone(0, r, b);
    Distribute(d, 1, b);
    MulAtLeast(d, b);
    DivUnique(a, b * d, q, r * b + s);
  }

  lemma DivDiv(a: nat, b: nat, d: nat)
    requires b >= 1 && d >= 1
    ensures b * d >= 1 && (a / b) / d == a / (b * d)
  {
    var p := a / b;
    DivMod(a, b);
    DivMod(p, d);
    Recompose(a, b, d, p / d, p % d, a % b);
  }
}
