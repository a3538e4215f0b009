/** A few facts about products and quotients, stated one at a time for the solver's sake. */
module Arith {
  lemma MulMono(a: int, b: int, c: nat)
    requires a <= b
    ensures a * c <= b * c && c * a <= c * b
  {
    assert (b - a) * c >= 0;
  }

  lemma Distribute(a: int, b: int, c: int)
    ensures a * (b + c) == a * b + a * c
    ensures a * (b - c) == a * b - a * c
  {
  }

  /** A multiple of `d` strictly between `-d` and `d` is zero. */
  lemma SmallMultiple(d: nat, k: int)
    requires 0 - d < d * k < d
    ensures k == 0
  {
    if k >= 1 { MulMono(1, k, d); }
    if k <= -1 { MulMono(k, -1, d); }
  }

  lemma Cancel(d: nat, x: int, y: int)
    requires d > 0 && d * x == d * y
    ensures x == y
  {
    Distribute(d, x, y);
    SmallMultiple(d, x - y);
  }

  lemma SameSign(x: int, c: nat, p: nat)
    requires c > 0 && x * c == p
    ensures x >= 0
  {
    if x <= -1 { MulMono(x, -1, c); }
  }

  lemma DivMod(n: nat, d: nat)
    requires d > 0
    ensures n == d * (n / d) + n % d
  {
  }

  lemma DivModUnique(n: nat, d: nat, q: int, r: nat)
    requires d > 0 && n == d * q + r && r < d
    ensures n / d == q && n % d == r
  {
    DivMod(n, d);
    Distribute(d, n / d, q);
    SmallMultiple(d, n / d - q);
  }

  lemma DivBound(n: nat, d: nat, q: nat)
    requires d > 0 && n <= d * q
    ensures n / d <= q
  {
    DivMod(n, d);
    if n / d >= q + 1 {
      MulMono(q + 1, n / d, d);
      Distribute(d, q, 1);
    }
  }

  lemma DivMono(n: nat, n': nat, d: nat)
    requires d > 0 && n <= n'
    ensures n / d <= n' / d
  {
    DivMod(n, d);
    DivMod(n', d);
    if n / d >= n' / d + 1 {
      MulMono(n' / d + 1, n / d, d);
      Distribute(d, n' / d, 1);
    }
  }
}
