/** The few facts about products, quotients and remainders that the time arithmetic rests on. */
module Arithmetic {
  lemma MulMono(c: int, a: int, b: int)
    requires c >= 0 && a <= b
    ensures c * a <= c * b
  {
  }

  lemma MulDist(c: int, a: int, b: int)
    ensures c * (a + b) == c * a + c * b
    ensures c * (a - b) == c * a - c * b
  {
  }

  lemma DivMod(x: int, d: int)
    requires d > 0
    ensures x == d * (x / d) + x % d && 0 <= x % d < d
  {
  }

  /** Division with remainder has only one solution. */
  lemma DivModUnique(x: int, d: int, q: int, r: int)
    requires d > 0 && 0 <= r < d && x == d * q + r
    ensures x / d == q && x % d == r
  {
    var q' := x / d;
    DivMod(x, d);
    MulDist(d, q, q');
    MulDist(d, q', q);
    if q > q' {
      MulMono(d, 1, q - q');
    } else if q < q' {
      MulMono(d, 1, q' - q);
    }
  }

  lemma MultipleFacts(d: int, q: int)
    requires d > 0
    ensures (d * q) % d == 0 && (d * q) / d == q
  {
    DivModUnique(d * q, d, q, 0);
  }

  /** Two different multiples of `d` are at least `d` apart. */
  lemma MultipleGap(d: int, a: int, b: int)
    requires d > 0 && a % d == 0 && b % d == 0 && a < b
    ensures a + d <= b && a / d < b / d
  {
    var qa, qb := a / d, b / d;
    DivMod(a, d);
    DivMod(b, d);
    if qb <= qa {
      MulMono(d, qb, qa);
    } else {
      MulMono(d, 1, qb - qa);
      MulDist(d, qb, qa);
    }
  }

  /** Two numbers with the same remainder are a multiple apart. */
  lemma SameRemainderGap(n: int, a: int, b: int)
    requires n > 0 && a % n == b % n && a < b
    ensures a + n <= b
  {
    DivMod(a, n);
    DivMod(b, n);
    MulDist(n, b / n, a / n);
    if b / n <= a / n {
      MulMono(n, b / n, a / n);
    } else {
      MulMono(n, 1, b / n - a / n);
    }
  }
}
