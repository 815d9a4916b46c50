/** Facts about multiplication and Euclidean division that the index arithmetic needs. */
module Arith {

  lemma MulMonotone(a: nat, b: nat, n: nat)
    requires a <= b
    ensures a * n <= b * n
  {
    assert b * n == a * n + (b - a) * n;
  }

  lemma ModAtMost(a: nat, n: nat)
    requires n >= 1
    ensures 0 <= a % n <= a
  {
  }

  /** Quotient and remainder are unique. */
  lemma DivModUnique(a: nat, n: nat, q: nat, r: nat)
    requires r < n && a == q * n + r
    ensures a / n == q && a % n == r
  {
    var d, m := a / n, a % n;
    assert a == n * d + m;
    assert (d + 1) * n == d * n + n && (q + 1) * n == q * n + n;
    if d < q {
      MulMonotone(d + 1, q, n);
    } else if q < d {
      MulMonotone(q + 1, d, n);
    }
  }

  /** Two cells of a row-major layout share an index only when they are the same cell. */
  lemma IndexUnique(y: nat, x: nat, y': nat, x': nat, cols: nat)
    requires x < cols && x' < cols && y * cols + x == y' * cols + x'
    ensures y == y' && x == x'
  {
    DivModUnique(y * cols + x, cols, y, x);
    DivModUnique(y' * cols + x', cols, y', x');
  }

  lemma IndexInside(y: nat, x: nat, lines: nat, cols: nat)
    requires y < lines && x < cols
    ensures y * cols + x < lines * cols
  {
    MulMonotone(y + 1, lines, cols);
    assert (y + 1) * cols == y * cols + cols;
  }

  /** Stepping by one either stays in the row or starts the next. */
  lemma ModStep(n: nat, a: nat)
    requires n >= 1
    ensures (a + 1) % n == if a % n == n - 1 then 0 else a % n + 1
  {
    var q, r := a / n, a % n;
    assert a == n * q + r;
    if r == n - 1 {
      assert (q + 1) * n == q * n + n;
      DivModUnique(a + 1, n, q + 1, 0);
    } else {
      DivModUnique(a + 1, n, q, r + 1);
    }
  }

  /** Different numbers differ in quotient or remainder. */
  lemma DifferSomewhere(a: nat, b: nat, n: nat)
    requires n >= 1 && a != b
    ensures a / n != b / n || a % n != b % n
  {
    assert a == n * (a / n) + a % n && b == n * (b / n) + b % n;
  }
}
