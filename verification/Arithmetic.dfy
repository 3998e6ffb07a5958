/** Division facts that the solver does not find on its own. */
module Arithmetic {

  lemma MulSign(k: int, n: nat)
    ensures k >= 1 ==> k * n >= n
    ensures k <= -1 ==> k * n + n <= 0
    ensures k >= 0 ==> k * n >= 0
  {
    if k >= 1 {
      assert k * n == (k - 1) * n + n;
    } else if k <= -1 {
      assert k * n == (k + 1) * n - n;
    }
  }

  lemma MulLess(k: nat, m: nat, n: nat)
    requires k < m
    ensures k * n + n <= m * n
  {
    MulSign(m - k, n);
    assert m * n == k * n + (m - k) * n;
  }

  lemma MulMono(k: nat, m: nat, n: nat)
    requires k <= m
    ensures k * n <= m * n
  {
    MulSign(m - k, n);
    assert m * n == k * n + (m - k) * n;
  }

  lemma QuotientUnique(a: int, b: nat, c: int, d: nat, n: nat)
    requires b < n && d < n && a * n + b == c * n + d
    ensures a == c && b == d
  {
    assert (a - c) * n == d - b;
    MulSign(a - c, n);
  }

  lemma DivMod(x: nat, n: nat)
    requires n > 0
    ensures x == (x / n) * n + x % n && x % n < n
  {
  }

  lemma DivModUnique(q: nat, r: nat, n: nat)
    requires r < n
    ensures q * n + r >= 0
    ensures (q * n + r) / n == q && (q * n + r) % n == r
  {
    MulSign(q, n);
    var x := q * n + r;
    DivMod(x, n);
    QuotientUnique(x / n, x % n, q, r, n);
  }

  lemma QuotientOf(i: nat, q: nat, c: nat, n: nat)
    requires c < n && i == q * n + c
    ensures i / n == q && i % n == c
  {
    DivModUnique(q, c, n);
  }

  lemma DivBound(i: nat, n: nat, m: nat)
    requires 0 < n && i < m * n
    ensures i / n < m
  {
    DivMod(i, n);
    MulSign(i / n - m, n);
    assert (i / n - m) * n == (i / n) * n - m * n;
  }

  lemma DivModShift(i: nat, n: nat)
    requires 0 < n <= i
    ensures (i - n) / n == i / n - 1 && (i - n) % n == i % n
  {
    DivMod(i, n);
    DivMod(i - n, n);
    assert (i / n - 1) * n == (i / n) * n - n;
    QuotientUnique((i - n) / n, (i - n) % n, i / n - 1, i % n, n);
  }
}
