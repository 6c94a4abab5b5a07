/** Multiplication, quotients and remainders by a variable. */
module Arithmetic {

  lemma {:induction false} MulAtLeast(k: int, w: nat)
    ensures k >= 1 ==> k * w >= w
  {}

  lemma {:induction false} MulLe(a: nat, b: nat, w: nat)
    ensures a <= b ==> a * w <= b * w
  {}

  /** Quotient and remainder are unique. */
  lemma {:induction false} DivUnique(w: nat, q: int, r: int, y: int, x: int)
    requires w > 0 && 0 <= r < w && 0 <= x < w && q * w + r == y * w + x
    ensures q == y && r == x
  {
    assert (q - y) * w == x - r;
    assert (y - q) * w == r - x;
    MulAtLeast(q - y, w);
    MulAtLeast(y - q, w);
  }

  lemma {:induction false} ModUnique(a: nat, n: nat, q: nat, r: nat)
    requires n > 0 && a == q * n + r && r < n
    ensures a % n == r && a / n == q
  {
    var d, s := a / n, a % n;
    assert d * n + s == a;
    DivUnique(n, d, s, q, r);
  }

  /** The remainder after adding one. */
  lemma {:induction false} NextMod(k: nat, n: nat)
    requires k > 0 && n > 0
    ensures ((k - 1) % n + 1) % n == k % n
  {
    var r, s := (k - 1) % n, (k - 1) / n;
    assert k - 1 == s * n + r;
    if r + 1 == n {
      assert (s + 1) * n == s * n + n;
      ModUnique(k, n, s + 1, 0);
      ModUnique(n, n, 1, 0);
    } else {
      ModUnique(k, n, s, r + 1);
      ModUnique(r + 1, n, 0, r + 1);
    }
  }

  lemma {:induction false} DoubleMod(a: nat, m: nat)
    requires m > 0
    ensures a % (2 * m) == 2 * ((a / 2) % m) + a % 2
  {
    var q, s := (a / 2) / m, (a / 2) % m;
    assert a / 2 == q * m + s;
    assert q * (2 * m) == 2 * (q * m);
    ModUnique(a, 2 * m, q, 2 * s + a % 2);
  }

  lemma {:induction false} HalveDiv(a: nat, m: nat)
    requires m > 0
    ensures a / (2 * m) == (a / 2) / m
  {
    var q, s := (a / 2) / m, (a / 2) % m;
    assert a / 2 == q * m + s;
    assert q * (2 * m) == 2 * (q * m);
    ModUnique(a, 2 * m, q, 2 * s + a % 2);
  }

  lemma {:induction false} PositiveProduct(x: real, y: real)
    ensures x > 0.0 && y > 0.0 ==> x * y > 0.0
  {}
}
