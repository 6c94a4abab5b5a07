/** Sign of a permutation: the parity of its inversions. */
module Parity {
  /** Whether an odd number of the first m entries is greater than x. */
  function Crosses(p: seq<nat>, x: nat, m: nat): bool
    requires m <= |p|
  {
    m > 0 && (Crosses(p, x, m - 1) != (p[m - 1] > x))
  }

  /** Whether the first m entries have an odd number of inversions. */
  function Odd(p: seq<nat>, m: nat): bool
    requires m <= |p|
  {
    m > 0 && (Odd(p, m - 1) != Crosses(p, p[m - 1], m - 1))
  }

  function Sign(p: seq<nat>): int {
    if Odd(p, |p|) then -1 else 1
  }

  function Swapped<T>(s: seq<T>, p: nat, j: nat): seq<T>
    requires p < |s| && j < |s|
  {
    s[p := s[j]][j := s[p]]
  }

  lemma {:induction false} CrossesSame(p: seq<nat>, q: seq<nat>, x: nat, m: nat)
    requires m <= |p| == |q| && p[..m] == q[..m]
    ensures Crosses(p, x, m) == Crosses(q, x, m)
  {
    if m > 0 {
      assert p[..m][..m - 1] == p[..m - 1] && q[..m][..m - 1] == q[..m - 1];
      assert p[..m][m - 1] == q[..m][m - 1];
      CrossesSame(p, q, x, m - 1);
    }
  }

  lemma {:induction false} OddSame(p: seq<nat>, q: seq<nat>, m: nat)
    requires m <= |p| == |q| && p[..m] == q[..m]
    ensures Odd(p, m) == Odd(q, m)
  {
    if m > 0 {
      assert p[..m][..m - 1] == p[..m - 1] && q[..m][..m - 1] == q[..m - 1];
      assert p[..m][m - 1] == q[..m][m - 1];
      OddSame(p, q, m - 1);
      CrossesSame(p, q, p[m - 1], m - 1);
    }
  }

  /** Past two swapped neighbours the count is what it was. */
  lemma {:induction false} CrossesSwap(p: seq<nat>, a: nat, x: nat, m: nat)
    requires a + 2 <= m <= |p|
    ensures Crosses(Swapped(p, a, a + 1), x, m) == Crosses(p, x, m)
  {
    var q := Swapped(p, a, a + 1);
    if m == a + 2 {
      assert p[..a] == q[..a];
      CrossesSame(p, q, x, a);
      assert Crosses(p, x, a + 1) == (Crosses(p, x, a) != (p[a] > x));
      assert Crosses(q, x, a + 1) == (Crosses(q, x, a) != (q[a] > x));
    } else {
      CrossesSwap(p, a, x, m - 1);
    }
  }

  /** Swapping neighbours adds or removes one inversion. */
  lemma {:induction false} OddSwap(p: seq<nat>, a: nat, m: nat)
    requires a + 2 <= m <= |p| && p[a] != p[a + 1]
    ensures Odd(Swapped(p, a, a + 1), m) != Odd(p, m)
  {
    var q := Swapped(p, a, a + 1);
    if m == a + 2 {
      assert p[..a] == q[..a];
      OddSame(p, q, a);
      CrossesSame(p, q, p[a], a);
      CrossesSame(p, q, p[a + 1], a);
      assert Odd(p, a + 1) == (Odd(p, a) != Crosses(p, p[a], a));
      assert Odd(q, a + 1) == (Odd(q, a) != Crosses(q, q[a], a));
      assert Crosses(p, p[a + 1], a + 1) == (Crosses(p, p[a + 1], a) != (p[a] > p[a + 1]));
      assert Crosses(q, q[a + 1], a + 1) == (Crosses(q, q[a + 1], a) != (q[a] > q[a + 1]));
    } else {
      OddSwap(p, a, m - 1);
      CrossesSwap(p, a, p[m - 1], m - 1);
    }
  }

  ghost predicate Distinct(p: seq<nat>) {
    forall i, j | 0 <= i < |p| && 0 <= j < |p| && p[i] == p[j] :: i == j
  }

  lemma {:induction false} SwapDistinct(p: seq<nat>, a: nat, b: nat)
    requires Distinct(p) && a < |p| && b < |p|
    ensures Distinct(Swapped(p, a, b))
  {}

  /** Exchanging two entries changes the sign. */
  lemma {:induction false} SwapFlipsSign(p: seq<nat>, a: nat, b: nat)
    requires Distinct(p) && a < b < |p|
    ensures Sign(Swapped(p, b, a)) == -Sign(p)
    decreases b - a
  {
    if b == a + 1 {
      OddSwap(p, a, |p|);
      assert Swapped(p, b, a) == Swapped(p, a, b);
    } else {
      var q := Swapped(p, a, a + 1);
      SwapDistinct(p, a, a + 1);
      OddSwap(p, a, |p|);
      var r := Swapped(q, b, a + 1);
      SwapFlipsSign(q, a + 1, b);
      SwapDistinct(q, b, a + 1);
      OddSwap(r, a, |p|);
      assert Swapped(r, a, a + 1) == Swapped(p, b, a);
    }
  }

  lemma {:induction false} OrderedCrosses(p: seq<nat>, x: nat, m: nat)
    requires m <= |p| && forall i | 0 <= i < m :: p[i] <= x
    ensures !Crosses(p, x, m)
  {
    if m > 0 { OrderedCrosses(p, x, m - 1); }
  }

  /** The identity is even. */
  lemma {:induction false} IdentityEven(p: seq<nat>, m: nat)
    requires m <= |p| && forall i | 0 <= i < |p| :: p[i] == i
    ensures !Odd(p, m)
  {
    if m > 0 {
      IdentityEven(p, m - 1);
      OrderedCrosses(p, p[m - 1], m - 1);
    }
  }
}
