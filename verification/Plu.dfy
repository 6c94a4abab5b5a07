/** PLU factorisation with row pivoting, and what is solved with it
    (`matd_plu`, `matd_plu_solve`, `matd_inverse`, Robot/apriltags/common/matd.c), over the
    exact reals. */
module Plu {
  import opened FiniteSets
  import opened Matrix
  import opened Parity

  const EPS: real := 0.00000001

  function Abs(x: real): (r: real)
    ensures r >= 0.0 && (r == x || r == -x)
  {
    if x < 0.0 then -x else x
  }

  function Min(i: nat, j: nat): nat {
    if i < j then i else j
  }

  // ---------------------------------------------------------------------------------------
  // Packed factors: the strict lower part of g is L without its unit diagonal, the rest is U

  /** Entry (i, c) of L * U. */
  function Product(g: Mat, i: nat, c: nat): real
    requires IsMat(g, |g|, |g|) && i < |g| && c < |g|
  {
    Dot(g, g, i, c, 0, Min(i, c)) + if i <= c then g[i][c] else g[i][c] * g[c][c]
  }

  ghost predicate Perm(piv: seq<nat>) {
    && (forall i | 0 <= i < |piv| :: piv[i] < |piv|)
    && (forall i, j | 0 <= i < |piv| && 0 <= j < |piv| && piv[i] == piv[j] :: i == j)
  }

  ghost predicate Shapes(a: Mat, g: Mat, piv: seq<nat>) {
    IsMat(a, |a|, |a|) && IsMat(g, |a|, |a|) && |piv| == |a| && Perm(piv)
  }

  /** Column c of a is reproduced by the factors, up to the row permutation. */
  ghost predicate Done(a: Mat, g: Mat, piv: seq<nat>, c: nat)
    requires Shapes(a, g, piv) && c < |a|
  {
    forall i {:trigger piv[i]} | 0 <= i < |a| :: a[piv[i]][c] == Product(g, i, c)
  }

  /** Column c still holds a, up to the row permutation. */
  ghost predicate Untouched(a: Mat, g: Mat, piv: seq<nat>, c: nat)
    requires Shapes(a, g, piv) && c < |a|
  {
    forall i {:trigger piv[i]} | 0 <= i < |a| :: g[i][c] == a[piv[i]][c]
  }

  /** Column c after the dot products have been subtracted, down to row q. */
  ghost predicate Reduced(a: Mat, g: Mat, piv: seq<nat>, c: nat, q: nat)
    requires Shapes(a, g, piv) && c < |a|
  {
    forall i {:trigger piv[i]} | 0 <= i < |a| ::
      a[piv[i]][c] == g[i][c] + if i < q then Dot(g, g, i, c, 0, Min(i, c)) else 0.0
  }

  ghost predicate Around(a: Mat, g: Mat, piv: seq<nat>, j: nat) {
    && Shapes(a, g, piv) && j <= |a|
    && (forall c {:trigger Done(a, g, piv, c)} | 0 <= c < j :: Done(a, g, piv, c))
    && (forall c {:trigger Untouched(a, g, piv, c)} | j < c < |a| :: Untouched(a, g, piv, c))
  }

  /** The columns before j are done, the others untouched. */
  ghost predicate Stage(a: Mat, g: Mat, piv: seq<nat>, j: nat) {
    Around(a, g, piv, j) && (j < |a| ==> Untouched(a, g, piv, j))
  }

  ghost predicate IsPlu(a: Mat, g: Mat, piv: seq<nat>) {
    Shapes(a, g, piv) && forall c {:trigger Done(a, g, piv, c)} | 0 <= c < |a| :: Done(a, g, piv, c)
  }

  ghost predicate SameExceptColumn(g: Mat, g': Mat, j: nat) {
    && IsMat(g, |g|, |g|) && IsMat(g', |g|, |g|)
    && forall i, c {:trigger g'[i][c]} | 0 <= i < |g| && 0 <= c < |g| && c != j :: g'[i][c] == g[i][c]
  }

  lemma {:induction false} OtherColumns(a: Mat, g: Mat, g': Mat, piv: seq<nat>, j: nat)
    requires Around(a, g, piv, j) && SameExceptColumn(g, g', j) && j < |a|
    ensures Around(a, g', piv, j)
  {
    forall c {:trigger Done(a, g', piv, c)} | 0 <= c < j ensures Done(a, g', piv, c) {
      assert Done(a, g, piv, c);
      forall i {:trigger piv[i]} | 0 <= i < |a| ensures a[piv[i]][c] == Product(g', i, c) {
        DotSame(g, g, i, g', g', i, c, 0, Min(i, c));
        assert g'[i][c] == g[i][c] && g'[c][c] == g[c][c];
      }
    }
    forall c {:trigger Untouched(a, g', piv, c)} | j < c < |a| ensures Untouched(a, g', piv, c) {
      assert Untouched(a, g, piv, c);
      forall i {:trigger piv[i]} | 0 <= i < |a| ensures g'[i][c] == a[piv[i]][c] {
        assert g'[i][c] == g[i][c];
      }
    }
  }

  function Set(g: Mat, i: nat, j: nat, v: real): (g': Mat)
    requires i < |g| && j < |g[i]|
    ensures |g'| == |g| && forall k | 0 <= k < |g| :: |g'[k]| == |g[k]|
    ensures forall k, c {:trigger g'[k][c]} | 0 <= k < |g| && 0 <= c < |g[k]| ::
      g'[k][c] == if k == i && c == j then v else g[k][c]
  {
    g[i := g[i][j := v]]
  }

  // One entry of column j

  lemma {:induction false} ReduceEntry(a: Mat, g: Mat, piv: seq<nat>, j: nat, i: nat)
    requires Shapes(a, g, piv) && j < |a| && i < |a| && Reduced(a, g, piv, j, i)
    ensures var g' := Set(g, i, j, g[i][j] - Dot(g, g, i, j, 0, Min(i, j)));
      SameExceptColumn(g, g', j) && Reduced(a, g', piv, j, i + 1)
  {
    var g' := Set(g, i, j, g[i][j] - Dot(g, g, i, j, 0, Min(i, j)));
    forall k {:trigger piv[k]} | 0 <= k < |a|
      ensures a[piv[k]][j] == g'[k][j] + if k < i + 1 then Dot(g', g', k, j, 0, Min(k, j)) else 0.0
    {
      assert a[piv[k]][j] == g[k][j] + if k < i then Dot(g, g, k, j, 0, Min(k, j)) else 0.0;
      if k <= i {
        DotSame(g, g, k, g', g', k, j, 0, Min(k, j));
      }
    }
  }

  // Swapping two rows from j on

  function SwapIndex(p: nat, j: nat, i: nat): nat {
    if i == p then j else if i == j then p else i
  }

  lemma {:induction false} SwapShapes(a: Mat, g: Mat, piv: seq<nat>, p: nat, j: nat)
    requires Shapes(a, g, piv) && j < |a| && p < |a|
    ensures Shapes(a, Swapped(g, p, j), Swapped(piv, p, j))
    ensures forall i | 0 <= i < |a| ::
      Swapped(g, p, j)[i] == g[SwapIndex(p, j, i)] && Swapped(piv, p, j)[i] == piv[SwapIndex(p, j, i)]
  {}

  /** Swapping rows p and j, both at least c, moves the entries of the product with them. */
  lemma {:induction false} SwapMovesDot(a: Mat, g: Mat, piv: seq<nat>, p: nat, j: nat, i: nat, c: nat)
    requires Shapes(a, g, piv) && j <= p < |a| && i < |a| && c <= j
    requires Shapes(a, Swapped(g, p, j), Swapped(piv, p, j))
    ensures var s, k := Swapped(g, p, j), SwapIndex(p, j, i);
      Dot(s, s, i, c, 0, Min(i, c)) == Dot(g, g, k, c, 0, Min(k, c))
  {
    var s, k := Swapped(g, p, j), SwapIndex(p, j, i);
    assert Min(i, c) == Min(k, c);
    DotSame(s, s, i, g, g, k, c, 0, Min(i, c));
  }

  lemma {:induction false} SwapMovesProduct(a: Mat, g: Mat, piv: seq<nat>, p: nat, j: nat, i: nat, c: nat)
    requires Shapes(a, g, piv) && c < j <= p < |a| && i < |a|
    requires Shapes(a, Swapped(g, p, j), Swapped(piv, p, j))
    ensures SwapIndex(p, j, i) < |a| && Product(Swapped(g, p, j), i, c) == Product(g, SwapIndex(p, j, i), c)
  {
    hide Dot;
    SwapMovesDot(a, g, piv, p, j, i, c);
    var s, k := Swapped(g, p, j), SwapIndex(p, j, i);
    assert s[c] == g[c] && s[i] == g[k] && (i <= c <==> k <= c);
  }

  lemma {:induction false} SwapDone(a: Mat, g: Mat, piv: seq<nat>, p: nat, j: nat, c: nat)
    requires Shapes(a, g, piv) && c < j <= p < |a| && Done(a, g, piv, c)
    requires Shapes(a, Swapped(g, p, j), Swapped(piv, p, j))
    ensures Done(a, Swapped(g, p, j), Swapped(piv, p, j), c)
  {
    hide Dot, Shapes, Done, Product;
    ShapesSizes(a, g, piv);
    SwapRowsAre(a, g, piv, p, j);
    var s, q := Swapped(g, p, j), Swapped(piv, p, j);
    forall i {:trigger q[i]} | 0 <= i < |a| ensures a[q[i]][c] == Product(s, i, c) {
      var k := SwapIndex(p, j, i);
      DoneAt(a, g, piv, c, k);
      SwapMovesProduct(a, g, piv, p, j, i, c);
    }
    DoneFrom(a, s, q, c);
  }

  lemma {:induction false} DoneAt(a: Mat, g: Mat, piv: seq<nat>, c: nat, k: nat)
    requires Shapes(a, g, piv) && c < |a| && Done(a, g, piv, c) && k < |a|
    ensures |piv| == |g| == |a| && IsMat(g, |g|, |g|) && piv[k] < |a| && |a[piv[k]]| == |a|
    ensures a[piv[k]][c] == Product(g, k, c)
  {
    hide Product;
  }

  lemma {:induction false} DoneFrom(a: Mat, g: Mat, piv: seq<nat>, c: nat)
    requires Shapes(a, g, piv) && c < |a|
    requires forall i {:trigger piv[i]} | 0 <= i < |a| :: a[piv[i]][c] == Product(g, i, c)
    ensures Done(a, g, piv, c)
  {
    hide Product;
  }

  lemma {:induction false} ShapesSizes(a: Mat, g: Mat, piv: seq<nat>)
    requires Shapes(a, g, piv)
    ensures |g| == |piv| == |a|
  {}

  /** The rows after the swap. */
  lemma {:induction false} SwapRowsAre(a: Mat, g: Mat, piv: seq<nat>, p: nat, j: nat)
    requires Shapes(a, g, piv) && j < |a| && p < |a|
    ensures var s, q := Swapped(g, p, j), Swapped(piv, p, j);
      && Shapes(a, s, q) && IsMat(a, |a|, |a|) && IsMat(s, |a|, |a|) && IsMat(g, |a|, |a|)
      && |g| == |s| == |q| == |piv| == |a|
      && forall i | 0 <= i < |a| ::
        s[i] == g[SwapIndex(p, j, i)] && q[i] == piv[SwapIndex(p, j, i)] && q[i] < |a|
  {
    SwapShapes(a, g, piv, p, j);
  }

  lemma {:induction false} SwapUntouched(a: Mat, g: Mat, piv: seq<nat>, p: nat, j: nat, c: nat)
    requires Shapes(a, g, piv) && j < |a| && p < |a| && c < |a| && Untouched(a, g, piv, c)
    requires Shapes(a, Swapped(g, p, j), Swapped(piv, p, j))
    ensures Untouched(a, Swapped(g, p, j), Swapped(piv, p, j), c)
  {
    var s, q := Swapped(g, p, j), Swapped(piv, p, j);
    SwapRowsAre(a, g, piv, p, j);
    forall i {:trigger q[i]} | 0 <= i < |a| ensures s[i][c] == a[q[i]][c] {
      assert q[i] == piv[SwapIndex(p, j, i)];
    }
  }

  lemma {:induction false} SwapReduced(a: Mat, g: Mat, piv: seq<nat>, p: nat, j: nat)
    requires Shapes(a, g, piv) && j <= p < |a| && Reduced(a, g, piv, j, |a|)
    requires Shapes(a, Swapped(g, p, j), Swapped(piv, p, j))
    ensures Reduced(a, Swapped(g, p, j), Swapped(piv, p, j), j, |a|)
  {
    hide Dot;
    var s, q := Swapped(g, p, j), Swapped(piv, p, j);
    SwapRowsAre(a, g, piv, p, j);
    forall i {:trigger q[i]} | 0 <= i < |a| ensures a[q[i]][j] == s[i][j] + Dot(s, s, i, j, 0, Min(i, j)) {
      SwapMovesDot(a, g, piv, p, j, i, j);
      assert q[i] == piv[SwapIndex(p, j, i)];
    }
  }

  lemma {:induction false} SwapKeeps(a: Mat, g: Mat, piv: seq<nat>, p: nat, j: nat)
    requires Around(a, g, piv, j) && j <= p < |a| && Reduced(a, g, piv, j, |a|)
    ensures Around(a, Swapped(g, p, j), Swapped(piv, p, j), j)
    ensures Reduced(a, Swapped(g, p, j), Swapped(piv, p, j), j, |a|)
  {
    hide Done, Untouched, Reduced, Shapes;
    ShapesSizes(a, g, piv);
    SwapRowsAre(a, g, piv, p, j);
    var s, q := Swapped(g, p, j), Swapped(piv, p, j);
    forall c {:trigger Done(a, s, q, c)} | 0 <= c < j ensures Done(a, s, q, c) {
      assert Done(a, g, piv, c);
      SwapDone(a, g, piv, p, j, c);
    }
    forall c {:trigger Untouched(a, s, q, c)} | j < c < |a| ensures Untouched(a, s, q, c) {
      assert Untouched(a, g, piv, c);
      SwapUntouched(a, g, piv, p, j, c);
    }
    SwapReduced(a, g, piv, p, j);
  }

  // Dividing by the pivot

  /** Column j below the pivot divided by it, or left alone if the pivot is zero. */
  ghost predicate Scaled(g: Mat, g': Mat, j: nat)
    requires IsMat(g, |g|, |g|) && j < |g|
  {
    SameExceptColumn(g, g', j) &&
    forall i {:trigger g'[i]} | 0 <= i < |g| ::
      g'[i][j] == if i > j && g[j][j] != 0.0 then g[i][j] * (1.0 / g[j][j]) else g[i][j]
  }

  lemma {:induction false} DivideBack(x: real, y: real)
    requires y != 0.0
    ensures (x * (1.0 / y)) * y == x
  {
    assert (1.0 / y) * y == 1.0;
    assert (x * (1.0 / y)) * y == x * ((1.0 / y) * y);
  }

  /** The pivot has the largest absolute value, so if it is zero the column below is zero too. */
  lemma {:induction false} ScaleKeeps(a: Mat, g: Mat, g': Mat, piv: seq<nat>, j: nat)
    requires Around(a, g, piv, j) && j < |a| && Reduced(a, g, piv, j, |a|) && Scaled(g, g', j)
    requires forall i | j <= i < |a| :: Abs(g[i][j]) <= Abs(g[j][j])
    ensures Stage(a, g', piv, j + 1)
  {
    OtherColumns(a, g, g', piv, j);
    forall i {:trigger piv[i]} | 0 <= i < |a| ensures a[piv[i]][j] == Product(g', i, j) {
      assert a[piv[i]][j] == g[i][j] + Dot(g, g, i, j, 0, Min(i, j));
      DotSameBelow(g, g', i, j);
      assert g'[i][j] == if i > j && g[j][j] != 0.0 then g[i][j] * (1.0 / g[j][j]) else g[i][j];
      assert g'[j][j] == g[j][j];
      if i > j {
        if g[j][j] != 0.0 {
          DivideBack(g[i][j], g[j][j]);
        } else {
          assert Abs(g[i][j]) <= 0.0;
        }
      }
    }
    assert Done(a, g', piv, j);
  }

  lemma {:induction false} DotSameBelow(g: Mat, g': Mat, i: nat, j: nat)
    requires IsMat(g, |g|, |g|) && i < |g| && j < |g| && Scaled(g, g', j)
    ensures Dot(g', g', i, j, 0, Min(i, j)) == Dot(g, g, i, j, 0, Min(i, j))
  {
    forall m | 0 <= m < Min(i, j) ensures g[m][j] == g'[m][j] && g[i][m] == g'[i][m] {
      assert g'[m] == g'[m];
    }
    DotSame(g, g, i, g', g', i, j, 0, Min(i, j));
  }

  // ---------------------------------------------------------------------------------------
  // The factors as matrices

  function Lower(g: Mat, n: nat): (l: Mat)
    requires IsMat(g, n, n)
    ensures IsMat(l, n, n)
    ensures forall i, j {:trigger l[i][j]} | 0 <= i < n && 0 <= j < n ::
      l[i][j] == if i == j then 1.0 else if j < i then g[i][j] else 0.0
  {
    seq(n, i requires 0 <= i < n =>
      seq(n, j requires 0 <= j < n => if i == j then 1.0 else if j < i then g[i][j] else 0.0))
  }

  function Upper(g: Mat, n: nat): (u: Mat)
    requires IsMat(g, n, n)
    ensures IsMat(u, n, n)
    ensures forall i, j {:trigger u[i][j]} | 0 <= i < n && 0 <= j < n :: u[i][j] == if i <= j then g[i][j] else 0.0
  {
    seq(n, i requires 0 <= i < n => seq(n, j requires 0 <= j < n => if i <= j then g[i][j] else 0.0))
  }

  function PermMat(piv: seq<nat>): (p: Mat)
    ensures IsMat(p, |piv|, |piv|)
    ensures forall i, j {:trigger p[i][j]} | 0 <= i < |piv| && 0 <= j < |piv| ::
      p[i][j] == if piv[j] == i then 1.0 else 0.0
  {
    var n := |piv|;
    seq(n, i requires 0 <= i < n => seq(n, j requires 0 <= j < n => if piv[j] == i then 1.0 else 0.0))
  }

  lemma {:induction false} ProductIsDot(g: Mat, n: nat, i: nat, c: nat)
    requires IsMat(g, n, n) && i < n && c < n
    ensures Dot(Lower(g, n), Upper(g, n), i, c, 0, n) == Product(g, i, c)
  {
    var l, u, k := Lower(g, n), Upper(g, n), Min(i, c);
    DotSplit(l, u, i, c, 0, k, n);
    DotFirst(l, u, i, c, k, n);
    assert forall m {:trigger u[m]} | 0 <= m < k :: l[i][m] == g[i][m] && u[m][c] == g[m][c];
    DotSame(l, u, i, g, g, i, c, 0, k);
    assert forall m {:trigger u[m]} | k < m < n :: l[i][m] == 0.0 || u[m][c] == 0.0;
    DotZero(l, u, i, c, k + 1, n);
    assert l[i][k] * u[k][c] == if i <= c then g[i][c] else g[i][c] * g[c][c];
  }

  lemma {:induction false} PermOnto(piv: seq<nat>, r: nat) returns (i: nat)
    requires Perm(piv) && r < |piv|
    ensures i < |piv| && piv[i] == r
  {
    var f := map i | i in Below(|piv|) :: piv[i];
    i := Reached(f, |piv|, r);
  }

  /** A = P * (L * U), for every square matrix. */
  lemma {:induction false} PluIsFactorisation(a: Mat, g: Mat, piv: seq<nat>, n: nat)
    requires IsPlu(a, g, piv) && n == |a|
    ensures a == Mul(PermMat(piv), Mul(Lower(g, n), Upper(g, n), n, n, n), n, n, n)
  {
    var lu := Mul(Lower(g, n), Upper(g, n), n, n, n);
    var p := PermMat(piv);
    forall r, c | 0 <= r < n && 0 <= c < n ensures a[r][c] == Dot(p, lu, r, c, 0, n) {
      var i := PermOnto(piv, r);
      assert Done(a, g, piv, c);
      assert a[piv[i]][c] == Product(g, i, c);
      ProductIsDot(g, n, i, c);
      assert lu[i][c] == a[r][c];
      assert forall m | 0 <= m < n :: p[r][m] == if m == i then 1.0 else 0.0;
      DotUnit(p, lu, r, c, i, n);
    }
    SameMat(a, Mul(p, lu, n, n, n), n, n);
  }

  // ---------------------------------------------------------------------------------------
  // The factorisation, in place

  method UpdateColumn(lu: array2<real>, j: nat, ghost a: Mat, ghost piv: seq<nat>, ghost g0: Mat) returns (ghost g: Mat)
    requires Mirrors(lu, g0) && Stage(a, g0, piv, j) && j < |a|
    modifies lu
    ensures Mirrors(lu, g) && Around(a, g, piv, j) && Reduced(a, g, piv, j, |a|) && SameExceptColumn(g0, g, j)
  {
    hide Done, Product;
    var n := lu.Length0;
    g := g0;
    assert |g0[j]| == lu.Length1 == n == |a|;
    var i: nat := 0;
    while i < n
      invariant i <= n == lu.Length0 == lu.Length1 == |a| && Mirrors(lu, g) && SameExceptColumn(g0, g, j)
      invariant Shapes(a, g, piv) && Reduced(a, g, piv, j, i)
    {
      ReduceEntry(a, g, piv, j, i);
      var kmax := Min(i, j);
      var acc := Accumulate(lu, i, j, kmax, g);
      lu[i, j] := lu[i, j] - acc;
      g := Set(g, i, j, g[i][j] - acc);
      i := i + 1;
    }
    OtherColumns(a, g0, g, piv, j);
  }

  method Accumulate(lu: array2<real>, i: nat, j: nat, kmax: nat, ghost g: Mat) returns (acc: real)
    requires Mirrors(lu, g) && lu.Length0 == lu.Length1 && i < lu.Length0 && j < lu.Length0 && kmax <= lu.Length0
    ensures acc == Dot(g, g, i, j, 0, kmax)
  {
    acc := 0.0;
    var k: nat := 0;
    while k < kmax
      invariant k <= kmax && acc == Dot(g, g, i, j, 0, k)
    {
      acc := acc + lu[i, k] * lu[k, j];
      k := k + 1;
    }
  }

  method FindPivot(lu: array2<real>, j: nat) returns (p: nat)
    requires j < lu.Length0 && j < lu.Length1
    ensures j <= p < lu.Length0 && forall i | j <= i < lu.Length0 :: Abs(lu[i, j]) <= Abs(lu[p, j])
    ensures forall i | j <= i < p :: Abs(lu[i, j]) < Abs(lu[p, j])
  {
    p := j;
    for i := j + 1 to lu.Length0
      invariant j <= p < lu.Length0 && forall k | j <= k < i :: Abs(lu[k, j]) <= Abs(lu[p, j])
      invariant forall k | j <= k < p :: Abs(lu[k, j]) < Abs(lu[p, j])
    {
      if Abs(lu[i, j]) > Abs(lu[p, j]) {
        p := i;
      }
    }
  }

  method SwapRows(lu: array2<real>, p: nat, j: nat, ghost g: Mat)
    requires Mirrors(lu, g) && p < lu.Length0 && j < lu.Length0 && p != j
    modifies lu
    ensures Mirrors(lu, Swapped(g, p, j))
  {
    var tmp := new real[lu.Length1];
    forall c | 0 <= c < lu.Length1 { tmp[c] := lu[p, c]; }
    forall c | 0 <= c < lu.Length1 { lu[p, c] := lu[j, c]; }
    forall c | 0 <= c < lu.Length1 { lu[j, c] := tmp[c]; }
  }

  method ScaleColumn(lu: array2<real>, j: nat, ghost g0: Mat) returns (ghost g: Mat)
    requires Mirrors(lu, g0) && lu.Length0 == lu.Length1 && j < lu.Length0
    modifies lu
    ensures Mirrors(lu, g) && Scaled(g0, g, j)
  {
    var n := lu.Length0;
    g := g0;
    var pivot := lu[j, j];
    if pivot != 0.0 {
      var inv := 1.0 / pivot;
      var i := j + 1;
      while i < n
        invariant j < i <= n == lu.Length0 == lu.Length1 && Mirrors(lu, g) && SameExceptColumn(g0, g, j)
        invariant forall k {:trigger g[k]} | 0 <= k < n :: g[k][j] == if j < k < i then g0[k][j] * inv else g0[k][j]
      {
        lu[i, j] := lu[i, j] * inv;
        g := Set(g, i, j, g[i][j] * inv);
        i := i + 1;
      }
    }
  }

  /** Every pivot is at least 1e-8 in absolute value. */
  ghost predicate Regular(g: Mat) {
    IsMat(g, |g|, |g|) && forall k | 0 <= k < |g| :: g[k][k] >= 0.00000001 || g[k][k] <= -0.00000001
  }

  ghost predicate RegularUpTo(g: Mat, j: nat) {
    IsMat(g, |g|, |g|) && j <= |g| && forall k {:trigger g[k]} | 0 <= k < j :: Abs(g[k][k]) >= EPS
  }

  /** The whole left-looking factorisation; `singular` tells whether some pivot was tiny. */
  method Factor(m: array2<real>) returns (lu: array2<real>, piv: array<nat>, pivsign: int, singular: bool)
    requires m.Length0 == m.Length1
    ensures fresh(lu) && fresh(piv) && lu.Length0 == lu.Length1 == m.Length0 == piv.Length
    ensures IsPlu(Snapshot(m), Snapshot(lu), piv[..])
    ensures !singular <==> Regular(Snapshot(lu))
    ensures pivsign == Sign(piv[..]) && Multipliers(Snapshot(lu), m.Length0)
  {
    hide Stage, IsPlu, RegularUpTo, Regular, Sign, Multipliers;
    var n := m.Length0;
    piv := new nat[n](i => i);
    pivsign, singular := 1, false;
    lu := Copy(m);
    ghost var a := Snapshot(m);
    ghost var g := a;
    StartStage(a, g, piv[..]);
    StartSign(g, piv[..]);
    RegularEnds(g);

    var j: nat := 0;
    while j < n
      invariant j <= n && lu.Length0 == lu.Length1 == n == piv.Length == |a| && fresh(lu) && fresh(piv)
      invariant Mirrors(lu, g) && Stage(a, g, piv[..], j) && a == Snapshot(m)
      invariant !singular <==> RegularUpTo(g, j)
      invariant pivsign == Sign(piv[..]) && Multipliers(g, j)
    {
      ghost var g0 := g;
      var swapped, tiny;
      swapped, tiny, g := FactorColumn(lu, piv, j, a, g0);
      RegularNext(g0, g, j);
      pivsign := if swapped then -pivsign else pivsign;
      singular := singular || tiny;
      j := j + 1;
    }
    MirrorIsSnapshot(lu, g);
    StageIsPlu(a, g, piv[..]);
    RegularEnds(g);
  }

  method Copy(m: array2<real>) returns (c: array2<real>)
    ensures fresh(c) && c.Length0 == m.Length0 && c.Length1 == m.Length1 && Mirrors(c, Snapshot(m))
  {
    c := new real[m.Length0, m.Length1];
    forall i, j | 0 <= i < m.Length0 && 0 <= j < m.Length1 { c[i, j] := m[i, j]; }
  }

  method FactorColumn(lu: array2<real>, piv: array<nat>, j: nat, ghost a: Mat, ghost g0: Mat)
    returns (swapped: bool, tiny: bool, ghost g: Mat)
    requires Mirrors(lu, g0) && Stage(a, g0, piv[..], j) && j < |a| && lu.Length0 == lu.Length1 == |a| == piv.Length
    modifies lu, piv
    ensures Mirrors(lu, g) && Stage(a, g, piv[..], j + 1)
    ensures IsMat(g0, |a|, |a|) && IsMat(g, |a|, |a|) && (tiny <==> Abs(g[j][j]) < EPS)
    ensures forall k {:trigger g[k]} | 0 <= k < j :: g[k][k] == g0[k][k]
    ensures Sign(piv[..]) == if swapped then -Sign(old(piv[..])) else Sign(old(piv[..]))
    ensures Multipliers(g0, j) ==> Multipliers(g, j + 1)
  {
    hide Around, Done, Untouched, Reduced, Product, Sign, Multipliers;
    StageShapes(a, g0, piv[..], j);
    ghost var q := piv[..];
    ghost var g1 := UpdateColumn(lu, j, a, q, g0);
    var p := FindPivot(lu, j);
    SwapKeeps(a, g1, q, p, j);
    swapped := p != j;
    if swapped {
      SwapRows(lu, p, j, g1);
      piv[p], piv[j] := piv[j], piv[p];
      SwapFlipsSign(q, j, p);
    }
    ghost var g2 := Swapped(g1, p, j);
    assert piv[..] == Swapped(q, p, j);
    tiny := Abs(lu[j, j]) < EPS;
    g := ScaleColumn(lu, j, g2);
    ScaleKeeps(a, g2, g, piv[..], j);
    MultipliersNext(g0, g1, g, p, j);
    forall k {:trigger g[k]} | 0 <= k < j ensures g[k][k] == g0[k][k] {
      assert g2[k] == g1[k];
    }
  }

  /** Partial pivoting: no multiplier of the first j columns exceeds one. */
  ghost predicate Multipliers(g: Mat, j: nat) {
    IsMat(g, |g|, |g|) && j <= |g| && forall i, c {:trigger g[i][c]} | 0 <= c < j && c < i < |g| ::
      -1.0 <= g[i][c] <= 1.0
  }

  lemma {:induction false} MultipliersNext(g0: Mat, g1: Mat, g: Mat, p: nat, j: nat)
    requires SameExceptColumn(g0, g1, j) && |g1| == |g0| && j <= p < |g0|
    requires forall i {:trigger g1[i]} | j <= i < |g1| :: Abs(g1[i][j]) <= Abs(g1[p][j])
    requires IsMat(Swapped(g1, p, j), |g1|, |g1|) && Scaled(Swapped(g1, p, j), g, j) && |g| == |g0|
    ensures Multipliers(g0, j) ==> Multipliers(g, j + 1)
  {
    if Multipliers(g0, j) {
      var s := Swapped(g1, p, j);
      forall i, c {:trigger g[i][c]} | 0 <= c < j + 1 && c < i < |g| ensures -1.0 <= g[i][c] <= 1.0 {
        if c < j {
          assert g[i][c] == s[i][c] == g1[SwapIndex(p, j, i)][c] == g0[SwapIndex(p, j, i)][c];
        } else {
          assert s[j] == g1[p] && s[i] == g1[SwapIndex(p, j, i)] && g[i] == g[i];
          if s[j][j] != 0.0 { SmallQuotient(s[i][j], s[j][j]); }
        }
      }
    }
  }

  lemma {:induction false} SmallQuotient(x: real, y: real)
    requires y != 0.0 && Abs(x) <= Abs(y)
    ensures -1.0 <= x * (1.0 / y) <= 1.0
  {
    var f := x * (1.0 / y);
    DivideBack(x, y);
    Stretch(f, y);
    Stretch(-f, y);
    assert (-f) * y == -(f * y);
  }

  /** A factor above one enlarges. */
  lemma {:induction false} Stretch(f: real, y: real)
    ensures f > 1.0 && y != 0.0 ==> Abs(f * y) > Abs(y)
  {
    assert f > 1.0 && y > 0.0 ==> (f - 1.0) * y > 0.0;
    assert f > 1.0 && y < 0.0 ==> (f - 1.0) * (-y) > 0.0;
    assert f * y == (f - 1.0) * y + y && (f - 1.0) * (-y) == -((f - 1.0) * y);
  }

  lemma {:induction false} RegularEnds(g: Mat)
    requires IsMat(g, |g|, |g|)
    ensures RegularUpTo(g, 0) && (RegularUpTo(g, |g|) <==> Regular(g))
  {
    assert (forall k {:trigger g[k]} | 0 <= k < |g| :: Abs(g[k][k]) >= EPS) <==>
      (forall k | 0 <= k < |g| :: Abs(g[k][k]) >= EPS);
  }

  lemma {:induction false} StageShapes(a: Mat, g: Mat, piv: seq<nat>, j: nat)
    requires Stage(a, g, piv, j)
    ensures Shapes(a, g, piv)
  {}

  lemma {:induction false} StageIsPlu(a: Mat, g: Mat, piv: seq<nat>)
    requires Stage(a, g, piv, |a|)
    ensures IsPlu(a, g, piv)
  {}

  lemma {:induction false} RegularNext(g: Mat, g': Mat, j: nat)
    requires IsMat(g, |g|, |g|) && IsMat(g', |g|, |g|) && j < |g|
    requires forall k {:trigger g'[k]} | 0 <= k < j :: g'[k][k] == g[k][k]
    ensures RegularUpTo(g', j + 1) <==> RegularUpTo(g, j) && Abs(g'[j][j]) >= EPS
  {
    if RegularUpTo(g', j + 1) {
      forall k {:trigger g[k]} | 0 <= k < j ensures Abs(g[k][k]) >= EPS {
        assert g'[k][k] == g[k][k];
      }
      assert g'[j] == g'[j];
    }
  }

  lemma {:induction false} StartSign(g: Mat, piv: seq<nat>)
    requires IsMat(g, |g|, |g|) && forall i | 0 <= i < |piv| :: piv[i] == i
    ensures Sign(piv) == 1 && Multipliers(g, 0)
  {
    IdentityEven(piv, |piv|);
  }

  lemma {:induction false} StartStage(a: Mat, g: Mat, piv: seq<nat>)
    requires IsMat(a, |a|, |a|) && g == a && |piv| == |a| && forall i | 0 <= i < |a| :: piv[i] == i
    ensures Stage(a, g, piv, 0)
  {}

  // The factors as matrices

  method MakeP(piv: array<nat>) returns (p: array2<real>)
    requires Perm(piv[..])
    ensures fresh(p) && p.Length0 == p.Length1 == piv.Length && Mirrors(p, PermMat(piv[..]))
  {
    var n := piv.Length;
    ghost var s := piv[..];
    p := new real[n, n]((_, _) => 0.0);
    for i := 0 to n
      invariant s == piv[..]
      invariant forall r, c {:trigger p[r, c]} | 0 <= r < n && 0 <= c < n ::
        p[r, c] == if c < i && s[c] == r then 1.0 else 0.0
    {
      p[piv[i], i] := 1.0;
    }
  }

  method MakeL(lu: array2<real>) returns (l: array2<real>)
    requires lu.Length0 == lu.Length1
    ensures fresh(l) && l.Length0 == l.Length1 == lu.Length0 && Mirrors(l, Lower(Snapshot(lu), lu.Length0))
  {
    var n := lu.Length0;
    l := new real[n, n]((_, _) => 0.0);
    for i := 0 to n
      invariant forall r, c {:trigger l[r, c]} | 0 <= r < n && 0 <= c < n ::
        l[r, c] == if r >= i then 0.0 else if r == c then 1.0 else if c < r then lu[r, c] else 0.0
    {
      l[i, i] := 1.0;
      for j := 0 to i
        invariant forall r, c {:trigger l[r, c]} | 0 <= r < n && 0 <= c < n ::
          l[r, c] == if r > i || (r == i && j <= c != i) then 0.0
                     else if r == c then 1.0 else if c < r then lu[r, c] else 0.0
      {
        l[i, j] := lu[i, j];
      }
    }
  }

  method MakeU(lu: array2<real>) returns (u: array2<real>)
    requires lu.Length0 == lu.Length1
    ensures fresh(u) && u.Length0 == u.Length1 == lu.Length0 && Mirrors(u, Upper(Snapshot(lu), lu.Length0))
  {
    var n := lu.Length0;
    u := new real[n, n]((_, _) => 0.0);
    for i := 0 to n
      invariant forall r, c {:trigger u[r, c]} | 0 <= r < n && 0 <= c < n ::
        u[r, c] == if r < i && r <= c then lu[r, c] else 0.0
    {
      for j := 0 to n
        invariant forall r, c {:trigger u[r, c]} | 0 <= r < n && 0 <= c < n ::
          u[r, c] == if (r < i || (r == i && c < j)) && r <= c then lu[r, c] else 0.0
      {
        if i <= j {
          u[i, j] := lu[i, j];
        }
      }
    }
  }

  /** A matrix is the product of the three matrices made from its factorisation. */
  method FactorInto(m: array2<real>) returns (p: array2<real>, l: array2<real>, u: array2<real>)
    requires m.Length0 == m.Length1
    ensures p.Length0 == l.Length0 == u.Length0 == p.Length1 == l.Length1 == u.Length1 == m.Length0
    ensures var n := m.Length0; Snapshot(m) == Mul(Snapshot(p), Mul(Snapshot(l), Snapshot(u), n, n, n), n, n, n)
  {
    hide IsPlu, Mul, Lower, Upper, PermMat, Multipliers, Sign, Regular;
    var lu, piv, pivsign, singular := Factor(m);
    ghost var a, g, s, n := Snapshot(m), Snapshot(lu), piv[..], m.Length0;
    PluShapes(a, g, s);
    p := MakeP(piv);
    MirrorIsSnapshot(p, PermMat(s));
    l := MakeL(lu);
    MirrorIsSnapshot(l, Lower(g, n));
    u := MakeU(lu);
    MirrorIsSnapshot(u, Upper(g, n));
    PluIsFactorisation(a, g, s, n);
    assert a == Snapshot(m) && PermMat(s) == Snapshot(p) && Lower(g, n) == Snapshot(l);
  }

  // ---------------------------------------------------------------------------------------
  // Solving with the factors

  /** Rows of b in the order of the permutation. */
  function Permuted(b: Mat, piv: seq<nat>): (c: Mat)
    requires |piv| == |b| && forall i | 0 <= i < |piv| :: piv[i] < |b|
    ensures |c| == |b| && forall i | 0 <= i < |b| :: c[i] == b[piv[i]]
  {
    seq(|b|, i requires 0 <= i < |b| => b[piv[i]])
  }

  function UpTo(k: nat, i: nat, r: nat): nat {
    if r <= k then r else if r < i then k + 1 else k
  }

  /** Forward substitution: columns before k eliminated everywhere, column k down to row i. */
  ghost predicate Forward(g: Mat, c: Mat, x: Mat, n: nat, w: nat, k: nat, i: nat) {
    && IsMat(g, n, n) && IsMat(c, n, w) && IsMat(x, n, w) && k <= n && (k < n ==> k < i <= n)
    && forall r, t {:trigger c[r][t]} | 0 <= r < n && 0 <= t < w ::
         c[r][t] == x[r][t] + Dot(g, x, r, t, 0, UpTo(k, i, r))
  }

  /** Adds f times row k to row i. */
  function RowAdded(x: Mat, i: nat, k: nat, f: real): (y: Mat)
    requires i < |x| && k < |x| && |x[i]| == |x[k]|
    ensures |y| == |x| && |y[i]| == |x[i]| && forall r | 0 <= r < |x| && r != i :: y[r] == x[r]
    ensures forall t | 0 <= t < |x[i]| :: y[i][t] == x[i][t] + x[k][t] * f
  {
    x[i := seq(|x[i]|, t requires 0 <= t < |x[i]| => x[i][t] + x[k][t] * f)]
  }

  lemma {:induction false} ForwardRow(g: Mat, c: Mat, x: Mat, n: nat, w: nat, k: nat, i: nat)
    requires Forward(g, c, x, n, w, k, i) && k < i < n
    ensures Forward(g, c, RowAdded(x, i, k, -g[i][k]), n, w, k, i + 1)
  {
    var y := RowAdded(x, i, k, -g[i][k]);
    forall r, t {:trigger c[r][t]} | 0 <= r < n && 0 <= t < w
      ensures c[r][t] == y[r][t] + Dot(g, y, r, t, 0, UpTo(k, i + 1, r))
    {
      var h := UpTo(k, i, r);
      DotSame(g, x, r, g, y, r, t, 0, h);
      if r == i {
        assert Dot(g, y, i, t, 0, k + 1) == Dot(g, y, i, t, 0, k) + g[i][k] * y[k][t];
        assert x[k][t] * -g[i][k] == -(g[i][k] * x[k][t]);
      }
    }
  }

  lemma {:induction false} ForwardNext(g: Mat, c: Mat, x: Mat, n: nat, w: nat, k: nat)
    requires Forward(g, c, x, n, w, k, n) && k < n
    ensures Forward(g, c, x, n, w, k + 1, k + 2) || k + 1 == n
    ensures k + 1 == n ==> Forward(g, c, x, n, w, n, 0)
  {}

  lemma {:induction false} ForwardStarts(g: Mat, c: Mat, x: Mat, n: nat, w: nat)
    requires IsMat(g, n, n) && IsMat(c, n, w) && x == c
    ensures Forward(g, c, x, n, w, 0, 1)
  {
    forall r, t {:trigger c[r][t]} | 0 <= r < n && 0 <= t < w
      ensures c[r][t] == x[r][t] + Dot(g, x, r, t, 0, UpTo(0, 1, r))
    {
      assert Dot(g, x, r, t, 0, 0) == 0.0;
    }
  }

  /** Once all columns are eliminated, L times x is the right-hand side. */
  lemma {:induction false} ForwardDone(g: Mat, c: Mat, x: Mat, n: nat, w: nat)
    requires Forward(g, c, x, n, w, n, 0)
    ensures Mul(Lower(g, n), x, n, n, w) == c
  {
    var l := Lower(g, n);
    forall i, t | 0 <= i < n && 0 <= t < w ensures Dot(l, x, i, t, 0, n) == c[i][t] {
      LowerRow(g, x, n, w, i, t);
    }
    SameMat(Mul(l, x, n, n, w), c, n, w);
  }

  lemma {:induction false} LowerRow(g: Mat, x: Mat, n: nat, w: nat, i: nat, t: nat)
    requires IsMat(g, n, n) && IsMat(x, n, w) && i < n && t < w
    ensures Dot(Lower(g, n), x, i, t, 0, n) == Dot(g, x, i, t, 0, i) + x[i][t]
  {
    var l := Lower(g, n);
    DotSplit(l, x, i, t, 0, i, n);
    DotFirst(l, x, i, t, i, n);
    DotSame(l, x, i, g, x, i, t, 0, i);
    DotZero(l, x, i, t, i + 1, n);
  }

  lemma {:induction false} UpperRow(g: Mat, x: Mat, n: nat, w: nat, i: nat, t: nat)
    requires IsMat(g, n, n) && IsMat(x, n, w) && i < n && t < w
    ensures Dot(Upper(g, n), x, i, t, 0, n) == g[i][i] * x[i][t] + Dot(g, x, i, t, i + 1, n)
  {
    var u := Upper(g, n);
    DotSplit(u, x, i, t, 0, i, n);
    DotFirst(u, x, i, t, i, n);
    DotSame(u, x, i, g, x, i, t, i + 1, n);
    DotZero(u, x, i, t, 0, i);
  }

  /** Back substitution: rows from k on solved; row k + 1 on eliminated everywhere, row k from
      the rows above i. */
  ghost predicate Backward(g: Mat, y: Mat, x: Mat, n: nat, w: nat, k: nat, i: nat) {
    && IsMat(g, n, n) && IsMat(y, n, w) && IsMat(x, n, w) && i <= k <= n
    && forall r, t {:trigger y[r][t]} | 0 <= r < n && 0 <= t < w ::
         y[r][t] == if r >= k then Dot(g, x, r, t, r, n)
                    else x[r][t] + Dot(g, x, r, t, if r < i || k == n then k else k + 1, n)
  }

  lemma {:induction false} BackwardStarts(g: Mat, y: Mat, n: nat, w: nat)
    requires IsMat(g, n, n) && IsMat(y, n, w)
    ensures Backward(g, y, y, n, w, n, n)
  {}

  function RowScaled(x: Mat, k: nat, f: real): (y: Mat)
    requires k < |x|
    ensures |y| == |x| && |y[k]| == |x[k]| && forall r | 0 <= r < |x| && r != k :: y[r] == x[r]
    ensures forall t | 0 <= t < |x[k]| :: y[k][t] == x[k][t] * f
  {
    x[k := seq(|x[k]|, t requires 0 <= t < |x[k]| => x[k][t] * f)]
  }

  lemma {:induction false} BackwardPivot(g: Mat, y: Mat, x: Mat, n: nat, w: nat, k: nat)
    requires k < n && Backward(g, y, x, n, w, k + 1, k + 1) && g[k][k] != 0.0
    ensures Backward(g, y, RowScaled(x, k, 1.0 / g[k][k]), n, w, k, 0)
  {
    var z := RowScaled(x, k, 1.0 / g[k][k]);
    forall r, t {:trigger y[r][t]} | 0 <= r < n && 0 <= t < w
      ensures y[r][t] == if r >= k then Dot(g, z, r, t, r, n) else z[r][t] + Dot(g, z, r, t, k + 1, n)
    {
      if r > k {
        DotSame(g, x, r, g, z, r, t, r, n);
      } else {
        DotSame(g, x, r, g, z, r, t, k + 1, n);
        if r == k {
          DotFirst(g, z, k, t, k, n);
          DivideBack(x[k][t], g[k][k]);
          assert g[k][k] * z[k][t] == z[k][t] * g[k][k];
        }
      }
    }
  }

  lemma {:induction false} BackwardRow(g: Mat, y: Mat, x: Mat, n: nat, w: nat, k: nat, i: nat)
    requires k < n && i < k && Backward(g, y, x, n, w, k, i)
    ensures Backward(g, y, RowAdded(x, i, k, -g[i][k]), n, w, k, i + 1)
  {
    var z := RowAdded(x, i, k, -g[i][k]);
    forall r, t {:trigger y[r][t]} | 0 <= r < n && 0 <= t < w
      ensures y[r][t] == if r >= k then Dot(g, z, r, t, r, n)
                         else z[r][t] + Dot(g, z, r, t, if r < i + 1 then k else k + 1, n)
    {
      DotSame(g, x, r, g, z, r, t, if r >= k then r else if r < i then k else k + 1, n);
      if r == i {
        DotFirst(g, z, i, t, k, n);
        assert x[k][t] * -g[i][k] == -(g[i][k] * x[k][t]);
      }
    }
  }

  lemma {:induction false} BackwardDone(g: Mat, y: Mat, x: Mat, n: nat, w: nat)
    requires Backward(g, y, x, n, w, 0, 0)
    ensures Mul(Upper(g, n), x, n, n, w) == y
  {
    var u := Upper(g, n);
    forall i, t | 0 <= i < n && 0 <= t < w ensures Dot(u, x, i, t, 0, n) == y[i][t] {
      UpperRow(g, x, n, w, i, t);
      DotFirst(g, x, i, t, i, n);
      assert y[i][t] == Dot(g, x, i, t, i, n);
    }
    SameMat(Mul(u, x, n, n, w), y, n, w);
  }

  method AddRow(x: array2<real>, i: nat, k: nat, f: real, ghost g: Mat)
    requires Mirrors(x, g) && i < x.Length0 && k < x.Length0 && i != k
    modifies x
    ensures Mirrors(x, RowAdded(g, i, k, f))
  {
    var t: nat := 0;
    while t < x.Length1
      invariant t <= x.Length1
      invariant forall r, c | 0 <= r < x.Length0 && 0 <= c < x.Length1 ::
        x[r, c] == if r == i && c < t then g[i][c] + g[k][c] * f else g[r][c]
    {
      x[i, t] := x[i, t] + x[k, t] * f;
      t := t + 1;
    }
  }

  method ScaleRow(x: array2<real>, k: nat, f: real, ghost g: Mat)
    requires Mirrors(x, g) && k < x.Length0
    modifies x
    ensures Mirrors(x, RowScaled(g, k, f))
  {
    var t: nat := 0;
    while t < x.Length1
      invariant t <= x.Length1
      invariant forall r, c | 0 <= r < x.Length0 && 0 <= c < x.Length1 ::
        x[r, c] == if r == k && c < t then g[k][c] * f else g[r][c]
    {
      x[k, t] := x[k, t] * f;
      t := t + 1;
    }
  }

  method SolveLower(lu: array2<real>, x: array2<real>, ghost g: Mat, ghost c: Mat) returns (ghost y: Mat)
    requires Mirrors(lu, g) && lu.Length0 == lu.Length1 == x.Length0 && lu != x && Mirrors(x, c)
    modifies x
    ensures Mirrors(x, y) && Mul(Lower(g, x.Length0), y, x.Length0, x.Length0, x.Length1) == c
  {
    hide Forward;
    var n, w := x.Length0, x.Length1;
    y := c;
    ForwardStarts(g, c, y, n, w);
    var k: nat := 0;
    while k < n
      invariant k <= n && Mirrors(x, y) && Mirrors(lu, g)
      invariant if k < n then Forward(g, c, y, n, w, k, k + 1)
                else Forward(g, c, y, n, w, n, 0) || (n == 0 && Forward(g, c, y, n, w, 0, 1))
    {
      var i := k + 1;
      while i < n
        invariant k < i <= n && Mirrors(x, y) && Mirrors(lu, g) && Forward(g, c, y, n, w, k, i)
      {
        ForwardRow(g, c, y, n, w, k, i);
        AddRow(x, i, k, -lu[i, k], y);
        y := RowAdded(y, i, k, -g[i][k]);
        i := i + 1;
      }
      ForwardNext(g, c, y, n, w, k);
      k := k + 1;
    }
    EmptyForward(g, c, y, n, w);
    ForwardDone(g, c, y, n, w);
  }

  lemma {:induction false} EmptyForward(g: Mat, c: Mat, x: Mat, n: nat, w: nat)
    ensures n == 0 && Forward(g, c, x, 0, w, 0, 1) ==> Forward(g, c, x, n, w, n, 0)
  {}

  method SolveUpper(lu: array2<real>, x: array2<real>, ghost g: Mat, ghost y: Mat) returns (ghost z: Mat)
    requires Mirrors(lu, g) && lu.Length0 == lu.Length1 == x.Length0 && lu != x && Mirrors(x, y)
    requires forall k | 0 <= k < |g| :: g[k][k] != 0.0
    modifies x
    ensures Mirrors(x, z) && Mul(Upper(g, x.Length0), z, x.Length0, x.Length0, x.Length1) == y
  {
    hide Backward;
    var n, w := x.Length0, x.Length1;
    z := y;
    BackwardStarts(g, y, n, w);
    var k: nat := n;
    while k > 0
      invariant k <= n && Mirrors(x, z) && Mirrors(lu, g) && Backward(g, y, z, n, w, k, k)
    {
      k := k - 1;
      BackwardPivot(g, y, z, n, w, k);
      ScaleRow(x, k, 1.0 / lu[k, k], z);
      z := RowScaled(z, k, 1.0 / g[k][k]);
      var i: nat := 0;
      while i < k
        invariant i <= k < n && Mirrors(x, z) && Mirrors(lu, g) && Backward(g, y, z, n, w, k, i)
      {
        BackwardRow(g, y, z, n, w, k, i);
        AddRow(x, i, k, -lu[i, k], z);
        z := RowAdded(z, i, k, -g[i][k]);
        i := i + 1;
      }
    }
    BackwardDone(g, y, z, n, w);
  }

  /** The right hand side in the order of the factored rows. */
  method PermuteRows(b: array2<real>, piv: array<nat>) returns (x: array2<real>)
    requires piv.Length == b.Length0 && Perm(piv[..])
    ensures fresh(x) && x.Length0 == b.Length0 && x.Length1 == b.Length1
    ensures Mirrors(x, Permuted(Snapshot(b), piv[..]))
  {
    var n, w := b.Length0, b.Length1;
    ghost var p := piv[..];
    assert forall i | 0 <= i < n :: p[i] == piv[i] < n;
    x := new real[n, w];
    forall i, t | 0 <= i < n && 0 <= t < w { x[i, t] := b[piv[i], t]; }
    assert piv[..] == p;
  }

  /** Solves A * X = B from the factors of A: permute, substitute forward, then back. */
  method Solve(lu: array2<real>, piv: array<nat>, b: array2<real>, ghost a: Mat) returns (x: array2<real>)
    requires lu.Length0 == lu.Length1 == piv.Length == b.Length0 == |a| && IsPlu(a, Snapshot(lu), piv[..])
    requires forall k | 0 <= k < lu.Length0 :: lu[k, k] != 0.0
    ensures fresh(x) && x.Length0 == b.Length0 && x.Length1 == b.Length1
    ensures Mul(a, Snapshot(x), |a|, |a|, b.Length1) == Snapshot(b)
  {
    hide IsPlu, Mul, Lower, Upper;
    var n, w := b.Length0, b.Length1;
    ghost var g, bs, p := Snapshot(lu), Snapshot(b), piv[..];
    PluShapes(a, g, p);
    x := PermuteRows(b, piv);
    assert piv[..] == p;
    ghost var c := Permuted(bs, p);
    ghost var y := SolveLower(lu, x, g, c);
    ghost var z := SolveUpper(lu, x, g, y);
    SolutionSolves(a, g, p, bs, y, z, n, w);
    MirrorIsSnapshot(x, z);
  }

  lemma {:induction false} PluShapes(a: Mat, g: Mat, piv: seq<nat>)
    requires IsPlu(a, g, piv)
    ensures Shapes(a, g, piv)
  {}

  /** What the two substitutions give together. */
  lemma {:induction false} SolutionSolves(a: Mat, g: Mat, piv: seq<nat>, b: Mat, y: Mat, x: Mat, n: nat, w: nat)
    requires IsPlu(a, g, piv) && n == |a| && IsMat(b, n, w) && IsMat(y, n, w) && IsMat(x, n, w)
    requires Mul(Lower(g, n), y, n, n, w) == Permuted(b, piv) && Mul(Upper(g, n), x, n, n, w) == y
    ensures Mul(a, x, n, n, w) == b
  {
    var l, u := Lower(g, n), Upper(g, n);
    var lu := Mul(l, u, n, n, n);
    MulAssoc(l, u, x, n, n, n, w);
    forall r, t | 0 <= r < n && 0 <= t < w ensures Dot(a, x, r, t, 0, n) == b[r][t] {
      var i := PermOnto(piv, r);
      FactorRow(a, g, piv, n, i);
      DotSame(a, x, r, lu, x, i, t, 0, n);
      assert Mul(lu, x, n, n, w)[i][t] == Dot(lu, x, i, t, 0, n);
      assert Permuted(b, piv)[i] == b[r];
    }
    SameMat(Mul(a, x, n, n, w), b, n, w);
  }

  lemma {:induction false} FactorRow(a: Mat, g: Mat, piv: seq<nat>, n: nat, i: nat)
    requires IsPlu(a, g, piv) && n == |a| && i < n
    ensures a[piv[i]] == Mul(Lower(g, n), Upper(g, n), n, n, n)[i]
  {
    var lu := Mul(Lower(g, n), Upper(g, n), n, n, n);
    forall c | 0 <= c < n ensures a[piv[i]][c] == lu[i][c] {
      assert Done(a, g, piv, c);
      ProductIsDot(g, n, i, c);
    }
  }

  // ---------------------------------------------------------------------------------------
  // Uniqueness, and the inverse

  lemma {:induction false} LowerCancels(g: Mat, v: Mat, x: Mat, n: nat, w: nat, k: nat)
    requires IsMat(g, n, n) && IsMat(v, n, w) && IsMat(x, n, w) && k <= n
    requires Mul(Lower(g, n), v, n, n, w) == Mul(Lower(g, n), x, n, n, w)
    ensures forall i | 0 <= i < k :: v[i] == x[i]
  {
    if k > 0 {
      var i := k - 1;
      LowerCancels(g, v, x, n, w, i);
      var l := Lower(g, n);
      forall t | 0 <= t < w ensures v[i][t] == x[i][t] {
        LowerRow(g, v, n, w, i, t);
        LowerRow(g, x, n, w, i, t);
        DotSame(g, v, i, g, x, i, t, 0, i);
        assert Mul(l, v, n, n, w)[i][t] == Mul(l, x, n, n, w)[i][t];
      }
    }
  }

  lemma {:induction false} CancelFactor(f: real, x: real, y: real)
    requires f != 0.0 && f * x == f * y
    ensures x == y
  {
    assert f * (x - y) == 0.0;
  }

  lemma {:induction false} CancelRow(f: real, x: real, y: real, d: real, s: real)
    requires f != 0.0 && s == f * x + d && s == f * y + d
    ensures x == y
  {
    CancelFactor(f, x, y);
  }

  lemma {:induction false} UpperCancels(g: Mat, v: Mat, x: Mat, n: nat, w: nat, k: nat)
    requires IsMat(g, n, n) && IsMat(v, n, w) && IsMat(x, n, w) && k <= n
    requires forall i | 0 <= i < n :: g[i][i] != 0.0
    requires Mul(Upper(g, n), v, n, n, w) == Mul(Upper(g, n), x, n, n, w)
    ensures forall i | k <= i < n :: v[i] == x[i]
    decreases n - k
  {
    hide Dot, Mul, Upper;
    if k < n {
      UpperCancels(g, v, x, n, w, k + 1);
      forall t | 0 <= t < w ensures v[k][t] == x[k][t] {
        UpperEntryCancels(g, v, x, n, w, k, t);
      }
    }
  }

  lemma {:induction false} UpperEntryCancels(g: Mat, v: Mat, x: Mat, n: nat, w: nat, k: nat, t: nat)
    requires IsMat(g, n, n) && IsMat(v, n, w) && IsMat(x, n, w) && k < n && t < w && g[k][k] != 0.0
    requires forall i | k < i < n :: v[i] == x[i]
    requires Mul(Upper(g, n), v, n, n, w) == Mul(Upper(g, n), x, n, n, w)
    ensures v[k][t] == x[k][t]
  {
    hide Dot, Upper, Mul;
    var d := Dot(g, x, k, t, k + 1, n);
    DotSame(g, v, k, g, x, k, t, k + 1, n);
    UpperRowIs(g, v, n, w, k, t, g[k][k], v[k][t], d);
    UpperRowIs(g, x, n, w, k, t, g[k][k], x[k][t], d);
    CancelRow(g[k][k], v[k][t], x[k][t], d, Mul(Upper(g, n), v, n, n, w)[k][t]);
  }

  lemma {:induction false} UpperRowIs(g: Mat, x: Mat, n: nat, w: nat, i: nat, t: nat, f: real, e: real, d: real)
    requires IsMat(g, n, n) && IsMat(x, n, w) && i < n && t < w
    requires f == g[i][i] && e == x[i][t] && d == Dot(g, x, i, t, i + 1, n)
    ensures Mul(Upper(g, n), x, n, n, w)[i][t] == f * e + d
  {
    hide Dot, Upper, Mul;
    UpperRow(g, x, n, w, i, t);
  }

  /** With non-zero pivots, A * V == A * X only for V == X: solutions are unique. */
  lemma {:induction false} SolutionsUnique(a: Mat, g: Mat, piv: seq<nat>, v: Mat, x: Mat, n: nat, w: nat)
    requires IsPlu(a, g, piv) && n == |a| && IsMat(v, n, w) && IsMat(x, n, w)
    requires forall i | 0 <= i < n :: g[i][i] != 0.0
    requires Mul(a, v, n, n, w) == Mul(a, x, n, n, w)
    ensures v == x
  {
    var l, u := Lower(g, n), Upper(g, n);
    FactoredProduct(a, g, piv, v, n, w);
    FactoredProduct(a, g, piv, x, n, w);
    LowerCancels(g, Mul(u, v, n, n, w), Mul(u, x, n, n, w), n, w, n);
    assert Mul(u, v, n, n, w) == Mul(u, x, n, n, w);
    UpperCancels(g, v, x, n, w, 0);
  }

  lemma {:induction false} FactoredProduct(a: Mat, g: Mat, piv: seq<nat>, v: Mat, n: nat, w: nat)
    requires IsPlu(a, g, piv) && n == |a| && IsMat(v, n, w)
    ensures Mul(Lower(g, n), Mul(Upper(g, n), v, n, n, w), n, n, w) == Permuted(Mul(a, v, n, n, w), piv)
  {
    var l, u := Lower(g, n), Upper(g, n);
    var lu := Mul(l, u, n, n, n);
    MulAssoc(l, u, v, n, n, n, w);
    forall i, t | 0 <= i < n && 0 <= t < w
      ensures Mul(lu, v, n, n, w)[i][t] == Permuted(Mul(a, v, n, n, w), piv)[i][t]
    {
      FactorRow(a, g, piv, n, i);
      DotSame(a, v, piv[i], lu, v, i, t, 0, n);
    }
    SameMat(Mul(lu, v, n, n, w), Permuted(Mul(a, v, n, n, w), piv), n, w);
  }

  /** A right inverse found with the factors is a left inverse as well. */
  lemma {:induction false} RightInverseIsLeft(a: Mat, g: Mat, piv: seq<nat>, x: Mat, n: nat)
    requires IsPlu(a, g, piv) && n == |a| && IsMat(x, n, n) && forall i | 0 <= i < n :: g[i][i] != 0.0
    requires Mul(a, x, n, n, n) == Identity(n)
    ensures Mul(x, a, n, n, n) == Identity(n)
  {
    MulAssoc(a, x, a, n, n, n, n);
    MulIdentityLeft(a, n, n);
    MulIdentityRight(a, n, n);
    SolutionsUnique(a, g, piv, Mul(x, a, n, n, n), Identity(n), n, n);
  }

  ghost predicate IsInverse(a: Mat, x: Mat, n: nat) {
    && IsMat(a, n, n) && IsMat(x, n, n)
    && Mul(a, x, n, n, n) == Identity(n) && Mul(x, a, n, n, n) == Identity(n)
  }

  // ---------------------------------------------------------------------------------------
  // What a tiny pivot says about the matrix

  function Zero(r: nat, c: nat): (m: Mat)
    ensures IsMat(m, r, c)
    ensures forall i, j {:trigger m[i][j]} | 0 <= i < r && 0 <= j < c :: m[i][j] == 0.0
  {
    seq(r, i => seq(c, j => 0.0))
  }

  /** The column v is not zero, and b maps it to zero. */
  ghost predicate InKernel(b: Mat, v: Mat, n: nat) {
    IsMat(b, n, n) && IsMat(v, n, 1) && v != Zero(n, 1) && Mul(b, v, n, n, 1) == Zero(n, 1)
  }

  ghost predicate Singular(b: Mat, n: nat) {
    exists v: Mat :: InKernel(b, v, n)
  }

  ghost predicate Near(a: Mat, b: Mat, n: nat) {
    && IsMat(a, n, n) && IsMat(b, n, n)
    && forall i, j {:trigger b[i][j]} | 0 <= i < n && 0 <= j < n :: -0.00000001 < a[i][j] - b[i][j] < 0.00000001
  }

  /** Some singular matrix differs by less than 1e-8 in every entry. */
  ghost predicate NearSingular(a: Mat, n: nat) {
    exists b: Mat :: Near(a, b, n) && Singular(b, n)
  }

  lemma {:induction false} InverseNotSingular(a: Mat, x: Mat, n: nat)
    requires IsInverse(a, x, n)
    ensures !Singular(a, n)
  {
    hide Mul, Identity, Zero;
    forall v: Mat ensures !InKernel(a, v, n) {
      if InKernel(a, v, n) {
        MulAssoc(x, a, v, n, n, n, 1);
        MulIdentityLeft(v, n, 1);
        MulZero(x, n);
      }
    }
  }

  lemma {:induction false} MulZero(x: Mat, n: nat)
    requires IsMat(x, n, n)
    ensures Mul(x, Zero(n, 1), n, n, 1) == Zero(n, 1)
  {
    forall i, j | 0 <= i < n && 0 <= j < 1 ensures Mul(x, Zero(n, 1), n, n, 1)[i][j] == Zero(n, 1)[i][j] {
      DotZero(x, Zero(n, 1), i, j, 0, n);
    }
    SameMat(Mul(x, Zero(n, 1), n, n, 1), Zero(n, 1), n, 1);
  }

  function WithoutPivot(g: Mat, k: nat): (h: Mat)
    requires IsMat(g, |g|, |g|) && k < |g|
    ensures IsMat(h, |g|, |g|)
    ensures forall i, j {:trigger h[i][j]} | 0 <= i < |g| && 0 <= j < |g| ::
      h[i][j] == if i == j == k then 0.0 else g[i][j]
  {
    g[k := g[k][k := 0.0]]
  }

  /** Without the pivot, one column of the product changes. */
  lemma {:induction false} ProductWithout(g: Mat, k: nat, i: nat, c: nat)
    requires IsMat(g, |g|, |g|) && k < |g| && i < |g| && c < |g|
    ensures Product(g, i, c) - Product(WithoutPivot(g, k), i, c) ==
      if c != k || i < k then 0.0 else if i == k then g[k][k] else g[i][k] * g[k][k]
  {
    var h := WithoutPivot(g, k);
    hide Dot, WithoutPivot;
    DotSame(g, g, i, h, h, i, c, 0, Min(i, c));
    assert h[i][c] == if i == c == k then 0.0 else g[i][c];
    if i > c {
      assert h[c][c] == if c == k then 0.0 else g[c][c];
      assert c == k ==> h[i][c] * h[c][c] == 0.0;
    }
  }

  /** The row of the factors that a row of the matrix has moved to. */
  ghost function MovedTo(piv: seq<nat>, r: nat): (i: nat)
    requires Perm(piv) && r < |piv|
    ensures i < |piv| && piv[i] == r
  {
    PermHas(piv, r);
    var i: nat :| i < |piv| && piv[i] == r;
    i
  }

  lemma {:induction false} PermHas(piv: seq<nat>, r: nat)
    requires Perm(piv) && r < |piv|
    ensures exists i: nat :: i < |piv| && piv[i] == r
  {
    var i := PermOnto(piv, r);
  }

  /** The matrix with the given factors. */
  ghost function Composed(h: Mat, piv: seq<nat>): (b: Mat)
    requires IsMat(h, |h|, |h|) && |piv| == |h| && Perm(piv)
    ensures IsMat(b, |h|, |h|)
    ensures forall i, c | 0 <= i < |h| && 0 <= c < |h| :: b[piv[i]][c] == Product(h, i, c)
  {
    var b := seq(|h|, r requires 0 <= r < |h| =>
      seq(|h|, c requires 0 <= c < |h| => Product(h, MovedTo(piv, r), c)));
    assert forall i | 0 <= i < |h| :: MovedTo(piv, piv[i]) == i;
    b
  }

  lemma {:induction false} ComposedIsPlu(h: Mat, piv: seq<nat>)
    requires IsMat(h, |h|, |h|) && |piv| == |h| && Perm(piv)
    ensures IsPlu(Composed(h, piv), h, piv)
  {
    hide Product;
    var b := Composed(h, piv);
    forall c {:trigger Done(b, h, piv, c)} | 0 <= c < |b| ensures Done(b, h, piv, c) {
      assert forall i | 0 <= i < |h| :: b[piv[i]][c] == Product(h, i, c);
    }
  }

  /** Back substitution from a zero pivot at k. */
  lemma {:induction false} KernelColumn(h: Mat, n: nat, k: nat, i: nat) returns (v: Mat)
    requires IsMat(h, n, n) && i <= k < n && h[k][k] == 0.0 && forall j | 0 <= j < k :: h[j][j] != 0.0
    ensures IsMat(v, n, 1) && v[k][0] == 1.0
    ensures forall r: nat | i <= r < n :: Annihilates(h, v, n, r)
    decreases k - i
  {
    hide Dot, Annihilates;
    if i == k {
      v := seq(n, r => [if r == k then 1.0 else 0.0]);
      forall r: nat | i <= r < n ensures Annihilates(h, v, n, r) {
        UnitAnnihilates(h, v, n, k, r);
      }
    } else {
      var w := KernelColumn(h, n, k, i + 1);
      var x := -Dot(h, w, i, 0, i + 1, n) / h[i][i];
      v := w[i := [x]];
      forall r: nat | i <= r < n ensures Annihilates(h, v, n, r) {
        SubstituteAnnihilates(h, w, n, i, x, r);
      }
    }
  }

  /** Row r of the upper triangle is orthogonal to v. */
  ghost predicate Annihilates(h: Mat, v: Mat, n: nat, r: nat)
    requires IsMat(h, n, n) && IsMat(v, n, 1) && r < n
  {
    h[r][r] * v[r][0] + Dot(h, v, r, 0, r + 1, n) == 0.0
  }

  lemma {:induction false} UnitAnnihilates(h: Mat, v: Mat, n: nat, k: nat, r: nat)
    requires IsMat(h, n, n) && IsMat(v, n, 1) && k <= r < n && h[k][k] == 0.0
    requires forall j {:trigger v[j]} | 0 <= j < n && j != k :: v[j][0] == 0.0
    ensures Annihilates(h, v, n, r)
  {
    hide Dot;
    DotZero(h, v, r, 0, r + 1, n);
  }

  lemma {:induction false} SubstituteAnnihilates(h: Mat, w: Mat, n: nat, i: nat, x: real, r: nat)
    requires IsMat(h, n, n) && IsMat(w, n, 1) && i <= r < n && h[i][i] != 0.0
    requires x == -Dot(h, w, i, 0, i + 1, n) / h[i][i] && (r > i ==> Annihilates(h, w, n, r))
    ensures IsMat(w[i := [x]], n, 1) && Annihilates(h, w[i := [x]], n, r)
  {
    hide Dot;
    DotSame(h, w[i := [x]], r, h, w, r, 0, r + 1, n);
    Balance(h[i][i], Dot(h, w, i, 0, i + 1, n));
  }

  lemma {:induction false} Balance(f: real, d: real)
    requires f != 0.0
    ensures f * (-d / f) + d == 0.0
  {}

  lemma {:induction false} ZeroPivotSingular(b: Mat, h: Mat, piv: seq<nat>, n: nat, k: nat)
    requires IsPlu(b, h, piv) && n == |b| && k < n && h[k][k] == 0.0 && forall j | 0 <= j < k :: h[j][j] != 0.0
    ensures Singular(b, n)
  {
    hide Dot, Mul, Upper, Lower, Product, Zero;
    var v := KernelColumn(h, n, k, 0);
    var u := Upper(h, n);
    forall i, t | 0 <= i < n && 0 <= t < 1 ensures Mul(u, v, n, n, 1)[i][t] == Zero(n, 1)[i][t] {
      UpperRow(h, v, n, 1, i, t);
      assert Annihilates(h, v, n, i);
    }
    SameMat(Mul(u, v, n, n, 1), Zero(n, 1), n, 1);
    FactoredProduct(b, h, piv, v, n, 1);
    MulZero(Lower(h, n), n);
    forall r, t | 0 <= r < n && 0 <= t < 1 ensures Mul(b, v, n, n, 1)[r][t] == Zero(n, 1)[r][t] {
      var i := PermOnto(piv, r);
      assert Permuted(Mul(b, v, n, n, 1), piv)[i] == Mul(b, v, n, n, 1)[r];
    }
    SameMat(Mul(b, v, n, n, 1), Zero(n, 1), n, 1);
    assert v[k][0] != Zero(n, 1)[k][0];
    assert InKernel(b, v, n);
  }

  /** If some pivot is tiny the matrix is within 1e-8, entry by entry, of a singular one. */
  lemma {:induction false} TinyPivotNearSingular(a: Mat, g: Mat, piv: seq<nat>)
    requires IsPlu(a, g, piv) && Multipliers(g, |g|) && !Regular(g)
    ensures NearSingular(a, |a|)
  {
    hide IsPlu, Multipliers, Near, Singular, Product;
    PluShapes(a, g, piv);
    var k := FirstTiny(g);
    var h := WithoutPivot(g, k);
    var b := Composed(h, piv);
    ComposedIsPlu(h, piv);
    ZeroPivotSingular(b, h, piv, |a|, k);
    forall i: nat, c: nat | i < |a| && c < |a| ensures Abs(a[i][c] - b[i][c]) < EPS {
      EntryNear(a, g, piv, k, i, c);
    }
    NearByEntries(a, b, |a|);
  }

  lemma {:induction false} NearByEntries(a: Mat, b: Mat, n: nat)
    requires IsMat(a, n, n) && IsMat(b, n, n)
    requires forall i: nat, c: nat | i < n && c < n :: Abs(a[i][c] - b[i][c]) < EPS
    ensures Near(a, b, n)
  {}

  lemma {:induction false} FirstTiny(g: Mat) returns (k: nat)
    requires IsMat(g, |g|, |g|) && !Regular(g)
    ensures k < |g| && Abs(g[k][k]) < EPS && forall j | 0 <= j < k :: g[j][j] != 0.0
  {
    k := 0;
    while k < |g| && Abs(g[k][k]) >= EPS
      invariant k <= |g| && forall j | 0 <= j < k :: Abs(g[j][j]) >= EPS
    {
      k := k + 1;
    }
  }

  lemma {:induction false} EntryNear(a: Mat, g: Mat, piv: seq<nat>, k: nat, r: nat, c: nat)
    requires IsPlu(a, g, piv) && Multipliers(g, |g|) && k < |g| && Abs(g[k][k]) < EPS && r < |a| && c < |a|
    ensures IsMat(g, |g|, |g|) && |piv| == |g| == |a| && Perm(piv)
    ensures Abs(a[r][c] - Composed(WithoutPivot(g, k), piv)[r][c]) < EPS
  {
    hide Product, WithoutPivot, Composed;
    var i := PermOnto(piv, r);
    ProductWithout(g, k, i, c);
    assert Done(a, g, piv, c);
    assert Composed(WithoutPivot(g, k), piv)[piv[i]][c] == Product(WithoutPivot(g, k), i, c);
    if c == k && i > k {
      assert -1.0 <= g[i][k] <= 1.0;
      SmallTimes(g[i][k], g[k][k]);
    }
  }

  lemma {:induction false} SmallTimes(x: real, y: real)
    requires -1.0 <= x <= 1.0 && Abs(y) < EPS
    ensures Abs(x * y) < EPS
  {
    Weighed(1.0 - x, y);
    Weighed(1.0 + x, y);
    var p := x * y;
    assert (1.0 - x) * y == y - p;
    assert (1.0 + x) * y == y + p;
    assert Abs(p) <= Abs(y);
  }

  lemma {:induction false} Weighed(w: real, y: real)
    requires w >= 0.0
    ensures (y >= 0.0 ==> w * y >= 0.0) && (y <= 0.0 ==> w * y <= 0.0)
  {}

  /** Tiny entries in the first column are enough for a tiny pivot, however regular the matrix. */
  lemma {:induction false} TinyColumnTinyPivot(a: Mat, g: Mat, piv: seq<nat>)
    requires IsPlu(a, g, piv) && |a| > 0 && forall i | 0 <= i < |a| :: Abs(a[i][0]) < EPS
    ensures !Regular(g)
  {
    assert Done(a, g, piv, 0);
    assert a[piv[0]][0] == Product(g, 0, 0) == g[0][0];
  }

  function Det2(m: Mat): real
    requires IsMat(m, 2, 2)
  {
    m[0][0] * m[1][1] - m[0][1] * m[1][0]
  }

  /** Inverts a square matrix. From dimension three on this factors it, into g and piv, and solves for the identity; it
      fails exactly if the determinant is zero (dimensions one and two) or some pivot of g is tiny, which happens for
      every singular matrix and only within 1e-8 of one. */
  method Inverse(m: array2<real>) returns (x: array2?<real>, ghost g: Mat, ghost piv: seq<nat>)
    requires m.Length0 == m.Length1 >= 1
    ensures x != null ==> fresh(x) && x.Length0 == x.Length1 == m.Length0
    ensures x != null ==> IsInverse(Snapshot(m), Snapshot(x), m.Length0)
    ensures m.Length0 == 1 ==> (x == null <==> m[0, 0] == 0.0)
    ensures m.Length0 == 2 ==> (x == null <==> Det2(Snapshot(m)) == 0.0)
    ensures m.Length0 >= 3 ==> IsPlu(Snapshot(m), g, piv) && Multipliers(g, |g|) && (x == null <==> !Regular(g))
    ensures m.Length0 >= 3 && x == null ==> NearSingular(Snapshot(m), m.Length0)
    ensures m.Length0 >= 3 && Singular(Snapshot(m), m.Length0) ==> x == null
  {
    hide IsPlu, Multipliers, Regular, IsInverse, Det2, Singular, NearSingular;
    var n := m.Length0;
    g, piv := [], [];
    if n == 1 {
      x := InverseOfOne(m);
    } else if n == 2 {
      x := InverseOfTwo(m);
    } else {
      x, g, piv := InverseByFactors(m);
    }
  }

  method InverseOfOne(m: array2<real>) returns (x: array2?<real>)
    requires m.Length0 == m.Length1 == 1
    ensures x == null <==> m[0, 0] == 0.0
    ensures x != null ==> fresh(x) && x.Length0 == x.Length1 == 1 && IsInverse(Snapshot(m), Snapshot(x), 1)
  {
    var det := m[0, 0];
    if det == 0.0 {
      return null;
    }
    var y := new real[1, 1];
    y[0, 0] := 1.0 * (1.0 / det);
    Inverse1(Snapshot(m), Snapshot(y));
    return y;
  }

  method InverseOfTwo(m: array2<real>) returns (x: array2?<real>)
    requires m.Length0 == m.Length1 == 2
    ensures x == null <==> Det2(Snapshot(m)) == 0.0
    ensures x != null ==> fresh(x) && x.Length0 == x.Length1 == 2 && IsInverse(Snapshot(m), Snapshot(x), 2)
  {
    hide Snapshot, IsInverse;
    var det := m[0, 0] * m[1, 1] - m[0, 1] * m[1, 0];
    if det == 0.0 {
      return null;
    }
    var invdet := 1.0 / det;
    var y := new real[2, 2];
    y[0, 0] := m[1, 1] * invdet;
    y[0, 1] := -m[0, 1] * invdet;
    y[1, 0] := -m[1, 0] * invdet;
    y[1, 1] := m[0, 0] * invdet;
    Inverse2(Snapshot(m), Snapshot(y), invdet);
    return y;
  }

  method InverseByFactors(m: array2<real>) returns (x: array2?<real>, ghost g: Mat, ghost piv: seq<nat>)
    requires m.Length0 == m.Length1
    ensures x != null ==> fresh(x) && x.Length0 == x.Length1 == m.Length0
    ensures x != null ==> IsInverse(Snapshot(m), Snapshot(x), m.Length0)
    ensures IsPlu(Snapshot(m), g, piv) && Multipliers(g, |g|) && (x == null <==> !Regular(g))
    ensures x == null ==> NearSingular(Snapshot(m), m.Length0)
    ensures Singular(Snapshot(m), m.Length0) ==> x == null
  {
    hide IsPlu, Multipliers, Sign, Singular, NearSingular;
    var n := m.Length0;
    ghost var a := Snapshot(m);
    var lu, rows, pivsign, singular := Factor(m);
    g, piv := Snapshot(lu), rows[..];
    x := null;
    if singular {
      TinyPivotNearSingular(a, g, piv);
      return;
    }
    assert forall k {:trigger g[k]} | 0 <= k < n :: g[k][k] == lu[k, k] && g[k][k] != 0.0;
    x := SolveForIdentity(lu, rows, a);
    InverseNotSingular(a, Snapshot(x), n);
  }

  /** The inverse from factors without a zero pivot. */
  method SolveForIdentity(lu: array2<real>, piv: array<nat>, ghost a: Mat) returns (x: array2<real>)
    requires lu.Length0 == lu.Length1 == piv.Length == |a| && IsPlu(a, Snapshot(lu), piv[..])
    requires forall k | 0 <= k < lu.Length0 :: lu[k, k] != 0.0
    ensures fresh(x) && x.Length0 == x.Length1 == |a| && IsInverse(a, Snapshot(x), |a|)
  {
    hide IsPlu, Mul, Identity;
    ghost var g, p := Snapshot(lu), piv[..];
    assert forall k {:trigger g[k]} | 0 <= k < |g| :: g[k][k] == lu[k, k];
    hide Snapshot;
    var ident := IdentityArray(lu.Length0);
    x := Solve(lu, piv, ident, a);
    RightInverseIsLeft(a, g, p, Snapshot(x), lu.Length0);
    PluShapes(a, g, p);
  }

  method IdentityArray(n: nat) returns (ident: array2<real>)
    ensures fresh(ident) && ident.Length0 == ident.Length1 == n && Snapshot(ident) == Identity(n)
  {
    ident := new real[n, n];
    forall i, j | 0 <= i < n && 0 <= j < n { ident[i, j] := if i == j then 1.0 else 0.0; }
    MirrorIsSnapshot(ident, Identity(n));
  }

  ghost predicate Diagonal(a: Mat, d: seq<real>) {
    && IsMat(a, |d|, |d|)
    && forall i, j {:trigger a[i][j]} | 0 <= i < |d| && 0 <= j < |d| :: a[i][j] == if i == j then d[i] else 0.0
  }

  /** Failure does not mean that there is no inverse: a diagonal matrix with a tiny first entry has one, but any
      factorisation of it has a tiny pivot. */
  lemma {:induction false} TinyButRegular(a: Mat, x: Mat, d: seq<real>, e: seq<real>, g: Mat, piv: seq<nat>)
    requires |d| == |e| > 0 && (forall i | 0 <= i < |d| :: d[i] != 0.0 && e[i] == 1.0 / d[i])
    requires -0.00000001 < d[0] < 0.00000001
    requires Diagonal(a, d) && Diagonal(x, e)
    ensures IsInverse(a, x, |d|) && (IsPlu(a, g, piv) ==> !Regular(g))
  {
    hide Identity, Mul, Diagonal;
    DiagonalInverse(a, x, d, e);
    DiagonalInverse(x, a, e, d);
    if IsPlu(a, g, piv) {
      FirstColumn(a, d);
      TinyColumnTinyPivot(a, g, piv);
    }
  }

  lemma {:induction false} FirstColumn(a: Mat, d: seq<real>)
    requires Diagonal(a, d) && |d| > 0 && Abs(d[0]) < EPS
    ensures IsMat(a, |d|, |d|) && forall i | 0 <= i < |a| :: Abs(a[i][0]) < EPS
  {}

  lemma {:induction false} DiagonalInverse(a: Mat, x: Mat, d: seq<real>, e: seq<real>)
    requires |d| == |e| && (forall i | 0 <= i < |d| :: d[i] * e[i] == 1.0) && Diagonal(a, d) && Diagonal(x, e)
    ensures IsMat(a, |d|, |d|) && IsMat(x, |d|, |d|) && Mul(a, x, |d|, |d|, |d|) == Identity(|d|)
  {
    var n := |d|;
    forall i, j | 0 <= i < n && 0 <= j < n ensures Mul(a, x, n, n, n)[i][j] == Identity(n)[i][j] {
      DotSplit(a, x, i, j, 0, i, n);
      DotFirst(a, x, i, j, i, n);
      DotZero(a, x, i, j, 0, i);
      DotZero(a, x, i, j, i + 1, n);
    }
    SameMat(Mul(a, x, n, n, n), Identity(n), n, n);
  }

  lemma {:induction false} Inverse1(a: Mat, x: Mat)
    requires IsMat(a, 1, 1) && IsMat(x, 1, 1) && a[0][0] != 0.0 && x[0][0] == 1.0 / a[0][0]
    ensures IsInverse(a, x, 1)
  {
    DotOne(a, x);
    DotOne(x, a);
    DivideBack(1.0, a[0][0]);
    SameMat(Mul(a, x, 1, 1, 1), Identity(1), 1, 1);
    SameMat(Mul(x, a, 1, 1, 1), Identity(1), 1, 1);
  }

  lemma {:induction false} DotOne(a: Mat, b: Mat)
    requires IsMat(a, 1, 1) && IsMat(b, 1, 1)
    ensures Dot(a, b, 0, 0, 0, 1) == a[0][0] * b[0][0]
  {}

  lemma {:induction false} DotTwo(a: Mat, b: Mat, i: nat, j: nat)
    requires IsMat(a, 2, 2) && IsMat(b, 2, 2) && i < 2 && j < 2
    ensures Dot(a, b, i, j, 0, 2) == a[i][0] * b[0][j] + a[i][1] * b[1][j]
  {
    assert Dot(a, b, i, j, 0, 1) == a[i][0] * b[0][j];
  }

  ghost predicate IsAdjugate(a: Mat, x: Mat, f: real) {
    && IsMat(a, 2, 2) && IsMat(x, 2, 2) && Det2(a) != 0.0 && f == 1.0 / Det2(a)
    && x[0][0] == a[1][1] * f && x[0][1] == -a[0][1] * f && x[1][0] == -a[1][0] * f && x[1][1] == a[0][0] * f
  }

  lemma {:induction false} AdjugateEntry(a: Mat, x: Mat, f: real, i: nat, j: nat)
    requires IsAdjugate(a, x, f) && i < 2 && j < 2
    ensures a[i][0] * x[0][j] + a[i][1] * x[1][j] == if i == j then 1.0 else 0.0
    ensures x[i][0] * a[0][j] + x[i][1] * a[1][j] == if i == j then 1.0 else 0.0
  {
    Adjugate(a[0][0], a[0][1], a[1][0], a[1][1], f);
    assert i == 0 || i == 1;
    assert j == 0 || j == 1;
  }

  lemma {:induction false} Inverse2(a: Mat, x: Mat, f: real)
    requires IsAdjugate(a, x, f)
    ensures IsInverse(a, x, 2)
  {
    hide IsAdjugate;
    assert IsMat(a, 2, 2) && IsMat(x, 2, 2) by { AdjugateShapes(a, x, f); }
    forall i, j | 0 <= i < 2 && 0 <= j < 2
      ensures Dot(a, x, i, j, 0, 2) == Identity(2)[i][j] && Dot(x, a, i, j, 0, 2) == Identity(2)[i][j]
    {
      DotTwo(a, x, i, j);
      DotTwo(x, a, i, j);
      AdjugateEntry(a, x, f, i, j);
    }
    SameMat(Mul(a, x, 2, 2, 2), Identity(2), 2, 2);
    SameMat(Mul(x, a, 2, 2, 2), Identity(2), 2, 2);
  }

  lemma {:induction false} AdjugateShapes(a: Mat, x: Mat, f: real)
    requires IsAdjugate(a, x, f)
    ensures IsMat(a, 2, 2) && IsMat(x, 2, 2)
  {}

  lemma {:induction false} Adjugate(p: real, q: real, r: real, s: real, f: real)
    requires p * s - q * r != 0.0 && f == 1.0 / (p * s - q * r)
    ensures p * (s * f) + q * (-r * f) == 1.0 && p * (-q * f) + q * (p * f) == 0.0
    ensures r * (s * f) + s * (-r * f) == 0.0 && r * (-q * f) + s * (p * f) == 1.0
    ensures (s * f) * p + (-q * f) * r == 1.0 && (s * f) * q + (-q * f) * s == 0.0
    ensures (-r * f) * p + (p * f) * r == 0.0 && (-r * f) * q + (p * f) * s == 1.0
  {
    var d := p * s - q * r;
    DivideBack(1.0, d);
    assert f * d == 1.0;
    assert p * (s * f) == (p * s) * f && q * (-r * f) == -(q * r) * f;
    assert (p * s) * f - (q * r) * f == d * f;
  }
}
