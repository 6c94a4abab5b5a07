/** Real matrices as sequences of rows. */
module Matrix {

  type Mat = seq<seq<real>>

  predicate IsMat(a: Mat, r: nat, c: nat) {
    |a| == r && forall i {:trigger a[i]} | 0 <= i < r :: |a[i]| == c
  }

  /** Row i of a against column j of b, restricted to the inner indices lo, ..., hi - 1. */
  function Dot(a: Mat, b: Mat, i: nat, j: nat, lo: nat, hi: nat): real
    requires i < |a| && hi <= |a[i]| && hi <= |b| && forall m {:trigger b[m]} | 0 <= m < hi :: j < |b[m]|
    decreases hi
  {
    if lo >= hi then 0.0 else Dot(a, b, i, j, lo, hi - 1) + a[i][hi - 1] * b[hi - 1][j]
  }

  function Mul(a: Mat, b: Mat, r: nat, k: nat, c: nat): (m: Mat)
    requires IsMat(a, r, k) && IsMat(b, k, c)
    ensures IsMat(m, r, c)
    ensures forall i, j {:trigger m[i][j]} | 0 <= i < r && 0 <= j < c :: m[i][j] == Dot(a, b, i, j, 0, k)
  {
    seq(r, i requires 0 <= i < r => seq(c, j requires 0 <= j < c => Dot(a, b, i, j, 0, k)))
  }

  function Identity(n: nat): (m: Mat)
    ensures IsMat(m, n, n)
    ensures forall i, j {:trigger m[i][j]} | 0 <= i < n && 0 <= j < n :: m[i][j] == if i == j then 1.0 else 0.0
  {
    seq(n, i requires 0 <= i < n => seq(n, j requires 0 <= j < n => if i == j then 1.0 else 0.0))
  }

  lemma {:induction false} SameMat(a: Mat, b: Mat, r: nat, c: nat)
    requires IsMat(a, r, c) && IsMat(b, r, c)
    requires forall i, j | 0 <= i < r && 0 <= j < c :: a[i][j] == b[i][j]
    ensures a == b
  {
    forall i | 0 <= i < r ensures a[i] == b[i] {
      assert forall j | 0 <= j < c :: a[i][j] == b[i][j];
    }
  }

  // ---------------------------------------------------------------------------------------
  // Partial dot products

  lemma {:induction false} DotSame(a: Mat, b: Mat, i: nat, a': Mat, b': Mat, i': nat, j: nat, lo: nat, hi: nat)
    requires i < |a| && hi <= |a[i]| && hi <= |b| && forall m {:trigger b[m]} | 0 <= m < hi :: j < |b[m]|
    requires i' < |a'| && hi <= |a'[i']| && hi <= |b'| && forall m {:trigger b'[m]} | 0 <= m < hi :: j < |b'[m]|
    requires forall m {:trigger b[m]} {:trigger a[i][m]} | lo <= m < hi :: a[i][m] == a'[i'][m] && b[m][j] == b'[m][j]
    ensures Dot(a, b, i, j, lo, hi) == Dot(a', b', i', j, lo, hi)
    decreases hi
  {
    if lo < hi {
      DotSame(a, b, i, a', b', i', j, lo, hi - 1);
      assert b[hi - 1][j] == b'[hi - 1][j];
    }
  }

  lemma {:induction false} DotSplit(a: Mat, b: Mat, i: nat, j: nat, lo: nat, mid: nat, hi: nat)
    requires lo <= mid <= hi
    requires i < |a| && hi <= |a[i]| && hi <= |b| && forall m {:trigger b[m]} | 0 <= m < hi :: j < |b[m]|
    ensures Dot(a, b, i, j, lo, hi) == Dot(a, b, i, j, lo, mid) + Dot(a, b, i, j, mid, hi)
    decreases hi
  {
    if mid < hi {
      DotSplit(a, b, i, j, lo, mid, hi - 1);
    }
  }

  lemma {:induction false} DotFirst(a: Mat, b: Mat, i: nat, j: nat, lo: nat, hi: nat)
    requires lo < hi
    requires i < |a| && hi <= |a[i]| && hi <= |b| && forall m {:trigger b[m]} | 0 <= m < hi :: j < |b[m]|
    ensures Dot(a, b, i, j, lo, hi) == a[i][lo] * b[lo][j] + Dot(a, b, i, j, lo + 1, hi)
  {
    DotSplit(a, b, i, j, lo, lo + 1, hi);
    assert Dot(a, b, i, j, lo, lo) == 0.0;
    assert Dot(a, b, i, j, lo, lo + 1) == Dot(a, b, i, j, lo, lo) + a[i][lo] * b[lo][j];
  }

  lemma {:induction false} DotZero(a: Mat, b: Mat, i: nat, j: nat, lo: nat, hi: nat)
    requires i < |a| && hi <= |a[i]| && hi <= |b| && forall m {:trigger b[m]} | 0 <= m < hi :: j < |b[m]|
    requires forall m {:trigger b[m]} | lo <= m < hi :: a[i][m] == 0.0 || b[m][j] == 0.0
    ensures Dot(a, b, i, j, lo, hi) == 0.0
    decreases hi
  {
    if lo < hi {
      DotZero(a, b, i, j, lo, hi - 1);
      assert b[hi - 1][j] == 0.0 || a[i][hi - 1] == 0.0;
    }
  }

  // ---------------------------------------------------------------------------------------
  // Products

  lemma {:induction false} MulIdentityLeft(a: Mat, r: nat, c: nat)
    requires IsMat(a, r, c)
    ensures Mul(Identity(r), a, r, r, c) == a
  {
    forall i, j | 0 <= i < r && 0 <= j < c ensures Dot(Identity(r), a, i, j, 0, r) == a[i][j] {
      DotUnit(Identity(r), a, i, j, i, r);
    }
    SameMat(Mul(Identity(r), a, r, r, c), a, r, c);
  }

  lemma {:induction false} MulIdentityRight(a: Mat, r: nat, c: nat)
    requires IsMat(a, r, c)
    ensures Mul(a, Identity(c), r, c, c) == a
  {
    forall i, j | 0 <= i < r && 0 <= j < c ensures Dot(a, Identity(c), i, j, 0, c) == a[i][j] {
      DotUnitColumn(a, Identity(c), i, j, j, c);
    }
    SameMat(Mul(a, Identity(c), r, c, c), a, r, c);
  }

  /** A row with a single one picks a row. */
  lemma {:induction false} DotUnit(a: Mat, b: Mat, i: nat, j: nat, k: nat, n: nat)
    requires k < n && i < |a| && n <= |a[i]| && n <= |b| && forall m {:trigger b[m]} | 0 <= m < n :: j < |b[m]|
    requires forall m | 0 <= m < n :: a[i][m] == if m == k then 1.0 else 0.0
    ensures Dot(a, b, i, j, 0, n) == b[k][j]
  {
    DotSplit(a, b, i, j, 0, k, n);
    DotFirst(a, b, i, j, k, n);
    DotZero(a, b, i, j, 0, k);
    DotZero(a, b, i, j, k + 1, n);
  }

  lemma {:induction false} DotUnitColumn(a: Mat, b: Mat, i: nat, j: nat, k: nat, n: nat)
    requires k < n && i < |a| && n <= |a[i]| && n <= |b| && forall m {:trigger b[m]} | 0 <= m < n :: j < |b[m]|
    requires forall m {:trigger b[m]} | 0 <= m < n :: b[m][j] == if m == k then 1.0 else 0.0
    ensures Dot(a, b, i, j, 0, n) == a[i][k]
  {
    DotSplit(a, b, i, j, 0, k, n);
    DotFirst(a, b, i, j, k, n);
    DotZero(a, b, i, j, 0, k);
    DotZero(a, b, i, j, k + 1, n);
  }

  /** Sum over m below q of a[i][m] times the first h terms of row m of b against column j of c. */
  function Nested(a: Mat, b: Mat, c: Mat, i: nat, j: nat, q: nat, h: nat): real
    requires i < |a| && q <= |a[i]| && q <= |b| && h <= |c|
    requires forall m {:trigger b[m]} | 0 <= m < q :: h <= |b[m]|
    requires forall m {:trigger c[m]} | 0 <= m < h :: j < |c[m]|
  {
    if q == 0 then 0.0 else Nested(a, b, c, i, j, q - 1, h) + a[i][q - 1] * Dot(b, c, q - 1, j, 0, h)
  }

  lemma {:induction false} Distribute(x: real, y: real, z: real, w: real)
    ensures x * (y + z * w) == x * y + (x * z) * w
  {
    assert x * (z * w) == (x * z) * w;
  }

  lemma {:induction false} DistributeRight(x: real, y: real, w: real)
    ensures (x + y) * w == x * w + y * w
  {}

  lemma {:induction false} NestedStep(a: Mat, b: Mat, c: Mat, i: nat, j: nat, q: nat, h: nat)
    requires i < |a| && q <= |a[i]| && q <= |b| && h < |c|
    requires forall m {:trigger b[m]} | 0 <= m < q :: h < |b[m]|
    requires forall m {:trigger c[m]} | 0 <= m <= h :: j < |c[m]|
    ensures Nested(a, b, c, i, j, q, h + 1) == Nested(a, b, c, i, j, q, h) + Dot(a, b, i, h, 0, q) * c[h][j]
    decreases q
  {
    if q > 0 {
      NestedStep(a, b, c, i, j, q - 1, h);
      var x, y, z, w := a[i][q - 1], Dot(b, c, q - 1, j, 0, h), b[q - 1][h], c[h][j];
      assert Dot(b, c, q - 1, j, 0, h + 1) == y + z * w;
      Distribute(x, y, z, w);
      DistributeRight(Dot(a, b, i, h, 0, q - 1), x * z, w);
    }
  }

  lemma {:induction false} NestedNone(a: Mat, b: Mat, c: Mat, i: nat, j: nat, q: nat)
    requires i < |a| && q <= |a[i]| && q <= |b|
    ensures Nested(a, b, c, i, j, q, 0) == 0.0
    decreases q
  {
    if q > 0 {
      NestedNone(a, b, c, i, j, q - 1);
    }
  }

  lemma {:induction false} DotOfProduct(a: Mat, b: Mat, c: Mat, ab: Mat, i: nat, j: nat, q: nat, h: nat)
    requires i < |a| && q <= |a[i]| && q <= |b| && h <= |c| && i < |ab| && h <= |ab[i]|
    requires forall m {:trigger b[m]} | 0 <= m < q :: h <= |b[m]|
    requires forall m {:trigger c[m]} | 0 <= m < h :: j < |c[m]|
    requires forall m | 0 <= m < h :: ab[i][m] == Dot(a, b, i, m, 0, q)
    ensures Dot(ab, c, i, j, 0, h) == Nested(a, b, c, i, j, q, h)
    decreases h
  {
    if h == 0 {
      NestedNone(a, b, c, i, j, q);
    } else {
      DotOfProduct(a, b, c, ab, i, j, q, h - 1);
      NestedStep(a, b, c, i, j, q, h - 1);
    }
  }

  lemma {:induction false} NestedIsDot(a: Mat, b: Mat, c: Mat, bc: Mat, i: nat, j: nat, q: nat, h: nat)
    requires i < |a| && q <= |a[i]| && q <= |b| && h <= |c| && q <= |bc|
    requires forall m {:trigger b[m]} | 0 <= m < q :: h <= |b[m]|
    requires forall m {:trigger c[m]} | 0 <= m < h :: j < |c[m]|
    requires forall m {:trigger bc[m]} | 0 <= m < q :: j < |bc[m]| && bc[m][j] == Dot(b, c, m, j, 0, h)
    ensures Dot(a, bc, i, j, 0, q) == Nested(a, b, c, i, j, q, h)
    decreases q
  {
    if q > 0 {
      NestedIsDot(a, b, c, bc, i, j, q - 1, h);
      assert bc[q - 1][j] == Dot(b, c, q - 1, j, 0, h);
    }
  }

  lemma {:induction false} MulAssoc(a: Mat, b: Mat, c: Mat, r: nat, q: nat, h: nat, w: nat)
    requires IsMat(a, r, q) && IsMat(b, q, h) && IsMat(c, h, w)
    ensures Mul(Mul(a, b, r, q, h), c, r, h, w) == Mul(a, Mul(b, c, q, h, w), r, q, w)
  {
    var ab, bc := Mul(a, b, r, q, h), Mul(b, c, q, h, w);
    forall i, j | 0 <= i < r && 0 <= j < w ensures Dot(ab, c, i, j, 0, h) == Dot(a, bc, i, j, 0, q) {
      assert forall m | 0 <= m < h :: ab[i][m] == Dot(a, b, i, m, 0, q);
      assert forall m {:trigger bc[m]} | 0 <= m < q :: bc[m][j] == Dot(b, c, m, j, 0, h);
      DotOfProduct(a, b, c, ab, i, j, q, h);
      NestedIsDot(a, b, c, bc, i, j, q, h);
    }
    SameMat(Mul(ab, c, r, h, w), Mul(a, bc, r, q, w), r, w);
  }

  // ---------------------------------------------------------------------------------------
  // Mutable matrices

  /** g is what the array holds. */
  ghost predicate Mirrors(m: array2<real>, g: Mat)
    reads m
  {
    IsMat(g, m.Length0, m.Length1) &&
    forall i, j {:trigger m[i, j]} {:trigger g[i][j]} | 0 <= i < m.Length0 && 0 <= j < m.Length1 :: m[i, j] == g[i][j]
  }

  ghost function Snapshot(m: array2<real>): (g: Mat)
    reads m
    ensures Mirrors(m, g)
  {
    seq(m.Length0, i requires 0 <= i < m.Length0 reads m =>
      seq(m.Length1, j requires 0 <= j < m.Length1 reads m => m[i, j]))
  }

  lemma {:induction false} MirrorIsSnapshot(m: array2<real>, g: Mat)
    requires Mirrors(m, g)
    ensures g == Snapshot(m)
  {
    SameMat(g, Snapshot(m), m.Length0, m.Length1);
  }
}
