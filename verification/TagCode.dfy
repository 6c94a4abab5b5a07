/** Quarter turns of a tag's d by d bit grid (`rotate90`, Robot/apriltags/apriltag.c). */
module TagCode {
  import opened Arithmetic
  import opened FiniteSets
  import opened Bits

  /** Position of the bit in row r and column c of the grid. */
  function Cell(d: nat, r: nat, c: nat): (b: nat)
    requires r < d && c < d
    ensures b < d * d
  {
    MulLe(r, d - 1, d);
    assert (d - 1) * d + d == d * d;
    r * d + c
  }

  lemma {:induction false} CellSplits(d: nat, b: nat)
    requires b < d * d
    ensures d > 0 && b / d < d && b % d < d && b == Cell(d, b / d, b % d)
  {
    assert d > 0;
    assert b == (b / d) * d + b % d;
    MulLe(d, b / d, d);
  }

  lemma {:induction false} CellUnique(d: nat, r: nat, c: nat)
    requires r < d && c < d
    ensures Cell(d, r, c) / d == r && Cell(d, r, c) % d == c
  {
    ModUnique(Cell(d, r, c), d, r, c);
  }

  /** The bit of w that step t of the loops reads. */
  function Source(d: nat, t: nat): (b: nat)
    requires t < d * d
    ensures b < d * d
  {
    CellSplits(d, t);
    Cell(d, t % d, d - 1 - t / d)
  }

  ghost function RotatedBits(w: nat, d: nat, t: nat): (bs: seq<bool>)
    requires t <= d * d
    ensures |bs| == t
  {
    seq(t, k requires 0 <= k < t => Bit(w, Source(d, k)))
  }

  /** The grid of w turned by a quarter. */
  ghost function Rotated(w: nat, d: nat): (v: nat)
    ensures v < Pow2(d * d)
  {
    Pack(RotatedBits(w, d, d * d))
  }

  /** Row r, column c of the turned grid shows row d - 1 - c, column r of the original. */
  lemma {:induction false} RotatedCell(w: nat, d: nat, r: nat, c: nat)
    requires r < d && c < d
    ensures Bit(Rotated(w, d), Cell(d, r, c)) == Bit(w, Cell(d, d - 1 - c, r))
  {
    var b, n := Cell(d, r, c), d * d;
    PackedBit(RotatedBits(w, d, n), b);
    var t := n - 1 - b;
    assert t == Cell(d, d - 1 - r, d - 1 - c) by {
      assert (d - 1 - r) * d == n - d - r * d;
    }
    CellUnique(d, d - 1 - r, d - 1 - c);
    assert RotatedBits(w, d, n)[t] == Bit(w, Source(d, t));
  }

  /** The loops of `rotate90`, on 64-bit words. */
  method Rotate90(w: nat, d: nat) returns (wr: nat)
    requires d <= 8
    ensures wr == Rotated(w, d)
  {
    hide Rotated, RotatedBits;
    wr := 0;
    NoBits(w, d);
    var r: int := d - 1;
    ghost var t: nat := 0;
    while r >= 0
      invariant -1 <= r < d && t == (d - 1 - r) * d <= d * d
      invariant wr == Pack(RotatedBits(w, d, t))
    {
      RowFits(d, r, t);
      wr := RotateRow(w, d, r, wr, t);
      t := t + d;
      r := r - 1;
    }
    AllBits(w, d);
  }

  lemma {:induction false} RowFits(d: nat, r: nat, t: nat)
    requires r < d && t == (d - 1 - r) * d
    ensures t + d == (d - 1 - (r - 1)) * d <= d * d
  {
    MulLe(d - r, d, d);
  }

  lemma {:induction false} NoBits(w: nat, d: nat)
    ensures Pack(RotatedBits(w, d, 0)) == 0
  {}

  lemma {:induction false} AllBits(w: nat, d: nat)
    ensures Pack(RotatedBits(w, d, d * d)) == Rotated(w, d)
  {}

  /** The inner loop: one source row. */
  method RotateRow(w: nat, d: nat, r: nat, wr0: nat, ghost t0: nat) returns (wr: nat)
    requires r < d <= 8 && t0 == (d - 1 - r) * d && t0 + d <= d * d && wr0 == Pack(RotatedBits(w, d, t0))
    ensures wr == Pack(RotatedBits(w, d, t0 + d))
  {
    hide RotatedBits, Pow2, Bit, Pack, Source;
    wr := wr0;
    var c: nat := 0;
    while c < d
      invariant c <= d && wr == Pack(RotatedBits(w, d, t0 + c))
    {
      var b := r + d * c;
      StepReads(d, r, c, t0 + c);
      RotateStep(w, d, t0 + c, wr);
      wr := (wr * 2) % Pow2(64);
      if Bit(w, b) {
        wr := wr + 1;
      }
      c := c + 1;
    }
  }

  /** The bit that step t reads. */
  lemma {:induction false} StepReads(d: nat, r: nat, c: nat, t: nat)
    requires r < d <= 8 && c < d && t == (d - 1 - r) * d + c
    ensures t < d * d <= 64 && Source(d, t) == r + d * c
  {
    hide Cell;
    CellValue(d, d - 1 - r, c);
    CellUnique(d, d - 1 - r, c);
    CellValue(d, c, r);
    SquareAtMost(d);
  }

  lemma {:induction false} CellValue(d: nat, r: nat, c: nat)
    requires r < d && c < d
    ensures Cell(d, r, c) == r * d + c
  {}

  lemma {:induction false} SquareAtMost(d: nat)
    requires d <= 8
    ensures d * d <= 64
  {
    MulLe(d, 8, d);
    MulLe(d, 8, 8);
  }

  lemma {:induction false} RotateStep(w: nat, d: nat, t: nat, wr: nat)
    requires t < d * d <= 64 && wr == Pack(RotatedBits(w, d, t))
    ensures (wr * 2) % Pow2(64) == wr * 2
    ensures Pack(RotatedBits(w, d, t + 1)) == wr * 2 + if Bit(w, Source(d, t)) then 1 else 0
  {
    hide Pack, Pow2, Bit, Source;
    ShiftFits(wr, t);
    assert RotatedBits(w, d, t + 1) == RotatedBits(w, d, t) + [Bit(w, Source(d, t))];
    PackAppend(RotatedBits(w, d, t), Bit(w, Source(d, t)));
  }

  // ---------------------------------------------------------------------------------------
  // Repeated turns

  ghost function Turns(w: nat, d: nat, k: nat): nat {
    if k == 0 then w else Rotated(Turns(w, d, k - 1), d)
  }

  lemma {:induction false} TurnsSmall(w: nat, d: nat, k: nat)
    requires w < Pow2(d * d)
    ensures Turns(w, d, k) < Pow2(d * d)
  {}

  lemma {:induction false} TurnsAdd(w: nat, d: nat, j: nat, k: nat)
    ensures Turns(Turns(w, d, j), d, k) == Turns(w, d, j + k)
    decreases k
  {
    if k > 0 {
      TurnsAdd(w, d, j, k - 1);
    }
  }

  /** Four quarter turns give the grid back, for every d. */
  lemma {:induction false} FourTurns(w: nat, d: nat)
    requires w < Pow2(d * d)
    ensures Turns(w, d, 4) == w
  {
    hide Rotated, Bit, Pow2, Turns;
    var w1, w2, w3 := Turns(w, d, 1), Turns(w, d, 2), Turns(w, d, 3);
    TurnsUnfold(w, d);
    TurnsSmall(w, d, 4);
    forall b: nat | b < d * d ensures Bit(Turns(w, d, 4), b) == Bit(w, b) {
      CellSplits(d, b);
      var r, c := b / d, b % d;
      RotatedCell(w3, d, r, c);
      RotatedCell(w2, d, d - 1 - c, r);
      RotatedCell(w1, d, d - 1 - r, d - 1 - c);
      RotatedCell(w, d, c, d - 1 - r);
    }
    SameBits(Turns(w, d, 4), w, d * d);
  }

  lemma {:induction false} TurnedBit(w: nat, d: nat, b: nat)
    requires b < d * d
    ensures Turned(d, b) < d * d && Bit(Rotated(w, d), b) == Bit(w, Turned(d, b))
  {
    CellSplits(d, b);
    RotatedCell(w, d, b / d, b % d);
  }

  lemma {:induction false} TurnedParts(d: nat, b: nat)
    requires b < d * d
    ensures d > 0 && Turned(d, b) / d == d - 1 - b % d && Turned(d, b) % d == b / d
    ensures 0 <= b / d && b == Cell(d, b / d, b % d)
  {
    hide Cell;
    CellSplits(d, b);
    CellUnique(d, d - 1 - b % d, b / d);
  }

  lemma {:induction false} TurnedInjective(d: nat, a: nat, b: nat)
    requires a < d * d && b < d * d && Turned(d, a) == Turned(d, b)
    ensures a == b
  {
    hide Cell, Turned;
    TurnedParts(d, a);
    TurnedParts(d, b);
  }

  lemma {:induction false} RotationShrinks(v: nat, w: nat, d: nat)
    ensures Hamming(Rotated(v, d), Rotated(w, d), d * d) <= Hamming(v, w, d * d)
  {
    hide Rotated, Turned;
    var n := d * d;
    var f := map b | b in Below(n) :: Turned(d, b);
    forall b | b in Diff(Rotated(v, d), Rotated(w, d), n) ensures f[b] in Diff(v, w, n) {
      TurnedBit(v, d, b);
      TurnedBit(w, d, b);
    }
    forall a, b | a in Below(n) && b in Below(n) && f[a] == f[b] ensures a == b {
      TurnedInjective(d, a, b);
    }
    InjectionCard(Diff(Rotated(v, d), Rotated(w, d), n), Diff(v, w, n), f);
  }

  function Turned(d: nat, b: nat): nat {
    if b < d * d then
      CellSplits(d, b);
      Cell(d, d - 1 - b % d, b / d)
    else b
  }

  /** A quarter turn keeps Hamming distances. */
  lemma {:induction false} RotationKeepsDistance(v: nat, w: nat, d: nat)
    requires v < Pow2(d * d) && w < Pow2(d * d)
    ensures Hamming(Rotated(v, d), Rotated(w, d), d * d) == Hamming(v, w, d * d)
  {
    hide Hamming, Rotated, Turns, Pow2;
    FourTurns(v, d);
    FourTurns(w, d);
    TurnsUnfold(v, d);
    TurnsUnfold(w, d);
    RotationShrinks(v, w, d);
    RotationShrinks(Turns(v, d, 1), Turns(w, d, 1), d);
    RotationShrinks(Turns(v, d, 2), Turns(w, d, 2), d);
    RotationShrinks(Turns(v, d, 3), Turns(w, d, 3), d);
  }

  lemma {:induction false} TurnsUnfold(w: nat, d: nat)
    ensures Turns(w, d, 0) == w && Turns(w, d, 1) == Rotated(w, d) && Turns(w, d, 2) == Rotated(Turns(w, d, 1), d)
    ensures Turns(w, d, 3) == Rotated(Turns(w, d, 2), d) && Turns(w, d, 4) == Rotated(Turns(w, d, 3), d)
  {
    hide Rotated;
    assert Turns(w, d, 1) == Rotated(Turns(w, d, 0), d);
    assert Turns(w, d, 2) == Rotated(Turns(w, d, 1), d);
    assert Turns(w, d, 3) == Rotated(Turns(w, d, 2), d);
  }

  lemma {:induction false} TurnsKeepDistance(v: nat, w: nat, d: nat, k: nat)
    requires v < Pow2(d * d) && w < Pow2(d * d)
    ensures Hamming(Turns(v, d, k), Turns(w, d, k), d * d) == Hamming(v, w, d * d)
  {
    if k > 0 {
      TurnsKeepDistance(v, w, d, k - 1);
      TurnsSmall(v, d, k - 1);
      TurnsSmall(w, d, k - 1);
      RotationKeepsDistance(Turns(v, d, k - 1), Turns(w, d, k - 1), d);
    }
  }
}
