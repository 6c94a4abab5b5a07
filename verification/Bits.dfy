/** Machine words as natural numbers and their bits. */
module Bits {
  import opened Arithmetic
  import opened FiniteSets

  function Pow2(n: nat): (p: nat)
    ensures p >= 1
  {
    if n == 0 then 1 else 2 * Pow2(n - 1)
  }

  lemma {:induction false} Pow2Grows(m: nat, n: nat)
    requires m <= n
    ensures Pow2(m) <= Pow2(n)
    decreases n
  {
    if m < n {
      Pow2Grows(m, n - 1);
    }
  }

  /** Bit b of w, counted from the least significant: `(w >> b) & 1`. */
  predicate Bit(w: nat, b: nat) {
    if b == 0 then w % 2 == 1 else Bit(w / 2, b - 1)
  }

  lemma {:induction false} HighBitsZero(w: nat, n: nat, b: nat)
    requires w < Pow2(n) && n <= b
    ensures !Bit(w, b)
    decreases n
  {
    if n > 0 {
      HighBitsZero(w / 2, n - 1, b - 1);
    } else {
      ZeroHasNoBits(b);
    }
  }

  lemma {:induction false} ZeroHasNoBits(b: nat)
    ensures !Bit(0, b)
  {
    if b > 0 {
      ZeroHasNoBits(b - 1);
    }
  }

  /** Words of n bits with the same bits are equal. */
  lemma {:induction false} SameBits(v: nat, w: nat, n: nat)
    requires v < Pow2(n) && w < Pow2(n) && forall b: nat | b < n :: Bit(v, b) == Bit(w, b)
    ensures v == w
    decreases n
  {
    if n > 0 {
      assert Bit(v, 0) == Bit(w, 0);
      forall b: nat | b < n - 1 ensures Bit(v / 2, b) == Bit(w / 2, b) {
        assert Bit(v, b + 1) == Bit(w, b + 1);
      }
      SameBits(v / 2, w / 2, n - 1);
    }
  }

  /** Exclusive or with `1 << b`. */
  function Flip(w: nat, b: nat): nat {
    if b == 0 then (if w % 2 == 1 then w - 1 else w + 1) else 2 * Flip(w / 2, b - 1) + w % 2
  }

  lemma {:induction false} FlipChangesOne(w: nat, b: nat, c: nat)
    ensures Bit(Flip(w, b), c) == (Bit(w, c) != (b == c))
    decreases b
  {
    if b == 0 {
      if c > 0 { assert Flip(w, 0) / 2 == w / 2; }
    } else if c > 0 {
      assert Flip(w, b) / 2 == Flip(w / 2, b - 1);
      FlipChangesOne(w / 2, b - 1, c - 1);
    }
  }

  lemma {:induction false} FlipHigher(w: nat, b: nat)
    requires b > 0
    ensures Flip(w, b) == 2 * Flip(w / 2, b - 1) + w % 2
  {}

  lemma {:induction false} TwiceBelow(x: nat, y: nat, p: nat)
    requires x < p && y < 2
    ensures 2 * x + y < 2 * p
  {}

  lemma {:induction false} FlipStaysSmall(w: nat, b: nat, n: nat)
    requires w < Pow2(n) && b < n
    ensures Flip(w, b) < Pow2(n)
    decreases n
  {
    var p := Pow2(n - 1);
    assert Pow2(n) == 2 * p;
    if b > 0 {
      FlipStaysSmall(w / 2, b - 1, n - 1);
      FlipHigher(w, b);
      TwiceBelow(Flip(w / 2, b - 1), w % 2, p);
    } else {
      TwiceBelow(w / 2, 1 - w % 2, p);
    }
  }

  /** The word shifted together from the given bits, first bit most significant. */
  function Pack(bs: seq<bool>): (w: nat)
    ensures w < Pow2(|bs|)
  {
    if bs == [] then 0 else 2 * Pack(bs[..|bs| - 1]) + if bs[|bs| - 1] then 1 else 0
  }

  lemma {:induction false} PackedBit(bs: seq<bool>, b: nat)
    requires b < |bs|
    ensures Bit(Pack(bs), b) == bs[|bs| - 1 - b]
    decreases b
  {
    var front := bs[..|bs| - 1];
    assert Pack(bs) / 2 == Pack(front);
    if b > 0 {
      PackedBit(front, b - 1);
    }
  }

  lemma {:induction false} PackAppend(bs: seq<bool>, x: bool)
    ensures Pack(bs + [x]) == 2 * Pack(bs) + if x then 1 else 0
  {
    assert (bs + [x])[..|bs|] == bs;
  }

  /** Bits of two words side by side. */
  lemma {:induction false} ConcatBit(w: nat, b: nat, n: nat, j: nat)
    requires b < Pow2(n)
    ensures Bit(w * Pow2(n) + b, j) == if j < n then Bit(b, j) else Bit(w, j - n)
    decreases n
  {
    if n > 0 {
      var p := Pow2(n - 1);
      var x := w * Pow2(n) + b;
      assert w * Pow2(n) == 2 * (w * p);
      assert x / 2 == w * p + b / 2 && x % 2 == b % 2;
      if j > 0 {
        ConcatBit(w, b / 2, n - 1, j - 1);
      }
    } else {
      assert w * Pow2(0) == w;
    }
  }

  /** Masking keeps the low bits. */
  lemma {:induction false} MaskedBit(x: nat, m: nat, j: nat)
    requires j < m
    ensures Bit(x % Pow2(m), j) == Bit(x, j)
    decreases m
  {
    DoubleMod(x, Pow2(m - 1));
    assert (x % Pow2(m)) / 2 == (x / 2) % Pow2(m - 1);
    if j > 0 {
      MaskedBit(x / 2, m - 1, j - 1);
    }
  }

  /** `x >> s` */
  function Shr(x: nat, s: nat): nat {
    if s == 0 then x else Shr(x / 2, s - 1)
  }

  /** Shifting right divides, and drops the low bits. */
  lemma {:induction false} ShiftDivides(x: nat, s: nat)
    ensures Shr(x, s) == x / Pow2(s)
    decreases s
  {
    if s > 0 {
      ShiftDivides(x / 2, s - 1);
      HalveDiv(x, Pow2(s - 1));
    }
  }

  lemma {:induction false} ShiftedBit(x: nat, s: nat, j: nat)
    ensures Bit(Shr(x, s), j) == Bit(x, s + j)
    decreases s
  {
    if s > 0 { ShiftedBit(x / 2, s - 1, j); }
  }

  /** Shifting a word of fewer than 64 bits loses nothing. */
  lemma {:induction false} ShiftFits(w: nat, b: nat)
    requires w < Pow2(b) && b < 64
    ensures (w * 2) % Pow2(64) == w * 2
  {
    Pow2Grows(b + 1, 64);
    ModUnique(w * 2, Pow2(64), 0, w * 2);
  }

  // ---------------------------------------------------------------------------------------
  // Hamming distance

  /** The positions below n where v and w differ. */
  ghost function Diff(v: nat, w: nat, n: nat): set<nat> {
    set b | b in Below(n) && Bit(v, b) != Bit(w, b)
  }

  /** Hamming distance of the low n bits. */
  ghost function Hamming(v: nat, w: nat, n: nat): nat {
    |Diff(v, w, n)|
  }

  lemma {:induction false} HammingSym(v: nat, w: nat, n: nat)
    ensures Hamming(v, w, n) == Hamming(w, v, n)
  {
    assert Diff(v, w, n) == Diff(w, v, n);
  }

  lemma {:induction false} HammingTriangle(u: nat, v: nat, w: nat, n: nat)
    ensures Hamming(u, w, n) <= Hamming(u, v, n) + Hamming(v, w, n)
  {
    var a, b := Diff(u, v, n), Diff(v, w, n);
    SubsetCard(Diff(u, w, n), a + b);
    assert |a + b| + |a * b| == |a| + |b|;
  }

  lemma {:induction false} HammingZero(v: nat, w: nat, n: nat)
    requires v < Pow2(n) && w < Pow2(n) && Hamming(v, w, n) == 0
    ensures v == w
  {
    forall b: nat | b < n ensures Bit(v, b) == Bit(w, b) {
      assert b !in Diff(v, w, n);
    }
    SameBits(v, w, n);
  }

  lemma {:induction false} FlipDiff(v: nat, w: nat, b: nat, n: nat)
    requires b < n
    ensures Diff(Flip(v, b), w, n) == if b in Diff(v, w, n) then Diff(v, w, n) - {b} else Diff(v, w, n) + {b}
  {
    forall c | c in Below(n) ensures Bit(Flip(v, b), c) == (Bit(v, c) != (b == c)) {
      FlipChangesOne(v, b, c);
    }
  }
}
