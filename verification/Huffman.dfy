/** Expansion of a JPEG Huffman table into a lookup on sixteen bits
    (the DHT case of Robot/apriltags/common/pjpeg.c), against the code generation of Annex C and
    the bit-serial DECODE procedure of section F.2.2.3 of ITU-T T.81. */
module Huffman {
  import opened Arithmetic
  import opened Bits
  import opened Options

  /** Counts of codes per length (entry 0 unused) and the symbols in order of their codes. */
  datatype Spec = Spec(counts: seq<nat>, symbols: seq<nat>)

  datatype Code = Code(nbits: nat, symbol: nat)

  /** Codes shorter than i bits. */
  function Before(counts: seq<nat>, i: nat): nat
    requires |counts| == 17 && i <= 17
  {
    if i <= 1 then 0 else Before(counts, i - 1) + counts[i - 1]
  }

  ghost predicate ValidSpec(s: Spec) {
    |s.counts| == 17 && |s.symbols| == Before(s.counts, 17)
  }

  lemma {:induction false} BeforeGrows(counts: seq<nat>, i: nat, j: nat)
    requires |counts| == 17 && i <= j <= 17
    ensures Before(counts, i) <= Before(counts, j)
    decreases j
  {
    if i < j && j > 1 { BeforeGrows(counts, i, j - 1); }
  }

  /** HUFFSIZE: the length of the k-th code. */
  function Size(counts: seq<nat>, k: nat): (i: nat)
    requires |counts| == 17 && k < Before(counts, 17)
    ensures 1 <= i <= 16 && Before(counts, i) <= k < Before(counts, i + 1)
  {
    SizeUpTo(counts, k, 16)
  }

  function SizeUpTo(counts: seq<nat>, k: nat, i: nat): (r: nat)
    requires |counts| == 17 && 1 <= i <= 16 && k < Before(counts, i + 1)
    ensures 1 <= r <= i && Before(counts, r) <= k < Before(counts, r + 1)
  {
    if Before(counts, i) <= k then i else SizeUpTo(counts, k, i - 1)
  }

  lemma {:induction false} SizeUnique(counts: seq<nat>, k: nat, i: nat)
    requires |counts| == 17 && k < Before(counts, 17) && 1 <= i <= 16 && Before(counts, i) <= k < Before(counts, i + 1)
    ensures Size(counts, k) == i
  {
    var s := Size(counts, k);
    if s < i { BeforeGrows(counts, s + 1, i); }
    if i < s { BeforeGrows(counts, i + 1, s); }
  }

  /** HUFFCODE of Annex C: count up, and append zeros whenever the length grows. */
  function HuffCode(counts: seq<nat>, k: nat): nat
    requires |counts| == 17 && k < Before(counts, 17)
  {
    if k == 0 then 0
    else
      SizeGrows(counts, k - 1, k);
      (HuffCode(counts, k - 1) + 1) * Pow2(Size(counts, k) - Size(counts, k - 1))
  }

  lemma {:induction false} SizeGrows(counts: seq<nat>, j: nat, k: nat)
    requires |counts| == 17 && j <= k < Before(counts, 17)
    ensures Size(counts, j) <= Size(counts, k)
  {
    var s, t := Size(counts, j), Size(counts, k);
    if t < s { BeforeGrows(counts, t + 1, s); }
  }

  // ---------------------------------------------------------------------------------------
  // Blocks of the lookup table

  /** First sixteen-bit word of the block of code k. */
  function Start(counts: seq<nat>, k: nat): nat
    requires |counts| == 17 && k <= Before(counts, 17)
  {
    if k == 0 then 0 else Start(counts, k - 1) + Pow2(16 - Size(counts, k - 1))
  }

  lemma {:induction false} StartGrows(counts: seq<nat>, j: nat, k: nat)
    requires |counts| == 17 && j <= k <= Before(counts, 17)
    ensures Start(counts, j) <= Start(counts, k)
    decreases k
  {
    if j < k { StartGrows(counts, j, k - 1); }
  }

  lemma {:induction false} StartNext(counts: seq<nat>, k: nat)
    requires |counts| == 17 && k < Before(counts, 17)
    ensures Start(counts, k + 1) == Start(counts, k) + Pow2(16 - Size(counts, k))
  {}

  lemma {:induction false} CodeNext(counts: seq<nat>, k: nat)
    requires |counts| == 17 && 0 < k < Before(counts, 17)
    ensures Size(counts, k - 1) <= Size(counts, k)
    ensures HuffCode(counts, k) == (HuffCode(counts, k - 1) + 1) * Pow2(Size(counts, k) - Size(counts, k - 1))
  {
    SizeGrows(counts, k - 1, k);
  }

  lemma {:induction false} Pow2Adds(m: nat, n: nat)
    ensures Pow2(m + n) == Pow2(m) * Pow2(n)
    decreases m
  {
    if m > 0 { Pow2Adds(m - 1, n); }
  }

  /** Blocks are aligned: the block of code k begins with the code followed by zeros. */
  lemma {:induction false} StartIsCode(counts: seq<nat>, k: nat)
    requires |counts| == 17 && k < Before(counts, 17)
    ensures Start(counts, k) == HuffCode(counts, k) * Pow2(16 - Size(counts, k))
  {
    hide Size, Before, Pow2;
    if k > 0 {
      StartIsCode(counts, k - 1);
      StartNext(counts, k - 1);
      CodeNext(counts, k);
      Widen(HuffCode(counts, k - 1), Size(counts, k - 1), Size(counts, k));
    }
  }

  lemma {:induction false} Widen(c: nat, s: nat, t: nat)
    requires s <= t <= 16
    ensures c * Pow2(16 - s) + Pow2(16 - s) == ((c + 1) * Pow2(t - s)) * Pow2(16 - t)
  {
    hide Pow2;
    Pow2Adds(t - s, 16 - t);
    assert (t - s) + (16 - t) == 16 - s;
    Distribute(c, Pow2(t - s), Pow2(16 - t));
  }

  lemma {:induction false} Distribute(c: nat, x: nat, y: nat)
    ensures c * (x * y) + x * y == ((c + 1) * x) * y
  {
    assert ((c + 1) * x) * y == (c + 1) * (x * y);
  }

  /** Codes of one length are consecutive. */
  lemma {:induction false} CodesConsecutive(counts: seq<nat>, j: nat, k: nat)
    requires |counts| == 17 && j <= k < Before(counts, 17) && Size(counts, j) == Size(counts, k)
    ensures HuffCode(counts, k) == HuffCode(counts, j) + (k - j)
    decreases k
  {
    if j < k {
      SizeGrows(counts, j, k - 1);
      SizeGrows(counts, k - 1, k);
      CodesConsecutive(counts, j, k - 1);
      assert Pow2(0) == 1;
    }
  }

  // ---------------------------------------------------------------------------------------
  // The bit-serial procedure

  /** MINCODE and MAXCODE of length i; there is no MAXCODE if no code has that length. */
  function MinCode(counts: seq<nat>, i: nat): nat
    requires |counts| == 17 && 1 <= i <= 16 && counts[i] > 0
  {
    BeforeGrows(counts, i + 1, 17);
    HuffCode(counts, Before(counts, i))
  }

  function MaxCode(counts: seq<nat>, i: nat): int
    requires |counts| == 17 && 1 <= i <= 16
  {
    BeforeGrows(counts, i + 1, 17);
    if counts[i] == 0 then -1 else HuffCode(counts, Before(counts, i) + counts[i] - 1)
  }

  /** The first i bits of a sixteen-bit word, read one at a time. */
  function Serial(w: nat, i: nat): nat
    requires i <= 16
  {
    if i == 0 then 0 else 2 * Serial(w, i - 1) + if Bit(w, 16 - i) then 1 else 0
  }

  /** DECODE, with CODE holding the first i bits of w: the index of the decoded symbol and the
      length of its code. */
  function Decode(counts: seq<nat>, w: nat, i: nat): Option<(nat, int)>
    requires |counts| == 17 && 1 <= i <= 16
    decreases 16 - i
  {
    var code := Serial(w, i);
    if code <= MaxCode(counts, i) then Some((i, Before(counts, i) + code - MinCode(counts, i)))
    else if i == 16 then None
    else Decode(counts, w, i + 1)
  }

  lemma {:induction false} SerialIsPrefix(w: nat, i: nat)
    requires i <= 16 && w < Pow2(16)
    ensures Serial(w, i) == w / Pow2(16 - i)
  {
    hide Pow2;
    if i == 0 {
      ModUnique(w, Pow2(16), 0, w);
    } else {
      SerialIsPrefix(w, i - 1);
      Pow2Adds(1, 16 - i);
      ShiftedBit(w, 16 - i, 0);
      ShiftDivides(w, 16 - i);
      LowBit(Shr(w, 16 - i));
      HalveQuotient(w, Pow2(16 - i), Pow2(1 + (16 - i)));
    }
  }

  lemma {:induction false} LowBit(x: nat)
    ensures (if Bit(x, 0) then 1 else 0) == x % 2 && Pow2(1) == 2
  {}

  function Quotient(w: nat, n: nat): nat
    requires n > 0
  {
    w / n
  }

  lemma {:induction false} QuotientParts(w: nat, n: nat) returns (r: nat)
    requires n > 0
    ensures w == Quotient(w, n) * n + r && r < n
  {
    r := w % n;
  }

  lemma {:induction false} HalveQuotient(w: nat, m: nat, n: nat)
    requires m > 0 && n == 2 * m
    ensures Quotient(w, m) == 2 * Quotient(w, n) + Quotient(w, m) % 2
  {
    hide Quotient;
    var b := QuotientParts(w, m);
    var r := QuotientParts(w, n);
    HalvedBy(w, m, n, Quotient(w, m), b, Quotient(w, n), r);
  }

  lemma {:induction false} HalvedBy(w: nat, m: nat, n: nat, a: nat, b: nat, q: nat, r: nat)
    requires m > 0 && n == 2 * m && w == a * m + b && b < m && w == q * n + r && r < n
    ensures a == 2 * q + a % 2
  {
    DoubleTimes(q, m);
    if r < m {
      DivUnique(m, a, b, 2 * q, r);
    } else {
      DivUnique(m, a, b, 2 * q + 1, r - m);
    }
  }

  lemma {:induction false} DoubleTimes(q: nat, m: nat)
    ensures q * (2 * m) == (2 * q) * m && (2 * q + 1) * m == (2 * q) * m + m
  {}

  /** A word beyond the blocks of all codes of length i is not decoded at length i. */
  lemma {:induction false} NotAtLength(counts: seq<nat>, w: nat, i: nat, k: nat)
    requires |counts| == 17 && 1 <= i <= 16 && w < Pow2(16) && Before(counts, i + 1) <= k <= Before(counts, 17)
    requires Start(counts, k) <= w
    ensures Serial(w, i) > MaxCode(counts, i)
  {
    hide Start, Size, HuffCode, Serial, Pow2;
    SerialIsPrefix(w, i);
    if counts[i] > 0 {
      var m: nat := Before(counts, i + 1) - 1;
      LastOfLength(counts, i);
      StartIsCode(counts, m);
      StartNext(counts, m);
      StartGrows(counts, m + 1, k);
      BeyondBlock(w, Pow2(16 - i), HuffCode(counts, m));
    }
  }

  lemma {:induction false} LastOfLength(counts: seq<nat>, i: nat)
    requires |counts| == 17 && 1 <= i <= 16 && counts[i] > 0
    ensures Before(counts, i + 1) == Before(counts, i) + counts[i] <= Before(counts, 17)
    ensures Size(counts, Before(counts, i)) == Size(counts, Before(counts, i + 1) - 1) == i
  {
    hide Size;
    BeforeGrows(counts, i + 1, 17);
    assert Before(counts, i + 1) == Before(counts, i) + counts[i];
    SizeUnique(counts, Before(counts, i), i);
    SizeUnique(counts, Before(counts, i + 1) - 1, i);
  }

  lemma {:induction false} BeyondBlock(w: nat, p: nat, c: nat)
    requires p > 0 && c * p + p <= w
    ensures w / p > c
  {
    assert (c + 1) * p == c * p + p;
    QuotientAtLeast(w, p, c + 1);
  }

  lemma {:induction false} InBlock(w: nat, p: nat, c: nat)
    requires p > 0 && c * p <= w < c * p + p
    ensures w / p == c
  {
    ModUnique(w, p, c, w - c * p);
  }

  lemma {:induction false} QuotientAtLeast(w: nat, p: nat, c: nat)
    requires p > 0 && c * p <= w
    ensures w / p >= c
  {
    var q, r := w / p, w % p;
    assert q * p + r == w;
    MulLe(q + 1, c, p);
    assert (q + 1) * p == q * p + p;
  }

  /** In the block of code k, DECODE stops at the length of that code, with that code. */
  lemma {:induction false} DecodeInBlock(counts: seq<nat>, w: nat, k: nat, i: nat)
    requires |counts| == 17 && k < Before(counts, 17) && w < Pow2(16) && 1 <= i <= Size(counts, k)
    requires Start(counts, k) <= w < Start(counts, k + 1)
    ensures Decode(counts, w, i) == Some((Size(counts, k), k))
    decreases 16 - i
  {
    hide Start, Size, HuffCode, Serial, Pow2;
    var s := Size(counts, k);
    if i < s {
      BeforeGrows(counts, i + 1, s);
      NotAtLength(counts, w, i, k);
      DecodeInBlock(counts, w, k, i + 1);
    } else {
      CodeOfBlock(counts, w, k);
      CodesOfLength(counts, k);
    }
  }

  lemma {:induction false} CodeOfBlock(counts: seq<nat>, w: nat, k: nat)
    requires |counts| == 17 && k < Before(counts, 17) && w < Pow2(16) && Start(counts, k) <= w < Start(counts, k + 1)
    ensures Serial(w, Size(counts, k)) == HuffCode(counts, k)
  {
    hide Start, Size, HuffCode, Serial, Pow2, Before;
    SerialIsPrefix(w, Size(counts, k));
    StartIsCode(counts, k);
    StartNext(counts, k);
    InBlock(w, Pow2(16 - Size(counts, k)), HuffCode(counts, k));
  }

  /** Where code k lies among the codes of its length. */
  lemma {:induction false} CodesOfLength(counts: seq<nat>, k: nat)
    requires |counts| == 17 && k < Before(counts, 17)
    ensures var s := Size(counts, k);
      counts[s] > 0 && HuffCode(counts, k) == MinCode(counts, s) + (k - Before(counts, s)) <= MaxCode(counts, s)
  {
    hide Size, HuffCode;
    var s := Size(counts, k);
    assert Before(counts, s + 1) == Before(counts, s) + counts[s];
    LastOfLength(counts, s);
    CodesConsecutive(counts, Before(counts, s), k);
    CodesConsecutive(counts, k, Before(counts, s + 1) - 1);
  }

  lemma {:induction false} DecodeBeyond(counts: seq<nat>, w: nat, i: nat)
    requires |counts| == 17 && w < Pow2(16) && 1 <= i <= 16 && Start(counts, Before(counts, 17)) <= w
    ensures Decode(counts, w, i) == None
    decreases 16 - i
  {
    hide Start, Size, HuffCode, Serial, Pow2, Before, MaxCode, MinCode;
    BeforeGrows(counts, i + 1, 17);
    NotAtLength(counts, w, i, Before(counts, 17));
    if i < 16 { DecodeBeyond(counts, w, i + 1); }
  }

  // ---------------------------------------------------------------------------------------
  // The lookup table

  const TABLE_SIZE: nat := 65536

  /** Filled for the first k codes, otherwise as before. */
  ghost predicate FilledTo(s: Spec, old_: seq<Code>, t: seq<Code>, k: nat)
    requires ValidSpec(s) && k <= |s.symbols|
  {
    && |t| == |old_| == TABLE_SIZE
    && (forall j: nat, x: nat | j < k && Start(s.counts, j) <= x < Start(s.counts, j + 1) && x < TABLE_SIZE ::
          t[x] == Code(Size(s.counts, j), s.symbols[j]))
    && (forall x: nat | Start(s.counts, k) <= x < TABLE_SIZE :: t[x] == old_[x])
  }

  lemma {:induction false} BlockOf(counts: seq<nat>, k: nat, x: nat) returns (j: nat)
    requires |counts| == 17 && k <= Before(counts, 17) && x < Start(counts, k)
    ensures j < k && Start(counts, j) <= x < Start(counts, j + 1)
    decreases k
  {
    if x >= Start(counts, k - 1) {
      j := k - 1;
    } else {
      j := BlockOf(counts, k - 1, x);
    }
  }

  /** On every sixteen-bit word the table agrees with DECODE; words that DECODE rejects keep their
      old entry. */
  ghost predicate Agrees(s: Spec, old_: seq<Code>, t: seq<Code>)
    requires ValidSpec(s)
  {
    |t| == |old_| == TABLE_SIZE &&
    forall w: nat | w < TABLE_SIZE ::
      match Decode(s.counts, w, 1)
      case Some((len, k)) => 0 <= k < |s.symbols| && t[w] == Code(len, s.symbols[k])
      case None => t[w] == old_[w]
  }

  lemma {:induction false} TableIsPow()
    ensures Pow2(16) == TABLE_SIZE
  {
    assert Pow2(4) == 16;
    Pow2Adds(4, 4);
    Pow2Adds(8, 8);
  }

  lemma {:induction false} FilledAgrees(s: Spec, old_: seq<Code>, t: seq<Code>)
    requires ValidSpec(s) && FilledTo(s, old_, t, |s.symbols|)
    ensures Agrees(s, old_, t)
  {
    TableIsPow();
    forall w: nat | w < TABLE_SIZE
      ensures match Decode(s.counts, w, 1)
              case Some((len, k)) => 0 <= k < |s.symbols| && t[w] == Code(len, s.symbols[k])
              case None => t[w] == old_[w]
    {
      if w < Start(s.counts, |s.symbols|) {
        var j := BlockOf(s.counts, |s.symbols|, w);
        DecodeInBlock(s.counts, w, j, 1);
      } else {
        DecodeBeyond(s.counts, w, 1);
      }
    }
  }

  /** The code space of the table is not exceeded, and the all-ones word stays free. */
  ghost predicate Fits(s: Spec)
    requires ValidSpec(s)
  {
    Start(s.counts, |s.symbols|) <= 0xFFFF
  }

  /** Fills the block of one code. */
  method FillBlock(table: array<Code>, s: Spec, ghost old_: seq<Code>, k: nat, codePos0: nat, nbits: nat)
    requires ValidSpec(s) && k < |s.symbols| && table.Length == TABLE_SIZE && FilledTo(s, old_, table[..], k)
    requires codePos0 == Start(s.counts, k) && nbits == Size(s.counts, k) && codePos0 + Pow2(16 - nbits) <= TABLE_SIZE
    modifies table
    ensures FilledTo(s, old_, table[..], k + 1)
  {
    hide Start, Size, Pow2;
    ghost var t0 := table[..];
    var ncodes := Pow2(16 - nbits);
    var codePos := codePos0;
    while codePos < codePos0 + ncodes
      invariant codePos0 <= codePos <= codePos0 + ncodes
      invariant forall x: nat | x < TABLE_SIZE ::
        table[x] == if codePos0 <= x < codePos then Code(nbits, s.symbols[k]) else t0[x]
    {
      table[codePos] := Code(nbits, s.symbols[k]);
      codePos := codePos + 1;
    }
    FilledNext(s, old_, t0, table[..], k);
  }

  lemma {:induction false} FilledNext(s: Spec, old_: seq<Code>, t: seq<Code>, t': seq<Code>, k: nat)
    requires ValidSpec(s) && k < |s.symbols| && FilledTo(s, old_, t, k) && |t'| == |t|
    requires var p := Start(s.counts, k); var c := Code(Size(s.counts, k), s.symbols[k]);
      forall x: nat | x < TABLE_SIZE :: t'[x] == if p <= x < p + Pow2(16 - c.nbits) then c else t[x]
    ensures FilledTo(s, old_, t', k + 1)
  {
    hide Start, Size, Pow2, Before;
    StartNext(s.counts, k);
    forall j: nat, x: nat | j < k + 1 && Start(s.counts, j) <= x < Start(s.counts, j + 1) && x < TABLE_SIZE
      ensures t'[x] == Code(Size(s.counts, j), s.symbols[j])
    {
      if j < k { StartGrows(s.counts, j + 1, k); }
    }
  }

  /** The two outer loops. */
  method Expand(table: array<Code>, s: Spec) returns (ok: bool)
    requires ValidSpec(s) && table.Length == TABLE_SIZE
    modifies table
    ensures ok <==> Fits(s)
    ensures ok ==> Agrees(s, old(table[..]), table[..])
    ensures ok ==> FilledTo(s, old(table[..]), table[..], |s.symbols|)
  {
    hide FilledTo, Start, Size, Agrees;
    ghost var old_ := table[..];
    StartZero(s, old_);
    var codePos: nat := 0;
    var k: nat := 0;
    var nbits: nat := 1;
    while nbits <= 16
      invariant 1 <= nbits <= 17 && k == Before(s.counts, nbits) && k <= |s.symbols|
      invariant codePos == Start(s.counts, k) <= 0xFFFF && FilledTo(s, old_, table[..], k)
    {
      BeforeGrows(s.counts, nbits + 1, 17);
      var vi: nat := 0;
      while vi < s.counts[nbits]
        invariant vi <= s.counts[nbits] && k == Before(s.counts, nbits) + vi && k <= |s.symbols|
        invariant codePos == Start(s.counts, k) <= 0xFFFF && FilledTo(s, old_, table[..], k)
      {
        SizeUnique(s.counts, k, nbits);
        var ncodes := Pow2(16 - nbits);
        StartNext(s.counts, k);
        if codePos + ncodes > 0xFFFF {
          StartGrows(s.counts, k + 1, |s.symbols|);
          return false;
        }
        FillBlock(table, s, old_, k, codePos, nbits);
        codePos := codePos + ncodes;
        k := k + 1;
        vi := vi + 1;
      }
      nbits := nbits + 1;
    }
    FilledAgrees(s, old_, table[..]);
    ok := true;
  }

  lemma {:induction false} StartZero(s: Spec, t: seq<Code>)
    requires ValidSpec(s) && |t| == TABLE_SIZE
    ensures Start(s.counts, 0) == 0 && FilledTo(s, t, t, 0)
  {}

  /** The word of sixteen ones is never decoded. */
  lemma {:induction false} AllOnesUnused(s: Spec)
    requires ValidSpec(s) && Fits(s)
    ensures Decode(s.counts, 0xFFFF, 1) == None
  {
    TableIsPow();
    DecodeBeyond(s.counts, 0xFFFF, 1);
  }
}
