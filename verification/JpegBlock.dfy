/** Blocks of DCT coefficients in a JPEG scan: the decoder of Robot/apriltags/common/pjpeg.c
    against the encoder of sections F.1.2.1 to F.1.2.3 of ITU-T T.81. */
module JpegBlock {
  import opened Arithmetic
  import opened Bits
  import opened BitReader
  import opened Huffman

  // ---------------------------------------------------------------------------------------
  // Bit strings

  /** The low n bits of v, most significant first. */
  function BitsOf(v: nat, n: nat): (bs: seq<bool>)
    ensures |bs| == n
  {
    seq(n, j requires 0 <= j < n => Bit(v, n - 1 - j))
  }

  lemma {:induction false} PackBitsOf(v: nat, n: nat)
    requires v < Pow2(n)
    ensures Pack(BitsOf(v, n)) == v
  {
    forall b: nat | b < n ensures Bit(Pack(BitsOf(v, n)), b) == Bit(v, b) {
      PackedBit(BitsOf(v, n), b);
    }
    SameBits(Pack(BitsOf(v, n)), v, n);
  }

  lemma {:induction false} PackConcat(a: seq<bool>, b: seq<bool>)
    ensures Pack(a + b) == Pack(a) * Pow2(|b|) + Pack(b)
    decreases |b|
  {
    hide Pack, Pow2;
    if b == [] {
      assert a + b == a;
      EmptyPack(Pack(a));
    } else {
      var front, x := b[..|b| - 1], b[|b| - 1];
      assert a + b == (a + front) + [x] && b == front + [x];
      PackConcat(a, front);
      PackAppend(a + front, x);
      PackAppend(front, x);
      TwicePow(Pack(a), |front|);
    }
  }

  lemma {:induction false} EmptyPack(w: nat)
    ensures w * Pow2(0) + Pack([]) == w
  {}

  lemma {:induction false} TwicePow(w: nat, n: nat)
    ensures w * Pow2(n + 1) == 2 * (w * Pow2(n))
  {}

  /** The stream continues with bs from position pos on. */
  ghost predicate Holds(d: seq<byte>, pos: nat, bs: seq<bool>) {
    Slice(d, pos, |bs|) == bs
  }

  lemma {:induction false} SliceConcat(d: seq<byte>, pos: nat, m: nat, n: nat)
    ensures Slice(d, pos, m + n) == Slice(d, pos, m) + Slice(d, pos + m, n)
  {}

  lemma {:induction false} HoldsParts(d: seq<byte>, pos: nat, a: seq<bool>, b: seq<bool>)
    requires Holds(d, pos, a + b)
    ensures Holds(d, pos, a) && Holds(d, pos + |a|, b)
  {
    SliceConcat(d, pos, |a|, |b|);
    assert Slice(d, pos, |a|) == (a + b)[..|a|];
    assert Slice(d, pos + |a|, |b|) == (a + b)[|a|..];
  }

  // ---------------------------------------------------------------------------------------
  // Magnitudes (section F.1.2.1.1): SSSS and the additional bits

  function BitLength(n: nat): nat {
    if n == 0 then 0 else 1 + BitLength(n / 2)
  }

  lemma {:induction false} LengthBounds(n: nat)
    ensures n < Pow2(BitLength(n)) && (n > 0 ==> BitLength(n) > 0 && Pow2(BitLength(n) - 1) <= n)
  {
    if n > 0 {
      LengthBounds(n / 2);
      var m := BitLength(n / 2);
      assert Pow2(m + 1) == 2 * Pow2(m) && (m > 0 ==> Pow2(m) == 2 * Pow2(m - 1));
    }
  }

  /** SSSS, the category of a value. */
  function Category(v: int): nat {
    BitLength(if v < 0 then -v else v)
  }

  /** The additional bits: the value, or its ones' complement if negative. */
  function AddBits(v: int, ssss: nat): int {
    if v >= 0 then v else v + Pow2(ssss) - 1
  }

  /** A clear high bit means a negative value. */
  function Extend(value: nat, ssss: nat): int {
    if ssss == 0 || !Bit(value, ssss - 1) then value - Pow2(ssss) + 1 else value
  }

  lemma {:induction false} HighBit(v: nat, n: nat)
    requires v < Pow2(n + 1)
    ensures Bit(v, n) <==> v >= Pow2(n)
  {
    if n > 0 { HighBit(v / 2, n - 1); }
  }

  lemma {:induction false} ExtendInverts(v: int)
    ensures 0 <= AddBits(v, Category(v)) < Pow2(Category(v))
    ensures Extend(AddBits(v, Category(v)), Category(v)) == v
  {
    var s := Category(v);
    LengthBounds(if v < 0 then -v else v);
    if s > 0 { HighBit(AddBits(v, s), s - 1); }
  }

  /** The additional bits number the values of a category in ascending order, the negative ones first; their magnitude
      has ssss binary digits. */
  lemma {:induction false} ExtendAscends(v: nat, w: nat, ssss: nat)
    requires ssss > 0 && v < w < Pow2(ssss)
    ensures Extend(v, ssss) < Extend(w, ssss)
    ensures InCategory(Extend(v, ssss), ssss) && InCategory(Extend(w, ssss), ssss)
  {
    HighBit(v, ssss - 1);
    HighBit(w, ssss - 1);
  }

  ghost predicate InCategory(x: int, ssss: nat)
    requires ssss > 0
  {
    Pow2(ssss - 1) <= (if x < 0 then -x else x) < Pow2(ssss)
  }

  // ---------------------------------------------------------------------------------------
  // Reading one symbol with its value

  /** A table as filled by the decoder from a specification whose codes fit. */
  datatype Table = Table(spec: Spec, codes: seq<Code>)

  ghost predicate Usable(h: Table) {
    ValidSpec(h.spec) && Fits(h.spec) && |h.codes| == TABLE_SIZE && FilledTo(h.spec, h.codes, h.codes, |h.spec.symbols|)
  }

  /** What a successful expansion leaves. */
  lemma {:induction false} ExpandedUsable(s: Spec, before: seq<Code>, codes: seq<Code>)
    requires ValidSpec(s) && Fits(s) && FilledTo(s, before, codes, |s.symbols|)
    ensures Usable(Table(s, codes))
  {}

  /** Entries as the arrays of the decoder can hold them. */
  ghost predicate Entries(codes: seq<Code>) {
    |codes| == TABLE_SIZE && forall x: nat | x < TABLE_SIZE :: codes[x].nbits <= 16 && codes[x].symbol < 256
  }

  function Window(d: seq<byte>, pos: nat): (w: nat)
    ensures w < TABLE_SIZE
  {
    TableIsPow();
    Pack(Slice(d, pos, 16))
  }

  function Additional(d: seq<byte>, pos: nat, ssss: nat): int {
    Extend(Pack(Slice(d, pos, ssss)), ssss)
  }

  function IndexOf(symbols: seq<nat>, x: nat): (k: nat)
    requires x in symbols
    ensures k < |symbols| && symbols[k] == x
  {
    if symbols[0] == x then 0 else 1 + IndexOf(symbols[1..], x)
  }

  function CodeBits(s: Spec, symbol: nat): seq<bool>
    requires ValidSpec(s) && symbol in s.symbols
  {
    var k := IndexOf(s.symbols, symbol);
    BitsOf(HuffCode(s.counts, k), Size(s.counts, k))
  }

  lemma {:induction false} CodeFits(s: Spec, k: nat)
    requires ValidSpec(s) && Fits(s) && k < |s.symbols|
    ensures HuffCode(s.counts, k) < Pow2(Size(s.counts, k)) && Start(s.counts, k + 1) <= TABLE_SIZE
  {
    hide Size, HuffCode, Start, Pow2, Before;
    var n := Size(s.counts, k);
    StartIsCode(s.counts, k);
    StartNext(s.counts, k);
    StartGrows(s.counts, k + 1, |s.symbols|);
    TableIsPow();
    Pow2Adds(n, 16 - n);
    SmallFactor(HuffCode(s.counts, k), Pow2(n), Pow2(16 - n));
  }

  lemma {:induction false} SmallFactor(c: nat, m: nat, p: nat)
    requires c * p + p <= m * p
    ensures p > 0 ==> c < m
  {
    MulLe(m, c, p);
  }

  /** A window that begins with the code of a symbol looks that symbol up. */
  lemma {:induction false} LookupSymbol(h: Table, d: seq<byte>, pos: nat, symbol: nat)
    requires Usable(h) && symbol in h.spec.symbols && Holds(d, pos, CodeBits(h.spec, symbol))
    ensures h.codes[Window(d, pos)] == Code(|CodeBits(h.spec, symbol)|, symbol)
  {
    hide Size, HuffCode, Start, Pow2, Before, Slice, Pack, BitsOf;
    var k := IndexOf(h.spec.symbols, symbol);
    var n := Size(h.spec.counts, k);
    CodeFits(h.spec, k);
    SliceConcat(d, pos, n, 16 - n);
    PackConcat(Slice(d, pos, n), Slice(d, pos + n, 16 - n));
    PackBitsOf(HuffCode(h.spec.counts, k), n);
    StartIsCode(h.spec.counts, k);
    StartNext(h.spec.counts, k);
    assert n + (16 - n) == 16;
  }

  /** A symbol with the value its additional bits stand for. */
  datatype Item = Item(symbol: nat, value: int)

  predicate Codable(h: Table, it: Item) {
    it.symbol in h.spec.symbols && it.symbol % 16 == Category(it.value)
  }

  ghost function ItemBits(h: Table, it: Item): seq<bool>
    requires ValidSpec(h.spec) && Codable(h, it)
  {
    ExtendInverts(it.value);
    CodeBits(h.spec, it.symbol) + BitsOf(AddBits(it.value, it.symbol % 16), it.symbol % 16)
  }

  lemma {:induction false} ReadItem(h: Table, d: seq<byte>, pos: nat, it: Item)
    requires Usable(h) && Codable(h, it) && Holds(d, pos, ItemBits(h, it))
    ensures var c := h.codes[Window(d, pos)];
      && c.symbol == it.symbol
      && Additional(d, pos + c.nbits, c.symbol % 16) == it.value
      && |ItemBits(h, it)| == c.nbits + c.symbol % 16
  {
    hide Size, HuffCode, Start, Pow2, Before, Slice, Pack, BitsOf, Extend, AddBits, Category;
    var n := it.symbol % 16;
    ExtendInverts(it.value);
    var extra: nat := AddBits(it.value, n);
    HoldsParts(d, pos, CodeBits(h.spec, it.symbol), BitsOf(extra, n));
    LookupSymbol(h, d, pos, it.symbol);
    PackBitsOf(extra, n);
  }

  // ---------------------------------------------------------------------------------------
  // AC coefficients

  const EOB := Item(0, 0)
  const ZRL := Item(0xF0, 0)

  /** Section F.1.2.2: r zeros are pending before coefficient k. */
  function AcItems(zz: seq<int>, k: nat, r: nat): seq<Item>
    requires |zz| == 64 && r <= k <= 64
    decreases 64 - k, r
  {
    if k == 64 then (if r > 0 then [EOB] else [])
    else if zz[k] == 0 then AcItems(zz, k + 1, r + 1)
    else if r > 15 then [ZRL] + AcItems(zz, k, r - 16)
    else [Item(16 * r + Category(zz[k]), zz[k])] + AcItems(zz, k + 1, 0)
  }

  ghost predicate AllCodable(h: Table, items: seq<Item>) {
    forall i: nat | i < |items| :: Codable(h, items[i])
  }

  ghost function AllBits(h: Table, items: seq<Item>): seq<bool>
    requires ValidSpec(h.spec) && AllCodable(h, items)
  {
    if items == [] then []
    else
      assert Codable(h, items[0]);
      assert forall i: nat | i < |items[1..]| :: items[1..][i] == items[i + 1];
      ItemBits(h, items[0]) + AllBits(h, items[1..])
  }

  /** Coefficients, the position after them, and whether every index stayed in the block. */
  datatype Coded = Coded(block: seq<int>, pos: nat, ok: bool)

  /** The AC loop from coefficient coeff on. */
  function AcFrom(codes: seq<Code>, d: seq<byte>, pos: nat, coeff: nat, block: seq<int>): (r: Coded)
    requires |codes| == TABLE_SIZE && |block| == 64
    ensures |r.block| == 64
    decreases 64 - coeff
  {
    if coeff >= 64 then Coded(block, pos, true)
    else
      var c := codes[Window(d, pos)];
      var p, rrrr, ssss := pos + c.nbits, c.symbol / 16, c.symbol % 16;
      if c.symbol == 0 then Coded(block, p, true)
      else if coeff + rrrr >= 64 then Coded(block, p + ssss, false)
      else AcFrom(codes, d, p + ssss, coeff + rrrr + 1, block[coeff + rrrr := Additional(d, p, ssss)])
  }

  function Zeros(n: nat): (z: seq<int>)
    ensures |z| == n && forall i: nat | i < n :: z[i] == 0
  {
    seq(n, i => 0)
  }

  /** The decoder has stored the coefficients before k - r. */
  ghost predicate StoredTo(zz: seq<int>, block: seq<int>, k: nat, r: nat) {
    && |zz| == |block| == 64 && r <= k <= 64
    && (forall i: nat | i < 64 :: block[i] == if i < k - r then zz[i] else 0)
    && (forall i: nat | k - r <= i < k :: zz[i] == 0)
  }

  ghost predicate Bounded(zz: seq<int>) {
    forall i: nat | 1 <= i < |zz| :: Category(zz[i]) <= 15
  }

  /** The first item is read, and the stream goes on with the others. */
  lemma {:induction false} ReadFirst(h: Table, d: seq<byte>, pos: nat, items: seq<Item>)
    requires Usable(h) && items != [] && AllCodable(h, items) && Holds(d, pos, AllBits(h, items))
    ensures Codable(h, items[0]) && AllCodable(h, items[1..])
    ensures var c := h.codes[Window(d, pos)]; var n := |ItemBits(h, items[0])|;
      && c.symbol == items[0].symbol
      && Additional(d, pos + c.nbits, c.symbol % 16) == items[0].value
      && n == c.nbits + c.symbol % 16
      && Holds(d, pos + n, AllBits(h, items[1..]))
      && |AllBits(h, items)| == n + |AllBits(h, items[1..])|
  {
    hide Codable, ItemBits, Holds, Additional, Window, FilledTo, Fits;
    assert Codable(h, items[0]);
    assert forall i: nat | i < |items[1..]| :: items[1..][i] == items[i + 1];
    HoldsParts(d, pos, ItemBits(h, items[0]), AllBits(h, items[1..]));
    ReadItem(h, d, pos, items[0]);
  }

  /** Symbols of the items for a coefficient that is not zero. */
  lemma {:induction false} AcStep(zz: seq<int>, k: nat, r: nat)
    requires |zz| == 64 && r <= k < 64 && zz[k] != 0 && Bounded(zz) && 1 <= k
    ensures 0xF0 / 16 == 15 && 0xF0 % 16 == 0
    ensures var x := 16 * r + Category(zz[k]); x / 16 == r && x % 16 == Category(zz[k]) && x != 0
  {
    assert 1 <= k < |zz| && Category(zz[k]) <= 15;
    LengthBounds(if zz[k] < 0 then -zz[k] else zz[k]);
  }

  /** The AC loop reads an item that stands for a coefficient or sixteen zeros. */
  lemma {:induction false} AcReads(h: Table, d: seq<byte>, pos: nat, items: seq<Item>, c: nat, block: seq<int>)
    requires Usable(h) && items != [] && AllCodable(h, items) && Holds(d, pos, AllBits(h, items)) && |block| == 64
    requires items[0].symbol != 0 && c + items[0].symbol / 16 < 64
    ensures Codable(h, items[0]) && AllCodable(h, items[1..])
    ensures var n, at := |ItemBits(h, items[0])|, c + items[0].symbol / 16;
      && AcFrom(h.codes, d, pos, c, block) == AcFrom(h.codes, d, pos + n, at + 1, block[at := items[0].value])
      && Holds(d, pos + n, AllBits(h, items[1..])) && |AllBits(h, items)| == n + |AllBits(h, items[1..])|
  {
    hide FilledTo, Fits, ItemBits, AllBits, AllCodable, Codable, Holds, Additional, Window, AcFrom;
    ReadFirst(h, d, pos, items);
    AcUnfold(h.codes, d, pos, c, block);
  }

  /** It stops at the end-of-block symbol. */
  lemma {:induction false} AcStops(h: Table, d: seq<byte>, pos: nat, c: nat, block: seq<int>)
    requires Usable(h) && AllCodable(h, [EOB]) && Holds(d, pos, AllBits(h, [EOB])) && |block| == 64
    ensures c < 64 ==> AcFrom(h.codes, d, pos, c, block) == Coded(block, pos + |AllBits(h, [EOB])|, true)
  {
    hide FilledTo, Fits, ItemBits, Codable, Holds, Additional, Window, AcFrom;
    ReadFirst(h, d, pos, [EOB]);
    AcUnfold(h.codes, d, pos, c, block);
    assert AllBits(h, [EOB][1..]) == [];
  }

  lemma {:induction false} AcRoundTrip(h: Table, d: seq<byte>, pos: nat, zz: seq<int>, k: nat, r: nat, block: seq<int>)
    requires Usable(h) && StoredTo(zz, block, k, r) && Bounded(zz) && 1 <= k
    requires AllCodable(h, AcItems(zz, k, r)) && Holds(d, pos, AllBits(h, AcItems(zz, k, r)))
    ensures AcFrom(h.codes, d, pos, k - r, block) == Coded(zz, pos + |AllBits(h, AcItems(zz, k, r))|, true)
    decreases 64 - k, r
  {
    hide FilledTo, Fits, ItemBits, AllBits, AllCodable, Codable, Holds, Additional, Category, Window, AcFrom, Bounded;
    hide AcItems, StoredTo;
    StoredParts(zz, block, k, r);
    var items := AcItems(zz, k, r);
    AcItemsUnfold(zz, k, r);
    if k == 64 {
      AcUnfold(h.codes, d, pos, k - r, block);
      if r == 0 { NothingLeft(h); } else { AcStops(h, d, pos, k - r, block); }
    } else if zz[k] == 0 {
      AcRoundTrip(h, d, pos, zz, k + 1, r + 1, block);
    } else {
      AcStep(zz, k, r);
      assert items[1..] == if r > 15 then AcItems(zz, k, r - 16) else AcItems(zz, k + 1, 0);
      AcReads(h, d, pos, items, k - r, block);
      if r > 15 {
        AcRoundTrip(h, d, pos + |ItemBits(h, items[0])|, zz, k, r - 16, block[k - r + 15 := 0]);
      } else {
        AcRoundTrip(h, d, pos + |ItemBits(h, items[0])|, zz, k + 1, 0, block[k := zz[k]]);
      }
    }
  }

  lemma {:induction false} NothingLeft(h: Table)
    requires ValidSpec(h.spec)
    ensures AllCodable(h, []) && AllBits(h, []) == []
  {}

  lemma {:induction false} AcItemsUnfold(zz: seq<int>, k: nat, r: nat)
    requires |zz| == 64 && r <= k <= 64
    ensures AcItems(zz, k, r) ==
      if k == 64 then (if r > 0 then [EOB] else [])
      else if zz[k] == 0 then AcItems(zz, k + 1, r + 1)
      else if r > 15 then [ZRL] + AcItems(zz, k, r - 16)
      else [Item(16 * r + Category(zz[k]), zz[k])] + AcItems(zz, k + 1, 0)
  {}

  lemma {:induction false} StoredParts(zz: seq<int>, block: seq<int>, k: nat, r: nat)
    requires StoredTo(zz, block, k, r)
    ensures |zz| == |block| == 64 && r <= k <= 64
    ensures k == 64 ==> block == zz
    ensures k < 64 && zz[k] == 0 ==> StoredTo(zz, block, k + 1, r + 1)
    ensures k < 64 && r > 15 ==> StoredTo(zz, block[k - r + 15 := 0], k, r - 16)
    ensures k < 64 && r <= 15 ==> StoredTo(zz, block[k := zz[k]], k + 1, 0)
  {}

  // ---------------------------------------------------------------------------------------
  // Blocks and scans of one component

  /** The difference from the prediction, as in section F.1.2.1. */
  function DcItem(diff: int): Item {
    Item(Category(diff), diff)
  }

  /** What an encoder needs of its tables and coefficients. */
  ghost predicate Encodable(dc: Table, ac: Table, pred: int, zz: seq<int>) {
    && Usable(dc) && Usable(ac) && |zz| == 64 && Bounded(zz) && Category(zz[0] - pred) <= 15
    && Codable(dc, DcItem(zz[0] - pred)) && AllCodable(ac, AcItems(zz, 1, 0))
  }

  ghost function BlockBits(dc: Table, ac: Table, pred: int, zz: seq<int>): seq<bool>
    requires Encodable(dc, ac, pred, zz)
  {
    ItemBits(dc, DcItem(zz[0] - pred)) + AllBits(ac, AcItems(zz, 1, 0))
  }

  /** One block of the decoder; its first coefficient is the next prediction. */
  function DecodeOne(dc: seq<Code>, ac: seq<Code>, d: seq<byte>, pos: nat, pred: int): (r: Coded)
    requires |dc| == |ac| == TABLE_SIZE
    ensures |r.block| == 64
  {
    var c := dc[Window(d, pos)];
    var p, ssss := pos + c.nbits, c.symbol % 16;
    AcFrom(ac, d, p + ssss, 1, [pred + Additional(d, p, ssss)] + Zeros(63))
  }

  /** An encoded block is read back coefficient for coefficient, and reading stops at its end. */
  lemma {:induction false} BlockRoundTrip(dc: Table, ac: Table, d: seq<byte>, pos: nat, pred: int, zz: seq<int>)
    requires Encodable(dc, ac, pred, zz) && Holds(d, pos, BlockBits(dc, ac, pred, zz))
    ensures DecodeOne(dc.codes, ac.codes, d, pos, pred) == Coded(zz, pos + |BlockBits(dc, ac, pred, zz)|, true)
  {
    hide FilledTo, Fits, ItemBits, AllBits, Codable, Holds, Additional, Category, Window, AcItems, AcFrom;
    var it := DcItem(zz[0] - pred);
    HoldsParts(d, pos, ItemBits(dc, it), AllBits(ac, AcItems(zz, 1, 0)));
    ReadItem(dc, d, pos, it);
    AcRoundTrip(ac, d, pos + |ItemBits(dc, it)|, zz, 1, 0, [zz[0]] + Zeros(63));
  }

  ghost predicate ScanEncodable(dc: Table, ac: Table, pred: int, blocks: seq<seq<int>>)
    decreases |blocks|
  {
    blocks == [] || (Encodable(dc, ac, pred, blocks[0]) && ScanEncodable(dc, ac, blocks[0][0], blocks[1..]))
  }

  ghost function ScanBits(dc: Table, ac: Table, pred: int, blocks: seq<seq<int>>): seq<bool>
    requires ScanEncodable(dc, ac, pred, blocks)
    decreases |blocks|
  {
    if blocks == [] then [] else BlockBits(dc, ac, pred, blocks[0]) + ScanBits(dc, ac, blocks[0][0], blocks[1..])
  }

  datatype Scan = Scan(blocks: seq<seq<int>>, pos: nat, ok: bool)

  /** n blocks in turn, each predicted from the one before. */
  function DecodeMany(dc: seq<Code>, ac: seq<Code>, d: seq<byte>, pos: nat, pred: int, n: nat): Scan
    requires |dc| == |ac| == TABLE_SIZE
    decreases n
  {
    if n == 0 then Scan([], pos, true)
    else
      var b := DecodeOne(dc, ac, d, pos, pred);
      if !b.ok then Scan([], b.pos, false)
      else
        var rest := DecodeMany(dc, ac, d, b.pos, b.block[0], n - 1);
        Scan([b.block] + rest.blocks, rest.pos, rest.ok)
  }

  lemma {:induction false} ScanNext(dc: Table, ac: Table, pred: int, blocks: seq<seq<int>>)
    requires ScanEncodable(dc, ac, pred, blocks) && blocks != []
    ensures Encodable(dc, ac, pred, blocks[0]) && ScanEncodable(dc, ac, blocks[0][0], blocks[1..])
    ensures ScanBits(dc, ac, pred, blocks) == BlockBits(dc, ac, pred, blocks[0]) +
      ScanBits(dc, ac, blocks[0][0], blocks[1..])
  {
    hide BlockBits, Usable, Codable, AllCodable, Bounded;
  }

  lemma {:induction false} DecodeNext(dc: seq<Code>, ac: seq<Code>, d: seq<byte>, pos: nat, pred: int, n: nat,
                                      zz: seq<int>, p: nat)
    requires |dc| == |ac| == TABLE_SIZE && n > 0 && |zz| == 64
    requires DecodeOne(dc, ac, d, pos, pred) == Coded(zz, p, true)
    ensures DecodeMany(dc, ac, d, pos, pred, n) ==
      var rest := DecodeMany(dc, ac, d, p, zz[0], n - 1); Scan([zz] + rest.blocks, rest.pos, rest.ok)
  {
    hide DecodeOne;
  }

  lemma {:induction false} ScanRoundTrip(dc: Table, ac: Table, d: seq<byte>, pos: nat, pred: int, blocks: seq<seq<int>>)
    requires Usable(dc) && Usable(ac) && ScanEncodable(dc, ac, pred, blocks)
    requires Holds(d, pos, ScanBits(dc, ac, pred, blocks))
    ensures DecodeMany(dc.codes, ac.codes, d, pos, pred, |blocks|)
         == Scan(blocks, pos + |ScanBits(dc, ac, pred, blocks)|, true)
    decreases |blocks|
  {
    hide Holds, DecodeOne, DecodeMany, Usable, ScanEncodable, ScanBits;
    if blocks == [] {
      NoBlocks(dc, ac, d, pos, pred);
    } else {
      var n := FirstBlock(dc, ac, d, pos, pred, blocks);
      ScanRoundTrip(dc, ac, d, pos + n, blocks[0][0], blocks[1..]);
      assert blocks == [blocks[0]] + blocks[1..];
    }
  }

  lemma {:induction false} NoBlocks(dc: Table, ac: Table, d: seq<byte>, pos: nat, pred: int)
    requires Usable(dc) && Usable(ac)
    ensures |dc.codes| == |ac.codes| == TABLE_SIZE && ScanEncodable(dc, ac, pred, [])
    ensures DecodeMany(dc.codes, ac.codes, d, pos, pred, 0) == Scan([], pos, true) && ScanBits(dc, ac, pred, []) == []
  {}

  lemma {:induction false} EncodableSizes(dc: Table, ac: Table, pred: int, zz: seq<int>)
    requires Encodable(dc, ac, pred, zz) && Usable(dc) && Usable(ac)
    ensures |zz| == 64 && |dc.codes| == |ac.codes| == TABLE_SIZE
  {}

  /** The first block takes n bits. */
  lemma {:induction false} FirstBlock(dc: Table, ac: Table, d: seq<byte>, pos: nat, pred: int, blocks: seq<seq<int>>)
    returns (n: nat)
    requires Usable(dc) && Usable(ac) && ScanEncodable(dc, ac, pred, blocks) && blocks != []
    requires Holds(d, pos, ScanBits(dc, ac, pred, blocks))
    ensures |dc.codes| == |ac.codes| == TABLE_SIZE
    ensures |blocks[0]| == 64 && ScanEncodable(dc, ac, blocks[0][0], blocks[1..])
    ensures Holds(d, pos + n, ScanBits(dc, ac, blocks[0][0], blocks[1..]))
    ensures |ScanBits(dc, ac, pred, blocks)| == n + |ScanBits(dc, ac, blocks[0][0], blocks[1..])|
    ensures DecodeMany(dc.codes, ac.codes, d, pos, pred, |blocks|) ==
      var rest := DecodeMany(dc.codes, ac.codes, d, pos + n, blocks[0][0], |blocks| - 1);
      Scan([blocks[0]] + rest.blocks, rest.pos, rest.ok)
  {
    hide Holds, DecodeOne, DecodeMany, BlockBits, Encodable, Usable, ScanEncodable, ScanBits;
    ScanNext(dc, ac, pred, blocks);
    EncodableSizes(dc, ac, pred, blocks[0]);
    var bs := BlockBits(dc, ac, pred, blocks[0]);
    n := |bs|;
    HoldsParts(d, pos, bs, ScanBits(dc, ac, blocks[0][0], blocks[1..]));
    BlockRoundTrip(dc, ac, d, pos, pred, blocks[0]);
    DecodeNext(dc.codes, ac.codes, d, pos, pred, |blocks|, blocks[0], pos + n);
  }

  // ---------------------------------------------------------------------------------------
  // Bytes: packing, padding with ones, stuffing

  function Packed(bits: seq<bool>): seq<byte> {
    if bits == [] then []
    else if |bits| >= 8 then [PackByte(bits[..8])] + Packed(bits[8..])
    else [PackByte(bits + seq(8 - |bits|, i => true))]
  }

  function PackByte(bits: seq<bool>): byte
    requires |bits| == 8
  {
    assert Pow2(8) == 256 by { assert Pow2(4) == 16; assert Pow2(6) == 64; }
    Pack(bits)
  }

  lemma {:induction false} PackByteBit(bits: seq<bool>, rest: seq<byte>, k: nat)
    requires |bits| == 8 && k < 8
    ensures StreamBit([PackByte(bits)] + rest, k) == bits[k]
  {
    PackedBit(bits, 7 - k);
  }

  lemma {:induction false} PackedHolds(bits: seq<bool>, tail: seq<byte>, k: nat)
    requires k < |bits|
    ensures StreamBit(Packed(bits) + tail, k) == bits[k]
    decreases |bits|
  {
    hide PackByte, Pack;
    if |bits| < 8 {
      PackByteBit(bits + seq(8 - |bits|, i => true), tail, k);
    } else {
      var rest := Packed(bits[8..]) + tail;
      assert Packed(bits) + tail == [PackByte(bits[..8])] + rest;
      if k < 8 {
        PackByteBit(bits[..8], rest, k);
      } else {
        PackedHolds(bits[8..], tail, k - 8);
        NextByteBit(PackByte(bits[..8]), rest, k);
      }
    }
  }

  lemma {:induction false} NextByteBit(b: byte, rest: seq<byte>, k: nat)
    requires k >= 8
    ensures StreamBit([b] + rest, k) == StreamBit(rest, k - 8)
  {}

  /** From blocks to stuffed bytes and back, whatever follows the scan. */
  lemma {:induction false} StuffedRoundTrip(dc: Table, ac: Table, blocks: seq<seq<int>>, tail: seq<byte>)
    requires Usable(dc) && Usable(ac) && ScanEncodable(dc, ac, 0, blocks)
    ensures var d := Unstuffed(Stuffed(Packed(ScanBits(dc, ac, 0, blocks))) + tail, 0);
      var r := DecodeMany(dc.codes, ac.codes, d, 0, 0, |blocks|);
      r.ok && r.blocks == blocks
  {
    hide Usable, ScanEncodable, ScanBits, DecodeMany, Stuffed, Packed, StreamBit;
    var bits := ScanBits(dc, ac, 0, blocks);
    var s := Stuffed(Packed(bits)) + tail;
    UnstuffStuffed(Packed(bits), s, 0);
    var rest := Unstuffed(s, |Stuffed(Packed(bits))|);
    var d := Packed(bits) + rest;
    forall k: nat | k < |bits| ensures StreamBit(d, k) == bits[k] {
      PackedHolds(bits, rest, k);
    }
    assert Slice(d, 0, |bits|) == bits;
    ScanRoundTrip(dc, ac, d, 0, 0, blocks);
  }

  // ---------------------------------------------------------------------------------------
  // The decoder

  /** The next symbol. */
  method ReadSymbol(bd: BitDecoder, codes: seq<Code>) returns (symbol: nat)
    requires bd.Ready() && Entries(codes)
    modifies bd
    ensures bd.Ready()
    ensures var c := codes[Window(bd.Data(), old(bd.pos))]; symbol == c.symbol && bd.pos == old(bd.pos) + c.nbits
  {
    hide StreamBit, Unstuffed, Bit, Slice, Pack;
    TableIsPow();
    var next16 := bd.PeekBits(16);
    var c := codes[next16];
    var _ := bd.ConsumeBits(c.nbits);
    symbol := c.symbol;
  }

  /** The value after a symbol, with the sign extension of the decoder. */
  method ReadValue(bd: BitDecoder, ssss: nat) returns (value: int)
    requires bd.Ready() && ssss < 16
    modifies bd
    ensures bd.Ready() && bd.pos == old(bd.pos) + ssss && value == Additional(bd.Data(), old(bd.pos), ssss)
  {
    hide StreamBit, Unstuffed, Slice, Pack;
    var v := bd.ConsumeBits(ssss);
    value := v;
    if ssss > 0 { ShiftedBit(v, ssss - 1, 0); }
    if ssss == 0 || Shr(v, ssss - 1) % 2 == 0 {
      value := value + (1 - Pow2(ssss) as int);
    }
  }

  /** Decodes one block into the coefficient array; not ok means an index left the block. */
  method DecodeBlock(bd: BitDecoder, dc: seq<Code>, ac: seq<Code>, block: array<int>, pred: int)
    returns (dcpred: int, ok: bool)
    requires bd.Ready() && Entries(dc) && Entries(ac) && block.Length == 64
    modifies bd, block
    ensures bd.Ready() && dcpred == block[0]
    ensures DecodeOne(dc, ac, bd.Data(), old(bd.pos), pred) == Coded(block[..], bd.pos, ok)
  {
    hide Window, Additional, AcFrom, Unstuffed, StreamBit, Bit, Zeros;
    hide BitDecoder.Ready, BitDecoder.Valid, BitDecoder.Data;
    ClearBlock(block);
    var symbol := ReadSymbol(bd, dc);
    var value := ReadValue(bd, symbol % 16);
    dcpred := pred + value;
    block[0] := dcpred;
    assert block[..] == [dcpred] + Zeros(63);
    ok := DecodeAc(bd, ac, block);
  }

  method ClearBlock(block: array<int>)
    requires block.Length == 64
    modifies block
    ensures block[..] == Zeros(64)
  {
    for i := 0 to 64
      invariant forall j: nat | j < i :: block[j] == 0
    {
      block[i] := 0;
    }
  }

  /** The loop over the AC coefficients. */
  method DecodeAc(bd: BitDecoder, ac: seq<Code>, block: array<int>) returns (ok: bool)
    requires bd.Ready() && Entries(ac) && block.Length == 64
    modifies bd, block
    ensures bd.Ready() && block[0] == old(block[0])
    ensures AcFrom(ac, bd.Data(), old(bd.pos), 1, old(block[..])) == Coded(block[..], bd.pos, ok)
  {
    hide Window, Additional, AcFrom, Unstuffed, StreamBit, Bit, BitDecoder.Ready, BitDecoder.Valid, BitDecoder.Data;
    ghost var d, whole := bd.Data(), AcFrom(ac, bd.Data(), bd.pos, 1, block[..]);
    var coeff: nat := 1;
    ok := true;
    while coeff < 64
      invariant bd.Ready() && bd.Data() == d && 1 <= coeff <= 64 && ok && block[0] == old(block[0])
      invariant whole == AcFrom(ac, d, bd.pos, coeff, block[..])
    {
      ghost var b0 := block[..];
      AcUnfold(ac, d, bd.pos, coeff, b0);
      var symbol := ReadSymbol(bd, ac);
      if symbol == 0 {
        break;
      }
      var rrrr, ssss := symbol / 16, symbol % 16;
      var value := ReadValue(bd, ssss);
      coeff := coeff + rrrr;
      if coeff >= 64 {
        ok := false;
        break;
      }
      block[coeff] := value;
      assert block[..] == b0[coeff := value];
      coeff := coeff + 1;
    }
    AcUnfold(ac, d, bd.pos, coeff, block[..]);
  }

  lemma {:induction false} AcUnfold(codes: seq<Code>, d: seq<byte>, pos: nat, coeff: nat, block: seq<int>)
    requires |codes| == TABLE_SIZE && |block| == 64
    ensures AcFrom(codes, d, pos, coeff, block) ==
      if coeff >= 64 then Coded(block, pos, true)
      else
        var c := codes[Window(d, pos)];
        var p, rrrr, ssss := pos + c.nbits, c.symbol / 16, c.symbol % 16;
        if c.symbol == 0 then Coded(block, p, true)
        else if coeff + rrrr >= 64 then Coded(block, p + ssss, false)
        else AcFrom(codes, d, p + ssss, coeff + rrrr + 1, block[coeff + rrrr := Additional(d, p, ssss)])
  {}

  /** n blocks of one component, without restarts. */
  method DecodeScan(bd: BitDecoder, dc: seq<Code>, ac: seq<Code>, n: nat) returns (blocks: seq<seq<int>>, ok: bool)
    requires bd.Ready() && Entries(dc) && Entries(ac)
    modifies bd
    ensures bd.Ready() && Scan(blocks, bd.pos, ok) == DecodeMany(dc, ac, bd.Data(), old(bd.pos), 0, n)
  {
    hide DecodeOne, DecodeMany, Resumes, Unstuffed, StreamBit, Bit, BitDecoder.Ready, BitDecoder.Valid, BitDecoder.Data;
    ghost var d, whole := bd.Data(), DecodeMany(dc, ac, bd.Data(), bd.pos, 0, n);
    var block := new int[64];
    var dcpred := 0;
    blocks, ok := [], true;
    var i: nat := 0;
    ResumesFirst(whole);
    while i < n
      invariant bd.Ready() && bd.Data() == d && i <= n && ok
      invariant Resumes(whole, blocks, DecodeMany(dc, ac, d, bd.pos, dcpred, n - i))
    {
      ResumesNext(whole, blocks, dc, ac, d, bd.pos, dcpred, n - i);
      dcpred, ok := DecodeBlock(bd, dc, ac, block, dcpred);
      if !ok {
        return;
      }
      blocks := blocks + [block[..]];
      i := i + 1;
    }
    ResumesLast(whole, blocks, dc, ac, d, bd.pos, dcpred);
  }

  lemma {:induction false} ResumesFirst(whole: Scan)
    ensures Resumes(whole, [], whole)
  {}

  lemma {:induction false} ResumesNext(whole: Scan, done: seq<seq<int>>, dc: seq<Code>, ac: seq<Code>, d: seq<byte>,
                                       pos: nat, pred: int, n: nat)
    requires |dc| == |ac| == TABLE_SIZE && n > 0
    requires Resumes(whole, done, DecodeMany(dc, ac, d, pos, pred, n))
    ensures var b := DecodeOne(dc, ac, d, pos, pred);
      if b.ok then Resumes(whole, done + [b.block], DecodeMany(dc, ac, d, b.pos, b.block[0], n - 1))
      else whole == Scan(done, b.pos, false)
  {
    hide DecodeOne;
  }

  lemma {:induction false} ResumesLast(whole: Scan, done: seq<seq<int>>, dc: seq<Code>, ac: seq<Code>, d: seq<byte>,
                                       pos: nat, pred: int)
    requires |dc| == |ac| == TABLE_SIZE && Resumes(whole, done, DecodeMany(dc, ac, d, pos, pred, 0))
    ensures whole == Scan(done, pos, true)
  {}

  /** A scan that consists of the blocks done and those still to come. */
  ghost predicate Resumes(whole: Scan, done: seq<seq<int>>, rest: Scan) {
    whole == Scan(done + rest.blocks, rest.pos, rest.ok)
  }
}
