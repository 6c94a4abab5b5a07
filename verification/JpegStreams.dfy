/** Whole runs of the JPEG decoder (Robot/apriltags/common/pjpeg.c), from the table definitions and the stuffed bytes
    to the blocks, and when the index of the AC loop stays inside the block. */
module JpegStreams {
  import opened Bits
  import opened BitReader
  import opened Huffman
  import opened JpegBlock

  // ---------------------------------------------------------------------------------------
  // Which tables can lead the AC loop out of its block

  /** From coefficient c on, some sequence of these symbols leads beyond coefficient 63. */
  ghost predicate CanOverrun(symbols: seq<nat>, c: nat)
    decreases 64 - c
  {
    c < 64 && exists x: nat | x in symbols && x != 0 :: c + x / 16 >= 64 || CanOverrun(symbols, c + x / 16 + 1)
  }

  /** Words without a code look up symbol 0, as in a table that is defined once, after the zeros it starts with. */
  ghost predicate Clean(h: Table)
    requires Usable(h)
  {
    forall w: nat | Start(h.spec.counts, |h.spec.symbols|) <= w < TABLE_SIZE :: h.codes[w].symbol == 0
  }

  ghost predicate LooksUp(codes: seq<Code>, symbols: seq<nat>) {
    |codes| == TABLE_SIZE && forall w: nat | w < TABLE_SIZE :: codes[w].symbol == 0 || codes[w].symbol in symbols
  }

  lemma {:induction false} CleanLooksUp(h: Table)
    requires Usable(h) && Clean(h)
    ensures LooksUp(h.codes, h.spec.symbols)
  {
    hide Start, Size, Before;
    var n := |h.spec.symbols|;
    forall w: nat | w < TABLE_SIZE ensures h.codes[w].symbol == 0 || h.codes[w].symbol in h.spec.symbols {
      if w < Start(h.spec.counts, n) {
        var j := BlockOf(h.spec.counts, n, w);
        assert h.codes[w] == Code(Size(h.spec.counts, j), h.spec.symbols[j]);
      }
    }
  }

  /** If no sequence of symbols overruns, no stream does, for tables of any origin. */
  lemma {:induction false} StaysInside(codes: seq<Code>, symbols: seq<nat>, d: seq<byte>, pos: nat, c: nat,
                                       block: seq<int>)
    requires LooksUp(codes, symbols) && !CanOverrun(symbols, c) && |block| == 64
    ensures AcFrom(codes, d, pos, c, block).ok
    decreases 64 - c
  {
    hide Window, Additional;
    if c < 64 {
      var e := codes[Window(d, pos)];
      var p := pos + e.nbits;
      if e.symbol != 0 {
        assert e.symbol in symbols;
        var k := c + e.symbol / 16;
        StaysInside(codes, symbols, d, p + e.symbol % 16, k + 1, block[k := Additional(d, p, e.symbol % 16)]);
      }
    }
  }

  /** Items whose symbols lead from coefficient c beyond coefficient 63. */
  ghost predicate Overruns(items: seq<Item>, c: nat)
    decreases |items|
  {
    && items != [] && c < 64 && items[0].symbol != 0
    && (c + items[0].symbol / 16 >= 64 || Overruns(items[1..], c + items[0].symbol / 16 + 1))
  }

  lemma {:induction false} PowLength(n: nat)
    ensures BitLength(Pow2(n)) == n + 1
  {
    if n > 0 {
      PowLength(n - 1);
      assert Pow2(n) / 2 == Pow2(n - 1);
    }
  }

  /** A value with a given number of additional bits. */
  function ValueOf(ssss: nat): int {
    if ssss == 0 then 0 else Pow2(ssss - 1)
  }

  lemma {:induction false} SymbolCodable(h: Table, x: nat)
    requires x in h.spec.symbols
    ensures Codable(h, Item(x, ValueOf(x % 16)))
  {
    if x % 16 > 0 { PowLength(x % 16 - 1); }
  }

  lemma {:induction false} ConsCodable(h: Table, it: Item, rest: seq<Item>)
    requires Codable(h, it) && AllCodable(h, rest)
    ensures AllCodable(h, [it] + rest)
  {
    hide Codable;
  }

  lemma {:induction false} OverrunItems(h: Table, c: nat) returns (items: seq<Item>)
    requires CanOverrun(h.spec.symbols, c)
    ensures AllCodable(h, items) && Overruns(items, c)
    decreases 64 - c
  {
    hide Codable;
    var symbols := h.spec.symbols;
    var x: nat :| x in symbols && x != 0 && (c + x / 16 >= 64 || CanOverrun(symbols, c + x / 16 + 1));
    var it := Item(x, ValueOf(x % 16));
    SymbolCodable(h, x);
    if c + x / 16 >= 64 {
      items := [it];
    } else {
      var rest := OverrunItems(h, c + x / 16 + 1);
      ConsCodable(h, it, rest);
      items := [it] + rest;
      assert items[1..] == rest;
    }
  }

  /** And conversely. */
  lemma {:induction false} ItemsShowOverrun(h: Table, items: seq<Item>, c: nat)
    requires AllCodable(h, items) && Overruns(items, c)
    ensures CanOverrun(h.spec.symbols, c)
    decreases |items|
  {
    assert Codable(h, items[0]);
    if c + items[0].symbol / 16 < 64 {
      ItemsShowOverrun(h, items[1..], c + items[0].symbol / 16 + 1);
    }
  }

  /** A stream that encodes such items is read past the end of the block. */
  lemma {:induction false} OverrunRead(h: Table, d: seq<byte>, pos: nat, items: seq<Item>, c: nat, block: seq<int>)
    requires Usable(h) && AllCodable(h, items) && Overruns(items, c) && |block| == 64
    requires Holds(d, pos, AllBits(h, items))
    ensures !AcFrom(h.codes, d, pos, c, block).ok
    decreases |items|
  {
    hide FilledTo, Fits, ItemBits, AllBits, Codable, AllCodable, Holds, Additional, Window;
    ReadFirst(h, d, pos, items);
    var k := c + items[0].symbol / 16;
    if k < 64 {
      OverrunRead(h, d, pos + |ItemBits(h, items[0])|, items[1..], k + 1, block[k := items[0].value]);
    }
  }

  // ---------------------------------------------------------------------------------------
  // The same for whole blocks, read from stuffed bytes

  /** The bytes of a stream with the given bits, then anything. */
  function Stream(bits: seq<bool>, tail: seq<byte>): seq<byte> {
    Stuffed(Packed(bits)) + tail
  }

  lemma {:induction false} StreamHolds(bits: seq<bool>, tail: seq<byte>)
    ensures Holds(Unstuffed(Stream(bits, tail), 0), 0, bits)
  {
    hide Stuffed, Packed, StreamBit;
    var s := Stream(bits, tail);
    UnstuffStuffed(Packed(bits), s, 0);
    var rest := Unstuffed(s, |Stuffed(Packed(bits))|);
    forall k: nat | k < |bits| ensures StreamBit(Packed(bits) + rest, k) == bits[k] {
      PackedHolds(bits, rest, k);
    }
    assert Slice(Packed(bits) + rest, 0, |bits|) == bits;
  }

  /** The decoder reads one block from these bytes without leaving the block. */
  ghost predicate ReadsInside(dc: seq<Code>, ac: seq<Code>, input: seq<byte>)
    requires |dc| == |ac| == TABLE_SIZE
  {
    DecodeOne(dc, ac, Unstuffed(input, 0), 0, 0).ok
  }

  lemma {:induction false} OverrunStream(dc: Table, ac: Table, x: nat, items: seq<Item>) returns (input: seq<byte>)
    requires Usable(dc) && Usable(ac) && x in dc.spec.symbols && AllCodable(ac, items) && Overruns(items, 1)
    ensures !ReadsInside(dc.codes, ac.codes, input)
  {
    hide FilledTo, Fits, ItemBits, AllBits, Codable, AllCodable, Holds, Additional, Window, Stream, Overruns, AcFrom;
    var it := Item(x, ValueOf(x % 16));
    SymbolCodable(dc, x);
    var bits := ItemBits(dc, it) + AllBits(ac, items);
    input := Stream(bits, []);
    var d := Unstuffed(input, 0);
    StreamHolds(bits, []);
    HoldsParts(d, 0, ItemBits(dc, it), AllBits(ac, items));
    ReadItem(dc, d, 0, it);
    OverrunRead(ac, d, |ItemBits(dc, it)|, items, 1, [it.value] + Zeros(63));
  }

  /** Every stream is read without leaving the block exactly if no sequence of AC symbols, each taking its run and one
      coefficient, jumps from coefficient 1 over coefficient 64. */
  lemma {:induction false} InsideIffNoOverrun(dc: Table, ac: Table)
    requires Usable(dc) && Usable(ac) && Clean(ac) && dc.spec.symbols != []
    ensures (forall input: seq<byte> :: ReadsInside(dc.codes, ac.codes, input)) <==> !CanOverrun(ac.spec.symbols, 1)
  {
    hide FilledTo, Fits, Codable, Overruns, Additional, Window, LooksUp, AcFrom;
    CleanLooksUp(ac);
    if CanOverrun(ac.spec.symbols, 1) {
      var items := OverrunItems(ac, 1);
      var input := OverrunStream(dc, ac, dc.spec.symbols[0], items);
      assert !ReadsInside(dc.codes, ac.codes, input);
    } else {
      forall input: seq<byte> ensures ReadsInside(dc.codes, ac.codes, input) {
        var d := Unstuffed(input, 0);
        var c := dc.codes[Window(d, 0)];
        var p := c.nbits + c.symbol % 16;
        StaysInside(ac.codes, ac.spec.symbols, d, p, 1, [0 + Additional(d, c.nbits, c.symbol % 16)] + Zeros(63));
      }
    }
  }

  /** Four runs of sixteen zeros lead to coefficient 64: a table with that symbol, as the usual ones have, is enough. */
  lemma {:induction false} FourRunsOverrun(dc: Table, ac: Table, x: nat) returns (input: seq<byte>)
    requires Usable(dc) && Usable(ac) && x in dc.spec.symbols && ZRL.symbol in ac.spec.symbols
    ensures CanOverrun(ac.spec.symbols, 1) && !ReadsInside(dc.codes, ac.codes, input)
  {
    hide FilledTo, Fits, CanOverrun, Overruns;
    var items := [ZRL, ZRL, ZRL, ZRL];
    assert Codable(ac, ZRL);
    FourOverrun();
    ItemsShowOverrun(ac, items, 1);
    input := OverrunStream(dc, ac, x, items);
  }

  lemma {:induction false} FourOverrun()
    ensures Overruns([ZRL, ZRL, ZRL, ZRL], 1)
  {
    assert [ZRL, ZRL, ZRL, ZRL][1..] == [ZRL, ZRL, ZRL];
    assert [ZRL, ZRL, ZRL][1..] == [ZRL, ZRL];
    assert [ZRL, ZRL][1..] == [ZRL];
    assert Overruns([ZRL], 49);
    assert Overruns([ZRL, ZRL], 33);
    assert Overruns([ZRL, ZRL, ZRL], 17);
  }

  // ---------------------------------------------------------------------------------------
  // From the table definitions to the blocks

  /** Fills a table that starts with zeros, as the state of the decoder does. */
  method DefineTable(s: Spec) returns (ok: bool, h: Table)
    requires ValidSpec(s) && forall k: nat | k < |s.symbols| :: s.symbols[k] < 256
    ensures ok <==> Fits(s)
    ensures ok ==> h.spec == s && Usable(h) && Clean(h) && Entries(h.codes)
  {
    hide FilledTo, Agrees, Usable, Clean, Entries;
    var table := new Code[TABLE_SIZE](_ => Code(0, 0));
    ghost var before := table[..];
    ok := Expand(table, s);
    h := Table(s, table[..]);
    if ok { Defined(s, before, table[..]); }
  }

  lemma {:induction false} Defined(s: Spec, before: seq<Code>, codes: seq<Code>)
    requires ValidSpec(s) && Fits(s) && FilledTo(s, before, codes, |s.symbols|)
    requires forall k: nat | k < |s.symbols| :: s.symbols[k] < 256
    requires forall w: nat | w < |before| :: before[w] == Code(0, 0)
    ensures Usable(Table(s, codes)) && Clean(Table(s, codes)) && Entries(codes)
  {
    hide Start, Size, Before;
    var h := Table(s, codes);
    ExpandedUsable(s, before, codes);
    forall w: nat | w < TABLE_SIZE ensures codes[w].nbits <= 16 && codes[w].symbol < 256 {
      if w < Start(s.counts, |s.symbols|) {
        var j := BlockOf(s.counts, |s.symbols|, w);
        assert codes[w] == Code(Size(s.counts, j), s.symbols[j]);
      }
    }
  }

  /** Both tables fit the code space, and no stream leaves the block. */
  ghost predicate SafeTables(dc: Spec, ac: Spec) {
    ValidSpec(dc) && ValidSpec(ac) && Fits(dc) && Fits(ac) && !CanOverrun(ac.symbols, 1)
  }

  /** A run of the decoder on two table definitions and the bytes of a scan of n blocks. If the tables fit, it stays
      inside every block unless the AC symbols can overrun; and whenever the bytes are the stuffed encoding of n
      blocks under these tables, whatever follows it, the blocks come back. */
  method DecodeFile(dcSpec: Spec, acSpec: Spec, input: seq<byte>, n: nat)
    returns (fits: bool, ok: bool, blocks: seq<seq<int>>, dc: Table, ac: Table)
    requires ValidSpec(dcSpec) && ValidSpec(acSpec)
    requires forall k: nat | k < |dcSpec.symbols| :: dcSpec.symbols[k] < 256
    requires forall k: nat | k < |acSpec.symbols| :: acSpec.symbols[k] < 256
    ensures fits <==> Fits(dcSpec) && Fits(acSpec)
    ensures fits ==> dc.spec == dcSpec && ac.spec == acSpec && Usable(dc) && Usable(ac)
    ensures if fits then
        var r := DecodeMany(dc.codes, ac.codes, Unstuffed(input, 0), 0, 0, n); blocks == r.blocks && ok == r.ok
      else
        !ok && blocks == []
    ensures SafeTables(dcSpec, acSpec) ==> ok && |blocks| == n
    ensures fits ==> forall zzs, tail | |zzs| == n && ScanEncodable(dc, ac, 0, zzs) &&
      input == Stream(ScanBits(dc, ac, 0, zzs), tail) :: ok && blocks == zzs
  {
    hide Usable, Clean, Fits, ScanEncodable, ScanBits, Stream, Entries, CanOverrun, DecodeMany;
    ok, blocks, ac := false, [], Table(acSpec, []);
    fits, dc := DefineTable(dcSpec);
    if !fits {
      return;
    }
    fits, ac := DefineTable(acSpec);
    if !fits {
      return;
    }
    var bd := new BitDecoder(input);
    blocks, ok := DecodeScan(bd, dc.codes, ac.codes, n);
    if SafeTables(dcSpec, acSpec) { ManyInside(dc, ac, bd.Data(), 0, 0, n); }
    forall zzs, tail | |zzs| == n && ScanEncodable(dc, ac, 0, zzs) && input == Stream(ScanBits(dc, ac, 0, zzs), tail)
      ensures ok && blocks == zzs
    {
      StreamRoundTrip(dc, ac, zzs, tail);
    }
  }

  lemma {:induction false} StreamRoundTrip(dc: Table, ac: Table, zzs: seq<seq<int>>, tail: seq<byte>)
    requires Usable(dc) && Usable(ac) && ScanEncodable(dc, ac, 0, zzs)
    ensures var r := DecodeMany(dc.codes, ac.codes, Unstuffed(Stream(ScanBits(dc, ac, 0, zzs), tail), 0), 0, 0, |zzs|);
      r.ok && r.blocks == zzs
  {
    hide Usable, ScanEncodable, ScanBits, DecodeMany, Stuffed, Packed;
    StuffedRoundTrip(dc, ac, zzs, tail);
  }

  lemma {:induction false} ManyInside(dc: Table, ac: Table, d: seq<byte>, pos: nat, pred: int, n: nat)
    requires Usable(dc) && Usable(ac) && Clean(ac) && !CanOverrun(ac.spec.symbols, 1)
    ensures DecodeMany(dc.codes, ac.codes, d, pos, pred, n).ok &&
      |DecodeMany(dc.codes, ac.codes, d, pos, pred, n).blocks| == n
    decreases n
  {
    hide Additional, Window, AcFrom, LooksUp, CanOverrun, FilledTo, Fits;
    if n > 0 {
      CleanLooksUp(ac);
      var c := dc.codes[Window(d, pos)];
      var p, ssss := pos + c.nbits, c.symbol % 16;
      StaysInside(ac.codes, ac.spec.symbols, d, p + ssss, 1, [pred + Additional(d, p, ssss)] + Zeros(63));
      var b := DecodeOne(dc.codes, ac.codes, d, pos, pred);
      ManyInside(dc, ac, d, b.pos, b.block[0], n - 1);
    }
  }
}
