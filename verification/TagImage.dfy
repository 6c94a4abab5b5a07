/** Drawing a tag, sampling it bit by bit, and reading it back through the decode table
    (`apriltag_to_image` and the bit order of `quad_decode`, Robot/apriltags/apriltag.c). */
module TagImage {
  import opened Arithmetic
  import opened FiniteSets
  import opened Bits
  import opened TagCode
  import opened TagDecoder

  /** Which data cells of a tag are white, by column and row from the top left. */
  type Cells = (nat, nat) -> bool

  /** The bit of the code that cell (x, y) shows. */
  function BitOfCell(d: nat, x: nat, y: nat): (b: nat)
    requires x < d && y < d
    ensures b < d * d && b == d * d - 1 - (y * d + x)
  {
    Cell(d, d - 1 - y, d - 1 - x)
  }

  ghost function CodeCells(code: nat, d: nat): Cells {
    (x: nat, y: nat) => x < d && y < d && Bit(code, BitOfCell(d, x, y))
  }

  /** The picture turned by a quarter. */
  ghost function TurnedCells(cells: Cells, d: nat): Cells {
    (x: nat, y: nat) => x < d && y < d && cells(y, d - 1 - x)
  }

  ghost function CellTurns(cells: Cells, d: nat, k: nat): Cells {
    if k == 0 then cells else TurnedCells(CellTurns(cells, d, k - 1), d)
  }

  ghost function RowMajor(cells: Cells, d: nat): (bs: seq<bool>)
    ensures |bs| == d * d
  {
    seq(d * d, b requires 0 <= b < d * d => CellSplits(d, b); cells(b % d, b / d))
  }

  /** The word that sampling the cells row by row shifts together. */
  ghost function Word(cells: Cells, d: nat): (w: nat)
    ensures w < Pow2(d * d)
  {
    Pack(RowMajor(cells, d))
  }

  lemma {:induction false} WordBit(cells: Cells, d: nat, x: nat, y: nat)
    requires x < d && y < d
    ensures Bit(Word(cells, d), BitOfCell(d, x, y)) == cells(x, y)
  {
    var b := BitOfCell(d, x, y);
    PackedBit(RowMajor(cells, d), b);
    assert d * d - 1 - b == Cell(d, y, x) by {
      assert (d - 1 - y) * d == d * d - d - y * d;
    }
    CellUnique(d, y, x);
    assert RowMajor(cells, d)[Cell(d, y, x)] == cells(x, y);
  }

  /** Every bit belongs to a cell. */
  lemma {:induction false} CellOfBit(d: nat, b: nat) returns (x: nat, y: nat)
    requires b < d * d
    ensures x < d && y < d && BitOfCell(d, x, y) == b
  {
    CellSplits(d, b);
    x, y := d - 1 - b % d, d - 1 - b / d;
  }

  lemma {:induction false} WordDetermined(cells: Cells, d: nat, w: nat)
    requires w < Pow2(d * d) && forall x: nat, y: nat | x < d && y < d :: Bit(w, BitOfCell(d, x, y)) == cells(x, y)
    ensures w == Word(cells, d)
  {
    forall b: nat | b < d * d ensures Bit(w, b) == Bit(Word(cells, d), b) {
      var x, y := CellOfBit(d, b);
      WordBit(cells, d, x, y);
    }
    SameBits(w, Word(cells, d), d * d);
  }

  /** Sampling a drawn code gives the code back. */
  lemma {:induction false} SampledCode(code: nat, d: nat)
    requires code < Pow2(d * d)
    ensures Word(CodeCells(code, d), d) == code
  {
    WordDetermined(CodeCells(code, d), d, code);
  }

  /** Turning the picture turns the sampled word. */
  lemma {:induction false} SampledTurn(cells: Cells, d: nat)
    ensures Word(TurnedCells(cells, d), d) == Rotated(Word(cells, d), d)
  {
    var w := Word(cells, d);
    forall x: nat, y: nat | x < d && y < d
      ensures Bit(Rotated(w, d), BitOfCell(d, x, y)) == TurnedCells(cells, d)(x, y)
    {
      RotatedCell(w, d, d - 1 - y, d - 1 - x);
      assert Cell(d, x, d - 1 - y) == BitOfCell(d, y, d - 1 - x);
      WordBit(cells, d, y, d - 1 - x);
    }
    WordDetermined(TurnedCells(cells, d), d, Rotated(w, d));
  }

  lemma {:induction false} SampledTurns(code: nat, d: nat, k: nat)
    requires code < Pow2(d * d)
    ensures Word(CellTurns(CodeCells(code, d), d, k), d) == Turns(code, d, k)
  {
    if k == 0 {
      SampledCode(code, d);
    } else {
      SampledTurns(code, d, k - 1);
      SampledTurn(CellTurns(CodeCells(code, d), d, k - 1), d);
    }
  }

  /** The cells, numbered row by row, in which two pictures differ. */
  ghost function Flips(a: Cells, b: Cells, d: nat): set<nat> {
    set i | i in Below(d * d) && RowMajor(a, d)[i] != RowMajor(b, d)[i]
  }

  lemma {:induction false} ReadingBit(a: Cells, d: nat, i: nat)
    requires i < d * d
    ensures Bit(Word(a, d), i) == RowMajor(a, d)[d * d - 1 - i]
  {
    PackedBit(RowMajor(a, d), i);
  }

  /** Each flipped cell is one flipped bit. */
  lemma {:induction false} FlipsAreDistance(a: Cells, b: Cells, d: nat)
    ensures Hamming(Word(a, d), Word(b, d), d * d) == |Flips(a, b, d)|
  {
    hide Word, RowMajor, Bit;
    var n := d * d;
    var f := map i | i in Below(n) :: (n - 1 - i) as nat;
    var s, t := Diff(Word(a, d), Word(b, d), n), Flips(a, b, d);
    forall i: nat | i < n
      ensures Bit(Word(a, d), i) == RowMajor(a, d)[n - 1 - i] && Bit(Word(b, d), i) == RowMajor(b, d)[n - 1 - i]
    {
      ReadingBit(a, d, i);
      ReadingBit(b, d, i);
    }
    InjectionCard(s, t, f);
    forall i | i in t ensures f[i] in s {
      assert n - 1 - (n - 1 - i) == i;
    }
    InjectionCard(t, s, f);
  }

  /** A drawn family code, turned k times and with at most t cells flipped, decodes to its id,
      the number of flipped cells, and the turns missing to four, unless it has become 8 by 8 cells all white. */
  lemma {:induction false} PictureDecodes(codes: seq<nat>, d: nat, t: nat, cells: Cells, id: nat, k: nat, e: Entry)
    requires IsFamily(codes, d) && SeparatedTurns(codes, d, t) && id < |codes| && k < 4
    requires |Flips(cells, CellTurns(CodeCells(codes[id], d), d, k), d)| <= t
    requires IsAnswer(codes, d, t, Word(cells, d), e)
    ensures Word(cells, d) != Marker() ==>
      && e.id == id && e.rotation == (4 - k) % 4
      && e.hamming == |Flips(cells, CellTurns(CodeCells(codes[id], d), d, k), d)|
    ensures Word(cells, d) == Marker() ==> e.hamming == 255 && e.id == 65535
  {
    hide Marker, Hamming;
    var turned := CellTurns(CodeCells(codes[id], d), d, k);
    FlipsAreDistance(cells, turned, d);
    SampledTurns(codes[id], d, k);
    DecodesTurnedCode(codes, d, t, Word(cells, d), id, k, e);
  }

  // ---------------------------------------------------------------------------------------
  // Images

  const WHITE: int := 255

  /** A white ring one pixel wide, a black border, and the data cells. */
  method ToImage(code: nat, d: nat, blackBorder: nat) returns (im: array2<int>)
    requires code < Pow2(d * d)
    ensures fresh(im) && im.Length0 == im.Length1 == d + 2 * (blackBorder + 1)
    ensures ShowsGrid(im, blackBorder + 1, d, 128, CodeCells(code, d))
    ensures forall x: nat, y: nat {:trigger BitOfCell(d, x, y)} | x < d && y < d ::
      im[blackBorder + 1 + y, blackBorder + 1 + x] == if Bit(code, BitOfCell(d, x, y)) then 255 else 0
    ensures forall y, x | 0 <= y < im.Length0 && 0 <= x < im.Length1 &&
                          !(blackBorder + 1 <= x < blackBorder + 1 + d && blackBorder + 1 <= y < blackBorder + 1 + d) ::
              im[y, x] == if x == 0 || y == 0 || x == im.Length1 - 1 || y == im.Length0 - 1 then 255 else 0
  {
    var border := blackBorder + 1;
    var dim := d + 2 * border;
    im := new int[dim, dim]((y, x) => 0);
    var i := 0;
    while i < dim
      invariant 0 <= i <= dim
      invariant forall y, x | 0 <= y < dim && 0 <= x < dim ::
        im[y, x] == if ((y == 0 || y == dim - 1) && x < i) || ((x == 0 || x == dim - 1) && y < i) then WHITE else 0
    {
      im[0, i] := WHITE;
      im[dim - 1, i] := WHITE;
      im[i, 0] := WHITE;
      im[i, dim - 1] := WHITE;
      i := i + 1;
    }
    var y: nat := 0;
    while y < d
      invariant y <= d && im.Length0 == im.Length1 == dim
      invariant forall v, u | 0 <= v < dim && 0 <= u < dim :: im[v, u] == Painted(code, d, border, v, u, y, 0)
    {
      var x: nat := 0;
      while x < d
        invariant x <= d && im.Length0 == im.Length1 == dim
        invariant forall v, u | 0 <= v < dim && 0 <= u < dim :: im[v, u] == Painted(code, d, border, v, u, y, x)
      {
        var pos := BitOfCell(d, x, y);
        if Bit(code, pos) {
          im[y + border, x + border] := WHITE;
        }
        x := x + 1;
      }
      y := y + 1;
    }
  }

  /** Pixel (u, v) once the cells before column x of row y have been painted. */
  ghost function Painted(code: nat, d: nat, border: nat, v: int, u: int, y: nat, x: nat): int {
    var dim := d + 2 * border;
    if u == 0 || v == 0 || u == dim - 1 || v == dim - 1 then WHITE
    else if border <= u < border + d && border <= v < border + d
         && (v - border < y || (v - border == y && u - border < x))
         && Bit(code, BitOfCell(d, u - border, v - border)) then WHITE
    else 0
  }

  /** The data cells, one pixel each, against a threshold. */
  ghost predicate ShowsGrid(im: array2<int>, border: nat, d: nat, thresh: int, cells: Cells)
    reads im
  {
    && im.Length0 >= border + d && im.Length1 >= border + d
    && forall x: nat, y: nat {:trigger cells(x, y)} | x < d && y < d ::
         cells(x, y) == (im[border + y, border + x] > thresh)
  }

  // ---------------------------------------------------------------------------------------
  // Sampling a quad in a camera image. project maps tag coordinates, which reach from -1 to 1, to image coordinates;
  // thresh is the level between black and white at a point of the tag.

  type Projection = (real, real) -> (real, real)
  type Level = (real, real) -> real

  /** Tag coordinate of the middle of column or row k of the data cells: of 2 * blackBorder + d columns from -1 to 1,
      the data cells are the d in the middle. */
  ghost function Position(d: nat, blackBorder: nat, k: nat): real
    requires d > 0
  {
    (2 * k + 1 - d) as real / (2 * blackBorder + d) as real
  }

  /** The same as the code computes it. */
  function Middle(d: nat, blackBorder: nat, k: nat): real
    requires d > 0
  {
    2.0 * ((blackBorder as real + k as real + 0.5) / (2 * blackBorder + d) as real - 0.5)
  }

  lemma {:induction false} MiddleIsPosition(d: nat, blackBorder: nat, k: nat)
    requires d > 0
    ensures Middle(d, blackBorder, k) == Position(d, blackBorder, k)
  {
    var n, a := (2 * blackBorder + d) as real, blackBorder as real + k as real + 0.5;
    assert Middle(d, blackBorder, k) * n == 2.0 * a - n;
    assert (2 * k + 1 - d) as real == 2.0 * a - n;
  }

  /** Conversion to an integer drops the fraction, towards zero. */
  function Truncate(x: real): (i: int)
    ensures x >= 0.0 ==> i as real <= x < i as real + 1.0
    ensures x <= 0.0 ==> i as real - 1.0 < x <= i as real
  {
    if x >= 0.0 then x.Floor else -(-x).Floor
  }

  /** Whether the sample for cell (x, y) is white; outside the image it is not. */
  ghost predicate SampledWhite(im: array2<int>, project: Projection, thresh: Level, blackBorder: nat, d: nat, x: nat,
                               y: nat)
    requires d > 0
    reads im
  {
    var tagx, tagy := Position(d, blackBorder, x), Position(d, blackBorder, y);
    var p := project(tagx, tagy);
    var ix, iy := Truncate(p.0), Truncate(p.1);
    && 0 <= ix < im.Length1 && 0 <= iy < im.Length0
    && im[iy, ix] as real > thresh(tagx, tagy)
  }

  /** What the image shows in the cells. */
  ghost predicate ShowsCells(im: array2<int>, project: Projection, thresh: Level, blackBorder: nat, d: nat,
                             cells: Cells)
    requires d > 0
    reads im
  {
    forall x: nat, y: nat | x < d && y < d :: cells(x, y) == SampledWhite(im, project, thresh, blackBorder, d, x, y)
  }

  /** One sample. */
  method SampleCell(im: array2<int>, project: Projection, thresh: Level, blackBorder: nat, d: nat, x: nat, y: nat)
    returns (white: bool)
    requires d > 0
    ensures white == SampledWhite(im, project, thresh, blackBorder, d, x, y)
  {
    hide Middle, Position, Truncate;
    MiddleIsPosition(d, blackBorder, x);
    MiddleIsPosition(d, blackBorder, y);
    var tagx, tagy := Middle(d, blackBorder, x), Middle(d, blackBorder, y);
    var p := project(tagx, tagy);
    var ix, iy := Truncate(p.0), Truncate(p.1);
    white := 0 <= ix < im.Length1 && 0 <= iy < im.Length0 && im[iy, ix] as real > thresh(tagx, tagy);
  }

  /** The sampling loop. */
  method Sample(im: array2<int>, project: Projection, thresh: Level, blackBorder: nat, d: nat, ghost cells: Cells)
    returns (rcode: nat)
    requires 1 <= d <= 8 && ShowsCells(im, project, thresh, blackBorder, d, cells)
    ensures rcode == Word(cells, d)
  {
    hide RowMajor, Pack, Pow2, SampledWhite;
    rcode := 0;
    ghost var bs := RowMajor(cells, d);
    PackNothing(bs);
    SmallSquare(d);
    var bitidx: nat := 0;
    while bitidx < d * d
      invariant bitidx <= d * d && rcode == Pack(bs[..bitidx])
    {
      SampleStep(bs, bitidx, rcode);
      RowMajorAt(cells, d, bitidx);
      var bitx: nat, bity: nat := bitidx % d, bitidx / d;
      rcode := (rcode * 2) % Pow2(64);
      var white := SampleCell(im, project, thresh, blackBorder, d, bitx, bity);
      assert cells(bitx, bity) == white;
      if white {
        rcode := rcode + 1;
      }
      bitidx := bitidx + 1;
    }
    assert bs[..d * d] == bs;
  }

  /** Seen straight on, one cell to a pixel, with the white ring around it. */
  function StraightOn(blackBorder: nat, d: nat): Projection {
    (tagx: real, tagy: real) => (Spread(tagx, 2 * blackBorder + d), Spread(tagy, 2 * blackBorder + d))
  }

  function Spread(t: real, n: nat): real {
    (t / 2.0 + 0.5) * n as real + 1.0
  }

  function Constant(v: int): Level {
    (tagx: real, tagy: real) => v as real
  }

  lemma {:induction false} StraightPosition(d: nat, blackBorder: nat, k: nat)
    requires d > 0
    ensures Truncate(Spread(Position(d, blackBorder, k), 2 * blackBorder + d)) == blackBorder + 1 + k
  {
    var n := (2 * blackBorder + d) as real;
    assert Position(d, blackBorder, k) * n == (2 * k + 1 - d) as real;
    assert (Position(d, blackBorder, k) / 2.0 + 0.5) * n == Position(d, blackBorder, k) * n / 2.0 + n / 2.0;
    assert Spread(Position(d, blackBorder, k), 2 * blackBorder + d) == (blackBorder + k) as real + 1.5;
  }

  lemma {:induction false} StraightPixel(d: nat, blackBorder: nat, x: nat, y: nat)
    requires d > 0
    ensures var p := StraightOn(blackBorder, d)(Position(d, blackBorder, x), Position(d, blackBorder, y));
      Truncate(p.0) == blackBorder + 1 + x && Truncate(p.1) == blackBorder + 1 + y
  {
    hide Position, Truncate, Spread;
    StraightPosition(d, blackBorder, x);
    StraightPosition(d, blackBorder, y);
  }

  /** A picture one pixel to a cell within a border, seen straight on, shows the cells whose pixel is above the level at
      the middle of that cell, however the level varies over the tag. */
  lemma {:induction false} DrawnIsShown(im: array2<int>, blackBorder: nat, d: nat, thresh: Level, cells: Cells)
    requires d > 0 && im.Length0 >= blackBorder + 1 + d && im.Length1 >= blackBorder + 1 + d
    requires forall x: nat, y: nat {:trigger cells(x, y)} | x < d && y < d ::
      cells(x, y) == (im[blackBorder + 1 + y, blackBorder + 1 + x] as real >
        thresh((2 * x + 1 - d) as real / (2 * blackBorder + d) as real,
               (2 * y + 1 - d) as real / (2 * blackBorder + d) as real))
    ensures ShowsCells(im, StraightOn(blackBorder, d), thresh, blackBorder, d, cells)
  {
    hide Truncate, StraightOn;
    forall x: nat, y: nat | x < d && y < d
      ensures cells(x, y) == SampledWhite(im, StraightOn(blackBorder, d), thresh, blackBorder, d, x, y)
    {
      StraightPixel(d, blackBorder, x, y);
    }
  }

  /** With one level everywhere. */
  lemma {:induction false} GridIsShown(im: array2<int>, blackBorder: nat, d: nat, thresh: int, cells: Cells)
    requires d > 0 && ShowsGrid(im, blackBorder + 1, d, thresh, cells)
    ensures ShowsCells(im, StraightOn(blackBorder, d), Constant(thresh), blackBorder, d, cells)
  {
    hide ShowsCells;
    DrawnIsShown(im, blackBorder, d, Constant(thresh), cells);
  }

  lemma {:induction false} PackNothing(bs: seq<bool>)
    ensures Pack(bs[..0]) == 0
  {}

  lemma {:induction false} SampleStep(bs: seq<bool>, b: nat, rcode: nat)
    requires b < |bs| <= 64 && rcode == Pack(bs[..b])
    ensures (rcode * 2) % Pow2(64) == rcode * 2
    ensures Pack(bs[..b + 1]) == rcode * 2 + if bs[b] then 1 else 0
  {
    hide Pack;
    ShiftFits(rcode, b);
    PackAppend(bs[..b], bs[b]);
    assert bs[..b + 1] == bs[..b] + [bs[b]];
  }

  lemma {:induction false} RowMajorAt(cells: Cells, d: nat, b: nat)
    requires b < d * d
    ensures d > 0 && b / d < d && b % d < d && RowMajor(cells, d)[b] == cells(b % d, b / d)
  {
    CellSplits(d, b);
  }

  /** Samples a tag and decodes it. Whatever family code was drawn, turned and damaged in at most t cells, its id, its
      turn and the damage are recovered, unless the picture has become 8 by 8 cells all white. */
  method ReadTag(qd: QuickDecode, ghost codes: seq<nat>, im: array2<int>, project: Projection, thresh: Level,
                 blackBorder: nat, d: nat, ghost t: nat, ghost cells: Cells) returns (entry: Entry)
    requires qd.Valid() && IsFamily(codes, d) && SeparatedTurns(codes, d, t)
    requires forall e :: e in qd.added <==> InTable(codes, d * d, t, e)
    requires ShowsCells(im, project, thresh, blackBorder, d, cells)
    ensures Word(cells, d) != Marker() ==>
      forall id, k: nat | 0 <= id < |codes| && k < 4 && Damage(codes, d, cells, id, k) <= t ::
        entry.id == id && entry.rotation == (4 - k) % 4 && entry.hamming == Damage(codes, d, cells, id, k)
  {
    hide TableOk, InTable, SeparatedTurns, ShowsCells, IsAnswer, Flips, Marker;
    var rcode := Sample(im, project, thresh, blackBorder, d, cells);
    entry := QuickDecodeCodeword(qd, codes, d, t, rcode);
    if Word(cells, d) != Marker() {
      forall id, k: nat | 0 <= id < |codes| && k < 4 && Damage(codes, d, cells, id, k) <= t
        ensures entry.id == id && entry.rotation == (4 - k) % 4 && entry.hamming == Damage(codes, d, cells, id, k)
      {
        PictureDecodes(codes, d, t, cells, id, k, entry);
      }
    }
  }

  /** The number of cells in which a picture differs from a family code turned k times. */
  ghost function Damage(codes: seq<nat>, d: nat, cells: Cells, id: nat, k: nat): nat
    requires id < |codes|
  {
    |Flips(cells, CellTurns(CodeCells(codes[id], d), d, k), d)|
  }

  /** Draws family code id and reads the picture back. */
  method DrawAndRead(qd: QuickDecode, ghost codes: seq<nat>, code: nat, ghost id: nat, d: nat, ghost t: nat,
                     blackBorder: nat) returns (entry: Entry)
    requires qd.Valid() && IsFamily(codes, d) && SeparatedTurns(codes, d, t)
    requires forall e :: e in qd.added <==> InTable(codes, d * d, t, e)
    requires id < |codes| && code == codes[id]
    ensures code != Marker() ==> entry.id == id && entry.rotation == 0 && entry.hamming == 0
  {
    hide TableOk, InTable, SeparatedTurns, ShowsCells, ShowsGrid, IsAnswer, Marker, Flips, Word, CodeCells;
    var im := ToImage(code, d, blackBorder);
    ghost var cells := CodeCells(code, d);
    GridIsShown(im, blackBorder, d, 128, cells);
    entry := ReadTag(qd, codes, im, StraightOn(blackBorder, d), Constant(128), blackBorder, d, t, cells);
    SampledCode(code, d);
    Undamaged(codes, d, id);
  }

  lemma {:induction false} Undamaged(codes: seq<nat>, d: nat, id: nat)
    requires id < |codes|
    ensures Damage(codes, d, CodeCells(codes[id], d), id, 0) == 0
  {
    assert Flips(CodeCells(codes[id], d), CellTurns(CodeCells(codes[id], d), d, 0), d) == {};
  }
}
