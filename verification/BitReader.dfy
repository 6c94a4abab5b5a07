/** The bit reader of the JPEG decoder (`bd_*`, Robot/apriltags/common/pjpeg.c): a 32-bit window
    over a byte-stuffed stream. */
module BitReader {
  import opened Arithmetic
  import opened Bits

  type byte = b: int | 0 <= b < 256

  // ---------------------------------------------------------------------------------------
  // Byte stuffing (section B.1.1.5 of ITU-T T.81): a zero byte after each 0xFF

  function Stuffed(bs: seq<byte>): seq<byte> {
    if bs == [] then [] else (if bs[0] == 0xFF then [0xFF, 0] else [bs[0]]) + Stuffed(bs[1..])
  }

  /** The data bytes from position i on. */
  function Unstuffed(s: seq<byte>, i: nat): seq<byte>
    decreases |s| - i
  {
    if i >= |s| then []
    else if s[i] == 0xFF && i + 1 < |s| && s[i + 1] == 0 then [0xFF] + Unstuffed(s, i + 2)
    else [s[i]] + Unstuffed(s, i + 1)
  }

  /** Removing the stuffing gives the bytes back, whatever follows them. */
  lemma {:induction false} UnstuffStuffed(bs: seq<byte>, s: seq<byte>, i: nat)
    requires i + |Stuffed(bs)| <= |s| && s[i..i + |Stuffed(bs)|] == Stuffed(bs)
    ensures Unstuffed(s, i) == bs + Unstuffed(s, i + |Stuffed(bs)|)
    decreases |bs|
  {
    hide Unstuffed;
    if bs != [] {
      var w, rest := if bs[0] == 0xFF then 2 else 1, Stuffed(bs[1..]);
      StuffedAt(bs, s, i);
      hide Stuffed;
      UnstuffStuffed(bs[1..], s, i + w);
      UnstuffOne(s, i);
      assert bs == [bs[0]] + bs[1..];
    }
  }

  /** The first byte of a stuffed string, and what follows it. */
  lemma {:induction false} StuffedAt(bs: seq<byte>, s: seq<byte>, i: nat)
    requires bs != [] && i + |Stuffed(bs)| <= |s| && s[i..i + |Stuffed(bs)|] == Stuffed(bs)
    ensures var w, rest := if bs[0] == 0xFF then 2 else 1, Stuffed(bs[1..]);
      && i + w <= |s| && s[i] == bs[0] && (w == 2 ==> s[i + 1] == 0) && |Stuffed(bs)| == w + |rest|
      && s[i + w..i + w + |rest|] == rest
  {
    var w, rest, all := if bs[0] == 0xFF then 2 else 1, Stuffed(bs[1..]), Stuffed(bs);
    assert all == (if bs[0] == 0xFF then [0xFF, 0] else [bs[0]]) + rest;
    assert s[i..i + |all|][0] == s[i] && (w == 2 ==> s[i..i + |all|][1] == s[i + 1]);
    assert s[i + w..i + w + |rest|] == s[i..i + |all|][w..];
  }

  lemma {:induction false} UnstuffOne(s: seq<byte>, i: nat)
    requires i < |s|
    ensures Unstuffed(s, i) ==
      if s[i] == 0xFF && i + 1 < |s| && s[i + 1] == 0 then [0xFF] + Unstuffed(s, i + 2)
      else [s[i]] + Unstuffed(s, i + 1)
  {}

  /** Bit k of the data bytes, most significant bit of each byte first; after their end, ones. */
  function StreamBit(bs: seq<byte>, k: nat): bool {
    if k / 8 < |bs| then Bit(bs[k / 8], 7 - k % 8) else true
  }

  /** n bits of the stream from position pos on. */
  function Slice(bs: seq<byte>, pos: nat, n: nat): (r: seq<bool>)
    ensures |r| == n
  {
    seq(n, j requires 0 <= j < n => StreamBit(bs, pos + j))
  }

  // ---------------------------------------------------------------------------------------
  // The window

  const WINDOW: nat := 32

  /** One more byte enters a 32-bit window. */
  function Fetch(bits: nat, b: nat): (r: nat)
    ensures r < Pow2(WINDOW)
  {
    (bits * Pow2(8) + b) % Pow2(WINDOW)
  }

  lemma {:induction false} EightBits()
    ensures Pow2(8) == 256
  {
    assert Pow2(4) == 16;
    assert Pow2(6) == 64;
  }

  lemma {:induction false} FetchedBit(bits: nat, b: nat, j: nat)
    requires b < 256 && j < WINDOW
    ensures Bit(Fetch(bits, b), j) == if j < 8 then Bit(b, j) else Bit(bits, j - 8)
  {
    hide Bit, Pow2;
    EightBits();
    MaskedBit(bits * Pow2(8) + b, WINDOW, j);
    ConcatBit(bits, b, 8, j);
  }

  /** A window with avail valid bits keeps all of them when a byte enters. */
  ghost predicate KeepsAll(avail: nat) {
    forall bits: nat, b: nat, j: nat | b < 256 && j < avail :: Bit(Fetch(bits, b), j + 8) == Bit(bits, j)
  }

  lemma {:induction false} KeepsAllLimit(avail: nat)
    ensures KeepsAll(avail) <==> avail + 8 <= WINDOW
  {
    hide Fetch, Bit, Pow2;
    if avail + 8 <= WINDOW {
      forall bits: nat, b: nat, j: nat | b < 256 && j < avail ensures Bit(Fetch(bits, b), j + 8) == Bit(bits, j) {
        FetchedBit(bits, b, j + 8);
      }
    } else {
      var x := Pow2(24);
      TopBit(24);
      HighBitsZero(Fetch(x, 0), WINDOW, 32);
      assert Bit(Fetch(x, 0), 24 + 8) != Bit(x, 24);
    }
  }

  /** The number of valid bits after the refill loop for n bits. */
  function Refilled(avail: nat, n: nat): (r: nat)
    ensures r >= n && r >= avail && (avail >= n ==> r == avail) && (avail < n ==> r < n + 8)
    ensures (r - avail) % 8 == 0
    decreases n - avail
  {
    if avail >= n then avail else Refilled(avail + 8, n)
  }

  /** No fetch of that loop loses a valid bit. */
  ghost predicate KeepsAllFrom(avail: nat, n: nat)
    decreases n - avail
  {
    avail < n ==> KeepsAll(avail) && KeepsAllFrom(avail + 8, n)
  }

  /** The loop loses no valid bit exactly if the bits fit the window in the end. */
  lemma {:induction false} RefillExact(avail: nat, n: nat)
    ensures KeepsAllFrom(avail, n) <==> avail >= n || Refilled(avail, n) <= WINDOW
    decreases n - avail
  {
    hide KeepsAll;
    if avail < n {
      KeepsAllLimit(avail);
      RefillExact(avail + 8, n);
    }
  }

  /** From any number of valid bits, that is so exactly if n is at most 25. */
  lemma {:induction false} RefillLimit(n: nat)
    ensures (forall avail: nat :: KeepsAllFrom(avail, n)) <==> n <= 25
  {
    hide KeepsAllFrom;
    forall avail: nat ensures KeepsAllFrom(avail, n) <==> avail >= n || Refilled(avail, n) <= WINDOW {
      RefillExact(avail, n);
    }
    if n > 25 { assert !KeepsAllFrom(25, n); }
  }

  lemma {:induction false} TopBit(n: nat)
    ensures Bit(Pow2(n), n)
  {
    if n > 0 { TopBit(n - 1); }
  }

  class BitDecoder {
    const input: seq<byte>
    var inpos: nat
    var bits: nat
    var nbitsAvail: nat
    /** Bits consumed so far. */
    ghost var pos: nat

    ghost function Data(): seq<byte> {
      Unstuffed(input, 0)
    }

    /** Bytes put into the window so far, invented ones included. */
    ghost predicate Synced(fetched: nat)
      reads this
    {
      && pos + nbitsAvail == 8 * fetched
      && (if inpos < |input| then fetched <= |Data()| && Unstuffed(input, inpos) == Data()[fetched..]
          else fetched >= |Data()|)
    }

    /** The low nbitsAvail bits of the window are the next bits of the stream. */
    ghost predicate Valid()
      reads this
    {
      && bits < Pow2(WINDOW) && nbitsAvail <= WINDOW && (pos + nbitsAvail) % 8 == 0 && Synced((pos + nbitsAvail) / 8)
      && forall j: nat | j < nbitsAvail :: Bit(bits, j) == StreamBit(Data(), pos + nbitsAvail - 1 - j)
    }

    /** Between the symbols of a scan, which ask for at most sixteen bits. */
    ghost predicate Ready()
      reads this
    {
      Valid() && nbitsAvail < WINDOW
    }

    constructor (input: seq<byte>)
      ensures Valid() && pos == 0 && this.input == input && nbitsAvail == 0
    {
      this.input := input;
      inpos, bits, nbitsAvail, pos := 0, 0, 0, 0;
      new;
      assert Unstuffed(input, 0) == Data()[0..];
    }

    /** n bits can be fetched without losing one, and a shift by the width of the window does not occur. */
    predicate Serves(n: nat)
      reads this
    {
      n < WINDOW && Refilled(nbitsAvail, n) <= WINDOW && Refilled(nbitsAvail, n) - n < WINDOW
    }

    /** Fetches bytes until n bits are available. */
    method Ensure(n: nat)
      requires Valid() && Refilled(nbitsAvail, n) <= WINDOW
      modifies this`inpos, this`bits, this`nbitsAvail
      ensures Valid() && nbitsAvail == Refilled(old(nbitsAvail), n)
    {
      hide Valid;
      while nbitsAvail < n
        invariant Valid() && Refilled(nbitsAvail, n) == Refilled(old(nbitsAvail), n) <= WINDOW
        decreases n + 8 - nbitsAvail
      {
        FetchByte();
      }
    }

    /** One turn of that loop. */
    method FetchByte()
      requires Valid() && nbitsAvail + 8 <= WINDOW
      modifies this`inpos, this`bits, this`nbitsAvail
      ensures Valid() && nbitsAvail == old(nbitsAvail) + 8
    {
      hide Unstuffed, StreamBit, Fetch, Pow2, Bit;
      ghost var f := (pos + nbitsAvail) / 8;
      NextByte(input, inpos, f);
      var next: byte := 0xFF;
      if inpos < |input| {
        next := input[inpos];
        inpos := inpos + 1;
        if next == 0xFF && inpos < |input| && input[inpos] == 0 {
          // a stuffed byte
          inpos := inpos + 1;
        }
      }
      WindowAfter(Data(), bits, nbitsAvail, pos, next);
      bits := Fetch(bits, next);
      nbitsAvail := nbitsAvail + 8;
      assert (pos + nbitsAvail) / 8 == f + 1;
    }

    /** The next n bits, which stay in the window. */
    method PeekBits(n: nat) returns (v: nat)
      requires Valid() && Serves(n)
      modifies this`inpos, this`bits, this`nbitsAvail
      ensures Valid() && v == Pack(Slice(Data(), pos, n)) && nbitsAvail == Refilled(old(nbitsAvail), n)
    {
      hide StreamBit, Unstuffed, Bit, Slice, Pack;
      Ensure(n);
      v := Shr(bits, nbitsAvail - n) % Pow2(n);
      WindowValue(Data(), bits, nbitsAvail, pos, n);
    }

    /** The next n bits, taken out of the window. */
    method ConsumeBits(n: nat) returns (v: nat)
      requires Valid() && Serves(n)
      modifies this
      ensures Valid() && v == Pack(Slice(Data(), old(pos), n)) && pos == old(pos) + n
      ensures nbitsAvail == Refilled(old(nbitsAvail), n) - n
    {
      hide StreamBit, Unstuffed, Bit, Pow2, Slice, Pack;
      v := PeekBits(n);
      nbitsAvail := nbitsAvail - n;
      pos := pos + n;
    }
  }

  /** What the reader finds at inpos. */
  lemma {:induction false} NextByte(input: seq<byte>, inpos: nat, f: nat)
    ensures inpos < |input| && f <= |Unstuffed(input, 0)| && Unstuffed(input, inpos) == Unstuffed(input, 0)[f..] ==>
      var d := Unstuffed(input, 0);
      var next := inpos + if input[inpos] == 0xFF && inpos + 1 < |input| && input[inpos + 1] == 0 then 2 else 1;
      && f < |d| && d[f] == input[inpos]
      && (if next < |input| then Unstuffed(input, next) == d[f + 1..] else f + 1 == |d|)
  {
    var d := Unstuffed(input, 0);
    if inpos < |input| && f <= |d| && Unstuffed(input, inpos) == d[f..] {
      var next: nat := inpos + if input[inpos] == 0xFF && inpos + 1 < |input| && input[inpos + 1] == 0 then 2 else 1;
      var rest := Unstuffed(input, next);
      assert d[f..] == [input[inpos]] + rest;
      assert |d| - f == 1 + |rest|;
      assert d[f] == d[f..][0];
      assert d[f + 1..] == d[f..][1..] == rest;
    }
  }

  lemma {:induction false} WindowAfter(d: seq<byte>, bits: nat, avail: nat, pos: nat, b: byte)
    requires avail + 8 <= WINDOW && (pos + avail) % 8 == 0
    requires forall j: nat | j < avail :: Bit(bits, j) == StreamBit(d, pos + avail - 1 - j)
    requires var f := (pos + avail) / 8; if f < |d| then d[f] == b else b == 0xFF
    ensures Fetch(bits, b) < Pow2(WINDOW)
    ensures forall j: nat | j < avail + 8 :: Bit(Fetch(bits, b), j) == StreamBit(d, pos + avail + 7 - j)
  {
    hide Fetch, Bit, StreamBit, Pow2;
    forall j: nat | j < avail + 8 ensures Bit(Fetch(bits, b), j) == StreamBit(d, pos + avail + 7 - j) {
      FetchedBit(bits, b, j);
      if j < 8 {
        ByteBit(d, b, (pos + avail) / 8, j);
      } else {
        assert Bit(bits, j - 8) == StreamBit(d, pos + avail - 1 - (j - 8));
      }
    }
  }

  lemma {:induction false} ByteBit(d: seq<byte>, b: byte, f: nat, j: nat)
    requires j < 8 && if f < |d| then d[f] == b else b == 0xFF
    ensures StreamBit(d, 8 * f + (7 - j)) == Bit(b, j)
  {
    hide Bit;
    AllOnes(j);
  }

  lemma {:induction false} AllOnes(j: nat)
    requires j < 8
    ensures Bit(0xFF, j)
  {
    assert j == 0 || j == 1 || j == 2 || j == 3 || j == 4 || j == 5 || j == 6 || j == 7;
    assert Bit(1, 0) && Bit(3, 1) && Bit(7, 2) && Bit(15, 3);
    assert Bit(15, 0) && Bit(15, 1) && Bit(15, 2);
    assert Bit(31, 4) && Bit(63, 5) && Bit(127, 6) && Bit(255, 7);
    assert Bit(127, 3) == Bit(63, 2) && Bit(255, 4) == Bit(127, 3) && Bit(255, 3) == Bit(127, 2) &&
      Bit(255, 5) == Bit(127, 4);
    assert Bit(127, 4) == Bit(63, 3) && Bit(255, 6) == Bit(127, 5) && Bit(127, 5) == Bit(63, 4);
  }

  lemma {:induction false} WindowValue(d: seq<byte>, bits: nat, avail: nat, pos: nat, n: nat)
    requires n <= avail && forall j: nat | j < avail :: Bit(bits, j) == StreamBit(d, pos + avail - 1 - j)
    ensures Shr(bits, avail - n) % Pow2(n) == Pack(Slice(d, pos, n))
  {
    var v, w := Shr(bits, avail - n) % Pow2(n), Pack(Slice(d, pos, n));
    forall j: nat | j < n ensures Bit(v, j) == Bit(w, j) {
      MaskedBit(Shr(bits, avail - n), n, j);
      ShiftedBit(bits, avail - n, j);
      PackedBit(Slice(d, pos, n), j);
    }
    SameBits(v, w, n);
  }
}
