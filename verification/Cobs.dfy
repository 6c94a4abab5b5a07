/** Consistent overhead byte stuffing, in place, as Robot/include/Packet.h does it. */
module Cobs {

  type byte = b: int | 0 <= b < 256

  // ---------------------------------------------------------------------------------------
  // The encoding: a message and a final zero, cut after every zero; each piece is sent as its
  // length followed by its non-zero bytes

  ghost predicate Terminated(s: seq<byte>) {
    s == [] || s[|s| - 1] == 0
  }

  /** Position of the first zero at i or later. */
  function NextZero(s: seq<byte>, i: nat): (z: nat)
    requires i < |s| && s[|s| - 1] == 0
    ensures i <= z < |s| && s[z] == 0 && forall k | i <= k < z :: s[k] != 0
    decreases |s| - i
  {
    if s[i] == 0 then i else NextZero(s, i + 1)
  }

  function Sections(s: seq<byte>): (r: seq<byte>)
    requires |s| <= 255 && (s == [] || s[|s| - 1] == 0)
    ensures |r| == |s|
  {
    if s == [] then []
    else
      var z := NextZero(s, 0);
      [z + 1] + s[..z] + Sections(s[z + 1..])
  }

  function Encoded(m: seq<byte>): (r: seq<byte>)
    requires |m| <= 254
    ensures |r| == |m| + 2
  {
    Sections(m + [0]) + [0]
  }

  lemma {:induction false} NextZeroShift(s: seq<byte>, k: nat, i: nat)
    requires k <= i < |s| && s[|s| - 1] == 0
    ensures NextZero(s, i) == k + NextZero(s[k..], i - k)
  {
    var z := NextZero(s[k..], i - k);
    assert s[k..][z] == s[k + z];
    var y := NextZero(s, i);
    assert s[k..][y - k] == s[y];
  }

  lemma {:induction false} NextZeroAppend(a: seq<byte>, b: seq<byte>)
    requires a != [] && Terminated(a) && Terminated(b)
    ensures (a + b)[|a + b| - 1] == 0 && NextZero(a + b, 0) == NextZero(a, 0)
  {
    var z := NextZero(a, 0);
    assert (a + b)[z] == 0;
    assert forall k | 0 <= k < z :: (a + b)[k] == a[k];
  }

  lemma {:induction false} SectionsUnfold(s: seq<byte>)
    requires 1 <= |s| <= 255 && s[|s| - 1] == 0
    ensures Sections(s) == [NextZero(s, 0) + 1] + s[..NextZero(s, 0)] + Sections(s[NextZero(s, 0) + 1..])
  {}

  lemma {:induction false} SectionsEmpty()
    ensures Sections([]) == []
  {}

  lemma {:induction false} SectionsAppend(a: seq<byte>, b: seq<byte>)
    requires |a| + |b| <= 255 && Terminated(a) && Terminated(b)
    ensures Terminated(a + b) && Sections(a + b) == Sections(a) + Sections(b)
    decreases |a|
  {
    hide Sections, NextZero;
    if a == [] {
      assert a + b == b;
      SectionsEmpty();
    } else {
      NextZeroAppend(a, b);
      var z := NextZero(a, 0);
      CutTerminated(a, z);
      SectionsAppend(a[z + 1..], b);
      SectionsUnfold(a);
      SectionsUnfold(a + b);
      CutAppend(a, b, z);
      Glue([z + 1] + a[..z], Sections(a[z + 1..]), Sections(b));
    }
  }

  lemma {:induction false} CutTerminated(a: seq<byte>, z: nat)
    requires Terminated(a) && z < |a|
    ensures Terminated(a[z + 1..]) && |a[z + 1..]| < |a|
  {
    var rest := a[z + 1..];
    assert rest == [] || rest[|rest| - 1] == a[|a| - 1];
  }

  lemma {:induction false} CutAppend(a: seq<byte>, b: seq<byte>, z: nat)
    requires z < |a|
    ensures (a + b)[..z] == a[..z] && (a + b)[z + 1..] == a[z + 1..] + b
  {}

  lemma {:induction false} Glue(head: seq<byte>, x: seq<byte>, y: seq<byte>)
    ensures head + (x + y) == head + x + y
  {}

  /** One piece. */
  lemma {:induction false} SectionsSingle(s: seq<byte>)
    requires 1 <= |s| <= 255 && s[|s| - 1] == 0 && forall k | 0 <= k < |s| - 1 :: s[k] != 0
    ensures Sections(s) == [|s|] + s[..|s| - 1]
  {
    assert NextZero(s, 0) == |s| - 1;
    assert s[|s|..] == [];
  }

  lemma {:induction false} RestAt(a: seq<byte>, b: seq<byte>, k: nat)
    requires |a| <= k < |a| + |b|
    ensures (a + b)[k] == b[k - |a|]
  {}

  lemma {:induction false} RestEnds(s: seq<byte>, z: nat)
    requires z + 1 < |s| && s[|s| - 1] == 0
    ensures var rest := s[z + 1..]; |rest| == |s| - z - 1 && rest[|rest| - 1] == 0
  {}

  /** What follows position i in the encoding: the byte itself, or after a zero the length of the
      next piece. */
  lemma {:induction false} SectionsAt(s: seq<byte>, i: nat)
    requires i < |s| <= 255 && s[|s| - 1] == 0
    ensures Sections(s)[0] == NextZero(s, 0) + 1
    ensures i + 1 < |s| ==> Sections(s)[i + 1] == if s[i] != 0 then s[i] else NextZero(s, i + 1) - i
    decreases |s|
  {
    hide Sections, NextZero;
    SectionsUnfold(s);
    var z := NextZero(s, 0);
    var rest := s[z + 1..];
    if i >= z && i + 1 < |s| {
      RestAt([z + 1] + s[..z], Sections(rest), i + 1);
      RestEnds(s, z);
      SectionsAt(rest, if i == z then 0 else i - z - 1);
      NextZeroShift(s, z + 1, i + 1);
      assert i > z ==> rest[i - z - 1] == s[i];
    }
  }

  /** The only zero byte of an encoded message is its last. */
  lemma {:induction false} EncodedHasOneZero(m: seq<byte>)
    requires |m| <= 254
    ensures forall i | 0 <= i < |Encoded(m)| :: Encoded(m)[i] == 0 <==> i == |m| + 1
  {
    var s := m + [0];
    forall i | 0 <= i < |s| ensures Sections(s)[i] != 0 {
      if i == 0 { SectionsAt(s, 0); } else { SectionsAt(s, i - 1); }
    }
  }

  // ---------------------------------------------------------------------------------------
  // The encoder

  /** One past the last zero. */
  function LastSection(s: seq<byte>): (h: nat)
    ensures h <= |s| && Terminated(s[..h]) && forall k | h <= k < |s| :: s[k] != 0
  {
    if s == [] then 0
    else if s[|s| - 1] == 0 then |s|
    else
      var h := LastSection(s[..|s| - 1]);
      assert s[..|s| - 1][..h] == s[..h];
      assert forall k | h <= k < |s| - 1 :: s[..|s| - 1][k] == s[k];
      h
  }

  /** What the encoder leaves in the buffer for the bytes s, the last of which should be zero:
      pieces up to the last zero, the rest as it was, and a zero. */
  function EncodedBuffer(s: seq<byte>): (r: seq<byte>)
    requires |s| <= 255
    ensures |r| == |s| + 1
  {
    var h := LastSection(s);
    Sections(s[..h]) + s[h..] + [0]
  }

  lemma {:induction false} LastSectionUnique(s: seq<byte>, h: nat)
    requires h <= |s| && Terminated(s[..h]) && forall k | h <= k < |s| :: s[k] != 0
    ensures LastSection(s) == h
  {
    var g := LastSection(s);
    assert g > 0 ==> s[..g][g - 1] == s[g - 1];
    assert h > 0 ==> s[..h][h - 1] == s[h - 1];
  }

  lemma {:induction false} EncodedBufferTerminated(m: seq<byte>)
    requires |m| <= 254
    ensures EncodedBuffer(m + [0]) == Encoded(m)
  {
    var s := m + [0];
    assert s[..|s|] == s && s[|s|..] == [];
    LastSectionUnique(s, |s|);
  }

  /** The buffer once the pieces before h have been encoded. */
  ghost predicate Progress(s: seq<byte>, whole: seq<byte>, b: seq<byte>, h: nat, i: nat) {
    && |s| <= 255 && |whole| >= |s| && s == whole[..|s|] && h <= i <= |s| && Terminated(s[..h])
    && (forall k | h <= k < i :: s[k] != 0) && b == Sections(s[..h]) + whole[h..]
  }

  lemma {:induction false} ProgressByte(s: seq<byte>, whole: seq<byte>, b: seq<byte>, h: nat, i: nat)
    requires Progress(s, whole, b, h, i) && i < |s|
    ensures i < |b| && b[i] == s[i] && |b| == |whole| && h <= i && |s| <= 255
    ensures s[i] != 0 ==> Progress(s, whole, b, h, i + 1)
  {}

  /** The bytes of a buffer that consists of done and the rest of whole, with one byte inserted and one dropped. */
  lemma {:induction false} SlicesOfCode(done: seq<byte>, whole: seq<byte>, b: seq<byte>, b': seq<byte>, h: nat, i: nat)
    requires |done| == h <= i < |whole| && b == done + whole[h..] && i - h < 255
    requires b' == b[..h] + [i - h + 1] + b[h..i] + b[i + 1..]
    ensures b' == done + [i - h + 1] + whole[h..i] + whole[i + 1..]
  {
    assert b[..h] == done && b[h..i] == whole[h..i] && b[i + 1..] == whole[i + 1..];
  }

  lemma {:induction false} SlicesOfWhole(s: seq<byte>, whole: seq<byte>, h: nat, i: nat)
    requires h <= i < |s| <= |whole| && s == whole[..|s|]
    ensures s[h..i] == whole[h..i]
  {}

  lemma {:induction false} ConcatThree(a: seq<byte>, b: seq<byte>, c: seq<byte>, d: seq<byte>)
    ensures a + b + c + d == (a + b + c) + d
  {}

  lemma {:induction false} ProgressPiece(s: seq<byte>, whole: seq<byte>, b: seq<byte>, b': seq<byte>, h: nat, i: nat)
    requires Progress(s, whole, b, h, i) && i < |s| && s[i] == 0
    requires b' == b[..h] + [i - h + 1] + b[h..i] + b[i + 1..]
    ensures Progress(s, whole, b', i + 1, i + 1)
  {
    hide Sections;
    PieceAppends(s, h, i);
    SlicesOfCode(Sections(s[..h]), whole, b, b', h, i);
    SlicesOfWhole(s, whole, h, i);
    ConcatThree(Sections(s[..h]), [i - h + 1], s[h..i], whole[i + 1..]);
  }

  lemma {:induction false} ProgressDone(s: seq<byte>, whole: seq<byte>, b: seq<byte>, h: nat)
    requires Progress(s, whole, b, h, |s|) && |whole| > |s|
    ensures |b| == |whole| && b[|s| := 0][..|s| + 1] == EncodedBuffer(s) && b[|s| := 0][|s| + 1..] == whole[|s| + 1..]
  {
    hide Sections;
    LastSectionUnique(s, h);
    var c := b[|s| := 0];
    assert c[..|s| + 1] == c[..|s|] + [0];
    assert c[..|s|] == Sections(s[..h]) + s[h..];
    SameTail(b, |s|);
    assert b == Sections(s[..h]) + whole[h..];
    TailOf(Sections(s[..h]), whole, h, |s| + 1);
  }

  lemma {:induction false} SameTail(b: seq<byte>, k: nat)
    requires k < |b|
    ensures b[k := 0][k + 1..] == b[k + 1..]
  {}

  lemma {:induction false} TailOf(done: seq<byte>, whole: seq<byte>, h: nat, k: nat)
    requires |done| == h <= k <= |whole|
    ensures (done + whole[h..])[k..] == whole[k..]
  {}

  /** The loop of the encoder between two turns: its counters are one byte wide. */
  datatype Loop = Loop(i: byte, secHd: byte, buffer: seq<byte>)

  ghost predicate Running(t: Loop, length: byte) {
    t.i <= length
  }

  ghost predicate Fit(t: Loop, length: byte) {
    |t.buffer| > length && (Running(t, length) ==> t.secHd <= length)
  }

  /** The bytes from h up to i moved one place up, with the length of the piece before them. */
  function WithCode(b: seq<byte>, h: nat, i: nat): (r: seq<byte>)
    requires h < |b| && i < |b|
    ensures |r| == |b|
  {
    if h <= i then b[..h] + [(i - h + 1) % 256] + b[h..i] + b[i + 1..] else b[h := (i - h + 1) % 256]
  }

  /** One turn, and the counter stepped on. */
  ghost function Turn(t: Loop, length: byte): (r: Loop)
    requires Fit(t, length) && Running(t, length)
    ensures Fit(r, length) && |r.buffer| == |t.buffer| && r.i == (t.i + 1) % 256
  {
    var next := (t.i + 1) % 256;
    if t.buffer[t.i] == 0 then Loop(next, next, WithCode(t.buffer, t.secHd, t.i)) else Loop(next, t.secHd, t.buffer)
  }

  /** After n turns, or where the loop has ended before. */
  ghost function Turns(t: Loop, length: byte, n: nat): (r: Loop)
    requires Fit(t, length)
    ensures Fit(r, length) && |r.buffer| == |t.buffer|
  {
    if n == 0 then t
    else
      var r := Turns(t, length, n - 1);
      if Running(r, length) then Turn(r, length) else r
  }

  function Start(b: seq<byte>): Loop {
    Loop(0, 0, b)
  }

  /** The loop ends exactly if the length is not 255, whatever the buffer holds. */
  lemma {:induction false} LoopEnds(b: seq<byte>, length: byte)
    requires |b| > length
    ensures (exists n: nat :: !Running(Turns(Start(b), length, n), length)) <==> length < 255
  {
    hide Turns;
    TurnsCount(b, length, length + 1);
  }

  lemma {:induction false} TurnsCount(b: seq<byte>, length: byte, n: nat)
    requires |b| > length && n <= length + 1
    ensures Turns(Start(b), length, n).i == n % 256
  {
    hide Turn, Turns;
    if n > 0 {
      TurnsCount(b, length, n - 1);
      TurnsNext(Start(b), length, n - 1);
    } else {
      TurnsNone(Start(b), length);
    }
  }

  lemma {:induction false} TurnsNone(t: Loop, length: byte)
    requires Fit(t, length)
    ensures Turns(t, length, 0) == t
  {}

  lemma {:induction false} TurnsNext(t: Loop, length: byte, n: nat)
    requires Fit(t, length) && Running(Turns(t, length, n), length)
    ensures Turns(t, length, n + 1) == Turn(Turns(t, length, n), length)
  {
    hide Turn, Fit;
  }

  /** Encodes length bytes followed by a zero. */
  method EncodeCOBS(buffer: array<byte>, length: nat) returns (n: nat)
    requires length <= 254 && buffer.Length >= length + 2
    modifies buffer
    ensures n == length + 2
    ensures buffer[..n] == EncodedBuffer(old(buffer[..length + 1]))
    ensures buffer[n..] == old(buffer[n..])
    ensures buffer[..] == Turns(Start(old(buffer[..])), length, length + 1).buffer[length + 1 := 0]
  {
    hide Progress, EncodedBuffer, Sections, LastSection, Turn;
    ghost var whole, s := buffer[..], buffer[..length + 1];
    StartProgress(s, whole);
    var secHd: nat := 0;
    var i: nat := 0;
    while i <= length
      invariant i <= length + 1 && |s| == length + 1 && |whole| == buffer.Length
      invariant Progress(s, whole, buffer[..], secHd, i)
      invariant secHd <= i && Turns(Start(whole), length, i) == Loop(i, secHd, buffer[..])
    {
      secHd := EncodeByte(buffer, secHd, i, length, s, whole);
      i := i + 1;
    }
    ghost var b := buffer[..];
    ProgressDone(s, whole, b, secHd);
    buffer[length + 1] := 0;
    n := length + 2;
    TwoParts(buffer[..], b[length + 1 := 0], n);
    assert whole[|s| + 1..] == old(buffer[length + 2..]);
  }

  lemma {:induction false} TwoParts(b: seq<byte>, c: seq<byte>, n: nat)
    requires b == c && n <= |b|
    ensures b[..n] == c[..n] && b[n..] == c[n..]
  {}

  /** One turn of the loop. */
  method EncodeByte(buffer: array<byte>, secHd: nat, i: nat, ghost length: byte, ghost s: seq<byte>,
                    ghost whole: seq<byte>)
    returns (next: nat)
    requires i < |s| && Progress(s, whole, buffer[..], secHd, i)
    requires secHd <= i <= length < 255 && buffer.Length > length
    modifies buffer
    ensures next <= i + 1 && Progress(s, whole, buffer[..], next, i + 1)
    ensures Loop(i + 1, next, buffer[..]) == Turn(Loop(i, secHd, old(buffer[..])), length)
  {
    hide Progress, Sections, Turn, WithCode;
    ghost var b := buffer[..];
    ProgressByte(s, whole, b, secHd, i);
    TurnIs(b, secHd, i, length);
    assert b[i] == buffer[i];
    next := secHd;
    if buffer[i] == 0 {
      InsertCode(buffer, secHd, i);
      ProgressPiece(s, whole, b, buffer[..], secHd, i);
      next := i + 1;
    }
  }

  lemma {:induction false} TurnIs(b: seq<byte>, h: nat, i: nat, length: byte)
    requires h <= i <= length < 255 && |b| > length
    ensures Turn(Loop(i, h, b), length) ==
      if b[i] == 0 then Loop(i + 1, i + 1, b[..h] + [i - h + 1] + b[h..i] + b[i + 1..]) else Loop(i + 1, h, b)
  {}

  lemma {:induction false} StartProgress(s: seq<byte>, whole: seq<byte>)
    requires |s| <= 255 && |s| <= |whole| && s == whole[..|s|]
    ensures Progress(s, whole, whole, 0, 0)
  {
    assert s[..0] == [] && Sections([]) == [];
  }

  lemma {:induction false} FrontOf(s: seq<byte>, h: nat, i: nat)
    requires h <= i < |s|
    ensures s[h..i + 1][..|s[h..i + 1]| - 1] == s[h..i]
  {}

  lemma {:induction false} PieceAppends(s: seq<byte>, h: nat, i: nat)
    requires h <= i < |s| <= 255 && Terminated(s[..h]) && s[i] == 0 && forall k | h <= k < i :: s[k] != 0
    ensures Terminated(s[..i + 1]) && Sections(s[..i + 1]) == Sections(s[..h]) + [i - h + 1] + s[h..i]
  {
    hide Sections;
    var piece := s[h..i + 1];
    assert s[..i + 1] == s[..h] + piece;
    SectionsSingle(piece);
    FrontOf(s, h, i);
    SectionsAppend(s[..h], piece);
    assert Sections(s[..h]) + ([i - h + 1] + s[h..i]) == Sections(s[..h]) + [i - h + 1] + s[h..i];
  }

  /** Moves the bytes from h up to i one place up and puts the length of the piece before them. */
  method InsertCode(buffer: array<byte>, h: nat, i: nat)
    requires h <= i < buffer.Length && i - h < 255
    modifies buffer
    ensures buffer[..] == old(buffer[..h]) + [i - h + 1] + old(buffer[h..i]) + old(buffer[i + 1..])
  {
    var j := i;
    while j > h
      invariant h <= j <= i
      invariant forall k | 0 <= k < buffer.Length ::
        buffer[k] == if j < k <= i then old(buffer[k - 1]) else old(buffer[k])
    {
      buffer[j] := buffer[j - 1];
      j := j - 1;
    }
    buffer[h] := i - h + 1;
  }

  // ---------------------------------------------------------------------------------------
  // The decoder

  /** The decoder's loop from step i on: the buffer it leaves and the length it returns. */
  function DecodeFrom(s: seq<byte>, i: nat, secEnd: int, length: nat): (r: (seq<byte>, nat))
    requires length <= |s|
    ensures |r.0| == |s| && i <= r.1 && (length >= 2 && i <= length - 2 ==> r.1 <= length - 2)
    decreases length - i
  {
    if i + 2 >= length then (s, i)
    else if i < secEnd - 1 then
      var t := s[i := s[i + 1]];
      if t[i] == 0 then (t, i) else DecodeFrom(t, i + 1, secEnd, length)
    else
      var t := s[i := 0];
      if s[i + 1] != 0 then DecodeFrom(t, i + 1, (secEnd + s[i + 1] as int) % 256, length) else (t, i)
  }

  function Decoded(s: seq<byte>, length: nat): (r: (seq<byte>, nat))
    requires 1 <= |s| && length <= |s|
    ensures |r.0| == |s| && (length >= 2 ==> r.1 <= length - 2)
  {
    DecodeFrom(s, 0, s[0], length)
  }

  /** From lo to n each byte of t is the one behind it in s, which is not zero, or zero. */
  ghost predicate ShiftedDown(s: seq<byte>, t: seq<byte>, lo: nat, n: nat) {
    |t| == |s| && n < |s| && forall k {:trigger t[k]} | lo <= k < n :: s[k + 1] != 0 && (t[k] == s[k + 1] || t[k] == 0)
  }

  /** Whatever the buffer holds: decoding goes up to the first zero behind the first byte, or to two bytes before the
      end; up to there each byte becomes the one behind it or zero. */
  lemma {:induction false} DecodedBytes(s: seq<byte>, length: nat)
    requires 2 <= length <= |s|
    ensures var (t, n) := Decoded(s, length);
      ShiftedDown(s, t, 0, n) && (n < length - 2 ==> s[n + 1] == t[n] == 0) && t[n + 1..] == s[n + 1..]
  {
    DecodeFromBytes(s, 0, s[0], length);
  }

  lemma {:induction false} DecodeFromBytes(s: seq<byte>, i: nat, secEnd: int, length: nat)
    requires 2 <= length <= |s| && i <= length - 2
    ensures var (t, n) := DecodeFrom(s, i, secEnd, length);
      && t[..i] == s[..i] && ShiftedDown(s, t, i, n)
      && (n < length - 2 ==> s[n + 1] == t[n] == 0) && t[n + 1..] == s[n + 1..]
    decreases length - i
  {
    if i + 2 < length && s[i + 1] != 0 {
      var zero := i >= secEnd - 1;
      var v: byte := if zero then 0 else s[i + 1];
      var u, end := s[i := v], if zero then (secEnd + s[i + 1] as int) % 256 else secEnd;
      DecodeFromNext(s, u, i, secEnd, length);
      DecodeFromBytes(u, i + 1, end, length);
      var (t, n) := DecodeFrom(u, i + 1, end, length);
      ShiftedOneMore(s, t, v, i, n);
      SameBeyond(s, v, i, n + 1);
    }
  }

  lemma {:induction false} ShiftedOneMore(s: seq<byte>, t: seq<byte>, v: byte, i: nat, n: nat)
    requires i + 1 < |s| && s[i + 1] != 0 && (v == s[i + 1] || v == 0)
    requires i < n && ShiftedDown(s[i := v], t, i + 1, n) && t[..i + 1] == s[i := v][..i + 1]
    ensures t[..i] == s[..i] && ShiftedDown(s, t, i, n)
  {
    var u := s[i := v];
    assert t[..i] == t[..i + 1][..i] == u[..i + 1][..i] == s[..i];
    assert t[i] == t[..i + 1][i] == u[..i + 1][i] == v;
    forall k: nat {:trigger t[k]} | i < k < n ensures s[k + 1] != 0 && (t[k] == s[k + 1] || t[k] == 0) {
      ShiftedAt(u, t, i + 1, n, k);
      assert u[k + 1] == s[k + 1];
    }
  }

  lemma {:induction false} ShiftedAt(s: seq<byte>, t: seq<byte>, lo: nat, n: nat, k: nat)
    requires ShiftedDown(s, t, lo, n) && lo <= k < n
    ensures s[k + 1] != 0 && (t[k] == s[k + 1] || t[k] == 0)
  {
    var x := t[k];
  }

  lemma {:induction false} SameBeyond(s: seq<byte>, v: byte, i: nat, k: nat)
    requires i < k <= |s|
    ensures s[i := v][k..] == s[k..]
  {}

  lemma {:induction false} DecodeFromNext(s: seq<byte>, t: seq<byte>, i: nat, secEnd: int, length: nat)
    requires i + 2 < length <= |s| && s[i + 1] != 0 && t == s[i := if i >= secEnd - 1 then 0 else s[i + 1]]
    ensures DecodeFrom(s, i, secEnd, length) ==
      DecodeFrom(t, i + 1, if i >= secEnd - 1 then (secEnd + s[i + 1] as int) % 256 else secEnd, length)
  {}

  method DecodeCOBS(buffer: array<byte>, length: byte) returns (n: nat)
    requires buffer.Length >= 1 && buffer.Length >= length
    modifies buffer
    ensures (buffer[..], n) == Decoded(old(buffer[..]), length)
  {
    ghost var s := buffer[..];
    n := 0;
    var secEnd: int := buffer[0];
    while n < length - 2
      invariant 0 <= n && (n > 0 ==> n <= length - 2)
      invariant DecodeFrom(buffer[..], n, secEnd, length) == Decoded(s, length)
      decreases length - n
    {
      ghost var t := buffer[..];
      if n < secEnd - 1 {
        buffer[n] := buffer[n + 1];
        assert buffer[..] == t[n := t[n + 1]];
        if buffer[n] == 0 {
          return;
        }
      } else {
        buffer[n] := 0;
        assert buffer[..] == t[n := 0];
        if buffer[n + 1] != 0 {
          secEnd := (secEnd + buffer[n + 1] as int) % 256;
        } else {
          return;
        }
      }
      n := n + 1;
    }
  }

  /** The bytes of an encoded message after its first. */
  lemma {:induction false} EncodedAt(m: seq<byte>, i: nat)
    requires i <= |m| <= 253
    ensures Encoded(m)[0] == NextZero(m + [0], 0) + 1
    ensures Encoded(m)[i + 1] == if i == |m| then 0 else if m[i] != 0 then m[i] else NextZero(m + [0], i + 1) - i
  {
    SectionsAt(m + [0], i);
  }

  /** The message before i restored, its encoding from i on still there. */
  ghost predicate Restored(m: seq<byte>, s: seq<byte>, i: nat)
    requires |m| <= 253
  {
    && i <= |m| && |s| >= |m| + 2 && (forall k | 0 <= k < i :: s[k] == m[k])
    && forall k | i <= k < |m| + 2 :: s[k] == Encoded(m)[k]
  }

  lemma {:induction false} NextZeroCases(m: seq<byte>, i: nat)
    requires i <= |m|
    ensures var z := m + [0];
      && |z| == |m| + 1 && z[|m|] == 0 && i <= NextZero(z, i) <= |m|
      && (i < |m| ==> (m[i] == 0 <==> NextZero(z, i) == i) && (m[i] != 0 ==> NextZero(z, i) == NextZero(z, i + 1)))
  {}

  lemma {:induction false} RestoredNext(m: seq<byte>, s: seq<byte>, i: nat)
    requires |m| <= 253 && Restored(m, s, i) && i < |m|
    ensures i < |s| && Restored(m, s[i := m[i]], i + 1)
  {}

  lemma {:induction false} DecodeUnfold(s: seq<byte>, i: nat, secEnd: int, length: nat)
    requires length <= |s|
    ensures DecodeFrom(s, i, secEnd, length) ==
      if i + 2 >= length then (s, i)
      else if i < secEnd - 1 then
        var t := s[i := s[i + 1]];
        if t[i] == 0 then (t, i) else DecodeFrom(t, i + 1, secEnd, length)
      else
        var t := s[i := 0];
        if s[i + 1] != 0 then DecodeFrom(t, i + 1, (secEnd + s[i + 1] as int) % 256, length) else (t, i)
  {}

  lemma {:induction false} RestoredBounds(m: seq<byte>, s: seq<byte>, i: nat)
    requires |m| <= 253 && Restored(m, s, i)
    ensures i <= |m|
  {}

  /** One byte is restored. */
  lemma {:induction false} DecodeStep(m: seq<byte>, s: seq<byte>, i: nat, secEnd: int, length: nat)
    requires |m| <= 253 && Restored(m, s, i) && |m| + 2 <= length <= |s| && i < |m|
    requires secEnd == NextZero(m + [0], i) + 1
    ensures DecodeFrom(s, i, secEnd, length) == DecodeFrom(s[i := m[i]], i + 1, NextZero(m + [0], i + 1) + 1, length)
  {
    hide Encoded, NextZero, DecodeFrom;
    EncodedAt(m, i);
    assert s[i + 1] == Encoded(m)[i + 1];
    NextZeroCases(m, i);
    DecodeUnfold(s, i, secEnd, length);
  }

  /** The decoder stops at the end of the message. */
  lemma {:induction false} DecodeEnd(m: seq<byte>, s: seq<byte>, secEnd: int, length: nat)
    requires |m| <= 253 && Restored(m, s, |m|) && |m| + 2 <= length <= |s| && secEnd == NextZero(m + [0], |m|) + 1
    ensures DecodeFrom(s, |m|, secEnd, length).1 == |m| && DecodeFrom(s, |m|, secEnd, length).0[..|m|] == m
  {
    hide Encoded, NextZero, DecodeFrom;
    var n := |m|;
    EncodedAt(m, n);
    assert s[n + 1] == Encoded(m)[n + 1];
    NextZeroCases(m, n);
    DecodeUnfold(s, n, secEnd, length);
    assert s[..n] == m && s[n := 0][..n] == m;
  }

  lemma {:induction false} DecodeRestores(m: seq<byte>, s: seq<byte>, i: nat, secEnd: int, length: nat)
    requires |m| <= 253 && Restored(m, s, i) && |m| + 2 <= length <= |s|
    requires secEnd == NextZero(m + [0], i) + 1
    ensures DecodeFrom(s, i, secEnd, length).1 == |m|
    ensures DecodeFrom(s, i, secEnd, length).0[..|m|] == m
    decreases |m| - i
  {
    hide Encoded, NextZero, DecodeFrom, Restored;
    if i < |m| {
      DecodeStep(m, s, i, secEnd, length);
      RestoredNext(m, s, i);
      DecodeRestores(m, s[i := m[i]], i + 1, NextZero(m + [0], i + 1) + 1, length);
    } else {
      RestoredBounds(m, s, i);
      DecodeEnd(m, s, secEnd, length);
    }
  }

  /** Decoding an encoded message, or a longer buffer that starts with one, restores it. */
  lemma {:induction false} RoundTrip(m: seq<byte>, s: seq<byte>, length: nat)
    requires |m| <= 253 && |m| + 2 <= length <= |s| && Encoded(m) <= s
    ensures Decoded(s, length).1 == |m| && Decoded(s, length).0[..|m|] == m
  {
    hide Encoded;
    EncodedAt(m, 0);
    assert forall k | 0 <= k < |m| + 2 :: s[k] == Encoded(m)[k];
    DecodeRestores(m, s, 0, s[0], length);
  }

  // ---------------------------------------------------------------------------------------
  // The byte after the message must be zero

  /** The message comes back from a buffer whose byte after the message was x. */
  ghost predicate ComesBack(m: seq<byte>, x: byte)
    requires |m| <= 253
  {
    var r := Decoded(EncodedBuffer(m + [x]), |m| + 2);
    r.1 == |m| && r.0[..|m|] == m
  }

  /** Where the pieces end and the rest of the message begins. */
  function Rest(m: seq<byte>): (h: nat)
    ensures h <= |m| && Terminated(m[..h]) && forall k | h <= k < |m| :: m[k] != 0
  {
    LastSection(m)
  }

  /** The rest of the message consists of the byte x only, and the length that the decoder takes x for reaches beyond
      the message. */
  predicate Uniform(m: seq<byte>, x: byte) {
    (forall k: nat | Rest(m) <= k < |m| :: m[k] == x) && (Rest(m) + x as int) % 256 > |m|
  }

  /** A message comes back exactly if the byte after it was zero, or it ends with a zero or is empty, or its rest is
      uniform. */
  lemma {:induction false} ComesBackExactly(m: seq<byte>, x: byte)
    requires |m| <= 253
    ensures ComesBack(m, x) <==> x == 0 || Rest(m) == |m| || Uniform(m, x)
  {
    hide EncodedBuffer, Decoded, DecodeFrom, LastSection;
    if x == 0 {
      EncodedBufferTerminated(m);
      RoundTrip(m, Encoded(m), |m| + 2);
    } else {
      var h, s := Rest(m), m + [x];
      RestWithByte(m, x);
      var b := PiecesDecoded(s, h, |m|);
      RestDecoded(s, b, h, (h + s[h] as int) % 256, |m|);
      SameBytes(m, s, h, DecodeFrom(b, h, (h + s[h] as int) % 256, |m| + 2).0);
      if h < |m| { UniformRest(m, x); }
    }
  }

  lemma {:induction false} RestWithByte(m: seq<byte>, x: byte)
    requires x != 0
    ensures var h, s := Rest(m), m + [x];
      LastSection(s) == h && s[..h] == m[..h] && forall k | h <= k < |s| :: s[k] != 0
  {
    var h, s := Rest(m), m + [x];
    assert s[..h] == m[..h];
    LastSectionUnique(s, h);
  }

  lemma {:induction false} UniformRest(m: seq<byte>, x: byte)
    requires Rest(m) < |m|
    ensures var h, s := Rest(m), m + [x];
      Uniform(m, x) <==> (h + s[h] as int) % 256 > |m| && forall k: nat | h <= k < |m| :: s[k] == s[k + 1]
  {
    hide LastSection;
    var h, s := Rest(m), m + [x];
    if forall k: nat | h <= k < |m| :: s[k] == s[k + 1] {
      AllEqual(s, h, |m|);
      forall k: nat | h <= k < |m| ensures m[k] == x {
        assert s[k] == s[|m|];
      }
    }
    if forall k: nat | h <= k < |m| :: m[k] == x {
      assert s[h] == m[h] == x;
      forall k: nat | h <= k < |m| ensures s[k] == s[k + 1] {
        assert m[k] == x && (k + 1 < |m| ==> m[k + 1] == x);
      }
    }
  }

  lemma {:induction false} AllEqual(s: seq<byte>, h: nat, n: nat)
    requires h <= n < |s| && forall k: nat | h <= k < n :: s[k] == s[k + 1]
    ensures forall k: nat | h <= k <= n :: s[k] == s[n]
    decreases n - h
  {
    if h < n {
      AllEqual(s, h + 1, n);
      assert s[h] == s[h + 1];
    }
  }

  /** The message is back if its bytes from h on are. */
  lemma {:induction false} SameBytes(m: seq<byte>, s: seq<byte>, h: nat, r: seq<byte>)
    requires h <= |m| && |r| >= |m| && m <= s && r[..h] == s[..h]
    ensures r[..|m|] == m <==> r[h..|m|] == s[h..|m|]
  {
    assert r[..|m|] == r[..h] + r[h..|m|];
    assert m == s[..h] + s[h..|m|];
    if r[..|m|] == m { assert r[h..|m|] == r[..|m|][h..] == m[h..]; }
  }

  /** The decoder restores the pieces, and goes on with the first byte of the rest as a length. */
  lemma {:induction false} PiecesDecoded(s: seq<byte>, h: nat, n: nat) returns (b: seq<byte>)
    requires |s| == n + 1 <= 254 && h <= n && LastSection(s) == h && forall k | h <= k <= n :: s[k] != 0
    ensures |b| == n + 2 && b[..h] == s[..h] && b[h..] == s[h..] + [0]
    ensures Decoded(EncodedBuffer(s), n + 2) == DecodeFrom(b, h, (h + s[h] as int) % 256, n + 2)
  {
    hide DecodeFrom, NextZero, Sections, LastSection;
    var e := EncodedBuffer(s);
    assert e == Sections(s[..h]) + (s[h..] + [0]);
    if h == 0 {
      b := e;
      assert s[..0] == [];
      SectionsEmpty();
      assert e[0] == s[0];
    } else {
      var m := s[..h - 1];
      PrefixEncoded(s, h, e);
      b := PrefixRestored(m, e, 0, e[0], n + 2);
      NextZeroCases(m, h - 1);
      DecodeUnfold(b, h - 1, h, n + 2);
      assert b[h] == e[h] == s[h];
      b := b[h - 1 := 0];
      assert b[..h] == s[..h];
      assert b[h..] == e[h..];
    }
  }

  /** Up to its last zero the buffer holds an encoded message. */
  lemma {:induction false} PrefixEncoded(s: seq<byte>, h: nat, e: seq<byte>)
    requires 0 < h < |s| <= 254 && Terminated(s[..h]) && e == Sections(s[..h]) + (s[h..] + [0])
    ensures var m := s[..h - 1];
      |e| == |s| + 1 && (forall k | 0 <= k < h :: e[k] == Encoded(m)[k]) && e[0] == NextZero(m + [0], 0) + 1
    ensures s[h - 1] == 0 && e[h..] == s[h..] + [0]
  {
    hide NextZero, Sections;
    var m := s[..h - 1];
    assert s[h - 1] == s[..h][h - 1];
    assert m + [0] == s[..h];
    EncodedAt(m, 0);
  }

  /** The message before i restored, its encoding from i on still there but for the final zero. */
  ghost predicate Restoring(m: seq<byte>, s: seq<byte>, i: nat)
    requires |m| <= 253
  {
    && i <= |m| && |s| > |m| && (forall k | 0 <= k < i :: s[k] == m[k])
    && forall k | i <= k <= |m| :: s[k] == Encoded(m)[k]
  }

  lemma {:induction false} RestoringNext(m: seq<byte>, s: seq<byte>, i: nat)
    requires |m| <= 253 && Restoring(m, s, i) && i < |m|
    ensures i < |s| && Restoring(m, s[i := m[i]], i + 1) && s[i := m[i]][|m|..] == s[|m|..]
  {}

  lemma {:induction false} RestoringStep(m: seq<byte>, s: seq<byte>, i: nat, secEnd: int, length: nat)
    requires |m| <= 253 && Restoring(m, s, i) && |m| + 2 <= length <= |s| && i < |m|
    requires secEnd == NextZero(m + [0], i) + 1
    ensures DecodeFrom(s, i, secEnd, length) == DecodeFrom(s[i := m[i]], i + 1, NextZero(m + [0], i + 1) + 1, length)
  {
    hide Encoded, NextZero, DecodeFrom;
    EncodedAt(m, i);
    assert s[i + 1] == Encoded(m)[i + 1];
    NextZeroCases(m, i);
    DecodeUnfold(s, i, secEnd, length);
  }

  lemma {:induction false} PrefixRestored(m: seq<byte>, s: seq<byte>, i: nat, secEnd: int, length: nat)
    returns (t: seq<byte>)
    requires |m| <= 253 && Restoring(m, s, i) && |m| + 2 <= length <= |s| && secEnd == NextZero(m + [0], i) + 1
    ensures |t| == |s| && t[..|m|] == m && t[|m|..] == s[|m|..]
    ensures DecodeFrom(s, i, secEnd, length) == DecodeFrom(t, |m|, |m| + 1, length)
    decreases |m| - i
  {
    hide Encoded, NextZero, DecodeFrom;
    if i < |m| {
      RestoringStep(m, s, i, secEnd, length);
      RestoringNext(m, s, i);
      t := PrefixRestored(m, s[i := m[i]], i + 1, NextZero(m + [0], i + 1) + 1, length);
    } else {
      NextZeroCases(m, i);
      t := s;
    }
  }

  /** From byte i on the rest comes back exactly if it is moved down to the end and does not change by that. */
  lemma {:induction false} RestDecoded(s: seq<byte>, b: seq<byte>, i: nat, secEnd: int, n: nat)
    requires |s| == n + 1 && |b| == n + 2 && i <= n && b[i..] == s[i..] + [0] && forall k | i <= k <= n :: s[k] != 0
    ensures var r := DecodeFrom(b, i, secEnd, n + 2);
      && r.0[..i] == b[..i]
      && (r.1 == n && r.0[i..n] == s[i..n] <==>
            i == n || (secEnd > n && forall k: nat | i <= k < n :: s[k] == s[k + 1]))
    decreases n - i
  {
    hide DecodeFrom;
    DecodeUnfold(b, i, secEnd, n + 2);
    assert b[i] == s[i];
    if i < n {
      assert b[i + 1] == s[i + 1];
      if i < secEnd - 1 {
        var t := b[i := s[i + 1]];
        assert t[i + 1..] == s[i + 1..] + [0];
        RestDecoded(s, t, i + 1, secEnd, n);
        RestParts(s, DecodeFrom(t, i + 1, secEnd, n + 2).0, b, i, s[i + 1], n);
      } else {
        var t, next := b[i := 0], (secEnd + s[i + 1] as int) % 256;
        PrefixStays(t, i + 1, next, n + 2);
        RestParts(s, DecodeFrom(t, i + 1, next, n + 2).0, b, i, 0, n);
      }
    }
  }

  lemma {:induction false} RestParts(s: seq<byte>, r: seq<byte>, b: seq<byte>, i: nat, x: byte, n: nat)
    requires |s| == n + 1 && |r| == |b| == n + 2 && i < n && r[..i + 1] == b[i := x][..i + 1]
    ensures r[..i] == b[..i]
    ensures r[i..n] == s[i..n] <==> x == s[i] && r[i + 1..n] == s[i + 1..n]
  {
    assert r[i] == r[..i + 1][i] == x;
    assert r[..i] == r[..i + 1][..i] == b[i := x][..i + 1][..i] == b[..i];
    assert r[i..n] == [x] + r[i + 1..n];
    assert s[i..n] == [s[i]] + s[i + 1..n];
    if r[i..n] == s[i..n] {
      assert r[i..n][0] == x && s[i..n][0] == s[i];
      assert r[i + 1..n] == r[i..n][1..] == s[i..n][1..] == s[i + 1..n];
    }
  }

  /** Bytes before the place of decoding do not change. */
  lemma {:induction false} PrefixStays(s: seq<byte>, i: nat, secEnd: int, length: nat)
    requires length <= |s| && i <= |s|
    ensures DecodeFrom(s, i, secEnd, length).0[..i] == s[..i]
    decreases length - i
  {
    if i + 2 < length {
      if i < secEnd - 1 {
        PrefixStays(s[i := s[i + 1]], i + 1, secEnd, length);
        PrefixCut(s, i, s[i + 1], DecodeFrom(s[i := s[i + 1]], i + 1, secEnd, length).0);
      } else {
        var next := (secEnd + s[i + 1] as int) % 256;
        PrefixStays(s[i := 0], i + 1, next, length);
        PrefixCut(s, i, 0, DecodeFrom(s[i := 0], i + 1, next, length).0);
      }
    }
  }

  lemma {:induction false} PrefixCut(s: seq<byte>, i: nat, x: byte, r: seq<byte>)
    requires i < |s| == |r| && r[..i + 1] == s[i := x][..i + 1]
    ensures r[..i] == s[..i]
  {
    assert r[..i] == r[..i + 1][..i];
  }

  function Ones(n: nat): (s: seq<byte>)
    ensures |s| == n && forall i | 0 <= i < n :: s[i] == 1
  {
    seq(n, _ => 1)
  }

  /** Every message of length n survives exactly if that byte is zero (or there is no message). */
  lemma {:induction false} TerminatorNeeded(n: nat, x: byte)
    requires n <= 253
    ensures (forall m | |m| == n :: ComesBack(m, x)) <==> x == 0 || n == 0
  {
    hide ComesBack, LastSection;
    if x == 0 || n == 0 {
      forall m | |m| == n ensures ComesBack(m, x) {
        ComesBackExactly(m, x);
      }
    } else {
      var m := Ones(n);
      ComesBackExactly(m, x);
      RestOfOnes(n);
      assert m[0] == 1 && Rest(m) == 0;
      assert !ComesBack(m, x);
    }
  }

  lemma {:induction false} RestOfOnes(n: nat)
    ensures Rest(Ones(n)) == 0
  {
    assert Ones(n)[..0] == [];
    LastSectionUnique(Ones(n), 0);
  }

  /** A decoded length of zero means the first byte has become zero. */
  lemma {:induction false} EmptyStartsWithZero(s: seq<byte>, length: nat)
    requires 4 <= length <= |s| && Decoded(s, length).1 == 0
    ensures Decoded(s, length).0[0] == 0
  {}
}
