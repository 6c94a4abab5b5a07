/** Packets in their COBS frames: creating, recognising and parsing them
    (Robot/include/Packet.h). */
module Packets {
  import opened Cobs
  import opened Options

  type int8 = x: int | -128 <= x < 128
  type int16 = x: int | -0x8000 <= x < 0x8000

  const HEADER_BYTE: byte := 0xAB
  const END_BYTE: byte := 0x7F
  const MIN_SIZE: nat := 4
  const DRIVE_OPCODE: byte := 0x99
  const SET_CAMERA_QUALITY_OPCODE: byte := 0x16
  const SET_CAMERA_LOCATION_OPCODE: byte := 0x17
  const REPORT_LOCATION_OPCODE: byte := 0x45
  const REPORT_ENCODER_OPCODE: byte := 0x47

  datatype DrivePayload = DrivePayload(left: int8, right: int8, vibrator: int8, actuator: int8, scooper: int8)
  datatype CameraLocationPayload = CameraLocationPayload(id: byte, angle: int8)
  datatype LocationPayload = LocationPayload(x: int16, y: int16, heading: int16)
  datatype EncoderPayload = EncoderPayload(frontLeft: int16, frontRight: int16, backLeft: int16, backRight: int16,
                                           leftActuator: int16, rightActuator: int16)

  /** A signed byte stored in an unsigned one, and read back. */
  function ToByte(x: int8): byte {
    if x < 0 then x + 256 else x
  }

  function FromByte(b: byte): int8 {
    if b >= 128 then b - 256 else b
  }

  /** A signed word stored in two bytes, high byte first, and read back. */
  function HighByte(x: int16): byte {
    (x % 0x1_0000) / 256
  }

  function LowByte(x: int16): byte {
    x % 256
  }

  function FromBytes(high: byte, low: byte): int16 {
    var w := 256 * high + low;
    if w >= 0x8000 then w - 0x1_0000 else w
  }

  lemma {:induction false} WordArrives(x: int16)
    ensures 256 * HighByte(x) + LowByte(x) == x % 0x1_0000 && FromBytes(HighByte(x), LowByte(x)) == x
  {
    var w := x % 0x1_0000;
    assert w == if x < 0 then x + 0x1_0000 else x;
    assert w % 256 == x % 256;
  }

  // ---------------------------------------------------------------------------------------
  // Recognising a packet

  /** The answer of the header check; the payload reaches to the end of the buffer. */
  datatype Header = Rejected | Accepted(opcode: byte, length: nat, payload: Option<seq<byte>>)

  /** The header check on the decoded bytes t, n of which are the message. */
  ghost function Inspect(t: seq<byte>, n: nat): Header
    requires |t| >= 4 && n <= |t| && (n == 0 ==> t[0] == 0)
  {
    if t[0] != 0xAB || t[n - 1] != 0x7F then Rejected
    else Accepted(t[1], n, if n == 4 then None else Some(t[3..]))
  }

  ghost function Read(s: seq<byte>, length: byte): Header
    requires 1 <= |s| && length <= |s|
  {
    if length < 4 then Rejected
    else
      var r := Decoded(s, length);
      if r.1 == 0 then EmptyStartsWithZero(s, length); Inspect(r.0, r.1) else Inspect(r.0, r.1)
  }

  method ReadPacketHeader(buffer: array<byte>, length: byte) returns (h: Header)
    requires 1 <= buffer.Length && length <= buffer.Length
    modifies buffer
    ensures h == Read(old(buffer[..]), length)
    ensures buffer[..] == if length < 4 then old(buffer[..]) else Decoded(old(buffer[..]), length).0
    ensures length < 4 ==> h.Rejected?
    ensures length >= 4 ==>
      var n := Decoded(old(buffer[..]), length).1;
      if n > 0 && buffer[0] == 0xAB && buffer[n - 1] == 0x7F then
        h == Accepted(buffer[1], n, if n == 4 then None else Some(buffer[3..]))
      else
        h.Rejected?
  {
    if length < MIN_SIZE {
      return Rejected;
    }
    ghost var s := buffer[..];
    var n := DecodeCOBS(buffer, length);
    assert (buffer[..], n) == Decoded(s, length);
    if n == 0 { EmptyStartsWithZero(s, length); }
    assert buffer[0] == buffer[..][0];
    if buffer[0] != HEADER_BYTE {
      return Rejected;
    }
    if buffer[n - 1] != END_BYTE {
      return Rejected;
    }
    h := Accepted(buffer[1], n, if n == MIN_SIZE then None else Some(buffer[3..]));
    assert buffer[3..] == buffer[..][3..];
  }

  /** A framed message is accepted exactly if it has the right first and last byte. */
  lemma {:induction false} FrameAccepted(m: seq<byte>, s: seq<byte>, length: byte)
    requires 4 <= |m| <= 253 && |m| + 2 <= length <= |s| && Encoded(m) <= s
    ensures Read(s, length).Accepted? <==> m[0] == 0xAB && m[|m| - 1] == 0x7F
  {
    hide Encoded, Decoded;
    RoundTrip(m, s, length);
    var t := Decoded(s, length).0;
    assert t[0] == t[..|m|][0] && t[|m| - 1] == t[..|m|][|m| - 1];
  }

  /** Then it is accepted whole. */
  lemma {:induction false} FrameArrives(m: seq<byte>, s: seq<byte>, length: byte)
    requires 4 <= |m| <= 253 && m[0] == 0xAB && m[|m| - 1] == 0x7F
    requires |m| + 2 <= length <= |s| && Encoded(m) <= s
    ensures var h := Read(s, length);
      && h.Accepted? && h.opcode == m[1] && h.length == |m|
      && (if |m| == 4 then h.payload == None else h.payload.Some? && m[3..] <= h.payload.value)
  {
    RoundTrip(m, s, length);
    hide Encoded;
    var t := Decoded(s, length).0;
    assert forall i | 0 <= i < |m| :: t[i] == t[..|m|][i] == m[i];
    assert |m| > 4 ==> m[3..] == t[3..][..|m| - 3];
  }

  // ---------------------------------------------------------------------------------------
  // Creating packets. The encoder needs the byte after the packet to be zero and one more byte
  // for the frame's end.

  ghost function NoPayloadBytes(opcode: byte): seq<byte> {
    [0xAB, opcode, 0, 0x7F]
  }

  ghost function DriveBytes(p: DrivePayload): seq<byte> {
    [0xAB, 0x99, 5, p.left % 256, p.right % 256, p.actuator % 256, p.scooper % 256, p.vibrator % 256, 0x7F]
  }

  ghost function QualityBytes(quality: byte): seq<byte> {
    [0xAB, 0x16, 1, quality, 0x7F]
  }

  ghost function CameraLocationBytes(p: CameraLocationPayload): seq<byte> {
    [0xAB, 0x17, 2, p.id, p.angle % 256, 0x7F]
  }

  /** The buffer holds the frame of m, if the byte after the message was zero. */
  ghost predicate Framed(b: seq<byte>, m: seq<byte>, after: byte)
    requires |m| <= 254
  {
    |m| + 2 <= |b| && b[..|m| + 2] == EncodedBuffer(m + [after])
  }

  method Finish(buffer: array<byte>, size: nat, ghost m: seq<byte>) returns (n: nat)
    requires size == |m| <= 254 && buffer.Length >= |m| + 2 && buffer[..|m|] == m
    modifies buffer
    ensures n == |m| + 2 && Framed(buffer[..], m, old(buffer[|m|])) && buffer[n..] == old(buffer[n..])
  {
    assert buffer[..|m| + 1] == m + [buffer[|m|]];
    n := EncodeCOBS(buffer, size);
    assert buffer[..][..n] == buffer[..n];
  }

  method CreateNoPayloadPacket(buffer: array<byte>, length: byte, opcode: byte) returns (n: nat)
    requires length <= buffer.Length
    modifies buffer
    ensures length < 6 ==> n == 0 && buffer[..] == old(buffer[..])
    ensures length >= 6 ==> n == 6 && Framed(buffer[..], NoPayloadBytes(opcode), old(buffer[4]))
    ensures length >= 6 ==> buffer[n..] == old(buffer[n..])
  {
    hide EncodedBuffer;
    if length < MIN_SIZE + 2 {
      return 0;
    }
    buffer[0], buffer[1], buffer[2], buffer[3] := HEADER_BYTE, opcode, 0, END_BYTE;
    assert buffer[6..] == old(buffer[6..]);
    n := Finish(buffer, MIN_SIZE, NoPayloadBytes(opcode));
  }

  // Three creators test for two bytes less than they write: for two values of length the frame ends beyond it. The
  // array stands for the memory from the buffer on.

  method CreateDrivePacket(buffer: array<byte>, length: byte, p: DrivePayload) returns (n: nat)
    requires length <= buffer.Length && (length >= 9 ==> buffer.Length >= 11)
    modifies buffer
    ensures length < 9 ==> n == 0 && buffer[..] == old(buffer[..])
    ensures length >= 9 ==> n == 11 && Framed(buffer[..], DriveBytes(p), old(buffer[9]))
    ensures length >= 9 ==> buffer[n..] == old(buffer[n..])
    ensures n <= length <==> length != 9 && length != 10
  {
    hide EncodedBuffer;
    if length < MIN_SIZE + 5 {
      return 0;
    }
    buffer[0], buffer[1], buffer[2] := HEADER_BYTE, DRIVE_OPCODE, 5;
    buffer[3], buffer[4], buffer[5] := ToByte(p.left), ToByte(p.right), ToByte(p.actuator);
    buffer[6], buffer[7], buffer[8] := ToByte(p.scooper), ToByte(p.vibrator), END_BYTE;
    assert buffer[11..] == old(buffer[11..]);
    n := Finish(buffer, MIN_SIZE + 5, DriveBytes(p));
  }

  method CreateSetQualityCameraPacket(buffer: array<byte>, length: byte, quality: byte) returns (n: nat)
    requires length <= buffer.Length && (length >= 5 ==> buffer.Length >= 7)
    modifies buffer
    ensures length < 5 ==> n == 0 && buffer[..] == old(buffer[..])
    ensures length >= 5 ==> n == 7 && Framed(buffer[..], QualityBytes(quality), old(buffer[5]))
    ensures length >= 5 ==> buffer[n..] == old(buffer[n..])
    ensures n <= length <==> length != 5 && length != 6
  {
    hide EncodedBuffer;
    if length < MIN_SIZE + 1 {
      return 0;
    }
    buffer[0], buffer[1], buffer[2] := HEADER_BYTE, SET_CAMERA_QUALITY_OPCODE, 1;
    buffer[3], buffer[4] := quality, END_BYTE;
    assert buffer[7..] == old(buffer[7..]);
    n := Finish(buffer, MIN_SIZE + 1, QualityBytes(quality));
  }

  method CreateSetCameraLocationPacket(buffer: array<byte>, length: byte, p: CameraLocationPayload) returns (n: nat)
    requires length <= buffer.Length && (length >= 6 ==> buffer.Length >= 8)
    modifies buffer
    ensures length < 6 ==> n == 0 && buffer[..] == old(buffer[..])
    ensures length >= 6 ==> n == 8 && Framed(buffer[..], CameraLocationBytes(p), old(buffer[6]))
    ensures length >= 6 ==> buffer[n..] == old(buffer[n..])
    ensures n <= length <==> length != 6 && length != 7
  {
    hide EncodedBuffer;
    if length < MIN_SIZE + 2 {
      return 0;
    }
    buffer[0], buffer[1], buffer[2] := HEADER_BYTE, SET_CAMERA_LOCATION_OPCODE, 2;
    buffer[3], buffer[4], buffer[5] := p.id, ToByte(p.angle), END_BYTE;
    assert buffer[8..] == old(buffer[8..]);
    n := Finish(buffer, MIN_SIZE + 2, CameraLocationBytes(p));
  }

  // ---------------------------------------------------------------------------------------
  // Two creators write no end byte: what the buffer held at its place is sent instead

  function Clamped(x: int16, max: int16, min: int16): int16 {
    if x > max then max else if x < min then min else x
  }

  /** The heading that is sent. */
  ghost function SentHeading(heading: int16): int16 {
    if heading > 180 then 180 else if heading < -180 then -180 else heading
  }

  ghost function LocationBytes(p: LocationPayload): seq<byte> {
    var heading := SentHeading(p.heading);
    [0xAB, 0x45, 6, HighByte(p.x), LowByte(p.x), HighByte(p.y), LowByte(p.y), HighByte(heading), LowByte(heading)]
  }

  ghost function EncoderBytes(p: EncoderPayload): seq<byte> {
    [0xAB, 0x47, 12, HighByte(p.frontLeft), LowByte(p.frontLeft), HighByte(p.frontRight), LowByte(p.frontRight),
     HighByte(p.backLeft), LowByte(p.backLeft), HighByte(p.backRight), LowByte(p.backRight),
     HighByte(p.leftActuator), LowByte(p.leftActuator), HighByte(p.rightActuator), LowByte(p.rightActuator)]
  }

  method CreateReportLocationPacket(buffer: array<byte>, length: byte, p: LocationPayload) returns (n: nat)
    requires length <= buffer.Length
    modifies buffer
    ensures length < 12 ==> n == 0 && buffer[..] == old(buffer[..])
    ensures length >= 12 ==>
      n == 12 && Framed(buffer[..], LocationBytes(p) + [old(buffer[9])], old(buffer[10])) &&
        buffer[n..] == old(buffer[n..])
  {
    hide EncodedBuffer, HighByte, LowByte;
    if length < MIN_SIZE + 3 * 2 + 2 {
      return 0;
    }
    var heading := Clamped(p.heading, 180, -180);
    buffer[0], buffer[1], buffer[2] := HEADER_BYTE, REPORT_LOCATION_OPCODE, 6;
    buffer[3], buffer[4], buffer[5], buffer[6] := HighByte(p.x), LowByte(p.x), HighByte(p.y), LowByte(p.y);
    buffer[7], buffer[8] := HighByte(heading), LowByte(heading);
    assert buffer[..10] == LocationBytes(p) + [old(buffer[9])];
    assert buffer[12..] == old(buffer[12..]);
    n := Finish(buffer, MIN_SIZE + 3 * 2, LocationBytes(p) + [old(buffer[9])]);
  }

  method PutEncoder(buffer: array<byte>, p: EncoderPayload)
    requires buffer.Length >= 18
    modifies buffer
    ensures buffer[..] == EncoderBytes(p) + old(buffer[15..])
  {
    hide HighByte, LowByte;
    ghost var rest := buffer[15..];
    buffer[0], buffer[1], buffer[2] := HEADER_BYTE, REPORT_ENCODER_OPCODE, 12;
    buffer[3], buffer[4] := HighByte(p.frontLeft), LowByte(p.frontLeft);
    buffer[5], buffer[6] := HighByte(p.frontRight), LowByte(p.frontRight);
    buffer[7], buffer[8] := HighByte(p.backLeft), LowByte(p.backLeft);
    buffer[9], buffer[10] := HighByte(p.backRight), LowByte(p.backRight);
    buffer[11], buffer[12] := HighByte(p.leftActuator), LowByte(p.leftActuator);
    buffer[13], buffer[14] := HighByte(p.rightActuator), LowByte(p.rightActuator);
    assert buffer[15..] == rest;
  }

  lemma {:induction false} EndParts(b: seq<byte>, front: seq<byte>, rest: seq<byte>)
    requires b == front + rest && |rest| >= 3
    ensures var n := |front|; b[..n + 1] == front + [rest[0]] && b[n + 1] == rest[1] && b[n + 3..] == rest[3..]
  {}

  method CreateReportEncoderPacket(buffer: array<byte>, length: byte, p: EncoderPayload) returns (n: nat)
    requires length <= buffer.Length
    modifies buffer
    ensures length < 18 ==> n == 0 && buffer[..] == old(buffer[..])
    ensures length >= 18 ==>
      n == 18 && Framed(buffer[..], EncoderBytes(p) + [old(buffer[15])], old(buffer[16])) &&
        buffer[n..] == old(buffer[n..])
  {
    hide EncodedBuffer, HighByte, LowByte, EncoderBytes, Framed;
    if length < MIN_SIZE + 6 * 2 + 2 {
      return 0;
    }
    PutEncoder(buffer, p);
    EndParts(buffer[..], EncoderBytes(p), old(buffer[15..]));
    n := Finish(buffer, MIN_SIZE + 6 * 2, EncoderBytes(p) + [old(buffer[15])]);
  }

  // ---------------------------------------------------------------------------------------
  // Parsing

  function ParseDrivePayload(payload: seq<byte>): DrivePayload
    requires |payload| >= 5
  {
    DrivePayload(FromByte(payload[0]), FromByte(payload[1]), FromByte(payload[4]), FromByte(payload[2]),
      FromByte(payload[3]))
  }

  function ParseQualityPayload(payload: seq<byte>): byte
    requires |payload| >= 1
  {
    payload[0]
  }

  function ParseLocationPayload(payload: seq<byte>): LocationPayload
    requires |payload| >= 6
  {
    LocationPayload(FromBytes(payload[0], payload[1]), FromBytes(payload[2], payload[3]),
      FromBytes(payload[4], payload[5]))
  }

  function ParseEncoderPayload(payload: seq<byte>): EncoderPayload
    requires |payload| >= 12
  {
    EncoderPayload(FromBytes(payload[0], payload[1]), FromBytes(payload[2], payload[3]),
      FromBytes(payload[4], payload[5]),
                   FromBytes(payload[6], payload[7]), FromBytes(payload[8], payload[9]),
                   FromBytes(payload[10], payload[11]))
  }

  function ParseCameraLocationPayload(payload: seq<byte>): CameraLocationPayload
    requires |payload| >= 2
  {
    CameraLocationPayload(payload[0], FromByte(payload[1]))
  }

  /** What a receiver needs of a framed packet in a long enough buffer. */
  lemma {:induction false} FramedArrives(b: seq<byte>, m: seq<byte>, length: byte)
    requires 4 <= |m| <= 253 && m[0] == 0xAB && m[|m| - 1] == 0x7F
    requires Framed(b, m, 0) && |m| + 2 <= length <= |b|
    ensures var h := Read(b, length);
      && h.Accepted? && h.opcode == m[1] && h.length == |m|
      && (if |m| == 4 then h.payload == None else h.payload.Some? && m[3..] <= h.payload.value)
  {
    EncodedBufferTerminated(m);
    FrameArrives(m, b, length);
  }

  /** A packet without payload is recognised with its opcode. */
  lemma {:induction false} NoPayloadArrives(b: seq<byte>, opcode: byte, length: byte)
    requires Framed(b, NoPayloadBytes(opcode), 0) && 6 <= length <= |b|
    ensures Read(b, length) == Accepted(opcode, 4, None)
  {
    FramedArrives(b, NoPayloadBytes(opcode), length);
  }

  /** The five drive fields arrive as they were sent. */
  lemma {:induction false} DriveArrives(b: seq<byte>, p: DrivePayload, length: byte)
    requires Framed(b, DriveBytes(p), 0) && 11 <= length <= |b|
    ensures var h := Read(b, length);
      && h.Accepted? && h.opcode == 0x99 && h.length == 9 && h.payload.Some? && |h.payload.value| >= 5
      && ParseDrivePayload(h.payload.value) == p
  {
    hide Framed, Read;
    FramedArrives(b, DriveBytes(p), length);
    var v := Read(b, length).payload.value;
    assert forall i | 0 <= i < 6 :: v[i] == DriveBytes(p)[3..][i] == DriveBytes(p)[i + 3];
    assert v[0] == DriveBytes(p)[3] && v[1] == DriveBytes(p)[4] && v[2] == DriveBytes(p)[5] &&
      v[3] == DriveBytes(p)[6] && v[4] == DriveBytes(p)[7];
  }

  lemma {:induction false} QualityArrives(b: seq<byte>, quality: byte, length: byte)
    requires Framed(b, QualityBytes(quality), 0) && 7 <= length <= |b|
    ensures var h := Read(b, length);
      && h.Accepted? && h.opcode == 0x16 && h.payload.Some? && |h.payload.value| >= 1
      && ParseQualityPayload(h.payload.value) == quality
  {
    hide Framed, Read;
    FramedArrives(b, QualityBytes(quality), length);
    var v := Read(b, length).payload.value;
    assert v[0] == QualityBytes(quality)[3..][0] == QualityBytes(quality)[3];
  }

  lemma {:induction false} CameraLocationArrives(b: seq<byte>, p: CameraLocationPayload, length: byte)
    requires Framed(b, CameraLocationBytes(p), 0) && 8 <= length <= |b|
    ensures var h := Read(b, length);
      && h.Accepted? && h.opcode == 0x17 && h.payload.Some? && |h.payload.value| >= 2
      && ParseCameraLocationPayload(h.payload.value) == p
  {
    hide Framed, Read;
    FramedArrives(b, CameraLocationBytes(p), length);
    var v := Read(b, length).payload.value;
    assert v[0] == CameraLocationBytes(p)[3..][0] && v[1] == CameraLocationBytes(p)[3..][1];
  }

  lemma {:induction false} FramedPrefix(b: seq<byte>, m: seq<byte>)
    requires |m| <= 254 && Framed(b, m, 0)
    ensures |m| + 2 <= |b| && EncodedBuffer(m + [0]) <= b
  {
    hide EncodedBuffer;
  }

  lemma {:induction false} ReadInspects(b: seq<byte>, length: byte)
    requires 4 <= length <= |b| && Decoded(b, length).1 > 0
    ensures Read(b, length) == Inspect(Decoded(b, length).0, Decoded(b, length).1)
  {}

  /** A frame whose last message byte is not the end byte is rejected. */
  lemma {:induction false} UnendedRejected(b: seq<byte>, m: seq<byte>, length: byte)
    requires 4 <= |m| <= 253 && m[|m| - 1] != 0x7F && Framed(b, m, 0) && |m| + 2 <= length <= |b|
    ensures Read(b, length) == Rejected
  {
    hide Framed, Encoded, EncodedBuffer, Decoded, Read;
    EncodedBufferTerminated(m);
    FramedPrefix(b, m);
    RoundTrip(m, b, length);
    ReadInspects(b, length);
    var t := Decoded(b, length).0;
    assert t[|m| - 1] == t[..|m|][|m| - 1] == m[|m| - 1];
  }

  /** A created location packet is accepted exactly if the byte left where its end byte belongs is the end byte; then
      the position and the clamped heading arrive. */
  lemma {:induction false} LocationArrives(b: seq<byte>, p: LocationPayload, left: byte, length: byte)
    requires Framed(b, LocationBytes(p) + [left], 0) && 12 <= length <= |b|
    ensures Read(b, length).Accepted? <==> left == 0x7F
    ensures left == 0x7F ==>
      var h := Read(b, length);
      && h.opcode == 0x45 && h.length == 10 && h.payload.Some? && |h.payload.value| >= 6
      && ParseLocationPayload(h.payload.value) == p.(heading := SentHeading(p.heading))
  {
    hide Framed, Read, HighByte, LowByte, FromBytes;
    var m := LocationBytes(p) + [left];
    if left == 0x7F {
      FramedArrives(b, m, length);
      var v := Read(b, length).payload.value;
      assert forall i | 0 <= i < 6 :: v[i] == m[3..][i] == LocationBytes(p)[i + 3];
      WordArrives(p.x);
      WordArrives(p.y);
      WordArrives(SentHeading(p.heading));
    } else {
      UnendedRejected(b, m, length);
    }
  }

  /** The same for the encoder packet. */
  lemma {:induction false} EncoderArrives(b: seq<byte>, p: EncoderPayload, left: byte, length: byte)
    requires Framed(b, EncoderBytes(p) + [left], 0) && 18 <= length <= |b|
    ensures Read(b, length).Accepted? <==> left == 0x7F
    ensures left == 0x7F ==>
      var h := Read(b, length);
      && h.opcode == 0x47 && h.length == 16 && h.payload.Some? && |h.payload.value| >= 12
      && ParseEncoderPayload(h.payload.value) == p
  {
    hide Framed, Read, HighByte, LowByte, FromBytes;
    var m := EncoderBytes(p) + [left];
    if left == 0x7F {
      FramedArrives(b, m, length);
      var v := Read(b, length).payload.value;
      assert forall i | 0 <= i < 12 :: v[i] == m[3..][i] == EncoderBytes(p)[i + 3];
      WordArrives(p.frontLeft);
      WordArrives(p.frontRight);
      WordArrives(p.backLeft);
      WordArrives(p.backRight);
      WordArrives(p.leftActuator);
      WordArrives(p.rightActuator);
    } else {
      UnendedRejected(b, m, length);
    }
  }
}
