/** Framing of a message for a serial line (qt_widgets/DNREngineThread.cpp, SendSerialMessage). */
module SerialMessage {
  import opened Basics
  import opened SevenBit
  import Transport

  const MAX_DNR_DATA_SIZE := 99
  const MAX_DNR_CAN_BUFFER_SIZE := 127
  const PROTOCOL_OVERHEAD := 13

  // Seven bits of an address or a message type.
  function Seven(a: bv64, shift: nat): Byte requires shift < 64 { ((a >> shift) & 0x7F) as Byte }

  function Header(to: bv64, kind: bv64, length: nat): (h: seq<Byte>)
    requires length < 256
    ensures |h| == 12
  {
    [0x80 | (((to >> 28) & 0x01) as Byte), Seven(to, 21), Seven(to, 14), Seven(to, 7), Seven(to, 0),
     0, 0, 0, 0, Seven(kind, 7), Seven(kind, 0), length as Byte]
  }

  /** The whole message: header, data in seven-bit bytes, end byte. */
  function Framed(to: bv64, kind: bv64, data: seq<Byte>): (m: seq<Byte>)
    requires |data| <= MAX_DNR_DATA_SIZE
    ensures |m| == EncodedSize(|data|) + PROTOCOL_OVERHEAD <= MAX_DNR_CAN_BUFFER_SIZE
  {
    Header(to, kind, EncodedSize(|data|) + PROTOCOL_OVERHEAD) + Encoded(data) + [0xFF]
  }

  /** SendSerialMessage up to the write: the bytes it passes to write(), or nothing if there is
      too much data to frame. Every access to the 127-byte buffer is in bounds. */
  method SendSerialMessage(to: bv64, kind: bv64, data: seq<Byte>) returns (written: Option<seq<Byte>>)
    requires |data| <= 255
    ensures written == if |data| <= MAX_DNR_DATA_SIZE then Some(Framed(to, kind, data)) else None
  {
    if |data| > MAX_DNR_DATA_SIZE { return None; }
    var buffer := new Byte[MAX_DNR_CAN_BUFFER_SIZE](_ => 0);
    WriteHeader(to, kind, buffer);
    ghost var start := buffer[..11];
    var cnt := 11;
    var newDataLength := Encode8to7bits(data, buffer, cnt + 1);
    var messageLength := newDataLength + PROTOCOL_OVERHEAD;
    buffer[cnt] := messageLength as Byte;
    cnt := cnt + 1;
    cnt := cnt + newDataLength;
    buffer[cnt] := 0xFF;
    cnt := cnt + 1;
    Assemble(buffer[..], start, messageLength as Byte, Encoded(data));
    written := Some(buffer[..messageLength]);
    for i := cnt to MAX_DNR_CAN_BUFFER_SIZE
      invariant written == Some(start + [messageLength as Byte] + Encoded(data) + [0xFF])
    {
      buffer[i] := 0;
    }
  }

  /** The eleven bytes before the length. */
  method WriteHeader(to: bv64, kind: bv64, buffer: array<Byte>)
    requires buffer.Length >= 11
    modifies buffer
    ensures forall length: nat :: length < 256 ==> buffer[..11] + [length as Byte] == Header(to, kind, length)
  {
    var local: bv64 := 0;
    buffer[0] := 0x80 | (((to >> 28) & 0x01) as Byte);
    buffer[1] := ((to >> 21) & 0x7F) as Byte;
    buffer[2] := ((to >> 14) & 0x7F) as Byte;
    buffer[3] := ((to >> 7) & 0x7F) as Byte;
    buffer[4] := (to & 0x7F) as Byte;
    buffer[5] := ((local >> 21) & 0x7F) as Byte;
    buffer[6] := ((local >> 14) & 0x7F) as Byte;
    buffer[7] := ((local >> 7) & 0x7F) as Byte;
    buffer[8] := (local & 0x7F) as Byte;
    buffer[9] := ((kind >> 7) & 0x7F) as Byte;
    buffer[10] := (kind & 0x7F) as Byte;
  }

  lemma {:induction false} Assemble(b: seq<Byte>, start: seq<Byte>, length: Byte, data: seq<Byte>)
    requires |start| == 11 && |data| + PROTOCOL_OVERHEAD <= |b|
    requires b[..11] == start && b[11] == length && b[12..12 + |data|] == data && b[12 + |data|] == 0xFF
    ensures b[..|data| + PROTOCOL_OVERHEAD] == start + [length] + data + [0xFF]
  {
    var n := |data|;
    assert b[..n + PROTOCOL_OVERHEAD] == b[..11] + [b[11]] + b[12..12 + n] + [b[12 + n]];
  }

  // Reading a message back.
  function AddressIn(m: seq<Byte>): bv64
    requires |m| >= PROTOCOL_OVERHEAD
  {
    ((m[0] & 1) as bv64 << 28) | (m[1] as bv64 << 21) | (m[2] as bv64 << 14) | (m[3] as bv64 << 7) | (m[4] as bv64)
  }

  function SenderIn(m: seq<Byte>): bv64
    requires |m| >= PROTOCOL_OVERHEAD
  {
    (m[5] as bv64 << 21) | (m[6] as bv64 << 14) | (m[7] as bv64 << 7) | (m[8] as bv64)
  }

  function KindIn(m: seq<Byte>): bv64
    requires |m| >= PROTOCOL_OVERHEAD
  {
    (m[9] as bv64 << 7) | (m[10] as bv64)
  }

  function DataIn(m: seq<Byte>): seq<Byte>
    requires |m| >= PROTOCOL_OVERHEAD
  {
    Decoded(m[12..|m| - 1])
  }

  /** Nothing is lost: 29 bits of address, 14 bits of type and all the data can be read back, the
      sender's address is 0, and the length byte is the length. */
  lemma {:induction false} Recoverable(to: bv64, kind: bv64, data: seq<Byte>)
    requires |data| <= MAX_DNR_DATA_SIZE
    ensures var m := Framed(to, kind, data);
            && AddressIn(m) == to & 0x1FFF_FFFF && KindIn(m) == kind & 0x3FFF && DataIn(m) == data
            && SenderIn(m) == 0 && |m| <= 127 && m[11] == |m| as Byte
  {
    var m := Framed(to, kind, data);
    var h := Header(to, kind, |m|);
    assert forall k :: 0 <= k < 12 ==> m[k] == h[k];
    AddressRecoverable(to, kind, m);
    KindRecoverable(to, kind, m);
    SenderZero(to, kind, m);
    DataRecoverable(to, kind, data);
  }

  lemma {:induction false} AddressRecoverable(to: bv64, kind: bv64, m: seq<Byte>)
    requires PROTOCOL_OVERHEAD <= |m| < 256 && forall k :: 0 <= k < 12 ==> m[k] == Header(to, kind, |m|)[k]
    ensures AddressIn(m) == to & 0x1FFF_FFFF
  {
    AddressBack(to);
  }

  lemma {:induction false} SenderZero(to: bv64, kind: bv64, m: seq<Byte>)
    requires PROTOCOL_OVERHEAD <= |m| < 256 && forall k :: 0 <= k < 12 ==> m[k] == Header(to, kind, |m|)[k]
    ensures SenderIn(m) == 0
  {
    assert m[5] == 0 && m[6] == 0 && m[7] == 0 && m[8] == 0;
  }

  lemma {:induction false} KindRecoverable(to: bv64, kind: bv64, m: seq<Byte>)
    requires PROTOCOL_OVERHEAD <= |m| < 256 && forall k :: 0 <= k < 12 ==> m[k] == Header(to, kind, |m|)[k]
    ensures KindIn(m) == kind & 0x3FFF
  {
    KindBack(kind);
  }

  lemma {:induction false} DataRecoverable(to: bv64, kind: bv64, data: seq<Byte>)
    requires |data| <= MAX_DNR_DATA_SIZE
    ensures DataIn(Framed(to, kind, data)) == data
  {
    var m := Framed(to, kind, data);
    assert m[12..|m| - 1] == Encoded(data);
    RoundTrip(data);
  }

  lemma {:induction false} AddressBack(to: bv64)
    ensures ((((0x80 | (((to >> 28) & 0x01) as Byte)) & 1) as bv64) << 28) | (Seven(to, 21) as bv64 << 21)
            | (Seven(to, 14) as bv64 << 14) | (Seven(to, 7) as bv64 << 7) | (Seven(to, 0) as bv64)
         == to & 0x1FFF_FFFF
  {
  }

  lemma {:induction false} KindBack(kind: bv64)
    ensures (Seven(kind, 7) as bv64 << 7) | (Seven(kind, 0) as bv64) == kind & 0x3FFF
  {
  }

  /** Only the first byte and the last have their top bit set, and they are 0x80 or 0x81, and
      0xFF: so the message is one that the serial transport carries unchanged. */
  lemma {:induction false} FitForTransport(to: bv64, kind: bv64, data: seq<Byte>)
    requires |data| <= MAX_DNR_DATA_SIZE
    ensures var m := Framed(to, kind, data);
            && (m[0] == 0x80 || m[0] == 0x81) && m[|m| - 1] == 0xFF
            && (forall k :: 1 <= k < |m| - 1 ==> m[k] < 0x80)
            && Transport.WellFormed(m)
  {
    var m := Framed(to, kind, data);
    SameBits(data);
    LowSeptets(to);
    LowSeptets(kind);
    LengthByte(|m|);
    forall k | 1 <= k < |m| - 1
      ensures m[k] < 0x80
    {
      if k >= 12 { assert m[k] == Encoded(data)[k - 12]; }
    }
    FirstByteSmall(to);
    NoSpecials(m);
  }

  lemma {:induction false} LowSeptets(a: bv64)
    ensures Seven(a, 21) < 0x80 && Seven(a, 14) < 0x80 && Seven(a, 7) < 0x80 && Seven(a, 0) < 0x80
  {
  }

  lemma {:induction false} LengthByte(n: nat)
    requires n < 128
    ensures (n as Byte) < 0x80
  {
  }

  lemma {:induction false} FirstByteSmall(to: bv64)
    ensures (0x80 as Byte) | (((to >> 28) & 0x01) as Byte) == 0x80 || (0x80 as Byte) | (((to >> 28) & 0x01) as Byte) == 0x81
  {
  }

  lemma {:induction false} NoSpecials(m: seq<Byte>)
    requires 2 <= |m| <= 127 && m[|m| - 1] == 0xFF && (m[0] == 0x80 || m[0] == 0x81)
    requires forall k :: 1 <= k < |m| - 1 ==> m[k] < 0x80
    ensures Transport.WellFormed(m)
  {
    assert forall k :: 0 <= k < |m| - 1 ==> m[k] != 0xFF && m[k] != 0xE0;
  }
}
