/**
 The 8-byte data field of an SDO frame (CiA 301, section 7.2.4.3): byte 0 is the
 command specifier, bytes 1-2 the object index (little-endian), byte 3 the
 subindex and bytes 4-7 data or a size. This module holds the encoders the client
 uses for its requests, the decoder it applies to the server's frames, and the
 field layout of the command bytes, so that each encoder can be checked against
 the way the other side reads it.

 A byte is the number 0..255 it holds. The client builds its command bytes by
 or-ing shifted fields that never share a bit, so each such or is written here
 as the sum of the fields; BitwiseExpeditedCommand and BitwiseSegmentCommand show that the sums are the source's
 bitwise expressions on 8-bit values.
 */
module SdoFrame {
  import opened Wrappers
  import AbortCodes

  newtype Byte = b: int | 0 <= b < 256

  /** The toggle bit of a segmented transfer. */
  type Bit = b: nat | b < 2

  /** CAN identifier base of a client-to-server SDO request; node n sends on 0x600 + n. */
  const RequestBase: int := 0x600

  const AbortCommand: Byte := 0x80
  const InitiateResponse: Byte := 0x60
  const SegmentResponse: Byte := 0x20
  const SegmentedInitiateCommand: Byte := 0x21

  function Min(a: int, b: int): int
  {
    if a <= b then a else b
  }

  /*
   * Byte-level helpers
   */

  /**
   Byte `i` of a raw value. JavaScript reads an index past the end as
   `undefined`, which a Buffer stores as 0.
   */
  function ByteAt(raw: seq<Byte>, i: nat): Byte
  {
    if i < |raw| then raw[i] else 0
  }

  /** The bytes that a transfer of `size` bytes of `raw` carries. */
  function Payload(raw: seq<Byte>, size: nat): (p: seq<Byte>)
    ensures |p| == size
    ensures forall i :: 0 <= i < size ==> p[i] == ByteAt(raw, i)
    ensures size <= |raw| ==> p == raw[..size]
  {
    seq(size, i requires 0 <= i < size => ByteAt(raw, i))
  }

  /** What a Buffer stores when a non-negative number is written into one byte: the number modulo 256. */
  function LowByte(n: int): Byte
  {
    (n % 256) as Byte
  }

  /** `n` as four bytes, least significant first, each byte being `(n >> 8k)` stored into a Buffer. */
  function U32LE(n: nat): seq<Byte>
  {
    [LowByte(n), LowByte(n / 0x100), LowByte(n / 0x1_0000), LowByte(n / 0x100_0000)]
  }

  function ReadU16LE(d: seq<Byte>, at: nat): nat
    requires at + 2 <= |d|
  {
    d[at] as int + 0x100 * d[at + 1] as int
  }

  function ReadU32LE(d: seq<Byte>, at: nat): nat
    requires at + 4 <= |d|
  {
    ReadU16LE(d, at) + 0x1_0000 * ReadU16LE(d, at + 2)
  }

  /** Splitting the low 16 bits of `n` into two bytes. */
  lemma SplitU16(n: nat)
    ensures n % 0x100 + 0x100 * ((n / 0x100) % 0x100) == n % 0x1_0000
  {
    var q, r := n / 0x100, n % 0x100;
    var m, t := q / 0x100, q % 0x100;
    assert n == 0x1_0000 * m + (0x100 * t + r);
    assert 0 <= 0x100 * t + r < 0x1_0000;
  }

  /** Splitting the low 32 bits of `n` into two 16-bit halves. */
  lemma SplitU32(n: nat)
    ensures n % 0x1_0000 + 0x1_0000 * ((n / 0x1_0000) % 0x1_0000) == n % 0x1_0000_0000
    ensures n / 0x1_0000 / 0x100 == n / 0x100_0000
  {
    var q, r := n / 0x1_0000, n % 0x1_0000;
    var m, t := q / 0x1_0000, q % 0x1_0000;
    assert n == 0x1_0000_0000 * m + (0x1_0000 * t + r);
    assert 0 <= 0x1_0000 * t + r < 0x1_0000_0000;
    var u, v := q / 0x100, q % 0x100;
    assert n == 0x100_0000 * u + (0x1_0000 * v + r);
    assert 0 <= 0x1_0000 * v + r < 0x100_0000;
  }

  /** The two low bytes of `n` read back as `n` truncated to 16 bits. */
  lemma LowBytesU16(n: nat)
    ensures LowByte(n) as int + 0x100 * LowByte(n / 0x100) as int == n % 0x1_0000
  {
    SplitU16(n);
  }

  /** Reading back the four bytes of U32LE gives `n` truncated to 32 bits. */
  lemma U32LERoundTrip(n: nat)
    ensures ReadU32LE(U32LE(n), 0) == n % 0x1_0000_0000
  {
    var b := U32LE(n);
    LowBytesU16(n);
    LowBytesU16(n / 0x1_0000);
    SplitU32(n);
    assert ReadU16LE(b, 0) == n % 0x1_0000;
    assert ReadU16LE(b, 2) == (n / 0x1_0000) % 0x1_0000;
  }

  /*
   * Decoding
   */

  /** The error part of a decoded frame: 0 for an ordinary frame, the looked-up reason for an abort. */
  datatype ErrorField = NoError | AbortReason(reason: Option<string>)

  /** The `[command, index, error]` triple that `parse` returns. */
  datatype Indication = Indication(command: Byte, index: nat, error: ErrorField)

  /** `readUInt16LE` or `readUInt32LE` went past the end of the data. */
  datatype ParseError = OutOfRange

  /**
   Decodes a frame from the server: byte 0 is the command, bytes 1-2 the index;
   for an abort (0x80) the code in bytes 4-7 is looked up in the abort table.
   Data too short for these reads fails, as Node's Buffer reads throw.
   */
  function Parse(data: seq<Byte>): (r: Result<Indication, ParseError>)
    ensures r.Ok? <==> 3 <= |data| && (data[0] == AbortCommand ==> 8 <= |data|)
    ensures r.Ok? ==> r.value.command == data[0]
    ensures r.Ok? ==> r.value.index == data[1] as int + 256 * data[2] as int < 0x1_0000
    ensures r.Ok? && data[0] == AbortCommand ==>
      r.value.error == AbortReason(AbortCodes.Lookup(ReadU32LE(data, 4)))
    ensures r.Ok? && data[0] != AbortCommand ==> r.value.error == NoError
  {
    if |data| < 3 then Err(OutOfRange)
    else
      var command := data[0];
      var index := ReadU16LE(data, 1);
      if command == AbortCommand then
        if |data| < 8 then Err(OutOfRange)
        else Ok(Indication(command, index, AbortReason(AbortCodes.Lookup(ReadU32LE(data, 4)))))
      else Ok(Indication(command, index, NoError))
  }

  /*
   * Command bytes and their fields as CiA 301 lays them out
   */

  /**
   Command of an expedited initiate-download request with the size indicated:
   0x23 with 4 - size shifted into bits 2.. (the source's `0x23 | ((4 - size) << 2)`).
   */
  function ExpeditedCommand(size: nat): Byte
    requires size <= 4
  {
    (0x23 + 4 * (4 - size)) as Byte
  }

  /**
   Command of a download segment: toggle in bit 4, 7 - count in bits 1-3, last
   in bit 0 (the source's `(toggle << 4) | ((7 - count) << 1)`, or-ed with 1 for the last one).
   */
  function SegmentCommand(toggle: Bit, count: nat, last: bool): Byte
    requires 1 <= count <= 7
  {
    (16 * toggle + 2 * (7 - count) + (if last then 1 else 0)) as Byte
  }

  /** The client command specifier, bits 5-7. */
  function Specifier(cmd: Byte): nat { cmd as int / 32 }

  /** Bit 1 (e) of an initiate request: the data travel in this frame. */
  predicate IsExpedited(cmd: Byte) { (cmd as int / 2) % 2 == 1 }

  /** Bit 0 (s) of an initiate request: the size is indicated. */
  predicate SizeIndicated(cmd: Byte) { cmd as int % 2 == 1 }

  /** Bit 4, reserved (zero) in an initiate request. */
  predicate ReservedSet(cmd: Byte) { (cmd as int / 16) % 2 == 1 }

  /** The data size of an expedited request: 4 minus field n, bits 2-3. */
  function ExpeditedSize(cmd: Byte): nat { 4 - (cmd as int / 4) % 4 }

  /** The toggle bit of a segment, bit 4. */
  function SegmentToggle(cmd: Byte): Bit { (cmd as int / 16) % 2 }

  /** The number of data bytes in a segment: 7 minus field n, bits 1-3. */
  function SegmentCount(cmd: Byte): nat { 7 - (cmd as int / 2) % 8 }

  /** Bit 0 (c) of a segment: no more segments follow. */
  predicate SegmentLast(cmd: Byte) { cmd as int % 2 == 1 }

  /**
   For 1 to 4 bytes the expedited command reads back as an initiate-download
   request (specifier 1) that is expedited, indicates its size, names that many
   bytes and leaves the reserved bit 4 clear.
   */
  lemma ExpeditedCommandFields(size: nat)
    requires 1 <= size <= 4
    ensures Specifier(ExpeditedCommand(size)) == 1
    ensures IsExpedited(ExpeditedCommand(size)) && SizeIndicated(ExpeditedCommand(size))
    ensures ExpeditedSize(ExpeditedCommand(size)) == size
    ensures !ReservedSet(ExpeditedCommand(size))
  {
  }

  /** For an empty value the field n would need the value 4, which overflows into the reserved bit 4: the command is 0x33. */
  lemma ExpeditedCommandEmpty()
    ensures ExpeditedCommand(0) == 0x33
    ensures ReservedSet(ExpeditedCommand(0)) && ExpeditedSize(ExpeditedCommand(0)) == 4
  {
  }

  /** 0x21 is an initiate-download request of the segmented kind with the size indicated. */
  lemma SegmentedCommandFields()
    ensures Specifier(SegmentedInitiateCommand) == 1
    ensures !IsExpedited(SegmentedInitiateCommand) && SizeIndicated(SegmentedInitiateCommand)
  {
  }

  /** The segment command reads back with specifier 0 and exactly the toggle, count and last flag it was built from. */
  lemma SegmentCommandFields(toggle: Bit, count: nat, last: bool)
    requires 1 <= count <= 7
    ensures Specifier(SegmentCommand(toggle, count, last)) == 0
    ensures SegmentToggle(SegmentCommand(toggle, count, last)) == toggle
    ensures SegmentCount(SegmentCommand(toggle, count, last)) == count
    ensures SegmentLast(SegmentCommand(toggle, count, last)) == last
  {
  }

  /** Byte `b` as an 8-bit vector. */
  function Bits(b: Byte): bv8
  {
    b as int as bv8
  }

  /** The expedited command is the source's bitwise `0x23 | ((4 - size) << 2)` on 8-bit values. */
  lemma BitwiseExpeditedCommand(size: nat)
    requires size <= 4
    ensures Bits(ExpeditedCommand(size)) == 0x23 | (Bits((4 - size) as Byte) << 2)
  {
    if size == 0 {} else if size == 1 {} else if size == 2 {} else if size == 3 {} else {}
  }

  /** The segment command is the source's bitwise `(toggle << 4) | ((7 - count) << 1)`, or-ed with 1 for the last segment. */
  lemma BitwiseSegmentCommand(toggle: Bit, count: nat, last: bool)
    requires 1 <= count <= 7
    ensures var c := (Bits(toggle as Byte) << 4) | (Bits((7 - count) as Byte) << 1);
      Bits(SegmentCommand(toggle, count, last)) == if last then c | 1 else c
  {
    if count == 1 {} else if count == 2 {} else if count == 3 {} else if count == 4 {}
    else if count == 5 {} else if count == 6 {} else {}
  }

  /*
   * Encoding
   */

  /** Bytes 1-3 of a request: the index, low byte first, and the subindex, each stored into one byte. */
  function Header(index: nat, subIndex: nat): seq<Byte>
  {
    [LowByte(index), LowByte(index / 0x100), LowByte(subIndex)]
  }

  /**
   The buffer after the initiate-download request is written into `buf`, the
   client's reused 8-byte buffer. Up to 4 bytes go expedited in bytes 4.., and
   the bytes after them keep what `buf` held; a larger value announces its size
   in bytes 4-7.
   */
  function InitiateFrame(buf: seq<Byte>, index: nat, subIndex: nat, size: nat, raw: seq<Byte>): (f: seq<Byte>)
    requires |buf| == 8
    ensures |f| == 8
    ensures ReadU16LE(f, 1) == index % 0x1_0000 && f[3] as int == subIndex % 256
    ensures size <= 4 ==> f[0] == ExpeditedCommand(size)
    ensures size <= 4 ==> forall i :: 0 <= i < size ==> f[4 + i] == ByteAt(raw, i)
    ensures size <= 4 ==> forall i :: 4 + size <= i < 8 ==> f[i] == buf[i]
    ensures 4 < size ==> f[0] == SegmentedInitiateCommand && ReadU32LE(f, 4) == size % 0x1_0000_0000
  {
    LowBytesU16(index);
    var h := Header(index, subIndex);
    if size <= 4 then
      [ExpeditedCommand(size), h[0], h[1], h[2],
       if 0 < size then ByteAt(raw, 0) else buf[4],
       if 1 < size then ByteAt(raw, 1) else buf[5],
       if 2 < size then ByteAt(raw, 2) else buf[6],
       if 3 < size then ByteAt(raw, 3) else buf[7]]
    else
      U32LERoundTrip(size);
      var n := U32LE(size);
      [SegmentedInitiateCommand, h[0], h[1], h[2], n[0], n[1], n[2], n[3]]
  }

  /** Byte `1 + i` of a segment holding `count` bytes of `raw` from `sent` on. */
  function SegmentByte(raw: seq<Byte>, sent: nat, count: nat, i: nat): Byte
  {
    if i < count then ByteAt(raw, sent + i) else 0
  }

  /**
   The buffer after the download segment that starts at byte `sent` of the value
   is written: up to 7 data bytes in bytes 1.., zeros after them, and a command
   carrying the toggle bit, the byte count and whether this segment ends the value.
   */
  function SegmentFrame(raw: seq<Byte>, size: nat, sent: nat, toggle: Bit): (f: seq<Byte>)
    requires sent < size
    ensures |f| == 8
    ensures Specifier(f[0]) == 0 && SegmentToggle(f[0]) == toggle
    ensures SegmentCount(f[0]) == Min(7, size - sent)
    ensures SegmentLast(f[0]) <==> sent + Min(7, size - sent) == size
    ensures forall i :: 1 <= i <= Min(7, size - sent) ==> f[i] == ByteAt(raw, sent + i - 1)
    ensures forall i :: 1 + Min(7, size - sent) <= i < 8 ==> f[i] == 0
  {
    var count := Min(7, size - sent);
    SegmentCommandFields(toggle, count, sent + count == size);
    [SegmentCommand(toggle, count, sent + count == size)]
      + seq(7, i requires 0 <= i < 7 => SegmentByte(raw, sent, count, i))
  }

  /** The data bytes a server takes from a download segment: as many as the command's count field says. */
  function SegmentData(f: seq<Byte>): seq<Byte>
  {
    if |f| == 8 then f[1..1 + SegmentCount(f[0])] else []
  }

  /** A server reading a segment takes exactly the next bytes of the value. */
  lemma SegmentDataIsNextChunk(raw: seq<Byte>, size: nat, sent: nat, toggle: Bit)
    requires sent < size
    ensures SegmentData(SegmentFrame(raw, size, sent, toggle))
      == Payload(raw, size)[sent..sent + Min(7, size - sent)]
  {
    var f := SegmentFrame(raw, size, sent, toggle);
    var count := Min(7, size - sent);
    assert SegmentData(f) == f[1..1 + count];
    var d, p := f[1..1 + count], Payload(raw, size)[sent..sent + count];
    forall i | 0 <= i < count
      ensures d[i] == p[i]
    {
      assert d[i] == f[i + 1];
    }
  }

  /** An abort frame as a server sends it: command 0x80, index and subindex, the code in bytes 4-7. */
  function AbortFrame(index: nat, subIndex: nat, code: nat): seq<Byte>
  {
    [AbortCommand] + Header(index, subIndex) + U32LE(code)
  }

  /** Decoding an abort frame recovers its index and looks up its (32-bit) code. */
  lemma ParseAbortFrame(index: nat, subIndex: nat, code: nat)
    ensures Parse(AbortFrame(index, subIndex, code))
      == Ok(Indication(AbortCommand, index % 0x1_0000, AbortReason(AbortCodes.Lookup(code % 0x1_0000_0000))))
  {
    var f := AbortFrame(index, subIndex, code);
    LowBytesU16(index);
    U32LERoundTrip(code);
    assert f[4..] == U32LE(code);
    assert ReadU32LE(f, 4) == ReadU32LE(U32LE(code), 0);
  }

  /** Decoding an initiate request recovers its command and its index. */
  lemma ParseInitiateFrame(buf: seq<Byte>, index: nat, subIndex: nat, size: nat, raw: seq<Byte>)
    requires |buf| == 8
    ensures var f := InitiateFrame(buf, index, subIndex, size, raw);
      Parse(f) == Ok(Indication(f[0], index % 0x1_0000, NoError))
  {
  }
}
