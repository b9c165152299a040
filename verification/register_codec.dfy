/**
 * The typed register codec of the Voegtlin GSC driver: the `convertPayload`
 * decoders of a read reply, the byte encoders of the `writeParam` overloads, and
 * the check of a write acknowledgement.
 *
 * The C++ code converts through unions of a 32-bit word and four chars; the host
 * is little-endian, so scratch byte `c[i]` carries bits `8i .. 8i + 7` of the
 * word. A float is represented by its 32-bit pattern throughout.
 */
module RegisterCodec {
  import opened Bytes
  import opened Protocol

  /** Function code of a read reply (section 6.3 of Modbus Application Protocol V1.1b3). */
  const ReadReplyCode: byte := 0x03

  /** Value type requested of `readParam<T>`: std::string, float, unsigned int (uint32_t) or uint16_t. */
  datatype Target = TextTarget | FloatTarget | UIntTarget | U16Target

  /** A value of one of the four target types; a float is held as its bit pattern. */
  datatype Value = Text(bytes: seq<byte>) | Float(bits: u32) | UInt(n: u32) | Short(s: u16)

  /** Whether `v` is a value of type `t`. */
  predicate OfTarget(v: Value, t: Target)
  {
    match t
    case TextTarget => v.Text?
    case FloatTarget => v.Float?
    case UIntTarget => v.UInt?
    case U16Target => v.Short?
  }

  /** `T{}`: the empty string, 0.0f (bit pattern 0), and zero. */
  function Default(t: Target): (v: Value)
    ensures OfTarget(v, t)
  {
    match t
    case TextTarget => Text([])
    case FloatTarget => Float(0)
    case UIntTarget => UInt(0)
    case U16Target => Short(0)
  }

  /**
   * What the decoders may read of a reply: the byte count at index 2 and, when
   * that count is the width of the type, the payload after it.
   */
  predicate ReplyHolds(msg: seq<byte>, t: DataType)
  {
    |msg| >= 3 && (msg[2] == Width(t) ==> |msg| >= 3 + Width(t))
  }

  /** A value below 2^16 added to a multiple of 2^16 is what remains modulo 2^16. */
  lemma Split16(k: nat, r: nat)
    requires r < 0x1_0000
    ensures (k * 0x1_0000 + r) % 0x1_0000 == r && (k * 0x1_0000 + r) / 0x1_0000 == k
  {
  }

  /** Four bytes read as one 32-bit word, most significant first: two registers, high one first. */
  function BigEndian32(b0: byte, b1: byte, b2: byte, b3: byte): (r: u32)
    ensures r / 0x1_0000 == BigEndian16(b0, b1) && r % 0x1_0000 == BigEndian16(b2, b3)
  {
    Split16(BigEndian16(b0, b1), BigEndian16(b2, b3));
    BigEndian16(b0, b1) * 0x1_0000 + BigEndian16(b2, b3)
  }

  /** The union of a 32-bit word and `char c[4]` read as a word on a little-endian host. */
  function ScratchWord(c0: byte, c1: byte, c2: byte, c3: byte): (r: u32)
    ensures r == BigEndian32(c3, c2, c1, c0)
  {
    c0 + c1 * 0x100 + c2 * 0x1_0000 + c3 * 0x100_0000
  }

  /** Conversion of a 32-bit word to `uint16_t`: only its low 16 bits survive. */
  function Truncate16(w: u32): u16
  {
    w % 0x1_0000
  }

  /**
   * `convertPayload(msg, type, std::string&)`: for a string type whose width
   * the byte count matches, exactly the `width` payload bytes, NULs included.
   */
  function ConvertText(msg: seq<byte>, t: DataType): (r: Option<seq<byte>>)
    requires ReplyHolds(msg, t)
    ensures r.Some? <==> msg[2] == Width(t) && IsStringType(t)
    ensures r.Some? ==> |r.value| == Width(t) && msg[..3] + r.value <= msg
  {
    if msg[2] == Width(t) && IsStringType(t) then Some(msg[3..3 + Width(t)]) else None
  }

  /**
   * `convertPayload(msg, type, float&)`: for f32t with a byte count of 4, the
   * four payload bytes reversed into the scratch word.
   */
  function ConvertFloat(msg: seq<byte>, t: DataType): (r: Option<u32>)
    requires ReplyHolds(msg, t)
    ensures r.Some? <==> msg[2] == Width(t) && t == F32
    ensures r.Some? ==> r.value == BigEndian32(msg[3], msg[4], msg[5], msg[6])
  {
    if msg[2] == Width(t) && t == F32 then Some(ScratchWord(msg[6], msg[5], msg[4], msg[3])) else None
  }

  /**
   * `convertPayload(msg, type, unsigned int&)`: u8t gives the payload byte;
   * u16t fills only scratch bytes 2 and 3, which leaves the register in the
   * upper half of the word; u32t gives the big-endian payload.
   */
  function ConvertUInt(msg: seq<byte>, t: DataType): (r: Option<u32>)
    requires ReplyHolds(msg, t)
    ensures r.Some? <==> msg[2] == Width(t) && t in {U8, U16, U32}
    ensures r.Some? && t == U8 ==> r.value == msg[3]
    ensures r.Some? && t == U16 ==> r.value == BigEndian16(msg[3], msg[4]) * 0x1_0000
    ensures r.Some? && t == U32 ==> r.value == BigEndian32(msg[3], msg[4], msg[5], msg[6])
  {
    if msg[2] != Width(t) then None
    else match t
      case U8 => Some(msg[3])
      case U16 => Some(ScratchWord(0, 0, msg[4], msg[3]))
      case U32 => Some(ScratchWord(msg[6], msg[5], msg[4], msg[3]))
      case _ => None
  }

  /**
   * `convertPayload(msg, type, uint16_t&)`: the same scratch word as the
   * `unsigned int` overload, assigned to a 16-bit value.
   */
  function ConvertU16(msg: seq<byte>, t: DataType): (r: Option<u16>)
    requires ReplyHolds(msg, t)
    ensures r.Some? <==> msg[2] == Width(t) && t in {U8, U16, U32}
  {
    if msg[2] != Width(t) then None
    else match t
      case U8 => Some(msg[3])
      case U16 => Some(Truncate16(ScratchWord(0, 0, msg[4], msg[3])))
      case U32 => Some(Truncate16(ScratchWord(msg[6], msg[5], msg[4], msg[3])))
      case _ => None
  }

  /** The `uint16_t` decoder is the `unsigned int` decoder truncated to 16 bits. */
  lemma U16IsTruncatedUInt(msg: seq<byte>, t: DataType)
    requires ReplyHolds(msg, t)
    ensures ConvertU16(msg, t).Some? == ConvertUInt(msg, t).Some?
    ensures ConvertU16(msg, t).Some? ==> ConvertU16(msg, t).value == ConvertUInt(msg, t).value % 0x1_0000
  {
  }

  /**
   * The u16t decode as written: a register `hi, lo` comes back from the
   * `unsigned int` decoder as `(hi * 256 + lo) * 65536`, and from the `uint16_t`
   * decoder as 0, whatever its value.
   */
  lemma U16DecodeQuirk(msg: seq<byte>)
    requires ReplyHolds(msg, U16) && msg[2] == 2
    ensures ConvertUInt(msg, U16) == Some(BigEndian16(msg[3], msg[4]) * 0x1_0000)
    ensures ConvertU16(msg, U16) == Some(0)
  {
    Split16(BigEndian16(msg[3], msg[4]), 0);
  }

  /** The `uint16_t` decoder of a u32t payload keeps its two low bytes. */
  lemma U16OfU32KeepsLowBytes(msg: seq<byte>)
    requires ReplyHolds(msg, U32) && msg[2] == 4
    ensures ConvertU16(msg, U32) == Some(BigEndian16(msg[5], msg[6]))
  {
    Split16(BigEndian16(msg[3], msg[4]), BigEndian16(msg[5], msg[6]));
  }

  /** The `convertPayload` overload `readParam<T>` instantiates for target `target`. */
  function ConvertPayload(msg: seq<byte>, t: DataType, target: Target): (r: Option<Value>)
    requires ReplyHolds(msg, t)
    ensures r.Some? ==> OfTarget(r.value, target) && msg[2] == Width(t)
    ensures r.None? <==> match target
      case TextTarget => ConvertText(msg, t).None?
      case FloatTarget => ConvertFloat(msg, t).None?
      case UIntTarget => ConvertUInt(msg, t).None?
      case U16Target => ConvertU16(msg, t).None?
  {
    match target
    case TextTarget => (var r := ConvertText(msg, t); if r.Some? then Some(Text(r.value)) else None)
    case FloatTarget => (var r := ConvertFloat(msg, t); if r.Some? then Some(Float(r.value)) else None)
    case UIntTarget => (var r := ConvertUInt(msg, t); if r.Some? then Some(UInt(r.value)) else None)
    case U16Target => (var r := ConvertU16(msg, t); if r.Some? then Some(Short(r.value)) else None)
  }

  /**
   * What `readParam<T>` makes of the reply `msg` to a read of `param`: `T{}`
   * when the byte count is not the width of the type or the conversion fails,
   * the converted value otherwise.
   */
  function ReadParamFromReply(msg: seq<byte>, param: ModbusParam, target: Target): (v: Value)
    requires ReplyHolds(msg, param.dataType)
    ensures OfTarget(v, target)
    ensures msg[2] != Width(param.dataType) ==> v == Default(target)
    ensures ConvertPayload(msg, param.dataType, target).Some? ==> v == ConvertPayload(msg, param.dataType, target).value
    ensures ConvertPayload(msg, param.dataType, target).None? ==> v == Default(target)
  {
    if msg[2] != Width(param.dataType) then Default(target)
    else
      var r := ConvertPayload(msg, param.dataType, target);
      if r.Some? then r.value else Default(target)
  }

  /** A read reply as the device frames it: address, 0x03, byte count, payload, CRC low then high. */
  function ReadReply(slave: byte, payload: seq<byte>, crc: u16): (msg: seq<byte>)
    requires |payload| < 0x100
    ensures |msg| == 5 + |payload| && msg[2] == |payload| && msg[3..3 + |payload|] == payload
  {
    [slave, ReadReplyCode, |payload|] + payload + [crc % 256, crc / 256]
  }

  /** `writeParam(param, uint16_t)`: the union's chars `c[1], c[0]`, i.e. high byte then low byte. */
  function U16Bytes(v: u16): (b: seq<byte>)
    ensures |b| == 2 && BigEndian16(b[0], b[1]) == v
  {
    [v / 0x100, v % 0x100]
  }

  /**
   * `writeParam(param, uint32_t)`, and `writeParam(param, float)` on the bit
   * pattern: the union's chars `c[3], c[2], c[1], c[0]`, most significant
   * first, i.e. the high register then the low one.
   */
  function U32Bytes(v: u32): (b: seq<byte>)
    ensures |b| == 4 && b[..2] == U16Bytes(v / 0x1_0000) && b[2..] == U16Bytes(v % 0x1_0000)
  {
    U16Bytes(v / 0x1_0000) + U16Bytes(v % 0x1_0000)
  }

  /** Decoding the four big-endian bytes of a word gives the word back. */
  lemma U32BytesRoundTrip(v: u32)
    ensures var b := U32Bytes(v); BigEndian32(b[0], b[1], b[2], b[3]) == v
  {
    var b := U32Bytes(v);
    assert BigEndian16(b[0], b[1]) == v / 0x1_0000;
    assert BigEndian16(b[2], b[3]) == v % 0x1_0000;
  }

  /** Encoding a `uint32_t` and decoding it from a u32t reply returns the value, whatever the slave and CRC. */
  lemma U32ReplyRoundTrip(slave: byte, v: u32, crc: u16)
    ensures ConvertUInt(ReadReply(slave, U32Bytes(v), crc), U32) == Some(v)
  {
    U32BytesRoundTrip(v);
    var msg := ReadReply(slave, U32Bytes(v), crc);
    assert msg[3..7] == U32Bytes(v);
  }

  /** The same for the bit pattern of a float through an f32t reply. */
  lemma FloatReplyRoundTrip(slave: byte, bits: u32, crc: u16)
    ensures ConvertFloat(ReadReply(slave, U32Bytes(bits), crc), F32) == Some(bits)
  {
    U32BytesRoundTrip(bits);
    var msg := ReadReply(slave, U32Bytes(bits), crc);
    assert msg[3..7] == U32Bytes(bits);
  }

  /** The f32t payload `3F 80 00 00` decodes to bit pattern 0x3F800000, the binary32 encoding of 1.0. */
  lemma FloatOneDecodes(slave: byte, crc: u16)
    ensures ConvertFloat(ReadReply(slave, [0x3F, 0x80, 0x00, 0x00], crc), F32) == Some(0x3F80_0000)
  {
    var msg := ReadReply(slave, [0x3F, 0x80, 0x00, 0x00], crc);
    assert msg[3..7] == [0x3F, 0x80, 0x00, 0x00];
  }

  /**
   * A `uint16_t` written by `writeParam` and read back through a u16t reply
   * does not round-trip: the `unsigned int` decoder shifts it into the upper
   * half of the word and the `uint16_t` decoder gives 0.
   */
  lemma U16ReplyDoesNotRoundTrip(slave: byte, v: u16, crc: u16)
    ensures ConvertUInt(ReadReply(slave, U16Bytes(v), crc), U16) == Some(v * 0x1_0000)
    ensures ConvertU16(ReadReply(slave, U16Bytes(v), crc), U16) == Some(0)
  {
    var msg := ReadReply(slave, U16Bytes(v), crc);
    assert msg[3..5] == U16Bytes(v);
    U16DecodeQuirk(msg);
  }

  /** The write request of a `uint16_t` carries that value as its one register. */
  lemma U16WriteCarriesValue(param: ModbusParam, v: u16)
    ensures WriteRequest(param, U16Bytes(v)).values == [v]
  {
    var regs := WriteRequest(param, U16Bytes(v)).values;
    assert |regs| == 1 && RegisterBytes(regs) == U16Bytes(v);
    assert RegisterBytes(regs) == [regs[0] / 256, regs[0] % 256] + RegisterBytes(regs[1..]);
  }

  /** The write request of a `uint32_t` carries its high register, then its low one. */
  lemma U32WriteCarriesHalves(param: ModbusParam, v: u32)
    ensures WriteRequest(param, U32Bytes(v)).values == [v / 0x1_0000, v % 0x1_0000]
  {
    var b := U32Bytes(v);
    RegistersRoundTrip(b);
    assert b[2..][2..] == [];
    assert Registers(b) == [BigEndian16(b[0], b[1])] + Registers(b[2..]);
    assert Registers(b[2..]) == [BigEndian16(b[2], b[3])] + Registers(b[2..][2..]);
  }

  /** `str` followed by NULs up to `n` bytes: the data of `writeParam(param, std::string)`. */
  function Padded(str: seq<byte>, n: nat): (data: seq<byte>)
    requires |str| <= n
    ensures |data| == n && data[..|str|] == str
    ensures forall i :: |str| <= i < n ==> data[i] == 0
  {
    str + Zeros(n - |str|)
  }

  /** `std::vector<uint8_t> data(n, 0x00)` followed by `std::copy(str.begin(), str.end(), data.begin())`. */
  method FillPadded(str: seq<byte>, n: nat) returns (data: seq<byte>)
    requires |str| <= n
    ensures data == Padded(str, n)
  {
    var buf := new byte[n](_ => 0);
    var i := 0;
    while i < |str|
      invariant 0 <= i <= |str|
      invariant buf[..i] == str[..i]
      invariant forall k :: |str| <= k < n ==> buf[k] == 0
    {
      buf[i] := str[i];
      i := i + 1;
    }
    data := buf[..];
    assert data[..|str|] == str;
  }

  /** `std::string(char const*)`: the bytes before the first NUL. */
  function UntilNul(s: seq<byte>): (r: seq<byte>)
    ensures r <= s && 0 !in r
    ensures |r| < |s| ==> s[|r|] == 0
    decreases |s|
  {
    if s == [] || s[0] == 0 then [] else [s[0]] + UntilNul(s[1..])
  }

  /** A NUL-free string padded with NULs reads back as itself: the padding is where the text ends. */
  lemma {:induction false} PaddedReadsBack(str: seq<byte>, n: nat)
    requires |str| <= n && 0 !in str
    ensures UntilNul(Padded(str, n)) == str
    decreases |str|
  {
    var data := Padded(str, n);
    if str != [] {
      var tail := Padded(str[1..], n - 1);
      assert str == [str[0]] + str[1..];
      assert data == [str[0]] + tail;
      assert data[1..] == tail;
      PaddedReadsBack(str[1..], n - 1);
    }
  }

  /** A string written padded and read back through a reply of its string type gives the padded bytes. */
  lemma TextReplyRoundTrip(slave: byte, str: seq<byte>, t: DataType, crc: u16)
    requires IsStringType(t) && |str| <= Width(t)
    ensures ConvertText(ReadReply(slave, Padded(str, Width(t)), crc), t) == Some(Padded(str, Width(t)))
  {
  }

  /**
   * The acknowledgement test of `writeParam`: an 8-byte frame whose function
   * code is 0x10 and whose start address is the parameter's. The slave address,
   * the register count and the CRC are not looked at.
   */
  predicate WriteAcknowledged(msg: seq<byte>, addr: u16)
    ensures WriteAcknowledged(msg, addr) ==> |msg| == 8 && msg[1] < 0x80
  {
    |msg| == 8 && msg[1] == WriteMultipleAnalogOutputHoldingRegisters && BigEndian16(msg[2], msg[3]) == addr
  }

  /** A write reply as the device frames it (section 6.12 of Modbus Application Protocol V1.1b3). */
  function AckFrame(slave: byte, start: u16, count: u16, crc: u16): (msg: seq<byte>)
    ensures |msg| == 8 && msg[1] == WriteMultipleAnalogOutputHoldingRegisters
  {
    [slave, WriteMultipleAnalogOutputHoldingRegisters, start / 256, start % 256, count / 256, count % 256, crc % 256, crc / 256]
  }

  /**
   * A well-formed write reply is accepted exactly when it echoes the
   * parameter's address, whatever its slave address, count and CRC.
   */
  lemma AckAcceptsOwnAddress(slave: byte, start: u16, count: u16, crc: u16, addr: u16)
    ensures WriteAcknowledged(AckFrame(slave, start, count, crc), addr) <==> start == addr
  {
    var msg := AckFrame(slave, start, count, crc);
    assert BigEndian16(msg[2], msg[3]) == start;
  }

  /** An exception reply (function code with bit 7 set) or a frame of another length is never an acknowledgement. */
  lemma AckRejectsExceptionFrames(msg: seq<byte>, addr: u16)
    requires |msg| != 8 || msg[1] == WriteMultipleAnalogOutputHoldingRegisters + 0x80
    ensures !WriteAcknowledged(msg, addr)
  {
  }
}
