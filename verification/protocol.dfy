/**
 * The frame model the transport relies on: data types and their wire widths,
 * register parameters, requests, responses, error codes, and the framing
 * collaborators (CRC, serialisation, parsing) whose definitions are not part of
 * this model and are therefore passed in as uninterpreted functions.
 */
module Protocol {
  import opened Bytes

  /** `MB::DataType`: u8t, u16t, u32t, s8t, s50t, f32t. */
  datatype DataType = U8 | U16 | U32 | S8 | S50 | F32

  /**
   * `getNumBytesFromDataType`: the number of payload bytes a value of the type
   * occupies. Every type but u8t fills whole 16-bit registers, and no value is
   * wider than the 50-byte string.
   */
  function Width(t: DataType): (r: nat)
    ensures 1 <= r <= 50
    ensures r % 2 == 0 <==> t != U8
  {
    match t
    case U8 => 1
    case U16 => 2
    case U32 => 4
    case S8 => 8
    case S50 => 50
    case F32 => 4
  }

  predicate IsStringType(t: DataType)
  {
    t == S8 || t == S50
  }

  /** `MB::ModbusParam`: one addressable value of the device. */
  datatype ModbusParam = ModbusParam(addr: u16, dataType: DataType, desc: string)

  /**
   * `MB::utils::ErrorCode`. Timeout and SlaveDeviceFailure are synthesised by the
   * transport itself; every other code (wire-reported exception codes and local
   * parse failures alike) is kept abstract.
   */
  datatype ErrorCode = Timeout | SlaveDeviceFailure | OtherCode(code: nat)

  /** A value or the error code of the `MB::ModbusException` that replaced it. */
  datatype Result<+T> = Ok(value: T) | Failure(error: ErrorCode)

  datatype Option<+T> = None | Some(value: T)

  /** Function 0x03, Read Holding Registers (section 6.3 of Modbus Application Protocol V1.1b3). */
  const ReadAnalogOutputHoldingRegisters: byte := 0x03
  /** Function 0x10, Write Multiple Registers (section 6.12 of Modbus Application Protocol V1.1b3). */
  const WriteMultipleAnalogOutputHoldingRegisters: byte := 0x10

  /** The slave address every request of this master is sent to (`static int modbusAddr`). */
  const SlaveAddress: byte := 247

  /** `MB::ModbusRequest`: `values` is empty for a read request. */
  datatype Request = Request(slave: byte, functionCode: byte, start: u16, count: u16, values: seq<u16>)

  /** `MB::ModbusResponse` as returned by the frame parser. */
  datatype Response = Response(slave: byte, functionCode: byte, payload: seq<byte>)

  /**
   * The framing collaborators: `utils::calculateCRC`, `ModbusRequest::toRaw`,
   * `ModbusException::exist`, the error code of `ModbusException(data)`,
   * `ModbusResponse::fromRawCRC`, `ModbusRequest::fromRawCRC` and
   * `utils::isStandardErrorCode`. Their definitions are not part of this model.
   */
  datatype Framing = Framing(
    crc: seq<byte> -> u16,
    requestToRaw: Request -> seq<byte>,
    exceptionExists: seq<byte> -> bool,
    exceptionCode: seq<byte> -> ErrorCode,
    responseFromRaw: seq<byte> -> Result<Response>,
    requestFromRaw: seq<byte> -> Result<Request>,
    isStandardErrorCode: ErrorCode -> bool)

  /**
   * A frame is accepted when its last two bytes hold the CRC of everything before
   * them, low byte first (section 2.5.1.2 of Modbus over Serial Line V1.02).
   */
  predicate CrcValid(f: Framing, frame: seq<byte>)
  {
    |frame| >= 2 && frame[|frame| - 2] as int + 256 * frame[|frame| - 1] as int == f.crc(frame[..|frame| - 2])
  }

  /** The frame `send` puts on the line: the data, then its CRC low byte, then its high byte. */
  function WithCrc(f: Framing, data: seq<byte>): (frame: seq<byte>)
    ensures |frame| == |data| + 2 && frame[..|data|] == data
    ensures frame[|data|] == f.crc(data) % 256 && frame[|data| + 1] == f.crc(data) / 256
  {
    var crc := f.crc(data);
    data + [crc % 256, crc / 256]
  }

  /** Appending the CRC makes any byte sequence pass the CRC check, and the data is recovered unchanged. */
  lemma CrcRoundTrip(f: Framing, data: seq<byte>)
    ensures CrcValid(f, WithCrc(f, data))
    ensures WithCrc(f, data)[..|data|] == data
  {
    var frame := WithCrc(f, data);
    assert frame[..|frame| - 2] == data;
  }

  /**
   * Registers of a write request: byte pair k becomes register k, high byte first.
   * An odd-length buffer has no meaning here: the source would read past its end.
   */
  function Registers(data: seq<byte>): (regs: seq<u16>)
    requires |data| % 2 == 0
    ensures |regs| == |data| / 2
    ensures forall k :: 0 <= k < |regs| ==> regs[k] == BigEndian16(data[2 * k], data[2 * k + 1])
    decreases |data|
  {
    if data == [] then []
    else
      var rest := Registers(data[2..]);
      var regs := [BigEndian16(data[0], data[1])] + rest;
      assert forall k :: 1 <= k < |regs| ==> regs[k] == rest[k - 1];
      regs
  }

  /** The register values of a write request as they appear on the wire, each high byte first. */
  function RegisterBytes(regs: seq<u16>): (data: seq<byte>)
    ensures |data| == 2 * |regs|
    decreases |regs|
  {
    if regs == [] then [] else [regs[0] / 256, regs[0] % 256] + RegisterBytes(regs[1..])
  }

  /** Packing a buffer into registers loses nothing: the wire bytes of the registers are the buffer. */
  lemma {:induction false} RegistersRoundTrip(data: seq<byte>)
    requires |data| % 2 == 0
    ensures RegisterBytes(Registers(data)) == data
    decreases |data|
  {
    if data != [] {
      RegistersRoundTrip(data[2..]);
      assert Registers(data)[1..] == Registers(data[2..]);
      assert data == [data[0], data[1]] + data[2..];
    }
  }

  /** The other direction: registers serialised and packed again are the same registers. */
  lemma {:induction false} RegisterBytesRoundTrip(regs: seq<u16>)
    ensures Registers(RegisterBytes(regs)) == regs
    decreases |regs|
  {
    if regs != [] {
      RegisterBytesRoundTrip(regs[1..]);
      var data := RegisterBytes(regs);
      assert data[2..] == RegisterBytes(regs[1..]);
    }
  }

  /**
   * The read request of `sendRequest(param)` and of `createRequest`: slave 247,
   * function 0x03, start at the parameter's address, one register per two bytes
   * of its type (so a u8t parameter asks for zero registers).
   */
  function ReadRequest(param: ModbusParam): (r: Request)
    ensures r.slave == SlaveAddress && r.functionCode == ReadAnalogOutputHoldingRegisters
    ensures r.start == param.addr && r.values == []
    ensures 2 * r.count <= Width(param.dataType) < 2 * r.count + 2
    ensures r.count == 0 <==> param.dataType == U8
  {
    Request(SlaveAddress, ReadAnalogOutputHoldingRegisters, param.addr, Width(param.dataType) / 2, [])
  }

  /**
   * The write request of `sendRequest(param, true, data)`: function 0x10, the
   * register count taken from the parameter's type, the values from the data.
   */
  function WriteRequest(param: ModbusParam, data: seq<byte>): (r: Request)
    requires |data| % 2 == 0
    ensures r.slave == SlaveAddress && r.functionCode == WriteMultipleAnalogOutputHoldingRegisters
    ensures r.start == param.addr && r.count == Width(param.dataType) / 2
    ensures RegisterBytes(r.values) == data
  {
    RegistersRoundTrip(data);
    Request(SlaveAddress, WriteMultipleAnalogOutputHoldingRegisters, param.addr, Width(param.dataType) / 2, Registers(data))
  }

  /**
   * The bytes of a request ahead of its CRC in the RTU layout of functions 0x03
   * and 0x10 (sections 6.3 and 6.12 of Modbus Application Protocol V1.1b3):
   * address, function code, start and count high byte first, and for a write
   * the byte count followed by the values high byte first. It is the reference
   * the transport's frame lengths are checked against; the serialiser itself,
   * `ModbusRequest::toRaw`, is not part of this model.
   */
  function RequestBytes(r: Request): (data: seq<byte>)
    ensures r.functionCode != WriteMultipleAnalogOutputHoldingRegisters ==> |data| == 6
    ensures |data| >= 6 && data[..6] == [r.slave, r.functionCode, r.start / 256, r.start % 256, r.count / 256, r.count % 256]
    ensures r.functionCode == WriteMultipleAnalogOutputHoldingRegisters ==>
      |data| == 7 + 2 * |r.values| && data[6] == (2 * |r.values|) % 256 && data[7..] == RegisterBytes(r.values)
  {
    var head := [r.slave, r.functionCode, r.start / 256, r.start % 256, r.count / 256, r.count % 256];
    if r.functionCode == WriteMultipleAnalogOutputHoldingRegisters
    then head + [(2 * |r.values|) % 256] + RegisterBytes(r.values)
    else head
  }

  /**
   * The count field of a write request agrees with the number of values it
   * carries exactly when the data holds as many register pairs as the type.
   */
  lemma WriteRequestCountAgrees(param: ModbusParam, data: seq<byte>)
    requires |data| % 2 == 0
    ensures |WriteRequest(param, data).values| == WriteRequest(param, data).count
        <==> |data| / 2 == Width(param.dataType) / 2
  {
  }
}
