# Modbus RTU master for the Voegtlin GSC flow controller, modelled in Dafny

This project models the master side of a Modbus RTU client. The master talks
to a Voegtlin GSC mass-flow controller over a half-duplex serial line. It has
three parts, each with its own modules.

- **Transport** (`MB::Serial::Connection`, module `Transport` in
  `connection.dfy`):
  - `send` frames a request with its CRC, low byte first, and paces it after
    the last completed reception (`_lastSendTime`).
  - `readRawMessage` collects replies of a known length from a 1024-byte
    buffer.
  - `sendRequest` strips the echo of the request the line returns.
  - `awaitResponse` and `awaitRequest` accumulate chunks until a frame
    parses. They tell retryable parse failures from fatal codes.
  - The serial port is a scripted environment (module `SerialLine`): a
    finite list of events (bytes arriving, a failing read with its errno, a
    quiet interval), a log of written frames and a millisecond clock. All
    of the transport's loops are therefore verified `while` loops over this
    object.
- **Typed register codec** (`MB::VoegtlinGSC`, modules `RegisterCodec` and
  `Voegtlin`):
  - the four `convertPayload` decoders (string, float, `unsigned int`,
    `uint16_t`);
  - `readParam<T>`, modelled with a `Target` tag in place of the C++
    template parameter;
  - the `writeParam` encoders for `uint16_t`, `uint32_t`, float, string and
    `char const*`;
  - the write-acknowledgement check for function 0x10 (section 6.12 of
    Modbus Application Protocol V1.1b3). Reads use function 0x03 (section
    6.3).
- **The example program** (`example/main.cpp`, module `Example`):
  - its mutable `Params` map and `getDataTypeFromAddr`, which inserts a
    default entry for an unknown address;
  - the text-returning converters `convertPayload(msg, type)` and
    `convertPayloadToString`;
  - its free `readParam`/`writeParam` functions;
  - the `Spinner`.
  - Its `convertPayload(msg, type, T&)` overloads are byte-for-byte copies
    of the header's, so the same `RegisterCodec` functions model them.
  - `createRequest` is the read request `Protocol.ReadRequest`.
- The parameter table `Params` and the `GSC::` constants are in module
  `DeviceTable`.

Collaborators whose code is not part of this model are uninterpreted
functions held in a `Framing` value:
- `utils::calculateCRC`;
- `ModbusRequest::toRaw`;
- `ModbusResponse::fromRawCRC` and `ModbusRequest::fromRawCRC`;
- `ModbusException::exist` and the code of `ModbusException(data)`;
- `utils::isStandardErrorCode`.

A `std::string` of bytes is `seq<byte>`, and a float is its 32-bit pattern.

Since `toRaw` is uninterpreted, the lengths the transport waits for are
checked against a reference layout of the two requests it sends,
`Protocol.RequestBytes`. That layout follows sections 6.3 and 6.12 of Modbus
Application Protocol V1.1b3:
- address, function code, start and count, each 16-bit field high byte first;
- for function 0x10, also the byte count and the register values.

Assumptions about code outside the modelled files:
- **Type widths.** `getNumBytesFromDataType` is not part of this model. Its
  widths are taken as u8t = 1, u16t = 2, u32t = 4, s8t = 8, s50t = 50,
  f32t = 4. The callers at include/MB/modbusVoegtlin.hpp:223 and 254 and
  example/main.cpp:358 agree with these values.
- **Big-endian conversion.** `utils::bigEndianConv(p)` is taken as
  `p[0] * 256 + p[1]`.
- **Host byte order.** The host is little-endian. Every union conversion is
  written out for such a host (`RegisterCodec.ScratchWord`).
- **Read echo length.** `include/MB/Serial/connection.hpp` is not part of
  this model. The default `requestLength` of the two-argument
  `sendRequest` is taken as 8, the length of a framed read request, as the
  comment at src/Serial/connection.cpp:56 says. A read therefore hands back
  the `5 + width` reply bytes after the echo.
- **Default parameter.** The `ModbusParam{}` that `Params[addr]` inserts is
  taken to be address 0, type u8t (the first enumerator) and an empty
  description.

Behaviour of the code worth noting:
- **Pacing.** `send` waits until `_lastSendTime + MinPauseBetweenSendingMS`
  but never updates `_lastSendTime`. Only completed receptions in
  `readRawMessage` stamp it. Two sends with no reception between them are
  paced from the same earlier time. `Transport.Connection.Send` states this.
- **Standard codes in `awaitRequest`.** `awaitRequest` rethrows only Timeout
  and SlaveDeviceFailure, so a standard exception code makes it keep
  accumulating (`Transport.ParseFailureContinuesRequestWait`).
  `awaitResponse` also rethrows standard codes.
- **Echo stripping.** The echo is stripped for reads as well as writes: 8
  bytes for a read, `9 + data.size()` for a write.
- **u8t reads.** A u8t parameter's read request asks for `1 / 2 = 0`
  registers, yet the read waits for `8 + 5 + 1 = 14` bytes, one more than
  the echo and the reply to a zero-register read
  (`Transport.ReadExpectedCoversRequest`).
- **Timeouts in `readRawMessage`.** A positive `readRawMessage` has no
  timeout. It ends only when enough bytes arrive, which is why its
  precondition asks for them.
- **The u16t decode.** On a little-endian host the u16t decode leaves the
  register in the upper half of the word. The `unsigned int` result is
  `register * 65536`, and the `uint16_t` result is always 0. It is modelled
  as written, and `RegisterCodec.U16ReplyDoesNotRoundTrip` proves that a
  written `uint16_t` does not read back.

## Model

| member | source | states |
|---|---|---|
| Bytes.BigEndian16 | src/Serial/connection.cpp:63 | a register built from two wire bytes has the first as its high byte and the second as its low byte |
| Bytes.Zeros | include/MB/modbusVoegtlin.hpp:274 | `std::vector<uint8_t>(n, 0)` holds n bytes, all zero |
| Protocol.Width | src/Serial/connection.cpp:54-56 | every type but u8t fills whole 16-bit registers (an even width), and no width exceeds the 50-byte string |
| Protocol.WithCrc | src/Serial/connection.cpp:222-227 | `send` returns the data followed by the CRC, low byte then high byte, two bytes longer than its input |
| Protocol.CrcRoundTrip | src/Serial/connection.cpp:222-227 | a frame with its CRC appended passes the CRC check, and its data is recovered unchanged |
| Protocol.Registers | src/Serial/connection.cpp:60-65 | write data of even length becomes `size / 2` registers, register k being `data[2k] * 256 + data[2k+1]` |
| Protocol.RegistersRoundTrip | src/Serial/connection.cpp:61-64 | packing loses nothing: the wire bytes of the packed registers are the data |
| Protocol.RegisterBytesRoundTrip | src/Serial/connection.cpp:61-64 | registers written as bytes and packed again give the same registers |
| Protocol.ReadRequest | src/Serial/connection.cpp:53-55 | a read asks slave 247 with function 0x03, from the parameter's address, for the whole registers the type's width fills (twice the count is the width, rounded down to even), which is none exactly for u8t; `createRequest` at example/main.cpp:262-265 builds the same request |
| Protocol.WriteRequest | src/Serial/connection.cpp:59-65 | a write to slave 247 with function 0x10 takes its count from the type (`width / 2`) and carries registers whose wire bytes are the data |
| Protocol.WriteRequestCountAgrees | src/Serial/connection.cpp:60-65 | the count field equals the number of carried registers exactly when the data has the type's width (rounded down to whole registers) |
| DeviceTable.ParamsKeysMatch | include/MB/modbusVoegtlin.hpp:14-47 | every entry of `Params` is filed under its own register address, as in the example's copy at example/main.cpp:42-62 |
| DeviceTable.SetGasFlowReadRequest | src/Serial/connection.cpp:53-55 | the read request for the gas-flow setpoint is slave 0xF7, function 0x03, start 0x0006, two registers |
| SerialLine.ReadStep | src/Serial/connection.cpp:146 | one read of at most `cap` bytes never delivers more than `cap` bytes |
| SerialLine.ReadStepSplitsStream | src/Serial/connection.cpp:146 | a read hands out a prefix of the bytes still to come, keeps the rest pending, and makes progress when bytes remain and there is room |
| SerialLine.PollStepKeepsStream | src/Serial/connection.cpp:99 | a poll consumes no bytes; a ready poll leaves the line as it was |
| SerialLine.SerialPort.ReadInto | src/Serial/connection.cpp:146 | a read into the free end of the buffer appends exactly the bytes read after the bytes already there, and leaves the rest of the buffer as it was |
| SerialLine.SerialPort.Poll | src/Serial/connection.cpp:99 | a poll that times out advances the clock by the timeout |
| SerialLine.SerialPort.Write | src/Serial/connection.cpp:237 | a write logs the frame once, stamped with the current time |
| SerialLine.SerialPort.SleepUntil | src/Serial/connection.cpp:229-230 | after sleeping until t, the clock is at least t and never goes back |
| Transport.ReadExpectedLength | src/Serial/connection.cpp:56 | a read waits for more bytes than the 8-byte echo and the 5 bytes of reply framing, and never for more than the 1024-byte buffer holds |
| Transport.ReadEchoIsReadFrame | src/Serial/connection.cpp:53-56 | the 8 echo bytes a read strips are exactly one read request in the RTU layout, CRC included, for every parameter |
| Transport.ReadExpectedCoversRequest | src/Serial/connection.cpp:53-56 | the bytes a read waits for are the echo plus a reply to the registers requested (address, function, byte count, two bytes per register, CRC) exactly when the type is not u8t |
| Transport.WriteEchoIsWriteFrame | src/Serial/connection.cpp:59-67 | for all even-length data, the `9 + size` echo bytes a write strips are 7 header bytes, the request's register bytes and 2 CRC bytes, the length of the write request in the RTU layout |
| Transport.WriteExpectedLength | src/Serial/connection.cpp:67 | erasing the echo leaves exactly the 8-byte acknowledgement; the wait fits the buffer exactly when the data is at most 1007 bytes |
| Transport.AvailableNow | src/Serial/connection.cpp:117-138 | `readRawMessage(0)` fails with SlaveDeviceFailure exactly when the read fails with an errno other than EAGAIN and EBADF; those two give no bytes, a successful read gives its bytes |
| Transport.AwaitRaw | src/Serial/connection.cpp:94-113 | a wait for raw bytes fails only with Timeout (the poll timed out) or SlaveDeviceFailure (the read failed); it spends the whole timeout exactly when it ends in Timeout, and no time otherwise |
| Transport.AwaitRawProgress | src/Serial/connection.cpp:94-113 | `awaitRawMessage` either returns the next bytes of the line, or fails with Timeout or SlaveDeviceFailure without losing a byte |
| Transport.ResponseFatal | src/Serial/connection.cpp:191 | every code that ends `awaitRequest` also ends `awaitResponse` |
| Transport.RequestFatal | src/Serial/connection.cpp:214 | only Timeout and SlaveDeviceFailure end `awaitRequest`; no wire-reported or parse code does |
| Transport.ResponseLoop | src/Serial/connection.cpp:174-197 | each attempt appends a chunk, raises an exception frame's code before parsing, and goes round again on a non-fatal code; whatever the outcome, the line left is a suffix of the line before, so no byte is put back; the loop spends no time, or the timeout once when it ends in Timeout |
| Transport.RequestLoop | src/Serial/connection.cpp:199-220 | each attempt appends a chunk and parses the whole buffer, going round again on any code but Timeout and SlaveDeviceFailure; the line left is a suffix of the line before; the loop spends no time, or the timeout once when it ends in Timeout |
| Transport.ResponseLoopOutcome | src/Serial/connection.cpp:174-197 | `awaitResponse` ends only with a parsed response or a standard, Timeout or SlaveDeviceFailure code; the returned buffer is not an exception frame, it parses to the response, and it is the concatenation of the chunks read, in order |
| Transport.ExceptionFrameEndsResponseWait | src/Serial/connection.cpp:185-191 | an exception frame with a standard code ends `awaitResponse` with that code, whatever the normal parse would have given |
| Transport.RequestLoopOutcome | src/Serial/connection.cpp:199-220 | `awaitRequest` ends only with a parsed request, Timeout or SlaveDeviceFailure; the returned buffer parses and is the chunks read, in order |
| Transport.ParseFailureContinuesRequestWait | src/Serial/connection.cpp:210-215 | any other parse failure, a standard code included, makes `awaitRequest` keep the grown buffer and wait again |
| Transport.PackRegisters | src/Serial/connection.cpp:61-65 | the packing loop produces exactly the registers of the data |
| Transport.FillLoop | src/Serial/connection.cpp:140-157 | the reads of the loop take a prefix of the line, at least the bytes still wanted and never more than the free buffer, and leave the rest of the line after them |
| Transport.FillLoopPrefix | src/Serial/connection.cpp:140-157 | the bytes the loop collects start with the first n bytes of the line |
| Transport.WholeReplyLeavesRest | src/Serial/connection.cpp:140-157 | a reply that arrives as one chunk of exactly the awaited length is read whole, with no sleep, and the events after it are left untouched |
| Transport.PacedClock | src/Serial/connection.cpp:229-230 | a paced send goes out at the later of now and the earliest allowed time |
| Transport.Connection.constructor | src/Serial/connection.cpp:12-15 | a new connection stamps `_lastSendTime` with the current time |
| Transport.Connection.Send | src/Serial/connection.cpp:222-242 | `send` writes exactly one CRC-valid frame, stamped with the later of now and `_lastSendTime` plus the minimum pause, consumes no input, and leaves `_lastSendTime` unchanged |
| Transport.Connection.ReadRawMessage | src/Serial/connection.cpp:115-171 | for n > 0, the first n bytes of the line in arrival order, with the line and the clock left exactly where the read loop `FillLoop` leaves them; for 0, one read with the three outcomes of `AvailableNow`; for n < 0, one read after sleeping -n ms; every successful read stamps `_lastSendTime` |
| Transport.Connection.ReadExactly | src/Serial/connection.cpp:140-157 | the accumulation loop returns exactly the first n bytes received; the line is left just after the chunk that completed them and the clock is advanced by one poll interval per short read, both as `FillLoop` gives them; `_lastSendTime` is stamped with the end of the reception |
| Transport.Connection.FillBuffer | src/Serial/connection.cpp:144-157 | the read loop puts exactly what `FillLoop` reads into the buffer, and leaves the line and the clock where `FillLoop` says |
| Transport.Connection.FillRound | src/Serial/connection.cpp:146-156 | one pass (a read, then a sleep while still short) keeps the buffer, the line and the clock in step with `FillLoop`, and never lengthens the line |
| Transport.Connection.SendRequest | src/Serial/connection.cpp:73-84 | the framed request is sent after the pause; with a positive length the reply minus the first `requestLength` echoed bytes comes back (`expected - requestLength` bytes), with a negative one the unstripped read, with zero the frame sent; the line and the clock afterwards are those of the paced send followed by the read (`Exchanged`), so calls can be chained |
| Transport.Connection.SendParamRequest | src/Serial/connection.cpp:52-71 | a read returns the 5 + width reply bytes after the 8-byte echo, a write the 8 acknowledgement bytes after the `9 + size` echo; the request sent is the parameter's read or write request; the line and the clock afterwards are the paced send plus the read of the expected length, and `_lastSendTime` is the end of the reception |
| Transport.Connection.AwaitRawMessage | src/Serial/connection.cpp:94-113 | Timeout when the poll times out, SlaveDeviceFailure when the read fails, otherwise exactly the bytes read; the clock advances by exactly the time `AwaitRaw` spends |
| Transport.Connection.AwaitResponse | src/Serial/connection.cpp:174-197 | the accumulation loop ends in the outcome `ResponseLoop` describes, whose properties `ResponseLoopOutcome` proves, with the line left and the clock advanced exactly as `ResponseLoop` says |
| Transport.Connection.AwaitRequest | src/Serial/connection.cpp:199-220 | the accumulation loop ends in the outcome `RequestLoop` describes, whose properties `RequestLoopOutcome` proves, with the line left and the clock advanced exactly as `RequestLoop` says |
| RegisterCodec.Default | include/MB/modbusVoegtlin.hpp:82 | `T{}` is a value of the requested target type |
| RegisterCodec.BigEndian32 | include/MB/modbusVoegtlin.hpp:153-158 | a 32-bit word read from four big-endian bytes has the first pair as its high register and the second as its low one |
| RegisterCodec.ScratchWord | include/MB/modbusVoegtlin.hpp:133-158 | on a little-endian host, the word of the union whose bytes are c0..c3 is the big-endian reading of c3, c2, c1, c0 |
| RegisterCodec.ConvertText | include/MB/modbusVoegtlin.hpp:86-102 | the string decoder succeeds exactly for a string type whose width the byte count matches, and then gives the `width` payload bytes, NULs kept; the copy at example/main.cpp:94-109 is the same |
| RegisterCodec.ConvertFloat | include/MB/modbusVoegtlin.hpp:104-127 | the float decoder succeeds exactly for f32t with byte count 4, and gives the big-endian bit pattern of the payload; the copy at example/main.cpp:111-132 is the same |
| RegisterCodec.ConvertUInt | include/MB/modbusVoegtlin.hpp:129-163 | the `unsigned int` decoder succeeds exactly for u8t, u16t and u32t of matching byte count: u8t gives the byte, u16t the register times 65536, u32t the big-endian word; the copy at example/main.cpp:134-166 is the same |
| RegisterCodec.ConvertU16 | include/MB/modbusVoegtlin.hpp:165-199 | the `uint16_t` decoder succeeds for the same types and counts as the `unsigned int` one; the copy at example/main.cpp:168-200 is the same |
| RegisterCodec.U16IsTruncatedUInt | include/MB/modbusVoegtlin.hpp:165-199 | the `uint16_t` decoder is the `unsigned int` decoder truncated to 16 bits |
| RegisterCodec.U16DecodeQuirk | include/MB/modbusVoegtlin.hpp:145-151 | for u16t the `unsigned int` result is `(msg[3] * 256 + msg[4]) * 65536` and the `uint16_t` result is 0 |
| RegisterCodec.U16OfU32KeepsLowBytes | include/MB/modbusVoegtlin.hpp:189-195 | for u32t the `uint16_t` result is the low register `msg[5] * 256 + msg[6]` |
| RegisterCodec.ConvertPayload | include/MB/modbusVoegtlin.hpp:78 | the overload of the requested target decides success, and a value it gives is of that target type |
| RegisterCodec.ReadParamFromReply | include/MB/modbusVoegtlin.hpp:68-83 | `readParam` gives `T{}` on a byte-count mismatch or a failed conversion, and the converted value otherwise; the example's `readParam` decides the same way |
| RegisterCodec.U16Bytes | include/MB/modbusVoegtlin.hpp:233-246 | a `uint16_t` is written as two bytes, high then low, that read back as the value; the example's encoder at example/main.cpp:316-328 is the same |
| RegisterCodec.U32Bytes | include/MB/modbusVoegtlin.hpp:248-262 | a `uint32_t` is written as four bytes: the high register's bytes, then the low register's |
| RegisterCodec.U32BytesRoundTrip | include/MB/modbusVoegtlin.hpp:248-262 | the four written bytes read back as big-endian give the value |
| RegisterCodec.U32ReplyRoundTrip | include/MB/modbusVoegtlin.hpp:153-158 | a `uint32_t` encoded and decoded from a u32t reply is the original value, whatever the slave and CRC bytes |
| RegisterCodec.FloatReplyRoundTrip | include/MB/modbusVoegtlin.hpp:217-231 | the bit pattern of a float written by `writeParam` decodes back unchanged from an f32t reply |
| RegisterCodec.FloatOneDecodes | include/MB/modbusVoegtlin.hpp:116-122 | the f32t payload `3F 80 00 00` decodes to the bit pattern of 1.0 |
| RegisterCodec.U16ReplyDoesNotRoundTrip | include/MB/modbusVoegtlin.hpp:145-151 | a `uint16_t` written and read back through a u16t reply comes back as `v * 65536` (`unsigned int`) or 0 (`uint16_t`) |
| RegisterCodec.U16WriteCarriesValue | include/MB/modbusVoegtlin.hpp:233-246 | the write request of a `uint16_t` carries exactly that value as its one register |
| RegisterCodec.U32WriteCarriesHalves | include/MB/modbusVoegtlin.hpp:248-262 | the write request of a `uint32_t` carries its high register and then its low one |
| RegisterCodec.Padded | include/MB/modbusVoegtlin.hpp:274-275 | a string write sends exactly `width` bytes: the string, then NULs |
| RegisterCodec.FillPadded | include/MB/modbusVoegtlin.hpp:274-275 | filling a zeroed buffer of `width` bytes with the string gives the padded data |
| RegisterCodec.UntilNul | include/MB/modbusVoegtlin.hpp:280-283 | `std::string(char const*)` is the NUL-free prefix before the first NUL |
| RegisterCodec.PaddedReadsBack | include/MB/modbusVoegtlin.hpp:264-283 | a NUL-free string padded with NULs reads back, as a C string, as itself |
| RegisterCodec.TextReplyRoundTrip | include/MB/modbusVoegtlin.hpp:94-97 | a padded string in a reply of its string type decodes to the padded bytes |
| RegisterCodec.WriteAcknowledged | include/MB/modbusVoegtlin.hpp:205-207 | an accepted reply is an 8-byte frame whose function code is not an exception code; the copy at example/main.cpp:288-290 tests the same |
| RegisterCodec.AckAcceptsOwnAddress | include/MB/modbusVoegtlin.hpp:205-208 | a write reply is accepted exactly when its start address is the parameter's, whatever its slave address, count and CRC |
| RegisterCodec.AckRejectsExceptionFrames | include/MB/modbusVoegtlin.hpp:205-214 | a reply that is not 8 bytes long, or that has the exception function code 0x90, is never accepted |
| Voegtlin.ReadReplyOf | src/Serial/connection.cpp:56-57 | a read hands the codec `5 + width` bytes, enough for every decoder |
| Voegtlin.WriteReplyOf | src/Serial/connection.cpp:66-70 | a write hands the codec exactly the 8 acknowledgement bytes after the echo |
| Voegtlin.ReadReplyAhead | src/Serial/connection.cpp:56-57 | when a reply is the next chunk and of exactly the awaited length, the codec gets that chunk after its echo, and the read leaves the following events alone |
| Voegtlin.VoegtlinGsc.constructor | src/modbusVoegtlin.cpp:5-13 | the device object talks through the given connection |
| Voegtlin.VoegtlinGsc.ReadParam | include/MB/modbusVoegtlin.hpp:68-83 | sends the parameter's read request after the pause and returns what `ReadParamFromReply` makes of the reply bytes after the echo; the line is left just past the reply, the clock where the paced send and the read leave it, and `_lastSendTime` at the end of the reception (`Exchanged`) |
| Voegtlin.VoegtlinGsc.WriteRaw | include/MB/modbusVoegtlin.hpp:201-215 | sends the parameter's write request and succeeds exactly when the 8 reply bytes after the echo acknowledge the parameter's address; the line is left just past the reply, the clock where the paced send and the read leave it, and `_lastSendTime` at the end of the reception (`Exchanged`) |
| Voegtlin.VoegtlinGsc.WriteU16 | include/MB/modbusVoegtlin.hpp:233-246 | writes the value's two big-endian bytes and reports the acknowledgement; the line is left just past the reply, the clock where the paced send and the read leave it, and `_lastSendTime` at the end of the reception (`Exchanged`) |
| Voegtlin.VoegtlinGsc.WriteU32 | include/MB/modbusVoegtlin.hpp:248-262 | writes the value's four big-endian bytes and reports the acknowledgement; the line is left just past the reply, the clock where the paced send and the read leave it, and `_lastSendTime` at the end of the reception (`Exchanged`) |
| Voegtlin.VoegtlinGsc.WriteFloat | include/MB/modbusVoegtlin.hpp:217-231 | writes the float's bit pattern as four big-endian bytes and reports the acknowledgement; the line is left just past the reply, the clock where the paced send and the read leave it, and `_lastSendTime` at the end of the reception (`Exchanged`) |
| Voegtlin.VoegtlinGsc.WriteString | include/MB/modbusVoegtlin.hpp:264-278 | a string longer than the width fails with nothing sent, no byte consumed and no time passed; otherwise the NUL-padded string is written, the acknowledgement reported, and the line, clock and `_lastSendTime` left as after any write |
| Voegtlin.VoegtlinGsc.WriteCString | include/MB/modbusVoegtlin.hpp:280-283 | a C string is written as its bytes before the first NUL, with the same two outcomes |
| Example.AfterLookup | example/main.cpp:64-66 | `Params[addr]` leaves existing entries unchanged and makes `addr` a key, adding only that key |
| Example.LookupKeepsKeysMatch | example/main.cpp:64-66 | a lookup keeps every key equal to its parameter's address exactly when the address was listed or is 0 |
| Example.LookupGrowsByOne | example/main.cpp:64-66 | a lookup of an unlisted address grows the map by exactly one entry; a listed one leaves it as it is |
| Example.ListedLookupLeavesTable | example/main.cpp:42-66 | looking up a listed address leaves the table and its invariant intact and yields that parameter's type |
| Example.ParamTable.constructor | example/main.cpp:42-62 | the example's map starts as the parameter table |
| Example.ParamTable.GetDataTypeFromAddr | example/main.cpp:64-66 | returns the listed type, or u8t after inserting the default entry |
| Example.ConvertPayloadText | example/main.cpp:73-92 | "Invalid message length" on a byte-count mismatch, "Not a string type" for a matching non-string type |
| Example.ConvertPayloadTextAgrees | example/main.cpp:73-109 | the text converter returns what the string decoder decodes, and one of its two messages when that decoder fails |
| Example.Decimal | example/main.cpp:219 | `std::to_string` of an unsigned value is a non-empty string of decimal digits without a leading zero |
| Example.DecimalRoundTrip | example/main.cpp:219 | the printed digits denote the printed number |
| Example.ConvertPayloadToString | example/main.cpp:202-247 | a byte-count mismatch gives "Invalid message length" |
| Example.ConvertPayloadToStringAgrees | example/main.cpp:202-247 | for a matching count it shows the string decoder's bytes, the digits of the `unsigned int` decoder's value (u16t quirk included), or the float decoder's bits |
| Example.ShownDigitsDenoteValue | example/main.cpp:218-233 | the digits shown for an unsigned reply denote the value the `unsigned int` decoder gives |
| Example.ReadParam | example/main.cpp:267-283 | the example's `readParam` sends the read request and returns what `ReadParamFromReply` makes of the reply; the line is left just past the reply, the clock where the paced send and the read leave it, and `_lastSendTime` at the end of the reception (`Exchanged`) |
| Example.WriteParamRaw | example/main.cpp:285-299 | the example's raw write succeeds exactly when the reply acknowledges the parameter's address; the line is left just past the reply, the clock where the paced send and the read leave it, and `_lastSendTime` at the end of the reception (`Exchanged`) |
| Example.WriteParamU16 | example/main.cpp:316-328 | writes the value's two big-endian bytes and reports the acknowledgement; the line is left just past the reply, the clock where the paced send and the read leave it, and `_lastSendTime` at the end of the reception (`Exchanged`) |
| Example.WriteParamFloat | example/main.cpp:301-314 | writes the float's bit pattern big-endian and reports the acknowledgement; the line is left just past the reply, the clock where the paced send and the read leave it, and `_lastSendTime` at the end of the reception (`Exchanged`) |
| Example.ReadParamAhead | example/main.cpp:267-283 | with its reply the next chunk on the line, the example's `readParam` decodes that chunk, adds its read request to the transmission log stamped with the paced send time, and leaves the line at the events after it and the clock at that send time |
| Example.StatusLogPaced | example/main.cpp:388-392 | the five read requests of a polling pass are sent in order, the first at the pass's start and each next one exactly one minimum pause after the one before |
| Example.ReadMeasurements | example/main.cpp:388-390 | the three float reads of a polling pass each decode their own reply and log their read requests in order (`StatusLog`): the first at the paced send time, the second and third each exactly one minimum pause after the one before |
| Example.StatusPass | example/main.cpp:387-396 | one pass of the polling loop: each of the five reads decodes its own reply, the five read requests are logged in order (`StatusLog`), the first at the paced send time and each later one exactly one minimum pause after the one before (the reception in between takes no time), the line is left at what follows, and the pass ends 200 ms after the last send |
| Example.SpinnerChar | example/main.cpp:330-336 | the spinner always shows one of `/`, `-`, `\`, `\|` |
| Example.SpinnerPeriod | example/main.cpp:330-336 | the spinner's output repeats every four steps, hence every eight |
| Example.Spinner.constructor | example/main.cpp:332 | the counter starts at 0 |
| Example.Spinner.Next | example/main.cpp:333-335 | `next` pre-increments the counter and shows `chars[charIdx % 8]` for the new value |

## Left out

- Opening, configuring, flushing and closing the port (`open`, `connect`, `tcgetattr`/`tcsetattr`, `tcflush`, `close`, baud rate, stop bits, parity): they only manage the file descriptor.
- The move constructor and move assignment (src/Serial/connection.cpp:244-257): they copy the descriptor and `_termios` but not `_lastSendTime`. The stamp the path constructor sets (src/Serial/connection.cpp:14) is therefore lost when src/modbusVoegtlin.cpp:7 move-assigns a new connection into `m_conn`, and the first request is paced from whatever `_lastSendTime` `m_conn` already held. The model starts a connection with the stamp and does not model the move.
- Real time: `sleep_for`, `sleep_until` and `high_resolution_clock` act on the modelled millisecond counter `clock`; the kernel's read and poll are the scripted events of `SerialPort`.
- `sendResponse` and `sendException`: slave-side senders that only call `send` with a frame from `toRaw`, which is not part of this model.
- `calculateCRC`, `toRaw`, `fromRawCRC`, `ModbusException::exist`, the error code of `ModbusException(data)` and `isStandardErrorCode` are uninterpreted; their definitions are not part of this model.
- Transport.Connection.ReadRawMessage: the negative-length branch is modelled only when its one read succeeds; when it fails, the source resizes the buffer by -1.
- Transport.Connection.ReadExactly: requires `n <= 1024` and at least n bytes to come. Otherwise the source loops forever, with no timeout.
- Transport.Connection.SendParamRequest: write data must have even length. With an odd length the packing loop reads one byte past the buffer.
- Voegtlin.VoegtlinGsc.WriteString: a string that fits must go to a parameter of even width, for the same reason. No listed parameter has odd width.
- Voegtlin.VoegtlinGsc.WriteCString: requires the bytes to contain the terminating NUL.
- Example.Spinner.Next: requires the counter below `INT_MAX`, where the C++ `int` increment would overflow.
- Float values are their IEEE-754 bit patterns. Only the byte reversal of the union punning is modelled, and `std::to_string(float)` formatting is not (`Example.Shown.FloatShown`).
- Console output: `showByte`, the diagnostic prints of `readParam`, `writeParam` and `readRawMessage(0)`, `handleResponse` and `main`.
- `sendRequests`: only one pass of its polling loop is modelled, as `Example.StatusPass`. Its setup reads and writes are single calls of the modelled operations, and the rest is console output and the spinner.
- Example.StatusPass: requires each of the five replies to arrive as one chunk of exactly the length its read waits for. Replies split across reads or run together are covered by the single reads, not by this pass.
- Example.ReadMeasurements: the same requirement for its three replies.
- Example.ReadParamAhead: the same requirement for its one reply.
- `src/modbusVoegtlin.cpp`: beyond taking the connection, its constructor only configures the port.
