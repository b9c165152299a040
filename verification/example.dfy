/**
 * The example master program: its mutable copy of the parameter table, the
 * text-returning payload converters, its own `readParam`/`writeParam` over a
 * connection, and the progress spinner. Its `convertPayload` overloads are the
 * ones of `RegisterCodec`, and `createRequest` is `Protocol.ReadRequest`.
 */
module Example {
  import opened Bytes
  import opened Protocol
  import opened DeviceTable
  import opened SerialLine
  import opened Transport
  import opened RegisterCodec
  import opened Voegtlin

  /** `MB::ModbusParam{}`, the entry `std::map::operator[]` inserts for a missing key. */
  const DefaultParam := ModbusParam(0, U8, "")

  /** The table after `Params[addr]`: unchanged when `addr` is listed, else grown by a default entry. */
  function AfterLookup(m: map<u16, ModbusParam>, addr: u16): (r: map<u16, ModbusParam>)
    ensures addr in r && r.Keys == m.Keys + {addr}
    ensures forall a :: a in m ==> r[a] == m[a]
  {
    if addr in m then m else m[addr := DefaultParam]
  }

  /** A lookup keeps the key invariant exactly when the address was listed or is 0, the default's own address. */
  lemma LookupKeepsKeysMatch(m: map<u16, ModbusParam>, addr: u16)
    requires KeysMatch(m)
    ensures KeysMatch(AfterLookup(m, addr)) <==> addr in m || addr == 0
  {
    if addr !in m && addr != 0 {
      assert AfterLookup(m, addr)[addr].addr != addr;
    }
  }

  /** A lookup of an unlisted address grows the table by exactly one entry. */
  lemma LookupGrowsByOne(m: map<u16, ModbusParam>, addr: u16)
    ensures |AfterLookup(m, addr).Keys| == |m.Keys| + (if addr in m then 0 else 1)
  {
    if addr !in m {
      assert AfterLookup(m, addr).Keys == m.Keys + {addr};
    }
  }

  /** The example's global `Params` map, which lookups may grow. */
  class ParamTable {
    var entries: map<u16, ModbusParam>

    constructor ()
      ensures entries == Params
    {
      entries := Params;
    }

    /** `getDataTypeFromAddr`: `Params[addr].type`, inserting a default entry for an unlisted address. */
    method GetDataTypeFromAddr(addr: u16) returns (t: DataType)
      modifies this
      ensures entries == AfterLookup(old(entries), addr)
      ensures t == (if addr in old(entries) then old(entries)[addr].dataType else U8)
    {
      if addr !in entries {
        entries := entries[addr := DefaultParam];
      }
      t := entries[addr].dataType;
    }
  }

  /** The listed addresses keep the table as it is and give the type of their parameter. */
  lemma ListedLookupLeavesTable(addr: u16)
    requires addr in Params
    ensures AfterLookup(Params, addr) == Params && KeysMatch(AfterLookup(Params, addr))
    ensures AfterLookup(Params, addr)[addr].dataType == Params[addr].dataType
  {
    ParamsKeysMatch();
  }

  const InvalidLengthText := Ascii("Invalid message length")
  const NotStringText := Ascii("Not a string type")

  /**
   * The text-returning `convertPayload(msg, type)`: the payload of a string
   * reply, "Not a string type" for another type of the right width, "Invalid
   * message length" when the byte count does not match.
   */
  function ConvertPayloadText(msg: seq<byte>, t: DataType): (r: seq<byte>)
    requires ReplyHolds(msg, t)
    ensures msg[2] != Width(t) ==> r == InvalidLengthText
    ensures msg[2] == Width(t) && !IsStringType(t) ==> r == NotStringText
  {
    if msg[2] == Width(t) then
      if IsStringType(t) then msg[3..3 + Width(t)] else NotStringText
    else InvalidLengthText
  }

  /** The text converter gives exactly what the string decoder decodes, and a message otherwise. */
  lemma ConvertPayloadTextAgrees(msg: seq<byte>, t: DataType)
    requires ReplyHolds(msg, t)
    ensures ConvertText(msg, t).Some? ==> ConvertPayloadText(msg, t) == ConvertText(msg, t).value
    ensures ConvertText(msg, t).None? ==> ConvertPayloadText(msg, t) in {InvalidLengthText, NotStringText}
  {
  }

  /** `std::to_string` of an unsigned value: its decimal digits, most significant first, no leading zero. */
  function Decimal(n: nat): (s: seq<byte>)
    ensures |s| >= 1 && forall i :: 0 <= i < |s| ==> '0' as int <= s[i] <= '9' as int
    ensures n > 0 ==> s[0] != '0' as int
    decreases n
  {
    if n < 10 then [n + '0' as int] else Decimal(n / 10) + [n % 10 + '0' as int]
  }

  /** The value a string of decimal digits denotes. */
  function DecimalValue(s: seq<byte>): nat
    decreases |s|
  {
    if s == [] then 0
    else
      var d := s[|s| - 1] - '0' as int;
      DecimalValue(s[..|s| - 1]) * 10 + (if d < 0 then 0 else d)
  }

  /** The digits `std::to_string` prints denote the number printed. */
  lemma {:induction false} DecimalRoundTrip(n: nat)
    ensures DecimalValue(Decimal(n)) == n
    decreases n
  {
    if n >= 10 {
      DecimalRoundTrip(n / 10);
      var s := Decimal(n);
      assert s[..|s| - 1] == Decimal(n / 10);
    }
  }

  /** What `convertPayloadToString` returns: text, or a float, whose decimal formatting is not modelled. */
  datatype Shown = Literal(text: seq<byte>) | FloatShown(bits: u32)

  /**
   * `convertPayloadToString(msg, type)`: the payload of a string reply, the
   * decimal value of an unsigned reply decoded by the same byte rules as
   * `convertPayload` (u16t included), the float of an f32t reply, and "Invalid
   * message length" when the byte count does not match.
   */
  function ConvertPayloadToString(msg: seq<byte>, t: DataType): (r: Shown)
    requires ReplyHolds(msg, t)
    ensures msg[2] != Width(t) ==> r == Literal(InvalidLengthText)
  {
    if msg[2] != Width(t) then Literal(InvalidLengthText)
    else match t
      case S50 => Literal(msg[3..3 + Width(t)])
      case S8 => Literal(msg[3..3 + Width(t)])
      case U8 => Literal(Decimal(msg[3]))
      case U16 => Literal(Decimal(ScratchWord(0, 0, msg[4], msg[3])))
      case U32 => Literal(Decimal(ScratchWord(msg[6], msg[5], msg[4], msg[3])))
      case F32 => FloatShown(ScratchWord(msg[6], msg[5], msg[4], msg[3]))
  }

  /** `convertPayloadToString` shows what the typed decoders decode, for every type of matching width. */
  lemma ConvertPayloadToStringAgrees(msg: seq<byte>, t: DataType)
    requires ReplyHolds(msg, t) && msg[2] == Width(t)
    ensures IsStringType(t) ==> ConvertPayloadToString(msg, t) == Literal(ConvertText(msg, t).value)
    ensures t in {U8, U16, U32} ==> ConvertPayloadToString(msg, t) == Literal(Decimal(ConvertUInt(msg, t).value))
    ensures t == F32 ==> ConvertPayloadToString(msg, t) == FloatShown(ConvertFloat(msg, t).value)
  {
  }

  /** The shown digits of an unsigned reply denote the value the `unsigned int` decoder gives. */
  lemma ShownDigitsDenoteValue(msg: seq<byte>, t: DataType)
    requires ReplyHolds(msg, t) && msg[2] == Width(t) && t in {U8, U16, U32}
    ensures ConvertPayloadToString(msg, t).Literal?
    ensures DecimalValue(ConvertPayloadToString(msg, t).text) == ConvertUInt(msg, t).value
  {
    ConvertPayloadToStringAgrees(msg, t);
    DecimalRoundTrip(ConvertUInt(msg, t).value);
  }

  /** The example's `readParam<T>(conn, param)`: the same steps as the device class's. */
  method ReadParam(conn: Connection, param: ModbusParam, target: Target) returns (v: Value)
    requires ReadExpectedLength(param.dataType) <= |Stream(conn.port.pending)|
    modifies conn, conn.port
    ensures SentAt(old(conn.port.written), conn.port.written,
                   WithCrc(conn.framing, conn.framing.requestToRaw(ReadRequest(param))),
                   PacedClock(old(conn.port.clock), old(conn.lastSendTime) + conn.minPauseMs))
    ensures v == ReadParamFromReply(ReadReplyOf(Stream(old(conn.port.pending)), param.dataType), param, target)
    ensures conn.lastSendTime == conn.port.clock
    ensures Exchanged(old(conn.port.pending), old(conn.port.clock), old(conn.lastSendTime) + conn.minPauseMs,
                      ReadExpectedLength(param.dataType), conn.port.pending, conn.port.clock)
  {
    var msg := conn.SendParamRequest(param, false, []);
    if msg[2] != Width(param.dataType) {
      v := Default(target);
    } else {
      var r := ConvertPayload(msg, param.dataType, target);
      v := if r.Some? then r.value else Default(target);
    }
  }

  /** The example's `writeParam(conn, param, std::vector<uint8_t>&)`: the same acknowledgement check. */
  method WriteParamRaw(conn: Connection, param: ModbusParam, data: seq<byte>) returns (ok: bool)
    requires |data| % 2 == 0 && WriteExpectedLength(|data|) <= BufferSize
    requires WriteExpectedLength(|data|) <= |Stream(conn.port.pending)|
    modifies conn, conn.port
    ensures SentAt(old(conn.port.written), conn.port.written,
                   WithCrc(conn.framing, conn.framing.requestToRaw(WriteRequest(param, data))),
                   PacedClock(old(conn.port.clock), old(conn.lastSendTime) + conn.minPauseMs))
    ensures ok == WriteAcknowledged(WriteReplyOf(Stream(old(conn.port.pending)), |data|), param.addr)
    ensures conn.lastSendTime == conn.port.clock
    ensures Exchanged(old(conn.port.pending), old(conn.port.clock), old(conn.lastSendTime) + conn.minPauseMs,
                      WriteExpectedLength(|data|), conn.port.pending, conn.port.clock)
  {
    var msg := conn.SendParamRequest(param, true, data);
    ok := |msg| == 8 && msg[1] == WriteMultipleAnalogOutputHoldingRegisters && BigEndian16(msg[2], msg[3]) == param.addr;
  }

  /** The example's `writeParam(conn, param, uint16_t)`: high byte, then low byte. */
  method WriteParamU16(conn: Connection, param: ModbusParam, v: u16) returns (ok: bool)
    requires WriteExpectedLength(2) <= |Stream(conn.port.pending)|
    modifies conn, conn.port
    ensures SentAt(old(conn.port.written), conn.port.written,
                   WithCrc(conn.framing, conn.framing.requestToRaw(WriteRequest(param, U16Bytes(v)))),
                   PacedClock(old(conn.port.clock), old(conn.lastSendTime) + conn.minPauseMs))
    ensures ok == WriteAcknowledged(WriteReplyOf(Stream(old(conn.port.pending)), 2), param.addr)
    ensures conn.lastSendTime == conn.port.clock
    ensures Exchanged(old(conn.port.pending), old(conn.port.clock), old(conn.lastSendTime) + conn.minPauseMs,
                      WriteExpectedLength(2), conn.port.pending, conn.port.clock)
  {
    ok := WriteParamRaw(conn, param, U16Bytes(v));
  }

  /** The example's `writeParam(conn, param, float)`: the bit pattern, most significant byte first. */
  method WriteParamFloat(conn: Connection, param: ModbusParam, bits: u32) returns (ok: bool)
    requires WriteExpectedLength(4) <= |Stream(conn.port.pending)|
    modifies conn, conn.port
    ensures SentAt(old(conn.port.written), conn.port.written,
                   WithCrc(conn.framing, conn.framing.requestToRaw(WriteRequest(param, U32Bytes(bits)))),
                   PacedClock(old(conn.port.clock), old(conn.lastSendTime) + conn.minPauseMs))
    ensures ok == WriteAcknowledged(WriteReplyOf(Stream(old(conn.port.pending)), 4), param.addr)
    ensures conn.lastSendTime == conn.port.clock
    ensures Exchanged(old(conn.port.pending), old(conn.port.clock), old(conn.lastSendTime) + conn.minPauseMs,
                      WriteExpectedLength(4), conn.port.pending, conn.port.clock)
  {
    ok := WriteParamRaw(conn, param, U32Bytes(bits));
  }

  /**
   * The example's `readParam` when its reply is the next chunk on the line, of
   * exactly the length the read waits for: the value is decoded from that chunk
   * alone, the request is logged as entry `k` of `sent`, stamped when it went
   * out, the line is left at what follows, and the clock stops where the
   * request went out, with no polling pause.
   */
  method ReadParamAhead(conn: Connection, param: ModbusParam, target: Target, ghost reply: seq<byte>, ghost rest: seq<PortEvent>,
                        ghost base: seq<Transmission>, ghost sent: seq<Transmission>, ghost k: nat)
      returns (v: Value)
    requires |reply| == ReadExpectedLength(param.dataType)
    requires conn.port.pending == [Arrive(reply)] + rest
    requires k < |sent|
    requires sent[k] == Transmission(PacedClock(conn.port.clock, conn.lastSendTime + conn.minPauseMs),
                                     WithCrc(conn.framing, conn.framing.requestToRaw(ReadRequest(param))))
    requires LoggedAfter(base, conn.port.written, sent[..k])
    modifies conn, conn.port
    ensures LoggedAfter(base, conn.port.written, sent[..k + 1])
    ensures conn.port.written[|old(conn.port.written)|].at == conn.port.clock
    ensures v == ReadParamFromReply(reply[ReadEchoLength..], param, target)
    ensures conn.port.pending == rest
    ensures conn.port.clock == PacedClock(old(conn.port.clock), old(conn.lastSendTime) + conn.minPauseMs)
    ensures conn.lastSendTime == conn.port.clock
  {
    ReadReplyAhead(reply, rest, param.dataType);
    ghost var before := conn.port.written;
    v := ReadParam(conn, param, target);
    LoggedAfterSend(base, before, conn.port.written, sent, k);
  }

  /** `log` is `base` followed by the transmissions `sent`, in order. */
  predicate LoggedAfter(base: seq<Transmission>, log: seq<Transmission>, sent: seq<Transmission>)
  {
    && |log| == |base| + |sent| && log[..|base|] == base
    && forall k :: 0 <= k < |sent| ==> log[|base| + k] == sent[k]
  }

  /** Sending the next expected transmission extends the log by it. */
  lemma LoggedAfterSend(base: seq<Transmission>, prev: seq<Transmission>, log: seq<Transmission>,
                        sent: seq<Transmission>, k: nat)
    requires k < |sent|
    requires LoggedAfter(base, prev, sent[..k]) && SentAt(prev, log, sent[k].frame, sent[k].at)
    ensures LoggedAfter(base, log, sent[..k + 1])
  {
    assert log[..|base|] == log[..|prev|][..|base|];
    var upTo := sent[..k + 1];
    forall j | 0 <= j < |upTo|
      ensures log[|base| + j] == upTo[j]
    {
      if j < k {
        assert log[|base| + j] == log[..|prev|][|base| + j];
      }
    }
  }

  /**
   * The read requests of one pass of the polling loop of `sendRequests`, in
   * order, the first sent at `start` and each next one `pause` ms after the
   * one before.
   */
  function StatusLog(f: Framing, start: nat, pause: nat): seq<Transmission>
  {
    [Transmission(start, WithCrc(f, f.requestToRaw(ReadRequest(MeasTemperature)))),
     Transmission(start + pause, WithCrc(f, f.requestToRaw(ReadRequest(MeasGasFlow)))),
     Transmission(start + 2 * pause, WithCrc(f, f.requestToRaw(ReadRequest(SetGasFlow)))),
     Transmission(start + 3 * pause, WithCrc(f, f.requestToRaw(ReadRequest(Alarms)))),
     Transmission(start + 4 * pause, WithCrc(f, f.requestToRaw(ReadRequest(HardwareErrors))))]
  }

  /** A polling pass sends five requests, the first at `start` and each next one exactly `pause` ms after the one before. */
  lemma StatusLogPaced(f: Framing, start: nat, pause: nat)
    ensures |StatusLog(f, start, pause)| == 5 && StatusLog(f, start, pause)[0].at == start
    ensures forall k :: 1 <= k < 5 ==> StatusLog(f, start, pause)[k].at == StatusLog(f, start, pause)[k - 1].at + pause
  {
  }

  /**
   * The three float reads of one pass of the polling loop of `sendRequests`:
   * temperature, gas flow and setpoint, each decoded from its own reply, and
   * the first three requests of `StatusLog` logged.
   */
  method ReadMeasurements(conn: Connection, ghost r1: seq<byte>, ghost r2: seq<byte>, ghost r3: seq<byte>, ghost rest: seq<PortEvent>,
                          ghost base: seq<Transmission>)
      returns (temperature: Value, flow: Value, setp: Value)
    requires |r1| == |r2| == |r3| == ReadExpectedLength(F32)
    requires conn.port.pending == [Arrive(r1), Arrive(r2), Arrive(r3)] + rest
    requires conn.port.written == base
    modifies conn, conn.port
    ensures temperature == ReadParamFromReply(r1[ReadEchoLength..], MeasTemperature, FloatTarget)
    ensures flow == ReadParamFromReply(r2[ReadEchoLength..], MeasGasFlow, FloatTarget)
    ensures setp == ReadParamFromReply(r3[ReadEchoLength..], SetGasFlow, FloatTarget)
    ensures LoggedAfter(base, conn.port.written,
                        StatusLog(conn.framing, PacedClock(old(conn.port.clock), old(conn.lastSendTime) + conn.minPauseMs),
                                  conn.minPauseMs)[..3])
    ensures conn.port.pending == rest
    ensures conn.port.clock
      == PacedClock(old(conn.port.clock), old(conn.lastSendTime) + conn.minPauseMs) + 2 * conn.minPauseMs
    ensures conn.lastSendTime == conn.port.clock
  {
    ghost var t1 := [Arrive(r2), Arrive(r3)] + rest;
    ghost var t2 := [Arrive(r3)] + rest;
    assert conn.port.pending == [Arrive(r1)] + t1 && t1 == [Arrive(r2)] + t2;
    ghost var sent := StatusLog(conn.framing, PacedClock(conn.port.clock, conn.lastSendTime + conn.minPauseMs), conn.minPauseMs);
    temperature := ReadParamAhead(conn, MeasTemperature, FloatTarget, r1, t1, base, sent, 0);
    flow := ReadParamAhead(conn, MeasGasFlow, FloatTarget, r2, t2, base, sent, 1);
    setp := ReadParamAhead(conn, SetGasFlow, FloatTarget, r3, rest, base, sent, 2);
  }

  /**
   * One pass of the polling loop of `sendRequests`: temperature, gas flow and
   * setpoint as floats, then the alarm and hardware error flags as `uint16_t`,
   * over one connection, then a 200 ms pause. When each reply arrives as one
   * chunk of exactly the length its read waits for, every read decodes its own
   * reply, the five read requests go out in order, the first once the minimum
   * pause after the previous send has passed and each next one exactly one
   * minimum pause after the one before, and the line is left at what follows.
   */
  method StatusPass(conn: Connection, r1: seq<byte>, r2: seq<byte>, r3: seq<byte>, r4: seq<byte>, r5: seq<byte>,
                    rest: seq<PortEvent>)
      returns (temperature: Value, flow: Value, setp: Value, status: Value, hwError: Value)
    requires |r1| == |r2| == |r3| == ReadExpectedLength(F32) && |r4| == |r5| == ReadExpectedLength(U16)
    requires conn.port.pending == [Arrive(r1), Arrive(r2), Arrive(r3), Arrive(r4), Arrive(r5)] + rest
    modifies conn, conn.port
    ensures temperature == ReadParamFromReply(r1[ReadEchoLength..], MeasTemperature, FloatTarget)
    ensures flow == ReadParamFromReply(r2[ReadEchoLength..], MeasGasFlow, FloatTarget)
    ensures setp == ReadParamFromReply(r3[ReadEchoLength..], SetGasFlow, FloatTarget)
    ensures status == ReadParamFromReply(r4[ReadEchoLength..], Alarms, U16Target)
    ensures hwError == ReadParamFromReply(r5[ReadEchoLength..], HardwareErrors, U16Target)
    ensures LoggedAfter(old(conn.port.written), conn.port.written,
                        StatusLog(conn.framing, PacedClock(old(conn.port.clock), old(conn.lastSendTime) + conn.minPauseMs),
                                  conn.minPauseMs))
    ensures conn.port.pending == rest
    ensures conn.port.clock
      == PacedClock(old(conn.port.clock), old(conn.lastSendTime) + conn.minPauseMs) + 4 * conn.minPauseMs + 200
    ensures conn.lastSendTime + 200 == conn.port.clock
  {
    ghost var w0 := conn.port.written;
    ghost var t3 := [Arrive(r4), Arrive(r5)] + rest;
    ghost var t4 := [Arrive(r5)] + rest;
    assert conn.port.pending == [Arrive(r1), Arrive(r2), Arrive(r3)] + t3 && t3 == [Arrive(r4)] + t4;
    ghost var sent := StatusLog(conn.framing, PacedClock(conn.port.clock, conn.lastSendTime + conn.minPauseMs), conn.minPauseMs);
    temperature, flow, setp := ReadMeasurements(conn, r1, r2, r3, t3, w0);
    status := ReadParamAhead(conn, Alarms, U16Target, r4, t4, w0, sent, 3);
    hwError := ReadParamAhead(conn, HardwareErrors, U16Target, r5, rest, w0, sent, 4);
    assert sent[..5] == sent;
    conn.port.SleepFor(200);
  }

  /** The characters the spinner cycles through. */
  const SpinnerChars: string := "/-\\|/-\\|"

  /** The character the spinner shows once its counter has reached `i`. */
  function SpinnerChar(i: nat): (c: char)
    ensures c in "/-\\|"
  {
    SpinnerChars[i % 8]
  }

  /** The spinner repeats itself every four steps (its eight characters are one pattern twice). */
  lemma SpinnerPeriod(i: nat)
    ensures SpinnerChar(i + 4) == SpinnerChar(i)
  {
    var k := i % 8;
    assert (i + 4) % 8 == (k + 4) % 8;
    assert SpinnerChars[k] == SpinnerChars[(k + 4) % 8];
  }

  /** `Spinner`: a counter over the eight spinner characters. */
  class Spinner {
    /** `charIdx`, an `int`: it starts at 0 and only grows. */
    var charIdx: nat

    constructor ()
      ensures charIdx == 0
    {
      charIdx := 0;
    }

    /** `next()`: pre-increment the counter and show the character it now selects. */
    method Next() returns (c: char)
      requires charIdx < 0x7FFF_FFFF
      modifies this
      ensures charIdx == old(charIdx) + 1 && c == SpinnerChar(charIdx)
    {
      charIdx := charIdx + 1;
      c := SpinnerChars[charIdx % 8];
    }
  }
}
