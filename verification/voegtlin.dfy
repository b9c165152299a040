/**
 * `MB::VoegtlinGSC`: a Voegtlin GSC flow controller reached through one
 * connection. Reads decode the reply to a Read Holding Registers request;
 * writes encode a value into register bytes, send a Write Multiple Registers
 * request, and check the acknowledgement.
 */
module Voegtlin {
  import opened Bytes
  import opened Protocol
  import opened SerialLine
  import opened Transport
  import opened RegisterCodec

  /** The bytes `sendRequest(param)` hands back: the read reply after the echoed request. */
  function ReadReplyOf(stream: seq<byte>, t: DataType): (msg: seq<byte>)
    requires ReadExpectedLength(t) <= |stream|
    ensures |msg| == ReadReplyOverhead + Width(t) && ReplyHolds(msg, t)
  {
    stream[ReadEchoLength..ReadExpectedLength(t)]
  }

  /** The bytes `sendRequest(param, true, data)` hands back: the 8-byte write reply after the echo. */
  function WriteReplyOf(stream: seq<byte>, n: nat): (msg: seq<byte>)
    requires WriteExpectedLength(n) <= |stream|
    ensures |msg| == WriteAckLength
  {
    stream[WriteRequestLength(n)..WriteExpectedLength(n)]
  }

  /**
   * When the next reply arrives as one chunk of exactly the length a read waits
   * for, the read takes that chunk and nothing more, without polling again, and
   * the codec is handed that chunk after its echo.
   */
  lemma ReadReplyAhead(reply: seq<byte>, rest: seq<PortEvent>, t: DataType)
    requires |reply| == ReadExpectedLength(t)
    ensures ReadExpectedLength(t) <= |Stream([Arrive(reply)] + rest)|
    ensures ReadReplyOf(Stream([Arrive(reply)] + rest), t) == reply[ReadEchoLength..]
    ensures FillLoop([Arrive(reply)] + rest, 0, |reply|) == (reply, rest, 0)
  {
    WholeReplyLeavesRest(reply, rest);
  }

  class VoegtlinGsc {
    const conn: Connection

    /** Opening and configuring the line (9600 baud, two stop bits, no parity, 1500 ms timeout) is not modelled. */
    constructor (conn: Connection)
      ensures this.conn == conn
    {
      this.conn := conn;
    }

    /**
     * `readParam<T>(param)`: send the read request, then decode the reply with
     * the `convertPayload` overload of `target`, or give `T{}`.
     */
    method ReadParam(param: ModbusParam, target: Target) returns (v: Value)
      requires ReadExpectedLength(param.dataType) <= |Stream(conn.port.pending)|
      modifies conn, conn.port
      ensures SentAt(old(conn.port.written), conn.port.written,
                     WithCrc(conn.framing, conn.framing.requestToRaw(ReadRequest(param))),
                     PacedClock(old(conn.port.clock), old(conn.lastSendTime) + conn.minPauseMs))
      ensures v == ReadParamFromReply(ReadReplyOf(Stream(old(conn.port.pending)), param.dataType), param, target)
      ensures conn.lastSendTime == conn.port.clock
      ensures Exchanged(old(conn.port.pending), old(conn.port.clock), old(conn.lastSendTime) + conn.minPauseMs,
                        ReadExpectedLength(param.dataType), conn.port.pending, conn.port.clock)
    {
      var msg := conn.SendParamRequest(param, false, []);
      if msg[2] != Width(param.dataType) {
        v := Default(target);
      } else {
        var r := ConvertPayload(msg, param.dataType, target);
        if r.Some? {
          v := r.value;
        } else {
          v := Default(target);
        }
      }
    }

    /**
     * `writeParam(param, std::vector<uint8_t>&)`: send the write request and
     * accept the reply when it acknowledges the parameter's address.
     */
    method WriteRaw(param: ModbusParam, data: seq<byte>) returns (ok: bool)
      requires |data| % 2 == 0 && WriteExpectedLength(|data|) <= BufferSize
      requires WriteExpectedLength(|data|) <= |Stream(conn.port.pending)|
      modifies conn, conn.port
      ensures SentAt(old(conn.port.written), conn.port.written,
                     WithCrc(conn.framing, conn.framing.requestToRaw(WriteRequest(param, data))),
                     PacedClock(old(conn.port.clock), old(conn.lastSendTime) + conn.minPauseMs))
      ensures ok == WriteAcknowledged(WriteReplyOf(Stream(old(conn.port.pending)), |data|), param.addr)
      ensures conn.lastSendTime == conn.port.clock
      ensures Exchanged(old(conn.port.pending), old(conn.port.clock), old(conn.lastSendTime) + conn.minPauseMs,
                        WriteExpectedLength(|data|), conn.port.pending, conn.port.clock)
    {
      var msg := conn.SendParamRequest(param, true, data);
      ok := |msg| == 8 && msg[1] == WriteMultipleAnalogOutputHoldingRegisters && BigEndian16(msg[2], msg[3]) == param.addr;
    }

    /** `writeParam(param, uint16_t)`: the value as one big-endian register. */
    method WriteU16(param: ModbusParam, v: u16) returns (ok: bool)
      requires WriteExpectedLength(2) <= |Stream(conn.port.pending)|
      modifies conn, conn.port
      ensures SentAt(old(conn.port.written), conn.port.written,
                     WithCrc(conn.framing, conn.framing.requestToRaw(WriteRequest(param, U16Bytes(v)))),
                     PacedClock(old(conn.port.clock), old(conn.lastSendTime) + conn.minPauseMs))
      ensures ok == WriteAcknowledged(WriteReplyOf(Stream(old(conn.port.pending)), 2), param.addr)
      ensures conn.lastSendTime == conn.port.clock
      ensures Exchanged(old(conn.port.pending), old(conn.port.clock), old(conn.lastSendTime) + conn.minPauseMs,
                        WriteExpectedLength(2), conn.port.pending, conn.port.clock)
    {
      ok := WriteRaw(param, U16Bytes(v));
    }

    /** `writeParam(param, uint32_t)`: the value as four big-endian bytes. */
    method WriteU32(param: ModbusParam, v: u32) returns (ok: bool)
      requires WriteExpectedLength(4) <= |Stream(conn.port.pending)|
      modifies conn, conn.port
      ensures SentAt(old(conn.port.written), conn.port.written,
                     WithCrc(conn.framing, conn.framing.requestToRaw(WriteRequest(param, U32Bytes(v)))),
                     PacedClock(old(conn.port.clock), old(conn.lastSendTime) + conn.minPauseMs))
      ensures ok == WriteAcknowledged(WriteReplyOf(Stream(old(conn.port.pending)), 4), param.addr)
      ensures conn.lastSendTime == conn.port.clock
      ensures Exchanged(old(conn.port.pending), old(conn.port.clock), old(conn.lastSendTime) + conn.minPauseMs,
                        WriteExpectedLength(4), conn.port.pending, conn.port.clock)
    {
      ok := WriteRaw(param, U32Bytes(v));
    }

    /** `writeParam(param, float)`: the float's bit pattern as four big-endian bytes. */
    method WriteFloat(param: ModbusParam, bits: u32) returns (ok: bool)
      requires WriteExpectedLength(4) <= |Stream(conn.port.pending)|
      modifies conn, conn.port
      ensures SentAt(old(conn.port.written), conn.port.written,
                     WithCrc(conn.framing, conn.framing.requestToRaw(WriteRequest(param, U32Bytes(bits)))),
                     PacedClock(old(conn.port.clock), old(conn.lastSendTime) + conn.minPauseMs))
      ensures ok == WriteAcknowledged(WriteReplyOf(Stream(old(conn.port.pending)), 4), param.addr)
      ensures conn.lastSendTime == conn.port.clock
      ensures Exchanged(old(conn.port.pending), old(conn.port.clock), old(conn.lastSendTime) + conn.minPauseMs,
                        WriteExpectedLength(4), conn.port.pending, conn.port.clock)
    {
      ok := WriteRaw(param, U32Bytes(bits));
    }

    /**
     * `writeParam(param, std::string)`: a string longer than the type's width is
     * refused before anything is sent; otherwise it is written NUL-padded to
     * exactly the width.
     */
    method WriteString(param: ModbusParam, str: seq<byte>) returns (ok: bool)
      requires |str| <= Width(param.dataType) ==>
        && Width(param.dataType) % 2 == 0
        && WriteExpectedLength(Width(param.dataType)) <= |Stream(conn.port.pending)|
      modifies conn, conn.port
      ensures |str| > Width(param.dataType) ==>
        && !ok && conn.lastSendTime == old(conn.lastSendTime)
        && conn.port.pending == old(conn.port.pending) && conn.port.written == old(conn.port.written)
        && conn.port.clock == old(conn.port.clock)
      ensures |str| <= Width(param.dataType) ==>
        && SentAt(old(conn.port.written), conn.port.written,
                  WithCrc(conn.framing, conn.framing.requestToRaw(WriteRequest(param, Padded(str, Width(param.dataType))))),
                  PacedClock(old(conn.port.clock), old(conn.lastSendTime) + conn.minPauseMs))
        && ok == WriteAcknowledged(WriteReplyOf(Stream(old(conn.port.pending)), Width(param.dataType)), param.addr)
        && conn.lastSendTime == conn.port.clock
        && Exchanged(old(conn.port.pending), old(conn.port.clock), old(conn.lastSendTime) + conn.minPauseMs,
                     WriteExpectedLength(Width(param.dataType)), conn.port.pending, conn.port.clock)
    {
      var numBytes := Width(param.dataType);
      if |str| > numBytes {
        return false;
      }
      var data := FillPadded(str, numBytes);
      ok := WriteRaw(param, data);
    }

    /** `writeParam(param, char const*)`: the C string up to its NUL, written as a `std::string`. */
    method WriteCString(param: ModbusParam, str: seq<byte>) returns (ok: bool)
      requires 0 in str
      requires |UntilNul(str)| <= Width(param.dataType) ==>
        && Width(param.dataType) % 2 == 0
        && WriteExpectedLength(Width(param.dataType)) <= |Stream(conn.port.pending)|
      modifies conn, conn.port
      ensures |UntilNul(str)| > Width(param.dataType) ==>
        && !ok && conn.lastSendTime == old(conn.lastSendTime)
        && conn.port.pending == old(conn.port.pending) && conn.port.written == old(conn.port.written)
        && conn.port.clock == old(conn.port.clock)
      ensures |UntilNul(str)| <= Width(param.dataType) ==>
        && SentAt(old(conn.port.written), conn.port.written,
                  WithCrc(conn.framing, conn.framing.requestToRaw(WriteRequest(param, Padded(UntilNul(str), Width(param.dataType))))),
                  PacedClock(old(conn.port.clock), old(conn.lastSendTime) + conn.minPauseMs))
        && ok == WriteAcknowledged(WriteReplyOf(Stream(old(conn.port.pending)), Width(param.dataType)), param.addr)
        && conn.lastSendTime == conn.port.clock
        && Exchanged(old(conn.port.pending), old(conn.port.clock), old(conn.lastSendTime) + conn.minPauseMs,
                     WriteExpectedLength(Width(param.dataType)), conn.port.pending, conn.port.clock)
    {
      ok := WriteString(param, UntilNul(str));
    }
  }
}
