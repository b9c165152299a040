/**
 * `MB::Serial::Connection`: the master's transport over one half-duplex serial
 * line. It frames requests with their CRC, paces transmissions after the last
 * completed reception, collects replies of a known length, strips the echo of
 * the request, and accumulates chunks until a frame parses, telling transient
 * parse failures (keep reading) from fatal ones (give up).
 */
module Transport {
  import opened Bytes
  import opened Protocol
  import opened SerialLine

  /** Size of the receive buffer of `readRawMessage` and `awaitRawMessage`. */
  const BufferSize: nat := 1024
  /** Sleep between two reads of `readRawMessage` while a reply is incomplete. */
  const PollIntervalMs: nat := 10
  /** Echoed request stripped from a read reply: a read request is 8 bytes on the wire. */
  const ReadEchoLength: nat := 8
  /** Address, function code, byte count and the two CRC bytes of a read reply. */
  const ReadReplyOverhead: nat := 5
  /** A write acknowledgement: address, function code, start, count and CRC. */
  const WriteAckLength: nat := 8

  /**
   * Bytes `sendRequest(param)` waits for: the echoed request, then the reply.
   * It is always more than the echo and the reply's framing, and always fits
   * the 1024-byte buffer of `readRawMessage`.
   */
  function ReadExpectedLength(t: DataType): (r: nat)
    ensures ReadEchoLength + ReadReplyOverhead < r <= BufferSize
  {
    ReadEchoLength + ReadReplyOverhead + Width(t)
  }

  /**
   * Length of the echoed write request for `n` data bytes: the fields of a
   * framed read request (address, function, start, count, CRC), then the byte
   * count and the data.
   */
  function WriteRequestLength(n: nat): (r: nat)
    ensures r == ReadEchoLength + 1 + n
  {
    9 + n
  }

  /** The 8-byte echo a read strips is one read request in the RTU layout, CRC included. */
  lemma ReadEchoIsReadFrame(f: Framing, param: ModbusParam)
    ensures |WithCrc(f, RequestBytes(ReadRequest(param)))| == ReadEchoLength
  {
  }

  /**
   * The read reply `sendRequest(param)` waits for after the echo is address,
   * function code, byte count, two bytes per register asked for and the CRC
   * exactly when the type fills whole registers: for u8t, zero registers are
   * asked for but a reply carrying one byte is awaited.
   */
  lemma ReadExpectedCoversRequest(param: ModbusParam)
    ensures ReadExpectedLength(param.dataType) == ReadEchoLength + ReadReplyOverhead + 2 * ReadRequest(param).count
        <==> param.dataType != U8
  {
  }

  /**
   * The echo of a write of even-length data is the write request in the RTU
   * layout: seven bytes of header, the register values and the CRC.
   */
  lemma WriteEchoIsWriteFrame(f: Framing, param: ModbusParam, data: seq<byte>)
    requires |data| % 2 == 0
    ensures WriteRequestLength(|data|) == 7 + |RegisterBytes(WriteRequest(param, data).values)| + 2
    ensures |WithCrc(f, RequestBytes(WriteRequest(param, data)))| == WriteRequestLength(|data|)
  {
  }

  /**
   * Bytes `sendRequest(param, true, data)` waits for: the echoed request, then
   * the acknowledgement, which is what is left once the echo is erased. It fits
   * the buffer exactly when the data is at most 1007 bytes.
   */
  function WriteExpectedLength(n: nat): (r: nat)
    ensures r - WriteRequestLength(n) == WriteAckLength
    ensures r <= BufferSize <==> n <= BufferSize - 17
  {
    WriteRequestLength(n) + WriteAckLength
  }

  /** One transmission was appended to the log: `frame`, stamped `at`. */
  predicate SentAt(before: seq<Transmission>, after: seq<Transmission>, frame: seq<byte>, at: nat)
  {
    && |after| == |before| + 1 && after[..|before|] == before
    && after[|before|] == Transmission(at, frame)
  }

  /**
   * `readRawMessage(0)`: the bytes of one read; a read that fails with EAGAIN or
   * EBADF gives nothing; any other failure is a SlaveDeviceFailure.
   */
  function AvailableNow(o: ReadOutcome): (r: Result<seq<byte>>)
    ensures r.Failure? <==> o.Failed? && o.errno != EAgain && o.errno != EBadF
    ensures r.Failure? ==> r.error == SlaveDeviceFailure
    ensures r.Ok? ==> r.value == Received(o)
  {
    match o
    case Got(b) => Ok(b)
    case Failed(e) => if e == EBadF || e == EAgain then Ok([]) else Failure(SlaveDeviceFailure)
  }

  /**
   * `awaitRawMessage` with a poll timeout of `timeoutMs`: Timeout when nothing
   * arrives within the timeout, a SlaveDeviceFailure when the read fails,
   * otherwise the bytes of one read. It gives the outcome, the script left and
   * the milliseconds spent waiting: the whole timeout exactly when it ends in
   * Timeout, nothing otherwise.
   */
  function AwaitRaw(events: seq<PortEvent>, timeoutMs: nat): (out: (Result<seq<byte>>, seq<PortEvent>, nat))
    ensures out.0.Failure? ==> out.0.error == Timeout || out.0.error == SlaveDeviceFailure
    ensures out.2 == if out.0 == Failure(Timeout) then timeoutMs else 0
  {
    var (ready, afterPoll) := PollStep(events);
    if !ready then (Failure(Timeout), afterPoll, timeoutMs)
    else
      var (o, next) := ReadStep(afterPoll, BufferSize);
      if o.Failed? then (Failure(SlaveDeviceFailure), next, 0) else (Ok(o.bytes), next, 0)
  }

  /**
   * A wait for raw bytes either hands out the next bytes of the stream and
   * moves the script forward, or fails with one of the two transport-local
   * codes without losing any byte.
   */
  lemma AwaitRawProgress(events: seq<PortEvent>, timeoutMs: nat)
    ensures var (r, next, _) := AwaitRaw(events, timeoutMs);
      && (r.Ok? ==> Stream(events) == r.value + Stream(next) && Shrinks(next, events))
      && (r.Failure? ==> (r.error == Timeout || r.error == SlaveDeviceFailure) && Stream(next) == Stream(events))
  {
    PollStepKeepsStream(events);
    var (ready, afterPoll) := PollStep(events);
    if ready {
      ReadStepSplitsStream(afterPoll, BufferSize);
    }
  }

  /** `s` is what remains of `t` once some prefix of it has been taken. */
  predicate SuffixOf(s: seq<byte>, t: seq<byte>)
  {
    |s| <= |t| && s == t[|t| - |s|..]
  }

  /** A suffix of `t` is a suffix of anything ending in `t`. */
  lemma SuffixOfLonger(s: seq<byte>, t: seq<byte>, p: seq<byte>)
    requires SuffixOf(s, t)
    ensures SuffixOf(s, p + t)
  {
    assert (p + t)[|p + t| - |s|..] == t[|t| - |s|..];
  }

  /** Error codes that end `awaitResponse`: the standard ones, Timeout and SlaveDeviceFailure. */
  predicate ResponseFatal(f: Framing, e: ErrorCode)
    ensures RequestFatal(e) ==> ResponseFatal(f, e)
  {
    f.isStandardErrorCode(e) || e == Timeout || e == SlaveDeviceFailure
  }

  /** Error codes that end `awaitRequest`: only Timeout and SlaveDeviceFailure. */
  predicate RequestFatal(e: ErrorCode)
    ensures RequestFatal(e) ==> !e.OtherCode?
  {
    e == Timeout || e == SlaveDeviceFailure
  }

  /**
   * The loop of `awaitResponse` from the buffer `acc`, each wait polling for at
   * most `timeoutMs`: wait for a chunk, append it, try to parse the whole
   * buffer; swallow non-fatal codes and go round again. It gives the outcome,
   * the script left and the milliseconds spent waiting.
   */
  function ResponseLoop(f: Framing, events: seq<PortEvent>, acc: seq<byte>, timeoutMs: nat)
    : (out: (Result<(Response, seq<byte>)>, seq<PortEvent>, nat))
    ensures SuffixOf(Stream(out.1), Stream(events))
    ensures out.2 == 0 || (out.2 == timeoutMs && out.0 == Failure(Timeout))
    decreases |Stream(events)|, |events|
  {
    AwaitRawProgress(events, timeoutMs);
    var (raw, next, waited) := AwaitRaw(events, timeoutMs);
    var data := if raw.Ok? then acc + raw.value else acc;
    var attempt :=
      if raw.Failure? then Failure(raw.error)
      else if f.exceptionExists(data) then Failure(f.exceptionCode(data))
      else f.responseFromRaw(data);
    match attempt
    case Ok(resp) => (Ok((resp, data)), next, waited)
    case Failure(e) =>
      if ResponseFatal(f, e) then (Failure(e), next, waited)
      else
        var out := ResponseLoop(f, next, data, timeoutMs);
        SuffixOfLonger(Stream(out.1), Stream(next), if raw.Ok? then raw.value else []);
        (out.0, out.1, waited + out.2)
  }

  /** The loop of `awaitRequest`, the slave-side counterpart with a narrower set of fatal codes. */
  function RequestLoop(f: Framing, events: seq<PortEvent>, acc: seq<byte>, timeoutMs: nat)
    : (out: (Result<(Request, seq<byte>)>, seq<PortEvent>, nat))
    ensures SuffixOf(Stream(out.1), Stream(events))
    ensures out.2 == 0 || (out.2 == timeoutMs && out.0 == Failure(Timeout))
    decreases |Stream(events)|, |events|
  {
    AwaitRawProgress(events, timeoutMs);
    var (raw, next, waited) := AwaitRaw(events, timeoutMs);
    var data := if raw.Ok? then acc + raw.value else acc;
    var attempt := if raw.Failure? then Failure(raw.error) else f.requestFromRaw(data);
    match attempt
    case Ok(req) => (Ok((req, data)), next, waited)
    case Failure(e) =>
      if RequestFatal(e) then (Failure(e), next, waited)
      else
        var out := RequestLoop(f, next, data, timeoutMs);
        SuffixOfLonger(Stream(out.1), Stream(next), if raw.Ok? then raw.value else []);
        (out.0, out.1, waited + out.2)
  }

  /** One round of `awaitResponse`, spelled out: how `ResponseLoop` continues from `events` and `acc`. */
  lemma ResponseLoopUnfolds(f: Framing, events: seq<PortEvent>, acc: seq<byte>, timeoutMs: nat)
    ensures var step := AwaitRaw(events, timeoutMs);
      var data := if step.0.Ok? then acc + step.0.value else acc;
      var attempt :=
        if step.0.Failure? then Failure(step.0.error)
        else if f.exceptionExists(data) then Failure(f.exceptionCode(data))
        else f.responseFromRaw(data);
      ResponseLoop(f, events, acc, timeoutMs)
        == if attempt.Ok? then (Ok((attempt.value, data)), step.1, step.2)
           else if ResponseFatal(f, attempt.error) then (Failure(attempt.error), step.1, step.2)
           else ResponseLoop(f, step.1, data, timeoutMs)
  {
  }

  /** One round of `awaitRequest`, spelled out: how `RequestLoop` continues from `events` and `acc`. */
  lemma RequestLoopUnfolds(f: Framing, events: seq<PortEvent>, acc: seq<byte>, timeoutMs: nat)
    ensures var step := AwaitRaw(events, timeoutMs);
      var data := if step.0.Ok? then acc + step.0.value else acc;
      var attempt := if step.0.Failure? then Failure(step.0.error) else f.requestFromRaw(data);
      RequestLoop(f, events, acc, timeoutMs)
        == if attempt.Ok? then (Ok((attempt.value, data)), step.1, step.2)
           else if RequestFatal(attempt.error) then (Failure(attempt.error), step.1, step.2)
           else RequestLoop(f, step.1, data, timeoutMs)
  {
  }

  /**
   * What `awaitResponse` promises when started on `events` with buffer `acc`
   * and ending in `out`: it ends only with a parsed response or a fatal code.
   * A response was parsed from exactly the buffer returned with it, which is
   * not an exception frame and consists of `acc` followed by the bytes
   * consumed from the line, in arrival order.
   */
  predicate ResponseOutcome(f: Framing, events: seq<PortEvent>, acc: seq<byte>,
                            out: (Result<(Response, seq<byte>)>, seq<PortEvent>, nat))
  {
    && (out.0.Failure? ==> ResponseFatal(f, out.0.error))
    && (out.0.Ok? ==>
          && !f.exceptionExists(out.0.value.1) && f.responseFromRaw(out.0.value.1) == Ok(out.0.value.0)
          && |acc| <= |out.0.value.1| && out.0.value.1[..|acc|] == acc
          && Stream(events) == out.0.value.1[|acc|..] + Stream(out.1))
  }

  /** What `awaitRequest` promises: only Timeout and SlaveDeviceFailure end it; a returned buffer parsed. */
  predicate RequestOutcome(f: Framing, events: seq<PortEvent>, acc: seq<byte>,
                           out: (Result<(Request, seq<byte>)>, seq<PortEvent>, nat))
  {
    && (out.0.Failure? ==> RequestFatal(out.0.error))
    && (out.0.Ok? ==>
          && f.requestFromRaw(out.0.value.1) == Ok(out.0.value.0)
          && |acc| <= |out.0.value.1| && out.0.value.1[..|acc|] == acc
          && Stream(events) == out.0.value.1[|acc|..] + Stream(out.1))
  }

  /** A buffer that starts with `acc + chunk` starts with `acc`, and its tail after `acc` starts with `chunk`. */
  lemma BufferExtends(acc: seq<byte>, chunk: seq<byte>, buf: seq<byte>, rest: seq<byte>)
    requires |acc + chunk| <= |buf| && buf[..|acc + chunk|] == acc + chunk
    ensures |acc| <= |buf| && buf[..|acc|] == acc
    ensures chunk + (buf[|acc + chunk|..] + rest) == buf[|acc|..] + rest
  {
    assert buf[..|acc|] == (acc + chunk)[..|acc|];
    assert buf[|acc|..] == chunk + buf[|acc + chunk|..];
  }

  /** `awaitResponse` keeps its promise from any starting buffer. */
  lemma {:induction false} ResponseLoopOutcome(f: Framing, events: seq<PortEvent>, acc: seq<byte>, timeoutMs: nat)
    ensures ResponseOutcome(f, events, acc, ResponseLoop(f, events, acc, timeoutMs))
    decreases |Stream(events)|, |events|
  {
    AwaitRawProgress(events, timeoutMs);
    var step := AwaitRaw(events, timeoutMs);
    if step.0.Ok? {
      var data := acc + step.0.value;
      var attempt := if f.exceptionExists(data) then Failure(f.exceptionCode(data)) else f.responseFromRaw(data);
      if attempt.Failure? && !ResponseFatal(f, attempt.error) {
        var out := ResponseLoop(f, step.1, data, timeoutMs);
        assert ResponseLoop(f, events, acc, timeoutMs) == (out.0, out.1, step.2 + out.2);
        ResponseLoopOutcome(f, step.1, data, timeoutMs);
        if out.0.Ok? {
          BufferExtends(acc, step.0.value, out.0.value.1, Stream(out.1));
        }
      }
    }
  }

  /** `awaitRequest` keeps its promise from any starting buffer. */
  lemma {:induction false} RequestLoopOutcome(f: Framing, events: seq<PortEvent>, acc: seq<byte>, timeoutMs: nat)
    ensures RequestOutcome(f, events, acc, RequestLoop(f, events, acc, timeoutMs))
    decreases |Stream(events)|, |events|
  {
    AwaitRawProgress(events, timeoutMs);
    var step := AwaitRaw(events, timeoutMs);
    if step.0.Ok? {
      var data := acc + step.0.value;
      var attempt := f.requestFromRaw(data);
      if attempt.Failure? && !RequestFatal(attempt.error) {
        var out := RequestLoop(f, step.1, data, timeoutMs);
        assert RequestLoop(f, events, acc, timeoutMs) == (out.0, out.1, step.2 + out.2);
        RequestLoopOutcome(f, step.1, data, timeoutMs);
        if out.0.Ok? {
          BufferExtends(acc, step.0.value, out.0.value.1, Stream(out.1));
        }
      }
    }
  }

  /**
   * An exception frame carrying a standard code ends `awaitResponse` with that
   * code, whatever the normal parse of the same buffer would have given.
   */
  lemma ExceptionFrameEndsResponseWait(f: Framing, events: seq<PortEvent>, acc: seq<byte>, timeoutMs: nat)
    requires AwaitRaw(events, timeoutMs).0.Ok?
    requires f.exceptionExists(acc + AwaitRaw(events, timeoutMs).0.value)
    requires f.isStandardErrorCode(f.exceptionCode(acc + AwaitRaw(events, timeoutMs).0.value))
    ensures ResponseLoop(f, events, acc, timeoutMs)
         == (Failure(f.exceptionCode(acc + AwaitRaw(events, timeoutMs).0.value)), AwaitRaw(events, timeoutMs).1, 0)
  {
  }

  /**
   * A parse failure whose code is neither Timeout nor SlaveDeviceFailure makes
   * `awaitRequest` keep the grown buffer and wait for more, even for a standard code.
   */
  lemma ParseFailureContinuesRequestWait(f: Framing, events: seq<PortEvent>, acc: seq<byte>, timeoutMs: nat)
    requires AwaitRaw(events, timeoutMs).0.Ok?
    requires f.requestFromRaw(acc + AwaitRaw(events, timeoutMs).0.value).Failure?
    requires !RequestFatal(f.requestFromRaw(acc + AwaitRaw(events, timeoutMs).0.value).error)
    ensures RequestLoop(f, events, acc, timeoutMs)
         == RequestLoop(f, AwaitRaw(events, timeoutMs).1, acc + AwaitRaw(events, timeoutMs).0.value, timeoutMs)
  {
  }

  /**
   * The read loop of `readRawMessage(n)` with `have` bytes already in the
   * 1024-byte buffer: each read asks for the buffer's free space; the loop stops
   * at the first read that brings the total to `n` or more and sleeps
   * `PollIntervalMs` after every other read. It gives the bytes read, the
   * script left and the milliseconds slept. Every byte read fits the buffer, so
   * the line loses at most what the buffer took in beyond the `n` wanted.
   */
  function FillLoop(events: seq<PortEvent>, have: nat, n: nat): (out: (seq<byte>, seq<PortEvent>, nat))
    requires have < n <= BufferSize && n - have <= |Stream(events)|
    ensures Stream(events) == out.0 + Stream(out.1)
    ensures n - have <= |out.0| <= BufferSize - have
    decreases |Stream(events)|, |events|
  {
    ReadStepSplitsStream(events, BufferSize - have);
    var step := ReadStep(events, BufferSize - have);
    var got := Received(step.0);
    if have + |got| >= n then (got, step.1, 0)
    else
      var more := FillLoop(step.1, have + |got|, n);
      assert Stream(events) == (got + more.0) + Stream(more.1);
      (got + more.0, more.1, PollIntervalMs + more.2)
  }

  /**
   * Bookkeeping of the read loop: started on the script that gives `whole`, the
   * loop has read `got` (the first `have` bytes of the buffer) and slept
   * `slept` ms, and the rest of it, from `events`, gives the rest of `whole`.
   */
  predicate FillRemains(whole: (seq<byte>, seq<PortEvent>, nat), got: seq<byte>, slept: nat,
                        events: seq<PortEvent>, have: nat, n: nat)
  {
    && have < n <= BufferSize && n - have <= |Stream(events)|
    && whole.0 == got + FillLoop(events, have, n).0
    && whole.1 == FillLoop(events, have, n).1
    && whole.2 == slept + FillLoop(events, have, n).2
  }

  /**
   * The loop's state, having started at time `start` and now at `clock`: still
   * short of `n` bytes with `FillRemains`, or done with all of `whole` read.
   */
  predicate FillState(whole: (seq<byte>, seq<PortEvent>, nat), got: seq<byte>, start: nat, clock: nat,
                      events: seq<PortEvent>, have: nat, n: nat)
  {
    && start <= clock
    && if have < n then FillRemains(whole, got, clock - start, events, have, n)
       else whole == (got, events, clock - start)
  }

  /** A read that leaves the buffer short of `n` bytes is followed by a sleep and the rest of the loop. */
  lemma FillLoopContinues(whole: (seq<byte>, seq<PortEvent>, nat), got: seq<byte>, slept: nat,
                          events: seq<PortEvent>, have: nat, n: nat, o: ReadOutcome, next: seq<PortEvent>,
                          got': seq<byte>, slept': nat, have': nat)
    requires FillRemains(whole, got, slept, events, have, n)
    requires ReadStep(events, BufferSize - have) == (o, next) && have + |Received(o)| < n
    requires got' == got + Received(o) && slept' == slept + PollIntervalMs && have' == have + |Received(o)|
    ensures FillRemains(whole, got', slept', next, have', n)
  {
    ReadStepSplitsStream(events, BufferSize - have);
    var rest := FillLoop(next, have', n);
    assert FillLoop(events, have, n) == (Received(o) + rest.0, rest.1, PollIntervalMs + rest.2);
    assert got + (Received(o) + rest.0) == got' + rest.0;
  }

  /** A read that brings the buffer to `n` bytes or more ends the loop. */
  lemma FillLoopEnds(whole: (seq<byte>, seq<PortEvent>, nat), got: seq<byte>, slept: nat,
                     events: seq<PortEvent>, have: nat, n: nat, o: ReadOutcome, next: seq<PortEvent>)
    requires FillRemains(whole, got, slept, events, have, n)
    requires ReadStep(events, BufferSize - have) == (o, next) && have + |Received(o)| >= n
    ensures whole == (got + Received(o), next, slept)
  {
  }

  /** What the whole loop reads starts with the `n` bytes wanted, the first `n` of the line. */
  lemma FillLoopPrefix(events: seq<PortEvent>, n: nat)
    requires 0 < n <= BufferSize && n <= |Stream(events)|
    ensures FillLoop(events, 0, n).0[..n] == Stream(events)[..n]
  {
    var out := FillLoop(events, 0, n);
    assert Stream(events)[..n] == (out.0 + Stream(out.1))[..n];
  }

  /**
   * A reply that arrives as one chunk of exactly the length waited for is read
   * whole, with no sleep, and the rest of the script is left as it was.
   */
  lemma WholeReplyLeavesRest(reply: seq<byte>, rest: seq<PortEvent>)
    requires 0 < |reply| <= BufferSize
    ensures Stream([Arrive(reply)] + rest) == reply + Stream(rest)
    ensures |reply| <= |Stream([Arrive(reply)] + rest)|
    ensures FillLoop([Arrive(reply)] + rest, 0, |reply|) == (reply, rest, 0)
  {
    var events := [Arrive(reply)] + rest;
    assert events[1..] == rest;
    assert Stream(events) == reply + Stream(rest);
  }

  /** The clock once `send` has waited until `earliest`: never earlier than it was. */
  function PacedClock(now: nat, earliest: nat): (t: nat)
    ensures t >= now && t >= earliest && (t == now || t == earliest)
  {
    if earliest > now then earliest else now
  }

  /**
   * The line after one paced request and a reply of `n` bytes: starting from
   * `events` at `clock`, the send waits until `earliest`, and the script left
   * and the time slept are those of `FillLoop`.
   */
  predicate Exchanged(events: seq<PortEvent>, clock: nat, earliest: nat, n: nat, events': seq<PortEvent>, clock': nat)
    requires 0 < n <= BufferSize && n <= |Stream(events)|
  {
    var out := FillLoop(events, 0, n);
    events' == out.1 && clock' == PacedClock(clock, earliest) + out.2
  }

  /** The loop of `sendRequest(param, true, data)` that packs the data into registers. */
  method PackRegisters(data: seq<byte>) returns (vals: seq<u16>)
    requires |data| % 2 == 0
    ensures vals == Registers(data)
  {
    vals := [];
    var idx := 0;
    while idx < |data|
      invariant 0 <= idx <= |data| && idx % 2 == 0
      invariant |vals| == idx / 2
      invariant forall k :: 0 <= k < |vals| ==> vals[k] == BigEndian16(data[2 * k], data[2 * k + 1])
    {
      vals := vals + [BigEndian16(data[idx], data[idx + 1])];
      idx := idx + 2;
    }
  }

  class Connection {
    const port: SerialPort
    const framing: Framing
    /** `MinPauseBetweenSendingMS`. */
    const minPauseMs: nat
    /** The `poll` timeout of `awaitRawMessage` (`setTimeout`). */
    const timeoutMs: nat
    /** `_lastSendTime`: the end of the last completed reception. */
    var lastSendTime: nat

    constructor (port: SerialPort, framing: Framing, minPauseMs: nat, timeoutMs: nat)
      ensures this.port == port && this.framing == framing
      ensures this.minPauseMs == minPauseMs && this.timeoutMs == timeoutMs
      ensures lastSendTime == port.clock
    {
      this.port := port;
      this.framing := framing;
      this.minPauseMs := minPauseMs;
      this.timeoutMs := timeoutMs;
      lastSendTime := port.clock;
    }

    /**
     * `send`: append the CRC, low byte first, wait until the minimum pause after
     * the last reception has passed, write the frame and return it.
     * `lastSendTime` is left as it was.
     */
    method Send(data: seq<byte>) returns (sent: seq<byte>)
      modifies port
      ensures sent == WithCrc(framing, data) && CrcValid(framing, sent)
      ensures SentAt(old(port.written), port.written, sent, PacedClock(old(port.clock), lastSendTime + minPauseMs))
      ensures port.pending == old(port.pending)
      ensures port.clock == PacedClock(old(port.clock), lastSendTime + minPauseMs)
    {
      var crc := framing.crc(data);
      sent := data + [crc % 256, crc / 256];
      CrcRoundTrip(framing, data);
      port.SleepUntil(lastSendTime + minPauseMs);
      port.Write(sent);
    }

    /**
     * `readRawMessage(expected)`.
     * expected > 0: see `ReadExactly`.
     * expected == 0: one read; see `AvailableNow`.
     * expected < 0: sleep `-expected` ms, then one read, which must deliver.
     * Every successful return stamps `lastSendTime`.
     */
    method ReadRawMessage(expected: int) returns (r: Result<seq<byte>>)
      requires expected > 0 ==> expected <= BufferSize && expected <= |Stream(port.pending)|
      requires expected < 0 ==> ReadStep(port.pending, BufferSize).0.Got?
      modifies this, port
      ensures port.written == old(port.written)
      ensures expected != 0 ==> r.Ok? && lastSendTime == port.clock
      ensures expected > 0 ==>
        && r.value == Stream(old(port.pending))[..expected]
        && var out := FillLoop(old(port.pending), 0, expected);
        && r.value == out.0[..expected] && port.pending == out.1 && port.clock == old(port.clock) + out.2
      ensures expected == 0 ==>
        && r == AvailableNow(ReadStep(old(port.pending), BufferSize).0)
        && port.pending == ReadStep(old(port.pending), BufferSize).1
        && port.clock == old(port.clock)
        && lastSendTime == if ReadStep(old(port.pending), BufferSize).0.Got? then port.clock else old(lastSendTime)
      ensures expected < 0 ==>
        && r == Ok(ReadStep(old(port.pending), BufferSize).0.bytes)
        && port.pending == ReadStep(old(port.pending), BufferSize).1
        && port.clock == old(port.clock) - expected
    {
      if expected == 0 {
        var o := port.Read(BufferSize);
        if o.Failed? {
          if o.errno != EBadF && o.errno != EAgain {
            return Failure(SlaveDeviceFailure);
          }
          return Ok([]);
        }
        lastSendTime := port.clock;
        return Ok(o.bytes);
      } else if expected > 0 {
        var resp := ReadExactly(expected);
        r := Ok(resp);
      } else {
        port.SleepFor(-expected);
        var o := port.Read(BufferSize);
        r := Ok(o.bytes);
        lastSendTime := port.clock;
      }
    }

    /**
     * The `expected > 0` branch of `readRawMessage`: read into a fresh 1024-byte
     * buffer until at least `n` bytes are in and return the first `n` in arrival
     * order. The script left and the time slept are those of `FillLoop`. There is
     * no timeout: the loop ends only because the bytes come.
     */
    method ReadExactly(n: nat) returns (resp: seq<byte>)
      requires 0 < n <= BufferSize && n <= |Stream(port.pending)|
      modifies this, port
      ensures resp == Stream(old(port.pending))[..n]
      ensures var out := FillLoop(old(port.pending), 0, n);
        && resp == out.0[..n] && port.pending == out.1 && port.clock == old(port.clock) + out.2
      ensures port.written == old(port.written) && lastSendTime == port.clock
    {
      var data := new byte[BufferSize];
      var numRead := FillBuffer(data, n);
      FillLoopPrefix(old(port.pending), n);
      resp := data[..n];
      lastSendTime := port.clock;
    }

    /**
     * The read loop of `ReadExactly`: reads go to the free end of `data` until
     * at least `n` bytes are in. What lands in the buffer, the script left and
     * the time slept are those of `FillLoop`.
     */
    method FillBuffer(data: array<byte>, n: nat) returns (numRead: nat)
      requires data.Length == BufferSize && 0 < n <= BufferSize && n <= |Stream(port.pending)|
      modifies port, data
      ensures var out := FillLoop(old(port.pending), 0, n);
        && numRead == |out.0| && data[..numRead] == out.0
        && port.pending == out.1 && port.clock == old(port.clock) + out.2
      ensures port.written == old(port.written)
    {
      numRead := 0;
      ghost var whole := FillLoop(port.pending, 0, n);
      ghost var got: seq<byte> := [];
      while numRead < n
        invariant port.written == old(port.written)
        invariant numRead == |got| <= data.Length && data[..numRead] == got
        invariant FillState(whole, got, old(port.clock), port.clock, port.pending, numRead, n)
        decreases |Stream(port.pending)|, |port.pending|
      {
        numRead, got := FillRound(data, numRead, n, whole, got, old(port.clock));
      }
    }

    /**
     * One pass of the read loop: a read into the free end of `data`; unless it
     * brings the buffer to `n` bytes, a sleep of `PollIntervalMs`.
     */
    method FillRound(data: array<byte>, numRead: nat, n: nat, ghost whole: (seq<byte>, seq<PortEvent>, nat),
                     ghost got: seq<byte>, ghost start: nat)
      returns (total: nat, ghost got': seq<byte>)
      requires numRead < n && FillState(whole, got, start, port.clock, port.pending, numRead, n)
      requires data.Length == BufferSize && numRead == |got| && data[..numRead] == got
      modifies port, data
      ensures total == |got'| <= data.Length && data[..total] == got' && port.written == old(port.written)
      ensures Shrinks(port.pending, old(port.pending))
      ensures FillState(whole, got', start, port.clock, port.pending, total, n)
    {
      ghost var slept := port.clock - start;
      ghost var before := port.pending;
      var o := port.ReadInto(data, numRead);
      got' := got + Received(o);
      total := numRead;
      if o.Got? && |o.bytes| > 0 {
        total := numRead + |o.bytes|;
        if total >= n {
          FillLoopEnds(whole, got, slept, before, numRead, n, o, port.pending);
          return;
        }
      }
      port.SleepFor(PollIntervalMs);
      FillLoopContinues(whole, got, slept, before, numRead, n, o, port.pending, got', slept + PollIntervalMs, total);
    }

    /**
     * `sendRequest(request, expected, requestLength)`: send the framed request;
     * with a positive length return the reply minus the echoed `requestLength`
     * bytes, with a negative one the unstripped bytes of one read, and with zero
     * the frame that was sent.
     */
    method SendRequest(request: Request, expected: int, requestLength: int) returns (resp: seq<byte>)
      requires expected > 0 ==> 0 <= requestLength <= expected <= BufferSize && expected <= |Stream(port.pending)|
      requires expected < 0 ==> ReadStep(port.pending, BufferSize).0.Got?
      modifies this, port
      ensures SentAt(old(port.written), port.written, WithCrc(framing, framing.requestToRaw(request)),
                     PacedClock(old(port.clock), old(lastSendTime) + minPauseMs))
      ensures expected == 0 ==>
        && resp == WithCrc(framing, framing.requestToRaw(request))
        && port.pending == old(port.pending) && lastSendTime == old(lastSendTime)
        && port.clock == PacedClock(old(port.clock), old(lastSendTime) + minPauseMs)
      ensures expected > 0 ==>
        && resp == Stream(old(port.pending))[requestLength..expected]
        && |resp| == expected - requestLength && lastSendTime == port.clock
        && Exchanged(old(port.pending), old(port.clock), old(lastSendTime) + minPauseMs, expected, port.pending, port.clock)
      ensures expected < 0 ==>
        && resp == ReadStep(old(port.pending), BufferSize).0.bytes && lastSendTime == port.clock
        && port.pending == ReadStep(old(port.pending), BufferSize).1
        && port.clock == PacedClock(old(port.clock), old(lastSendTime) + minPauseMs) - expected
    {
      var sent := Send(framing.requestToRaw(request));
      if expected != 0 {
        var r := ReadRawMessage(expected);
        resp := r.value;
        if expected > 0 {
          resp := resp[requestLength..];  // drop the echo of the request
        }
      } else {
        resp := sent;
      }
    }

    /**
     * `sendRequest(param, isWrite, data)`. A read asks for the parameter's
     * registers and returns the 5 + width bytes of the reply after the echo. A
     * write packs `data` into registers and returns the 8 bytes of the
     * acknowledgement after the echo; the data must have even length.
     */
    method SendParamRequest(param: ModbusParam, isWrite: bool, data: seq<byte>) returns (resp: seq<byte>)
      requires !isWrite ==> ReadExpectedLength(param.dataType) <= |Stream(port.pending)|
      requires isWrite ==>
        && |data| % 2 == 0 && WriteExpectedLength(|data|) <= BufferSize
        && WriteExpectedLength(|data|) <= |Stream(port.pending)|
      modifies this, port
      ensures SentAt(old(port.written), port.written,
                     WithCrc(framing, framing.requestToRaw(if isWrite then WriteRequest(param, data) else ReadRequest(param))),
                     PacedClock(old(port.clock), old(lastSendTime) + minPauseMs))
      ensures !isWrite ==>
        && resp == Stream(old(port.pending))[ReadEchoLength..ReadExpectedLength(param.dataType)]
        && |resp| == ReadReplyOverhead + Width(param.dataType)
        && Exchanged(old(port.pending), old(port.clock), old(lastSendTime) + minPauseMs,
                     ReadExpectedLength(param.dataType), port.pending, port.clock)
      ensures isWrite ==>
        && resp == Stream(old(port.pending))[WriteRequestLength(|data|)..WriteExpectedLength(|data|)]
        && |resp| == WriteAckLength
        && Exchanged(old(port.pending), old(port.clock), old(lastSendTime) + minPauseMs,
                     WriteExpectedLength(|data|), port.pending, port.clock)
      ensures lastSendTime == port.clock
    {
      if !isWrite {
        var req := Request(SlaveAddress, ReadAnalogOutputHoldingRegisters, param.addr, Width(param.dataType) / 2, []);
        resp := SendRequest(req, ReadExpectedLength(param.dataType), ReadEchoLength);
      } else {
        var vals := PackRegisters(data);
        var req := Request(SlaveAddress, WriteMultipleAnalogOutputHoldingRegisters, param.addr, Width(param.dataType) / 2, vals);
        resp := SendRequest(req, WriteExpectedLength(|data|), WriteRequestLength(|data|));
      }
    }

    /** `awaitRawMessage`. */
    method AwaitRawMessage() returns (r: Result<seq<byte>>)
      modifies port
      ensures (r, port.pending, port.clock - old(port.clock)) == AwaitRaw(old(port.pending), timeoutMs)
      ensures port.written == old(port.written) && port.clock >= old(port.clock)
    {
      var ready := port.Poll(timeoutMs);
      if !ready {
        return Failure(Timeout);
      }
      var o := port.Read(BufferSize);
      if o.Failed? {
        return Failure(SlaveDeviceFailure);
      }
      return Ok(o.bytes);
    }

    /** `awaitResponse`: the loop `ResponseLoop` describes, from an empty buffer. */
    method AwaitResponse() returns (r: Result<(Response, seq<byte>)>)
      modifies port
      ensures (r, port.pending, port.clock - old(port.clock)) == ResponseLoop(framing, old(port.pending), [], timeoutMs)
      ensures port.written == old(port.written) && port.clock >= old(port.clock)
    {
      var data: seq<byte> := [];
      while true
        invariant ResponseLoop(framing, old(port.pending), [], timeoutMs) == ResponseLoop(framing, port.pending, data, timeoutMs)
        invariant port.written == old(port.written) && port.clock == old(port.clock)
        decreases |Stream(port.pending)|, |port.pending|
      {
        AwaitRawProgress(port.pending, timeoutMs);
        ResponseLoopUnfolds(framing, port.pending, data, timeoutMs);
        var raw := AwaitRawMessage();
        var attempt: Result<Response>;
        if raw.Ok? {
          data := data + raw.value;
          if framing.exceptionExists(data) {
            attempt := Failure(framing.exceptionCode(data));
          } else {
            attempt := framing.responseFromRaw(data);
          }
        } else {
          attempt := Failure(raw.error);
        }
        match attempt
        case Ok(resp) =>
          return Ok((resp, data));
        case Failure(e) =>
          if ResponseFatal(framing, e) {
            return Failure(e);
          }
      }
    }

    /** `awaitRequest`: the loop `RequestLoop` describes, from an empty buffer. */
    method AwaitRequest() returns (r: Result<(Request, seq<byte>)>)
      modifies port
      ensures (r, port.pending, port.clock - old(port.clock)) == RequestLoop(framing, old(port.pending), [], timeoutMs)
      ensures port.written == old(port.written) && port.clock >= old(port.clock)
    {
      var data: seq<byte> := [];
      while true
        invariant RequestLoop(framing, old(port.pending), [], timeoutMs) == RequestLoop(framing, port.pending, data, timeoutMs)
        invariant port.written == old(port.written) && port.clock == old(port.clock)
        decreases |Stream(port.pending)|, |port.pending|
      {
        AwaitRawProgress(port.pending, timeoutMs);
        RequestLoopUnfolds(framing, port.pending, data, timeoutMs);
        var raw := AwaitRawMessage();
        var attempt: Result<Request>;
        if raw.Ok? {
          data := data + raw.value;
          attempt := framing.requestFromRaw(data);
        } else {
          attempt := Failure(raw.error);
        }
        match attempt
        case Ok(req) =>
          return Ok((req, data));
        case Failure(e) =>
          if RequestFatal(e) {
            return Failure(e);
          }
      }
    }
  }
}
