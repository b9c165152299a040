/**
 * The serial line the transport talks to, as a scripted environment. The
 * device's side of the line is a finite script of events: a chunk of bytes
 * arriving, a failing `read` with its errno, or a quiet interval in which
 * nothing arrives. Everything written is logged, and time is a millisecond
 * counter advanced by the sleeps and by a `poll` that runs into its timeout.
 */
module SerialLine {
  import opened Bytes

  datatype Errno = EAgain | EBadF | OtherErrno(code: nat)

  datatype PortEvent = Arrive(data: seq<byte>) | Fail(errno: Errno) | Quiet

  /** What one `::read` returns: the bytes read, or -1 with `errno` set. */
  datatype ReadOutcome = Got(bytes: seq<byte>) | Failed(errno: Errno)

  /** One `::write` of a frame, stamped with the time it went out. */
  datatype Transmission = Transmission(at: nat, frame: seq<byte>)

  /** All bytes the script will ever deliver, in arrival order. */
  function Stream(events: seq<PortEvent>): seq<byte>
    decreases |events|
  {
    if events == [] then []
    else (if events[0].Arrive? then events[0].data else []) + Stream(events[1..])
  }

  function Received(o: ReadOutcome): seq<byte>
  {
    if o.Got? then o.bytes else []
  }

  /**
   * One non-blocking `::read` of at most `cap` bytes: a chunk longer than `cap`
   * leaves its tail pending; a quiet line, or a finished script, reads as EAGAIN.
   */
  function ReadStep(events: seq<PortEvent>, cap: nat): (step: (ReadOutcome, seq<PortEvent>))
    ensures |Received(step.0)| <= cap
  {
    if events == [] then (Failed(EAgain), [])
    else match events[0]
      case Arrive(d) =>
        if |d| <= cap then (Got(d), events[1..])
        else (Got(d[..cap]), [Arrive(d[cap..])] + events[1..])
      case Fail(e) => (Failed(e), events[1..])
      case Quiet => (Failed(EAgain), events[1..])
  }

  /** One `::poll` for input: it times out on a quiet line or a finished script. */
  function PollStep(events: seq<PortEvent>): (bool, seq<PortEvent>)
  {
    if events == [] then (false, [])
    else if events[0].Quiet? then (false, events[1..])
    else (true, events)
  }

  /** `next` is strictly closer to the end of the script than `events`. */
  predicate Shrinks(next: seq<PortEvent>, events: seq<PortEvent>)
  {
    |Stream(next)| < |Stream(events)| || (|Stream(next)| == |Stream(events)| && |next| < |events|)
  }

  /**
   * A read hands out a prefix of the remaining stream and keeps the rest pending,
   * never more than `cap` bytes; on a non-empty script with room to read it
   * makes progress.
   */
  lemma {:induction false} ReadStepSplitsStream(events: seq<PortEvent>, cap: nat)
    ensures var (o, next) := ReadStep(events, cap);
      && Stream(events) == Received(o) + Stream(next)
      && |Received(o)| <= cap
      && (|Stream(events)| > 0 && cap > 0 ==> Shrinks(next, events))
  {
    if events != [] {
      var (o, next) := ReadStep(events, cap);
      match events[0]
      case Arrive(d) =>
        if |d| > cap {
          var tail := [Arrive(d[cap..])] + events[1..];
          assert tail[1..] == events[1..];
          assert Stream(tail) == d[cap..] + Stream(events[1..]);
          assert d == d[..cap] + d[cap..];
        }
      case Fail(e) =>
      case Quiet =>
    }
  }

  /** A poll never consumes bytes; it drops at most one quiet interval. */
  lemma PollStepKeepsStream(events: seq<PortEvent>)
    ensures var (ready, next) := PollStep(events);
      && Stream(next) == Stream(events)
      && (ready ==> next == events && events != [])
      && (!ready && events != [] ==> Shrinks(next, events))
  {
  }

  class SerialPort {
    /** Events the device side has yet to deliver. */
    var pending: seq<PortEvent>
    /** Every frame written to the line, in order. */
    var written: seq<Transmission>
    /** Milliseconds since an arbitrary epoch. */
    var clock: nat

    constructor (script: seq<PortEvent>, now: nat)
      ensures pending == script && written == [] && clock == now
    {
      pending, written, clock := script, [], now;
    }

    method Read(cap: nat) returns (o: ReadOutcome)
      modifies this
      ensures (o, pending) == ReadStep(old(pending), cap)
      ensures written == old(written) && clock == old(clock)
    {
      var step := ReadStep(pending, cap);
      o, pending := step.0, step.1;
    }

    /** `::read(fd, buf + offset, buf.Length - offset)`: a read into the free end of a buffer. */
    method ReadInto(buf: array<byte>, offset: nat) returns (o: ReadOutcome)
      requires offset <= buf.Length
      modifies this, buf
      ensures (o, pending) == ReadStep(old(pending), buf.Length - offset)
      ensures buf[..offset + |Received(o)|] == old(buf[..offset]) + Received(o)
      ensures buf[offset + |Received(o)|..] == old(buf[offset + |Received(o)|..])
      ensures Stream(old(pending)) == Received(o) + Stream(pending)
      ensures |Stream(old(pending))| > 0 && offset < buf.Length ==> Shrinks(pending, old(pending))
      ensures written == old(written) && clock == old(clock)
    {
      ReadStepSplitsStream(pending, buf.Length - offset);
      var step := ReadStep(pending, buf.Length - offset);
      o, pending := step.0, step.1;
      var got := Received(o);
      forall i | 0 <= i < |got| {
        buf[offset + i] := got[i];
      }
    }

    /** Waits up to `timeout` milliseconds for input. */
    method Poll(timeout: nat) returns (ready: bool)
      modifies this
      ensures (ready, pending) == PollStep(old(pending))
      ensures written == old(written)
      ensures clock == old(clock) + (if ready then 0 else timeout)
    {
      var step := PollStep(pending);
      ready, pending := step.0, step.1;
      if !ready {
        clock := clock + timeout;
      }
    }

    method Write(frame: seq<byte>)
      modifies this
      ensures written == old(written) + [Transmission(old(clock), frame)]
      ensures pending == old(pending) && clock == old(clock)
    {
      written := written + [Transmission(clock, frame)];
    }

    method SleepFor(ms: nat)
      modifies this
      ensures clock == old(clock) + ms
      ensures pending == old(pending) && written == old(written)
    {
      clock := clock + ms;
    }

    method SleepUntil(t: nat)
      modifies this
      ensures clock == if t > old(clock) then t else old(clock)
      ensures pending == old(pending) && written == old(written)
    {
      if t > clock {
        clock := t;
      }
    }
  }
}
