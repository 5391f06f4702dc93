/** The frame reader and the frame writer of the RPC layer, over buffers and eight-bit counters. */
module Rpc {
  import opened Bytes
  import opened Frames
  import opened Transport
  import opened Receiver
  import MQ = MessageQueue

  /** How a call ends: with a status, never, or outside what the C language defines. */
  datatype Ending = Returned(status: int) | NeverReturns | Wild

  function EndingOf(outcome: Outcome): Ending {
    match outcome
    case Response(_) => Returned(0)
    case Indication(_) => Returned(0)
    case Discarded => Returned(0)
    case Failed => Returned(-1)
    case Blocked => NeverReturns
    case Undefined => Wild
  }

  /** The message queue after a call with this outcome. */
  function Enqueued(outcome: Outcome, queue: seq<seq<byte>>): seq<seq<byte>> {
    match outcome
    case Response(m) => [m] + queue
    case Indication(m) => queue + [m]
    case _ => queue
  }

  /** XOR of `size` octets of `msg`, from index `at` on; the size is an eight-bit parameter. */
  method CalcFcs(msg: array<byte>, at: nat, size: nat) returns (result: byte)
    requires size < 256 && at + size <= msg.Length
    ensures result == Xor(msg[at..at + size])
  {
    result := 0;
    var i := 0;
    while i < size
      invariant 0 <= i <= size
      invariant result == XorTo(msg[at..at + size], i)
    {
      result := result ^ msg[at + i];
      i := i + 1;
    }
  }

  /** Compares the check octet, which is at index `size`, with the one calculated. */
  method FcsMatches(rpcBuff: array<byte>, size: nat) returns (ok: bool)
    requires size < 256 && size < rpcBuff.Length
    ensures ok <==> Checks([rpcBuff[0]] + rpcBuff[1..1 + size])
  {
    var fcs := CalcFcs(rpcBuff, 0, size);
    XorToPrefix([rpcBuff[0]] + rpcBuff[1..1 + size], rpcBuff[0..0 + size], size);
    ok := rpcBuff[size] == fcs;
  }

  /** What one read of the fill loop leaves to do. */
  lemma FillStep(plan: Schedule, feed: Feed, want: nat, retries: nat, got: seq<byte>)
    requires want > 0 && retries <= MAX_RETRIES
    ensures var f, r := Prepend(got, FillFrom(plan, feed, want, retries)), ReadAt(plan, feed, want);
            match r
            case Stalls => f == Hung(feed.Tick())
            case Octets(data) => f == Prepend(got + data, FillFrom(plan, feed.Drop(|data|), want - |data|, retries))
            case Error =>
              f == if 255 <= want then Unread(feed.Tick())
                   else if retries < MAX_RETRIES then Prepend(got, FillFrom(plan, feed.Tick(), want, retries + 1))
                   else GaveUp(feed.Tick())
  {
    var r := ReadAt(plan, feed, want);
    if r.Octets? {
      PrependTwice(got, r.data, FillFrom(plan, feed.Drop(|r.data|), want - |r.data|, retries));
    }
  }

  lemma EncodeParts(f: Frame, covered: seq<byte>)
    requires f.Fits() && covered == [Octet(|f.payload|), f.cmd0, f.cmd1] + f.payload
    ensures f.Encode() == [SOF] + covered + [Xor(covered)]
  {}

  /**
   * Fills a send buffer: header, payload, check octet. There is room for a payload of 251 octets;
   * with a longer one the check octet is written behind the buffer.
   */
  method BuildFrame(cmd0: byte, cmd1: byte, payload: seq<byte>) returns (buf: array<byte>, e: Ending)
    requires |payload| < 256
    ensures fresh(buf) && buf.Length == BUFFER_SIZE
    ensures e == if |payload| <= 251 then Returned(0) else Wild
    ensures var f := Frame(cmd0, cmd1, payload); f.Fits() ==> buf[..|payload| + 5] == f.Encode()
  {
    var n := |payload|;
    buf := new byte[BUFFER_SIZE];
    if n + 4 >= BUFFER_SIZE {
      return buf, Wild;
    }
    FillFrame(buf, cmd0, cmd1, payload);
    ghost var covered := [Octet(n), cmd0, cmd1] + payload;
    Seal(buf, n + 3);
    if n <= MAX_PAYLOAD {
      EncodeParts(Frame(cmd0, cmd1, payload), covered);
    }
    e := Returned(0);
  }

  /** Puts the check octet behind the `size` octets that follow the first. */
  method Seal(buf: array<byte>, size: nat)
    requires size < 255 && buf.Length == BUFFER_SIZE
    modifies buf
    ensures buf[..size + 2] == [old(buf[0])] + old(buf[1..1 + size]) + [Xor(old(buf[1..1 + size]))]
  {
    var fcs := CalcFcs(buf, 1, size);
    buf[size + 1] := fcs;
  }

  method FillFrame(buf: array<byte>, cmd0: byte, cmd1: byte, payload: seq<byte>)
    requires |payload| <= 251 && buf.Length == BUFFER_SIZE
    modifies buf
    ensures buf[0] == SOF
    ensures buf[1..1 + (|payload| + 3)] == [Octet(|payload|), cmd0, cmd1] + payload
  {
    buf[0] := SOF;
    buf[1] := Octet(|payload|);
    buf[2] := cmd0;
    buf[3] := cmd1;
    CopyPayload(buf, payload);
    assert buf[1..4] == [Octet(|payload|), cmd0, cmd1];
    HeadAndPayload(buf[..], |payload| + 4);
  }

  lemma HeadAndPayload(s: seq<byte>, n: nat)
    requires 4 <= n <= |s|
    ensures s[1..n] == s[1..4] + s[4..n]
  {}

  method CopyPayload(buf: array<byte>, payload: seq<byte>)
    requires |payload| <= 251 && buf.Length == BUFFER_SIZE
    modifies buf
    ensures buf[4..4 + |payload|] == payload
    ensures forall j :: 0 <= j < 4 ==> buf[j] == old(buf[j])
  {
    var i := 0;
    while i < |payload|
      invariant 0 <= i <= |payload|
      invariant forall j :: 0 <= j < 4 ==> buf[j] == old(buf[j])
      invariant forall j :: 0 <= j < i ==> buf[4 + j] == payload[j]
    {
      buf[4 + i] := payload[i];
      i := i + 1;
    }
  }

  class Host {
    const port: Port
    const queue: MQ.Queue
    var srspSem: nat
    var expectedSrspCmdId: byte

    constructor (port: Port, queue: MQ.Queue)
      ensures this.port == port && this.queue == queue && srspSem == 0 && expectedSrspCmdId == 0
    {
      this.port, this.queue := port, queue;
      srspSem, expectedSrspCmdId := 0, 0;
    }

    /** One read of that loop, behind what has been read before. */
    method ReadPiece(rpcBuff: array<byte>, at: nat, want: nat) returns (bytesRead: nat, event: ReadResult)
      requires rpcBuff.Length == BUFFER_SIZE && 1 <= at && 0 < want && at + want <= BUFFER_SIZE
      modifies port`feed, rpcBuff
      ensures event == ReadAt(port.plan, old(port.feed), want) && port.feed == After(old(port.feed), event)
      ensures rpcBuff[0] == old(rpcBuff[0])
      ensures event.Error? ==> bytesRead == 255
      ensures event.Octets? ==> bytesRead == |event.data| <= want
                                && rpcBuff[1..at + |event.data|] == old(rpcBuff[1..at]) + event.data
      ensures !event.Octets? ==> rpcBuff[1..at] == old(rpcBuff[1..at])
    {
      ghost var was := rpcBuff[..at];
      assert was[1..] == rpcBuff[1..at];
      bytesRead, event := port.Read(rpcBuff, at, want);
      assert rpcBuff[..at] == was;
    }

    /**
     * What that loop does with the result of a read: counts a failure, or moves the eight-bit index and
     * the remaining count.
     */
    method Account(read: nat, want: nat, at: nat, attempts: nat, ghost event: ReadResult)
      returns (rpcTempLen: nat, rpcBuffIdx: nat, retryAttempts: nat, gaveUp: bool)
      requires 0 < want <= 255 && at + want <= BUFFER_SIZE && attempts <= MAX_RETRIES && !event.Stalls?
      requires event.Error? ==> read == 255 > want
      requires event.Octets? ==> read == |event.data| <= want
      ensures gaveUp <==> event.Error? && attempts == MAX_RETRIES
      ensures !gaveUp ==>
                var n := if event.Octets? then |event.data| else 0;
                && rpcTempLen == want - n && (rpcTempLen > 0 ==> rpcBuffIdx == at + n)
                && retryAttempts == (if event.Error? then attempts + 1 else attempts) <= MAX_RETRIES
    {
      var bytesRead := read;
      rpcTempLen, rpcBuffIdx, retryAttempts, gaveUp := want, at, attempts, false;
      if bytesRead > rpcTempLen {
        retryAttempts := retryAttempts + 1;
        if retryAttempts - 1 < MAX_RETRIES {
          bytesRead := 0;
        } else {
          return rpcTempLen, rpcBuffIdx, retryAttempts, true;
        }
      }
      if rpcTempLen > bytesRead {
        rpcTempLen := rpcTempLen - bytesRead;
      } else {
        rpcTempLen := 0;
      }
      rpcBuffIdx := (rpcBuffIdx + bytesRead) % 256;
    }

    /**
     * The loop that fills the buffer behind the length octet. `retryAttempts` counts the failed
     * reads of this frame; the index and the remaining count are eight-bit numbers.
     */
    method FillBuffer(rpcBuff: array<byte>, rpcLen: nat) returns (ghost f: Fill, e: Ending)
      requires rpcBuff.Length == BUFFER_SIZE && 3 <= rpcLen <= 255
      modifies port`feed, rpcBuff
      ensures f == FillFrom(port.plan, old(port.feed), rpcLen, 0)
      ensures port.feed == f.feed && rpcBuff[0] == old(rpcBuff[0])
      ensures f.Full? ==> e == Returned(0) && f.data == rpcBuff[1..1 + rpcLen]
      ensures f.GaveUp? ==> e == Returned(-1)
      ensures f.Hung? ==> e == NeverReturns
      ensures f.Unread? ==> e == Wild
    {
      ghost var plan := port.plan;
      f := FillFrom(plan, port.feed, rpcLen, 0);
      var retryAttempts: nat := 0;
      var rpcBuffIdx: nat, rpcTempLen: nat := 1, rpcLen;
      ghost var got: seq<byte> := [];
      assert Prepend(got, f) == f;
      while rpcTempLen > 0
        invariant |got| + rpcTempLen == rpcLen && got == rpcBuff[1..1 + |got|]
        invariant rpcTempLen > 0 ==> rpcBuffIdx == |got| + 1
        invariant retryAttempts <= MAX_RETRIES
        invariant rpcBuff[0] == old(rpcBuff[0])
        invariant f == Prepend(got, FillFrom(plan, port.feed, rpcTempLen, retryAttempts))
        decreases rpcTempLen, MAX_RETRIES + 1 - retryAttempts
      {
        FillStep(plan, port.feed, rpcTempLen, retryAttempts, got);
        var bytesRead, event := ReadPiece(rpcBuff, rpcBuffIdx, rpcTempLen);
        if event.Stalls? {
          return f, NeverReturns;
        }
        if event.Error? && rpcTempLen >= 255 {
          return f, Wild;
        }
        var gaveUp;
        rpcTempLen, rpcBuffIdx, retryAttempts, gaveUp :=
          Account(bytesRead, rpcTempLen, rpcBuffIdx, retryAttempts, event);
        if gaveUp {
          return f, Returned(-1);
        }
        got := if event.Octets? then got + event.data else got;
      }
      e := Returned(0);
    }

    method ReadBody(rpcBuff: array<byte>, len: byte) returns (e: Ending, message: seq<byte>)
      requires rpcBuff.Length == BUFFER_SIZE && rpcBuff[0] == len
      modifies port`feed, rpcBuff
      ensures var call := ReceiveBody(port.plan, old(port.feed), expectedSrspCmdId, len);
              && port.feed == call.feed
              && (e == Returned(0) ==> |message| > 0 && call.outcome == Route(expectedSrspCmdId, message))
              && (e != Returned(0) ==> e == EndingOf(call.outcome))
    {
      var rpcLen := BodyLength(len);
      if rpcLen < 3 {
        return Wild, [];
      }
      ghost var f;
      f, e := FillBuffer(rpcBuff, rpcLen);
      assert f.Full? ==> |f.data| > 0;
      e, message := Judge(rpcBuff, rpcLen, f, e);
    }

    /** What the end of the fill loop and the check octet mean for the call. */
    method Judge(rpcBuff: array<byte>, rpcLen: nat, ghost f: Fill, filled: Ending)
      returns (e: Ending, message: seq<byte>)
      requires rpcBuff.Length == BUFFER_SIZE && 3 <= rpcLen < 256
      requires f.Full? ==> filled == Returned(0) && f.data == rpcBuff[1..1 + rpcLen]
      requires f.GaveUp? ==> filled == Returned(-1)
      requires f.Hung? ==> filled == NeverReturns
      requires f.Unread? ==> filled == Wild
      ensures var outcome := Finish(expectedSrspCmdId, rpcBuff[0], f).outcome;
              && (e == Returned(0) ==> |message| > 0 && outcome == Route(expectedSrspCmdId, message))
              && (e != Returned(0) ==> e == EndingOf(outcome))
    {
      e, message := filled, rpcBuff[1..1 + rpcLen];
      if e == Returned(0) {
        var ok := FcsMatches(rpcBuff, rpcLen);
        e := if ok then Returned(0) else Returned(-1);
      }
    }

    /** Reads one frame and checks it; the message is what follows the length octet. */
    method ReadFrame() returns (e: Ending, message: seq<byte>)
      modifies port`feed
      ensures var call := Receive(port.plan, old(port.feed), expectedSrspCmdId);
              && port.feed == call.feed
              && (e == Returned(0) ==> |message| > 0 && call.outcome == Route(expectedSrspCmdId, message))
              && (e != Returned(0) ==> e == EndingOf(call.outcome))
    {
      message := [];
      var rpcBuff := new byte[BUFFER_SIZE];
      var bytesRead, event := port.Read(rpcBuff, 0, 1);
      if event.Stalls? {
        return NeverReturns, [];
      }
      var sofByte := rpcBuff[0];
      if !(sofByte == SOF && bytesRead == 1) {
        return Returned(-1), [];
      }
      bytesRead, event := port.Read(rpcBuff, 0, 1);
      if event.Stalls? {
        return NeverReturns, [];
      }
      if bytesRead != 1 {
        return Returned(-1), [];
      }
      var len := rpcBuff[0];
      e, message := ReadBody(rpcBuff, len);
    }

    /** A response that is expected wakes the sender and goes first; everything else goes last. */
    method Dispatch(message: seq<byte>) returns (e: Ending)
      requires queue.Valid() && |message| > 0
      modifies this`srspSem, queue, queue.tail
      ensures queue.Valid()
      ensures forall n :: n in queue.spine ==> n in old(queue.spine) || fresh(n)
      ensures var outcome := Route(expectedSrspCmdId, message);
              && e == EndingOf(outcome)
              && queue.Contents() == Enqueued(outcome, old(queue.Contents()))
              && srspSem == old(srspSem) + (if outcome.Response? then 1 else 0)
      ensures e == Returned(0)
      ensures message[0] & 0xE0 == 0x60 && message[0] & 0x1F != expectedSrspCmdId ==>
                queue.Contents() == old(queue.Contents()) && srspSem == old(srspSem)
      ensures message[0] & 0xE0 == 0x60 && message[0] & 0x1F == expectedSrspCmdId ==>
                queue.Contents() == [message] + old(queue.Contents()) && srspSem == old(srspSem) + 1
      ensures message[0] & 0xE0 != 0x60 ==>
                queue.Contents() == old(queue.Contents()) + [message] && srspSem == old(srspSem)
    {
      if message[0] & TYPE_MASK == SRSP {
        if expectedSrspCmdId == message[0] & SUBSYSTEM_MASK {
          srspSem := srspSem + 1;
          queue.Add(message, 1);
        }
      } else {
        queue.Add(message, 0);
      }
      return Returned(0);
    }

    /** One call of the reader does what `Receive` says, to the port, the queue and the semaphore. */
    method RpcProcess() returns (e: Ending)
      requires queue.Valid()
      modifies port`feed, this`srspSem, queue, queue.tail
      ensures queue.Valid()
      ensures forall n :: n in queue.spine ==> n in old(queue.spine) || fresh(n)
      ensures var call := Receive(port.plan, old(port.feed), expectedSrspCmdId);
              && e == EndingOf(call.outcome)
              && port.feed == call.feed
              && queue.Contents() == Enqueued(call.outcome, old(queue.Contents()))
              && srspSem == old(srspSem) + (if call.outcome.Response? then 1 else 0)
    {
      var message;
      e, message := ReadFrame();
      if e == Returned(0) {
        e := Dispatch(message);
      }
    }

    /**
     * The part of a send that runs before the wait: note the subsystem of a synchronous request,
     * build the frame, hand it to the port. The buffer has room for 251 octets of payload, but the
     * eight-bit length given to the port holds only 250 of them and the five others: at 251 it is 0
     * and nothing is written.
     */
    method WriteFrame(cmd0: byte, cmd1: byte, payload: seq<byte>) returns (e: Ending)
      requires |payload| < 256
      modifies port`written, this`expectedSrspCmdId
      ensures e == if |payload| <= 251 then Returned(0) else Wild
      ensures expectedSrspCmdId == if cmd0 & 0xE0 == 0x20 then cmd0 & 0x1F else old(expectedSrspCmdId)
      ensures var f := Frame(cmd0, cmd1, payload);
              Together(port.written) == Together(old(port.written)) + (if f.Fits() then f.Encode() else [])
    {
      if cmd0 & TYPE_MASK == SREQ {
        expectedSrspCmdId := cmd0 & SUBSYSTEM_MASK;
      }
      var buf;
      buf, e := BuildFrame(cmd0, cmd1, payload);
      if e == Returned(0) {
        LengthWraps(|payload| + 5);
        port.Write(buf, (|payload| + 5) % 256);
      }
    }
  }

  lemma LengthWraps(n: nat)
    requires n <= 256
    ensures n % 256 == if n == 256 then 0 else n
  {}
}
