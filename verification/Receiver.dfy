/**
 * What one call of the frame reader does, as a function of the octets that arrive and of what each
 * read meets. The buffer has 256 octets and the counters are eight bits wide, so a length octet of
 * 250 or less is handled exactly; what happens beyond that is kept here too.
 */
module Receiver {
  import opened Bytes
  import opened Frames
  import opened Transport

  const BUFFER_SIZE := 256
  const MAX_RETRIES := 5

  /**
   * The end of the loop that fills the buffer: all octets read; too many failed reads; a read that
   * never returns; or a failed read whose result 255 is not larger than the octets wanted and so
   * passes for 255 octets read, leaving the buffer without its contents.
   */
  datatype Fill =
    | Full(data: seq<byte>, feed: Feed)
    | GaveUp(feed: Feed)
    | Hung(feed: Feed)
    | Unread(feed: Feed)

  function Prepend(data: seq<byte>, f: Fill): Fill {
    if f.Full? then Full(data + f.data, f.feed) else f
  }

  function FillFrom(plan: Schedule, feed: Feed, want: nat, retries: nat): Fill
    decreases want, MAX_RETRIES + 1 - retries
  {
    if want == 0 then Full([], feed)
    else
      var r := ReadAt(plan, feed, want);
      match r
      case Stalls => Hung(feed.Tick())
      case Octets(data) => Prepend(data, FillFrom(plan, feed.Drop(|data|), want - |data|, retries))
      case Error =>
        if 255 <= want then Unread(feed.Tick())
        else if retries < MAX_RETRIES then FillFrom(plan, feed.Tick(), want, retries + 1)
        else GaveUp(feed.Tick())
  }

  /**
   * The result of a call: a message for the head of the queue with a wake-up for the waiting
   * request; a message for the tail; an unexpected response thrown away (status 0); a failure
   * (status -1); a call that does not return; or a call that leaves its buffer, of which the C
   * language says nothing.
   */
  datatype Outcome =
    | Response(message: seq<byte>)
    | Indication(message: seq<byte>)
    | Discarded
    | Failed
    | Blocked
    | Undefined

  function Route(expected: byte, message: seq<byte>): Outcome
    requires |message| > 0
  {
    if CommandType(message[0]) != SRSP then Indication(message)
    else if expected == Subsystem(message[0]) then Response(message)
    else Discarded
  }

  /** The first command octet decides: a response is accepted only for the subsystem expected. */
  lemma RouteInNumbers(expected: byte, message: seq<byte>)
    requires |message| > 0
    ensures var cmd0 := message[0];
            Route(expected, message) ==
              if cmd0 & 0xE0 != 0x60 then Indication(message)
              else if cmd0 & 0x1F == expected then Response(message)
              else Discarded
  {}

  datatype Call = Call(outcome: Outcome, feed: Feed)

  function Finish(expected: byte, len: byte, f: Fill): Call
    requires f.Full? ==> |f.data| > 0
  {
    match f
    case Full(data, feed) => Call(if Checks([len] + data) then Route(expected, data) else Failed, feed)
    case GaveUp(feed) => Call(Failed, feed)
    case Hung(feed) => Call(Blocked, feed)
    case Unread(feed) => Call(Undefined, feed)
  }

  lemma {:induction false} FillLength(plan: Schedule, feed: Feed, want: nat, retries: nat)
    ensures var f := FillFrom(plan, feed, want, retries); f.Full? ==> |f.data| == want
    decreases want, MAX_RETRIES + 1 - retries
  {
    if want != 0 {
      match ReadAt(plan, feed, want)
      case Stalls =>
      case Octets(data) => FillLength(plan, feed.Drop(|data|), want - |data|, retries);
      case Error =>
        if want < 255 && retries < MAX_RETRIES { FillLength(plan, feed.Tick(), want, retries + 1); }
    }
  }

  /** The octets that follow the length octet: two commands, payload, check octet, in eight bits. */
  function BodyLength(len: byte): (n: nat)
    ensures n < 256
    ensures if len as nat < 253 then 3 <= n == len as nat + 3 else n < 3
  {
    (len as nat + 3) % 256
  }

  /**
   * Everything after the length octet. When the sum has wrapped nothing is read, and the check octet
   * is looked up behind the end of the buffer.
   */
  function ReceiveBody(plan: Schedule, feed: Feed, expected: byte, len: byte): Call {
    var rpcLen := BodyLength(len);
    if rpcLen < 3 then Call(Undefined, feed)
    else
      FillLength(plan, feed, rpcLen, 0);
      Finish(expected, len, FillFrom(plan, feed, rpcLen, 0))
  }

  function ReceiveLength(plan: Schedule, feed: Feed, expected: byte): Call {
    var r := ReadAt(plan, feed, 1);
    match r
    case Error => Call(Failed, feed.Tick())
    case Stalls => Call(Blocked, feed.Tick())
    case Octets(data) => ReceiveBody(plan, feed.Drop(1), expected, data[0])
  }

  /** One call of the reader. */
  function Receive(plan: Schedule, feed: Feed, expected: byte): Call {
    var r := ReadAt(plan, feed, 1);
    match r
    case Error => Call(Failed, feed.Tick())
    case Stalls => Call(Blocked, feed.Tick())
    case Octets(data) =>
      if data[0] == SOF then ReceiveLength(plan, feed.Drop(1), expected)
      else Call(Failed, feed.Drop(1))
  }

  // ---------- The fill loop ----------

  lemma {:induction false} PrependTwice(a: seq<byte>, b: seq<byte>, f: Fill)
    ensures Prepend(a, Prepend(b, f)) == Prepend(a + b, f)
  {
    if f.Full? {
      assert a + (b + f.data) == (a + b) + f.data;
    }
  }

  /**
   * Fragmentation does not matter: the loop either reads exactly the next `want` octets, having
   * retried at most the failures it is allowed, or gives up at the sixth failure of the frame, or
   * waits for octets that are not on the wire. Only if all 255 octets are wanted can a failed read
   * pass for a full one, and then it must be the first.
   */
  lemma {:induction false} FillIsExact(plan: Schedule, feed: Feed, want: nat, retries: nat)
    requires want <= 255 && (want == 255 ==> plan(feed.clock).Finds?) && retries <= MAX_RETRIES
    ensures var f := FillFrom(plan, feed, want, retries);
            var failures := Failures(plan, feed.clock, f.feed.clock);
            && f.feed.clock >= feed.clock
            && !f.Unread?
            && (f.Full? ==> want <= |feed.wire| && f.data == feed.wire[..want] && f.feed.wire == feed.wire[want..]
                            && retries + failures <= MAX_RETRIES)
            && (f.Hung? ==> want > |feed.wire| && retries + failures <= MAX_RETRIES)
            && (f.GaveUp? ==> retries + failures == MAX_RETRIES + 1)
    decreases want, MAX_RETRIES + 1 - retries
  {
    if want != 0 {
      var f := FillFrom(plan, feed, want, retries);
      match ReadAt(plan, feed, want)
      case Stalls =>
      case Octets(data) =>
        var n := |data|;
        FillIsExact(plan, feed.Drop(n), want - n, retries);
        if want <= |feed.wire| { TakeTwice(feed.wire, n, want); }
      case Error =>
        if retries < MAX_RETRIES { FillIsExact(plan, feed.Tick(), want, retries + 1); }
    }
  }

  /** If no read fails, the loop fills the buffer if there are enough octets and else never ends. */
  lemma FillWithoutFailures(plan: Schedule, feed: Feed, want: nat)
    requires want <= 255 && forall t: nat :: plan(t).Finds?
    ensures var f := FillFrom(plan, feed, want, 0);
            if want <= |feed.wire| then
              f.Full? && f.data == feed.wire[..want] && f.feed.wire == feed.wire[want..]
            else f.Hung?
  {
    FillIsExact(plan, feed, want, 0);
    NoFailures(plan, feed.clock, FillFrom(plan, feed, want, 0).feed.clock);
  }

  lemma {:induction false} NoFailures(plan: Schedule, from: nat, to: nat)
    requires forall t: nat :: plan(t).Finds?
    ensures Failures(plan, from, to) == 0
    decreases if from < to then to - from else 0
  {
    if from < to {
      NoFailures(plan, from + 1, to);
    }
  }

  /**
   * Where the C code is defined: a call leaves its buffer, or takes a failed read for a full one,
   * exactly if it gets past SOF and reads a length octet of 253 or more, or of 252 and the first
   * read of the body fails.
   */
  lemma UndefinedExactly(plan: Schedule, feed: Feed, expected: byte)
    ensures Receive(plan, feed, expected).outcome == Undefined <==>
              && plan(feed.clock).Finds? && plan(feed.clock + 1).Finds?
              && |feed.wire| >= 2 && feed.wire[0] == SOF
              && (feed.wire[1] >= 253 || (feed.wire[1] == 252 && plan(feed.clock + 2).Fails?))
  {
    if plan(feed.clock).Finds? && plan(feed.clock + 1).Finds? && |feed.wire| >= 2 && feed.wire[0] == SOF {
      var len := feed.wire[1];
      assert ReadAt(plan, feed, 1) == Octets(feed.wire[..1]);
      var feed1 := feed.Drop(1);
      assert ReadAt(plan, feed1, 1) == Octets(feed1.wire[..1]);
      assert Receive(plan, feed, expected) == ReceiveBody(plan, feed1.Drop(1), expected, len);
      assert len >= 253 <==> len as nat >= 253;
      if len < 253 {
        UnreadExactly(plan, feed1.Drop(1), BodyLength(len), 0);
        assert len == 252 <==> len as nat == 252;
      }
    }
  }

  lemma {:induction false} UnreadExactly(plan: Schedule, feed: Feed, want: nat, retries: nat)
    requires want <= 255
    ensures FillFrom(plan, feed, want, retries).Unread? <==> want == 255 && plan(feed.clock).Fails?
    decreases want, MAX_RETRIES + 1 - retries
  {
    if want != 0 {
      match ReadAt(plan, feed, want)
      case Stalls =>
      case Octets(data) => UnreadExactly(plan, feed.Drop(|data|), want - |data|, retries);
      case Error =>
        if want < 255 && retries < MAX_RETRIES { UnreadExactly(plan, feed.Tick(), want, retries + 1); }
    }
  }
}
