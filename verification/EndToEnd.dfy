/** From the octets on the line to the callback: reader, message queue, dispatcher and parser. */
module EndToEnd {
  import opened Bytes
  import opened Frames
  import opened Transport
  import opened Receiver
  import opened Messages
  import opened LqiCodec
  import opened Streams
  import Rpc
  import MQ = MessageQueue

  const MGMT_LQI_RSP: byte := 0xB1

  /** What becomes of a message: the neighbour table callback, the response buffer, anything else. */
  datatype Handled = LqiCallback(parsed: Parsed) | ResponseStored | Elsewhere

  predicate CarriesLqi(cmd0: byte, cmd1: byte) {
    Subsystem(cmd0) == ZDO && CommandType(cmd0) != SRSP && cmd1 == MGMT_LQI_RSP
  }

  /** What becomes of the message in this buffer. */
  function Dispatched(buf: seq<byte>, rpcLen: nat): Handled
    requires |buf| == MESSAGE_BUFFER
  {
    if StoresResponse(buf[0]) then ResponseStored
    else if CarriesLqi(buf[0], buf[1]) then LqiCallback(ParsedAs(buf, rpcLen))
    else Elsewhere
  }

  class Parser {
    const srspRpcBuff: array<byte>

    constructor ()
      ensures srspRpcBuff.Length == BUFFER_SIZE && fresh(srspRpcBuff)
    {
      srspRpcBuff := new byte[BUFFER_SIZE];
    }

    /** Dispatches one message. */
    method MtProcess(rpcBuff: seq<byte>, rpcLen: nat) returns (h: Handled)
      requires |rpcBuff| == MESSAGE_BUFFER && rpcLen <= srspRpcBuff.Length == BUFFER_SIZE
      modifies srspRpcBuff
      ensures h == Dispatched(rpcBuff, rpcLen)
      ensures rpcBuff[0] in {0x61, 0x64, 0x65, 0x66} <==> h == ResponseStored
      ensures rpcBuff[0] in {0x05, 0x25, 0x45, 0x85, 0xA5, 0xC5, 0xE5} && rpcBuff[1] == 0xB1 <==>
                h == LqiCallback(ParsedAs(rpcBuff, rpcLen))
      ensures rpcBuff[0] in {0x61, 0x64, 0x65, 0x66} ==> srspRpcBuff[..rpcLen] == rpcBuff[..rpcLen]
      ensures h.ResponseStored? ==> srspRpcBuff[..] == rpcBuff[..rpcLen] + old(srspRpcBuff[rpcLen..])
      ensures !h.ResponseStored? ==> srspRpcBuff[..] == old(srspRpcBuff[..])
    {
      h := Elsewhere;
      var subsystem := rpcBuff[0] & SUBSYSTEM_MASK;
      if subsystem == ZDO || subsystem == SYS || subsystem == AF || subsystem == SAPI {
        if rpcBuff[0] & TYPE_MASK == SRSP {
          forall i | 0 <= i < rpcLen { srspRpcBuff[i] := rpcBuff[i]; }
          h := ResponseStored;
        } else if subsystem == ZDO && rpcBuff[1] == MGMT_LQI_RSP {
          var parsed := ProcessMgmtLqiRsp(rpcBuff, rpcLen);
          h := LqiCallback(parsed);
        }
      }
    }
  }

  /** The buffer a message is copied to; behind the message it holds what was there before. */
  function Copied(message: seq<byte>, stale: seq<byte>): (buf: seq<byte>)
    requires |message| <= |stale| == MESSAGE_BUFFER
    ensures |buf| == MESSAGE_BUFFER && buf[..|message|] == message
  { message + stale[|message|..] }

  /**
   * The frame reports a neighbour table: by the device it is sent with 0x45 and 0xB1, and the first
   * of these two may be of any other type but that of a response.
   */
  predicate ReportsTable(f: Frame) {
    f.cmd0 in {0x05, 0x25, 0x45, 0x85, 0xA5, 0xC5, 0xE5} && f.cmd1 == 0xB1
  }

  /** The frame reports this neighbour table. */
  predicate CarriesTable(f: Frame, r: LqiResponse) {
    ReportsTable(f) && |r.neighbours| <= MAX_NEIGHBOURS && f.payload == ResponseOctets(r)
  }

  lemma CopiedStretch(message: seq<byte>, stale: seq<byte>, i: nat, j: nat)
    requires i <= j <= |message| <= |stale| == MESSAGE_BUFFER
    ensures Copied(message, stale)[i..j] == message[i..j]
  {}

  lemma LqiMessageParts(f: Frame, r: LqiResponse)
    requires CarriesTable(f, r)
    ensures f.Fits()
    ensures var m, s := f.Message(), ResponseOctets(r);
            && 6 < |s| + 3 == |m| <= BUFFER_SIZE
            && m[0] == f.cmd0 && m[1] == f.cmd1 && m[2..2 + |s|] == s
  {}

  /** What the parser finds in the message of that frame is the response. */
  lemma LqiMessageRoundTrip(f: Frame, r: LqiResponse, stale: seq<byte>)
    requires CarriesTable(f, r) && |stale| == MESSAGE_BUFFER
    ensures f.Fits() && |f.Message()| <= BUFFER_SIZE
    ensures Dispatched(Copied(f.Message(), stale), |f.Message()|) == LqiCallback(Complete(r))
  {
    LqiMessageParts(f, r);
    var m, s := f.Message(), ResponseOctets(r);
    var buf := Copied(m, stale);
    CopiedStretch(m, stale, 2, 2 + |s|);
    ResponseRoundTrip(buf, r);
    assert |ListAt(buf, buf[7] as nat)| == |r.neighbours|;
    LqiIsDispatched(buf, |m|);
  }

  lemma LqiIsDispatched(buf: seq<byte>, rpcLen: nat)
    requires |buf| == MESSAGE_BUFFER && rpcLen > 6 && buf[7] as nat <= LIST_SIZE
    requires CarriesLqi(buf[0], buf[1])
    ensures Dispatched(buf, rpcLen) == LqiCallback(Complete(ResponseOf(buf)))
  {}

  // ---------- One frame ----------

  lemma ResponseComesFirst(f: Frame, expected: byte, queued: seq<seq<byte>>)
    requires f.Fits() && CommandType(f.cmd0) == SRSP && expected == Subsystem(f.cmd0)
    ensures Route(expected, f.Message()).Response?
    ensures Rpc.Enqueued(Route(expected, f.Message()), queued) == [f.Message()] + queued
  {
    assert f.Message()[0] == f.cmd0;
  }

  lemma HeadAndRest<T>(s: seq<T>)
    requires s != []
    ensures [s[0]] + s[1..] == s
  {}

  /** One frame from the line to the queue, and one message from the queue to the taker. */
  method ReadAndTake(host: Rpc.Host, ghost f: Frame, ghost rest: seq<byte>) returns (message: seq<byte>)
    requires f.Fits() && host.queue.Valid() && host.port.feed.wire == f.Encode() + rest
    requires host.port.plan(host.port.feed.clock).Finds?
    requires Spared(host.port.plan, host.port.feed, host.expectedSrspCmdId)
    requires Rpc.Enqueued(Route(host.expectedSrspCmdId, f.Message()), host.queue.Contents()) != []
    modifies host.port`feed, host`srspSem, host.queue, host.queue.tail
    ensures var outcome := Route(host.expectedSrspCmdId, f.Message());
            && [message] + host.queue.Contents() == Rpc.Enqueued(outcome, old(host.queue.Contents()))
            && host.srspSem == old(host.srspSem) + (if outcome.Response? then 1 else 0)
    ensures host.port.feed.wire == rest && host.queue.Valid()
  {
    ReceiveFrame(host.port.plan, host.port.feed, f, rest, host.expectedSrspCmdId);
    var e := host.RpcProcess();
    ghost var queued := host.queue.Contents();
    var received := host.queue.TimedReceive();
    message := received.data;
    HeadAndRest(queued);
  }

  // ---------- A stream of frames ----------

  predicate Returns(outcome: Outcome) { !outcome.Blocked? && !outcome.Undefined? }

  /** How many of these outcomes have woken a sender. */
  function Posts(outcomes: seq<Outcome>): nat {
    if outcomes == [] then 0 else (if outcomes[0].Response? then 1 else 0) + Posts(outcomes[1..])
  }

  /** Where the reader stands: the line, the queue, the semaphore. */
  datatype Standing = Standing(feed: Feed, queue: seq<seq<byte>>, srspSem: nat)

  function After(plan: Schedule, s: Standing, expected: byte, n: nat): Standing {
    var run := Calls(plan, s.feed, expected, n);
    Standing(run.feed, EnqueuedAll(run.outcomes, s.queue), s.srspSem + Posts(run.outcomes))
  }

  lemma OneCallMore(plan: Schedule, s: Standing, expected: byte, n: nat)
    requires n > 0
    ensures var call := Receive(plan, s.feed, expected);
            var next := Standing(call.feed, Rpc.Enqueued(call.outcome, s.queue),
                                 s.srspSem + (if call.outcome.Response? then 1 else 0));
            After(plan, s, expected, n) == After(plan, next, expected, n - 1)
  {
    var call := Receive(plan, s.feed, expected);
    var others := Calls(plan, call.feed, expected, n - 1).outcomes;
    assert ([call.outcome] + others)[1..] == others;
  }

  /** One call, seen as the first of `n`, which leaves `left`. */
  method ReadOne(host: Rpc.Host, ghost before: Standing, ghost n: nat, ghost left: nat) returns (ghost s: Standing)
    requires host.queue.Valid() && n == left + 1
    requires before == Standing(host.port.feed, host.queue.Contents(), host.srspSem)
    modifies host.port`feed, host`srspSem, host.queue, host.queue.tail
    ensures host.queue.Valid()
    ensures forall x :: x in host.queue.spine ==> x in old(host.queue.spine) || fresh(x)
    ensures s == Standing(host.port.feed, host.queue.Contents(), host.srspSem)
    ensures After(host.port.plan, s, host.expectedSrspCmdId, left)
         == After(host.port.plan, before, host.expectedSrspCmdId, n)
  {
    OneCallMore(host.port.plan, before, host.expectedSrspCmdId, n);
    var e := host.RpcProcess();
    s := Standing(host.port.feed, host.queue.Contents(), host.srspSem);
  }

  /** The loop of the reader thread, as long as its calls return: each does what `Receive` says. */
  method ReadCalls(host: Rpc.Host, n: nat)
    requires host.queue.Valid()
    requires forall o :: o in Calls(host.port.plan, host.port.feed, host.expectedSrspCmdId, n).outcomes ==> Returns(o)
    modifies host.port`feed, host`srspSem, host.queue, host.queue.spine
    ensures host.queue.Valid()
    ensures Standing(host.port.feed, host.queue.Contents(), host.srspSem)
         == After(host.port.plan, old(Standing(host.port.feed, host.queue.Contents(), host.srspSem)),
                  host.expectedSrspCmdId, n)
  {
    ghost var s := Standing(host.port.feed, host.queue.Contents(), host.srspSem);
    ghost var end, left := After(host.port.plan, s, host.expectedSrspCmdId, n), n;
    var k := 0;
    while k < n
      invariant 0 <= k <= n && left == n - k && host.queue.Valid()
      invariant forall x :: x in host.queue.spine ==> x in old(host.queue.spine) || fresh(x)
      invariant s == Standing(host.port.feed, host.queue.Contents(), host.srspSem)
      invariant After(host.port.plan, s, host.expectedSrspCmdId, left) == end
    {
      if host.queue.tail != null { host.queue.TailIsInSpine(); }
      s := ReadOne(host, s, left, left - 1);
      left := left - 1;
      k := k + 1;
    }
  }

  /** What becomes of the messages when each is taken and processed, the first into the buffer `stale(from)`. */
  ghost predicate AllDispatched(handled: seq<Handled>, messages: seq<seq<byte>>, stale: nat -> seq<byte>, from: nat) {
    && |handled| == |messages|
    && forall i :: 0 <= i < |messages| ==> OneDispatched(handled[i], messages[i], stale(from + i))
  }

  ghost predicate OneDispatched(h: Handled, message: seq<byte>, stale: seq<byte>) {
    |message| <= |stale| == MESSAGE_BUFFER && h == Dispatched(Copied(message, stale), |message|)
  }

  lemma OneDispatchedMore(handled: seq<Handled>, messages: seq<seq<byte>>, k: nat, h: Handled, stale: nat -> seq<byte>)
    requires k < |messages| && AllDispatched(handled, messages[..k], stale, 0)
    requires |messages[k]| <= |stale(k)| == MESSAGE_BUFFER
    requires h == Dispatched(Copied(messages[k], stale(k)), |messages[k]|)
    ensures AllDispatched(handled + [h], messages[..k + 1], stale, 0)
  {
    TakeOneMore(messages, k + 1);
  }

  method TakeOne(host: Rpc.Host, parser: Parser, stale: seq<byte>) returns (h: Handled)
    requires host.queue.Valid() && parser.srspRpcBuff.Length == BUFFER_SIZE
    requires var q := host.queue.Contents(); q != [] && |q[0]| <= BUFFER_SIZE && |stale| == MESSAGE_BUFFER
    modifies host.queue, parser.srspRpcBuff
    ensures var m := old(host.queue.Contents()[0]);
            h == Dispatched(Copied(m, stale), |m|)
    ensures host.queue.Valid() && host.queue.Contents() == old(host.queue.Contents()[1..])
  {
    var received := host.queue.TimedReceive();
    h := parser.MtProcess(Copied(received.data, stale), |received.data|);
  }

  /** Takes and processes as many messages; the buffer for each holds what was there before. */
  method TakeAll(host: Rpc.Host, parser: Parser, n: nat, stale: nat -> seq<byte>) returns (handled: seq<Handled>)
    requires host.queue.Valid() && n == |host.queue.Contents()| && parser.srspRpcBuff.Length == BUFFER_SIZE
    requires forall i :: 0 <= i < n ==> |host.queue.Contents()[i]| <= BUFFER_SIZE
    requires forall i :: |stale(i)| == MESSAGE_BUFFER
    modifies host.queue, parser.srspRpcBuff
    ensures host.queue.Valid() && host.queue.Contents() == []
    ensures AllDispatched(handled, old(host.queue.Contents()), stale, 0)
  {
    ghost var messages := host.queue.Contents();
    handled := [];
    var k := 0;
    while k < n
      invariant 0 <= k <= n && host.queue.Valid() && host.queue.Contents() == messages[k..]
      invariant AllDispatched(handled, messages[..k], stale, 0)
    {
      var h := TakeOne(host, parser, stale(k));
      OneDispatchedMore(handled, messages, k, h, stale);
      handled := handled + [h];
      k := k + 1;
    }
    assert messages[..n] == messages;
  }

  datatype Option<+T> = None | Some(value: T)

  /** Which of these frames report a neighbour table, and which one; the others are arbitrary. */
  predicate CarryTables(items: seq<Item>, tables: seq<Option<LqiResponse>>) {
    && |items| == |tables|
    && forall i :: 0 <= i < |items| ==>
         match tables[i]
         case Some(r) => CarriesTable(items[i].frame, r)
         case None => !ReportsTable(items[i].frame)
  }

  /** The tables, in order, as the callback is to get them. */
  function Sent(tables: seq<Option<LqiResponse>>): seq<Parsed> {
    if tables == [] then []
    else (if tables[0].Some? then [Complete(tables[0].value)] else []) + Sent(tables[1..])
  }

  /** What the callback gets of all that is handled. */
  function Got(handled: seq<Handled>): seq<Parsed> {
    if handled == [] then []
    else (if handled[0].LqiCallback? then [handled[0].parsed] else []) + Got(handled[1..])
  }

  /** Only tables count, in what is sent and in what is got. */
  lemma OneEach(p: Parsed, r: LqiResponse)
    ensures Got([LqiCallback(p)]) == [p] && Got([ResponseStored]) == [] && Got([Elsewhere]) == []
    ensures Sent([Some(r)]) == [Complete(r)] && Sent([None]) == []
  {}

  lemma Regrouped<T>(x: seq<T>, y: seq<T>, z: seq<T>)
    ensures x + (y + z) == (x + y) + z
  {}

  /** And they keep their order. */
  lemma {:induction false} GotJoins(a: seq<Handled>, b: seq<Handled>)
    ensures Got(a + b) == Got(a) + Got(b)
  {
    if a == [] {
      assert a + b == b;
    } else {
      GotJoins(a[1..], b);
      assert (a + b)[1..] == a[1..] + b && (a + b)[0] == a[0];
      Regrouped(if a[0].LqiCallback? then [a[0].parsed] else [], Got(a[1..]), Got(b));
    }
  }

  lemma {:induction false} SentJoins(a: seq<Option<LqiResponse>>, b: seq<Option<LqiResponse>>)
    ensures Sent(a + b) == Sent(a) + Sent(b)
  {
    if a == [] {
      assert a + b == b;
    } else {
      SentJoins(a[1..], b);
      assert (a + b)[1..] == a[1..] + b && (a + b)[0] == a[0];
      Regrouped(if a[0].Some? then [Complete(a[0].value)] else [], Sent(a[1..]), Sent(b));
    }
  }

  lemma {:induction false} GotNothing(handled: seq<Handled>)
    requires forall i :: 0 <= i < |handled| ==> !handled[i].LqiCallback?
    ensures Got(handled) == []
  {
    if handled != [] { GotNothing(handled[1..]); }
  }

  lemma {:induction false} FrontAreResponses(items: seq<Item>, expected: byte)
    requires Proper(items)
    ensures forall i :: 0 <= i < |Front(items, expected)| ==>
              var m := Front(items, expected)[i]; 0 < |m| <= BUFFER_SIZE && CommandType(m[0]) == SRSP
  {
    if items != [] { FrontAreResponses(items[1..], expected); }
  }

  lemma {:induction false} BackFits(items: seq<Item>)
    requires Proper(items)
    ensures forall i :: 0 <= i < |Back(items)| ==> |Back(items)[i]| <= BUFFER_SIZE
  {
    if items != [] { BackFits(items[1..]); }
  }

  lemma ResponseIsNoTable(m: seq<byte>, stale: seq<byte>)
    requires 0 < |m| <= |stale| == MESSAGE_BUFFER && CommandType(m[0]) == SRSP
    ensures !Dispatched(Copied(m, stale), |m|).LqiCallback?
  {
    assert Copied(m, stale)[0] == m[0];
  }

  lemma ResponseReportsNothing(items: seq<Item>, tables: seq<Option<LqiResponse>>)
    requires CarryTables(items, tables) && items != [] && CommandType(items[0].frame.cmd0) == SRSP
    ensures tables[0].None? && CarryTables(items[1..], tables[1..])
  {}

  lemma OtherIsNoTable(f: Frame, stale: seq<byte>)
    requires f.Fits() && |stale| == MESSAGE_BUFFER && !ReportsTable(f)
    ensures !Dispatched(Copied(f.Message(), stale), |f.Message()|).LqiCallback?
  {
    var buf := Copied(f.Message(), stale);
    assert buf[0] == f.cmd0 && buf[1] == f.cmd1;
  }

  /** What the callback gets of the indications is the tables, in order. */
  lemma {:induction false} BackIsGot(items: seq<Item>, tables: seq<Option<LqiResponse>>, handled: seq<Handled>,
                                     stale: nat -> seq<byte>, from: nat)
    requires Proper(items) && CarryTables(items, tables) && AllDispatched(handled, Back(items), stale, from)
    ensures Got(handled) == Sent(tables)
    decreases |items|
  {
    if items != [] {
      var f := items[0].frame;
      assert f.Message()[0] == f.cmd0;
      if CommandType(f.cmd0) != SRSP {
        FirstIsGot(items, tables, handled, stale, from);
        OthersAreDispatched(items, handled, stale, from);
        BackIsGot(items[1..], tables[1..], handled[1..], stale, from + 1);
      } else {
        ResponseReportsNothing(items, tables);
        assert Back(items) == [] + Back(items[1..]) == Back(items[1..]);
        BackIsGot(items[1..], tables[1..], handled, stale, from);
      }
    }
  }

  lemma FirstIsGot(items: seq<Item>, tables: seq<Option<LqiResponse>>, handled: seq<Handled>,
                   stale: nat -> seq<byte>, from: nat)
    requires Proper(items) && CarryTables(items, tables) && AllDispatched(handled, Back(items), stale, from)
    requires items != [] && CommandType(items[0].frame.cmd0) != SRSP
    ensures handled != [] && if tables[0].Some? then handled[0] == LqiCallback(Complete(tables[0].value))
                             else !handled[0].LqiCallback?
  {
    var f := items[0].frame;
    assert f.Message()[0] == f.cmd0 && Back(items)[0] == f.Message();
    assert |stale(from + 0)| == MESSAGE_BUFFER;
    match tables[0]
    case Some(r) => LqiMessageRoundTrip(f, r, stale(from));
    case None => OtherIsNoTable(f, stale(from));
  }

  lemma OthersAreDispatched(items: seq<Item>, handled: seq<Handled>, stale: nat -> seq<byte>, from: nat)
    requires Proper(items) && AllDispatched(handled, Back(items), stale, from)
    requires items != [] && CommandType(items[0].frame.cmd0) != SRSP
    ensures handled != [] && AllDispatched(handled[1..], Back(items[1..]), stale, from + 1)
  {
    var m, others := items[0].frame.Message(), Back(items[1..]);
    assert m[0] == items[0].frame.cmd0;
    assert Back(items) == [m] + others;
    OneDispatchedLess(handled, m, others, stale, from);
  }

  lemma OneDispatchedLess(handled: seq<Handled>, m: seq<byte>, others: seq<seq<byte>>, stale: nat -> seq<byte>,
                          from: nat)
    requires AllDispatched(handled, [m] + others, stale, from)
    ensures handled != [] && AllDispatched(handled[1..], others, stale, from + 1)
  {
    assert forall i :: 0 <= i < |others| ==> ([m] + others)[i + 1] == others[i] && from + (i + 1) == from + 1 + i;
  }

  lemma {:induction false} AllReturn(plan: Schedule, feed: Feed, expected: byte, n: nat)
    requires forall o :: o in Kept(plan, feed, expected, n) ==> Returns(o)
    ensures forall o :: o in Calls(plan, feed, expected, n).outcomes ==> Returns(o)
    decreases n
  {
    if n > 0 {
      var call := Receive(plan, feed, expected);
      var kept := Kept(plan, call.feed, expected, n - 1);
      if plan(feed.clock).Finds? { KeepsReturning(call.outcome, kept); }
      AllReturn(plan, call.feed, expected, n - 1);
    }
  }

  lemma KeepsReturning(outcome: Outcome, others: seq<Outcome>)
    requires forall o :: o in [outcome] + others ==> Returns(o)
    ensures Returns(outcome) && forall o :: o in others ==> Returns(o)
  {
    assert outcome in [outcome] + others;
    assert forall o :: o in others ==> o in [outcome] + others;
  }

  lemma {:induction false} ResultsReturn(items: seq<Item>, expected: byte)
    requires Proper(items)
    ensures forall o :: o in Results(items, expected) ==> Returns(o)
  {
    if items != [] {
      FailuresReturn(items[0].noise);
      ResultsReturn(items[1..], expected);
    }
  }

  lemma {:induction false} FailuresReturn(noise: seq<byte>)
    ensures forall o :: o in OneFailureEach(noise) ==> Returns(o)
  {
    if noise != [] { FailuresReturn(noise[1..]); }
  }

  /** The first half of the way: a stream from the line to the queue. */
  method ReadStream(host: Rpc.Host, ghost items: seq<Item>, ghost rest: seq<byte>, calls: nat)
    requires Proper(items) && host.port.feed.wire == Line(items) + rest
    requires AllSpared(host.port.plan, host.port.feed, host.expectedSrspCmdId, calls)
    requires |Kept(host.port.plan, host.port.feed, host.expectedSrspCmdId, calls)|
             == |Results(items, host.expectedSrspCmdId)|
    requires host.queue.Valid()
    modifies host.port`feed, host`srspSem, host.queue, host.queue.spine
    ensures host.port.feed.wire == rest && host.queue.Valid()
    ensures host.queue.Contents()
         == Front(items, host.expectedSrspCmdId) + old(host.queue.Contents()) + Back(items)
  {
    ghost var plan, feed, expected := host.port.plan, host.port.feed, host.expectedSrspCmdId;
    assert feed == Feed(Line(items) + rest, feed.clock);
    StreamIsDelivered(plan, items, rest, feed.clock, expected, calls);
    ResultsReturn(items, expected);
    AllReturn(plan, feed, expected, calls);
    StreamReachesTheQueue(plan, items, rest, feed.clock, expected, calls, host.queue.Contents());
    ReadCalls(host, calls);
  }

  /**
   * Frames of any kind, some of them neighbour tables of up to eleven entries, with noise between them,
   * cut into reads in any way, with failed reads that cost no frame, and with anything queued before:
   * when the reader has worked through the line and the messages have been taken, the callback has got
   * exactly the tables sent, in order and with every field, behind what was queued.
   */
  method DeliverLqi(host: Rpc.Host, parser: Parser, ghost items: seq<Item>, ghost tables: seq<Option<LqiResponse>>,
                    ghost rest: seq<byte>, calls: nat, takes: nat, stale: nat -> seq<byte>)
    returns (handled: seq<Handled>)
    requires CarryTables(items, tables) && Proper(items) && host.port.feed.wire == Line(items) + rest
    requires AllSpared(host.port.plan, host.port.feed, host.expectedSrspCmdId, calls)
    requires |Kept(host.port.plan, host.port.feed, host.expectedSrspCmdId, calls)|
             == |Results(items, host.expectedSrspCmdId)|
    requires host.queue.Valid()
    requires forall i :: 0 <= i < |host.queue.Contents()| ==> |host.queue.Contents()[i]| <= BUFFER_SIZE
    requires takes == |Front(items, host.expectedSrspCmdId)| + |host.queue.Contents()| + |Back(items)|
    requires parser.srspRpcBuff.Length == BUFFER_SIZE && forall i :: |stale(i)| == MESSAGE_BUFFER
    modifies host.port`feed, host`srspSem, host.queue, host.queue.spine, parser.srspRpcBuff
    ensures InPlaces(handled, Front(items, host.expectedSrspCmdId), old(host.queue.Contents()), Back(items), tables,
                     stale)
    ensures host.port.feed.wire == rest && host.queue.Valid() && host.queue.Contents() == []
  {
    ghost var front, queued, back := Front(items, host.expectedSrspCmdId), host.queue.Contents(), Back(items);
    ReadStream(host, items, rest, calls);
    StreamFits(items, host.expectedSrspCmdId, queued);
    handled := TakeAll(host, parser, takes, stale);
    StreamIsHandled(items, host.expectedSrspCmdId, queued, tables, handled, stale);
  }

  /**
   * Handled were these messages: first responses, of which the callback gets nothing, then what was
   * queued before, then the indications, of which it gets these tables.
   */
  ghost predicate InPlaces(handled: seq<Handled>, front: seq<seq<byte>>, queued: seq<seq<byte>>, back: seq<seq<byte>>,
                           tables: seq<Option<LqiResponse>>, stale: nat -> seq<byte>) {
    var m, n := |front|, |front| + |queued|;
    && |handled| == n + |back|
    && Got(handled[..m]) == []
    && AllDispatched(handled[m..n], queued, stale, m)
    && Got(handled[n..]) == Sent(tables)
  }

  lemma StreamFits(items: seq<Item>, expected: byte, queued: seq<seq<byte>>)
    requires Proper(items) && forall i :: 0 <= i < |queued| ==> |queued[i]| <= BUFFER_SIZE
    ensures var all := Front(items, expected) + queued + Back(items);
            forall i :: 0 <= i < |all| ==> |all[i]| <= BUFFER_SIZE
  {
    FrontAreResponses(items, expected);
    BackFits(items);
  }

  /** A stretch of what is handled belongs to that stretch of the messages. */
  lemma StretchIsDispatched(handled: seq<Handled>, x: seq<seq<byte>>, y: seq<seq<byte>>, z: seq<seq<byte>>,
                            stale: nat -> seq<byte>)
    requires AllDispatched(handled, x + y + z, stale, 0)
    ensures AllDispatched(handled[|x|..|x| + |y|], y, stale, |x|)
  {
    var part, all := handled[|x|..|x| + |y|], x + y + z;
    forall i | 0 <= i < |y| ensures OneDispatched(part[i], y[i], stale(|x| + i)) {
      assert all[|x| + i] == y[i] && part[i] == handled[|x| + i] && 0 + (|x| + i) == |x| + i;
      assert OneDispatched(handled[|x| + i], all[|x| + i], stale(0 + (|x| + i)));
    }
  }

  lemma StreamIsHandled(items: seq<Item>, expected: byte, queued: seq<seq<byte>>, tables: seq<Option<LqiResponse>>,
                        handled: seq<Handled>, stale: nat -> seq<byte>)
    requires Proper(items) && CarryTables(items, tables)
    requires AllDispatched(handled, Front(items, expected) + queued + Back(items), stale, 0)
    ensures InPlaces(handled, Front(items, expected), queued, Back(items), tables, stale)
  {
    FrontAndBackInPlaces(items, expected, Front(items, expected), queued, Back(items), tables, handled, stale);
  }

  lemma FrontAndBackInPlaces(items: seq<Item>, expected: byte, front: seq<seq<byte>>, queued: seq<seq<byte>>,
                             back: seq<seq<byte>>, tables: seq<Option<LqiResponse>>, handled: seq<Handled>,
                             stale: nat -> seq<byte>)
    requires Proper(items) && CarryTables(items, tables) && front == Front(items, expected) && back == Back(items)
    requires AllDispatched(handled, front + queued + back, stale, 0)
    ensures InPlaces(handled, front, queued, back, tables, stale)
  {
    var first, middle, last := ThreeStretches(handled, front, queued, back, stale);
    FrontIsNoTable(items, expected, front, first, stale);
    TablesAreGot(items, tables, back, last, stale, |front| + |queued|);
    PutInPlaces(handled, front, queued, back, tables, stale, first, middle, last);
  }

  /** These are the first `m` and the others from `n` on, and those between. */
  ghost predicate Parts(handled: seq<Handled>, m: nat, n: nat, first: seq<Handled>, middle: seq<Handled>,
                        last: seq<Handled>) {
    m <= n <= |handled| && first == handled[..m] && middle == handled[m..n] && last == handled[n..]
  }

  lemma PutInPlaces(handled: seq<Handled>, front: seq<seq<byte>>, queued: seq<seq<byte>>, back: seq<seq<byte>>,
                    tables: seq<Option<LqiResponse>>, stale: nat -> seq<byte>,
                    first: seq<Handled>, middle: seq<Handled>, last: seq<Handled>)
    requires |handled| == |front| + |queued| + |back|
    requires Parts(handled, |front|, |front| + |queued|, first, middle, last)
    requires Got(first) == [] && AllDispatched(middle, queued, stale, |front|) && Got(last) == Sent(tables)
    ensures InPlaces(handled, front, queued, back, tables, stale)
  {}

  lemma ThreeStretches(handled: seq<Handled>, x: seq<seq<byte>>, y: seq<seq<byte>>, z: seq<seq<byte>>,
                       stale: nat -> seq<byte>)
    returns (first: seq<Handled>, middle: seq<Handled>, last: seq<Handled>)
    requires AllDispatched(handled, x + y + z, stale, 0)
    ensures |handled| == |x| + |y| + |z| && Parts(handled, |x|, |x| + |y|, first, middle, last)
    ensures AllDispatched(first, x, stale, 0)
    ensures AllDispatched(middle, y, stale, |x|)
    ensures AllDispatched(last, z, stale, |x| + |y|)
  {
    var n := |x| + |y|;
    first, middle, last := handled[..|x|], handled[|x|..n], handled[n..];
    StretchIsDispatched(handled, x, y, z, stale);
    assert [] + x + (y + z) == x + y + z;
    StretchIsDispatched(handled, [], x, y + z, stale);
    assert (x + y) + z + [] == x + y + z;
    StretchIsDispatched(handled, x + y, z, [], stale);
    assert handled[n..n + |z|] == last;
  }

  lemma FrontIsNoTable(items: seq<Item>, expected: byte, front: seq<seq<byte>>, handled: seq<Handled>,
                       stale: nat -> seq<byte>)
    requires Proper(items) && front == Front(items, expected) && AllDispatched(handled, front, stale, 0)
    ensures Got(handled) == []
  {
    FrontAreResponses(items, expected);
    forall i | 0 <= i < |handled| ensures !handled[i].LqiCallback? {
      assert OneDispatched(handled[i], front[i], stale(0 + i));
      ResponseIsNoTable(front[i], stale(0 + i));
    }
    GotNothing(handled);
  }

  lemma TablesAreGot(items: seq<Item>, tables: seq<Option<LqiResponse>>, back: seq<seq<byte>>, handled: seq<Handled>,
                     stale: nat -> seq<byte>, from: nat)
    requires Proper(items) && CarryTables(items, tables) && back == Back(items)
    requires AllDispatched(handled, back, stale, from)
    ensures Got(handled) == Sent(tables)
  {
    BackIsGot(items, tables, handled, stale, from);
  }

  // ---------- Responses ----------

  lemma StatusPosition(f: Frame, stale: seq<byte>)
    requires f.Fits() && |f.payload| > 0 && |stale| == MESSAGE_BUFFER
    ensures var m := f.Message();
            3 <= |m| <= BUFFER_SIZE && Copied(m, stale)[0] == f.cmd0 && Copied(m, stale)[..|m|][2] == f.payload[0]
  {}

  /**
   * The response to a request overtakes whatever is queued, and its status, the first octet of its
   * payload, is what the request finds in the response buffer.
   */
  method DeliverResponse(host: Rpc.Host, parser: Parser, ghost f: Frame, ghost rest: seq<byte>, stale: seq<byte>)
    returns (h: Handled)
    requires f.Fits() && |f.payload| > 0 && |stale| == MESSAGE_BUFFER
    requires f.cmd0 in {0x61, 0x64, 0x65, 0x66} && host.expectedSrspCmdId == f.cmd0 & 0x1F
    requires host.queue.Valid() && parser.srspRpcBuff.Length == BUFFER_SIZE
    requires host.port.feed.wire == f.Encode() + rest && host.port.plan(host.port.feed.clock).Finds?
    requires Spared(host.port.plan, host.port.feed, host.expectedSrspCmdId)
    modifies host.port`feed, host`srspSem, host.queue, host.queue.tail, parser.srspRpcBuff
    ensures h == ResponseStored && parser.srspRpcBuff[2] == f.payload[0]
    ensures host.srspSem == old(host.srspSem) + 1
    ensures host.port.feed.wire == rest && host.queue.Contents() == old(host.queue.Contents())
  {
    StatusPosition(f, stale);
    ghost var queued := host.queue.Contents();
    ResponseComesFirst(f, host.expectedSrspCmdId, queued);
    var message := ReadAndTake(host, f, rest);
    assert ([message] + host.queue.Contents())[1..] == ([f.Message()] + queued)[1..];
    assert message == ([f.Message()] + queued)[0];
    h := parser.MtProcess(Copied(message, stale), |message|);
    assert parser.srspRpcBuff[..][2] == Copied(message, stale)[..|message|][2];
  }
}
