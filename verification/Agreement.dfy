/**
 * The steps of the handshake and the code of a single call agree: what the reader's steps do to the
 * queue and the semaphore is what one call of the reader does, octet for octet.
 */
module Agreement {
  import opened Bytes
  import opened Frames
  import opened Handshake
  import Receiver
  import Rpc

  /** The signals on the queue are these messages, of which the signal shows the first octet. */
  predicate Shows(queue: seq<Signal>, messages: seq<seq<byte>>) {
    && |queue| == |messages|
    && forall i :: 0 <= i < |queue| ==> messages[i] != [] && queue[i].cmd0 == messages[i][0]
  }

  /** The steps of the reader for the frame it has. */
  function Handling(s: State): seq<Action>
    requires s.reader.Routing?
  {
    var cmd0 := s.reader.f.cmd0;
    if cmd0 & 0xE0 != 0x60 then [Other(Route), Other(Enqueue)]
    else if cmd0 & 0x1F == s.expected then [Other(Route), Other(Post), Other(Enqueue)]
    else [Other(Route)]
  }

  /**
   * What they do: a response that is expected is posted once and goes first, one that is not is
   * dropped, and everything else goes last without a post.
   */
  lemma ReaderInNumbers(s: State)
    requires s.reader.Routing?
    ensures IsRun(s, Handling(s))
    ensures var e, f := Final(s, Handling(s)), s.reader.f;
            if f.cmd0 & 0xE0 != 0x60 then e == s.(reader := Reading, queue := s.queue + [f])
            else if f.cmd0 & 0x1F != s.expected then e == s.(reader := Reading, discards := s.discards + 1)
            else e == s.(reader := Reading, queue := [f] + s.queue, srspSem := s.srspSem + 1, posted := s.posted + [f])
  {
    var cmd0 := s.reader.f.cmd0;
    if cmd0 & 0xE0 != 0x60 {
      GoesLast(s);
    } else if cmd0 & 0x1F == s.expected {
      GoesFirst(s);
    } else {
      OneStep(s, Other(Route), []);
    }
  }

  lemma GoesLast(s: State)
    requires s.reader.Routing? && !s.reader.f.IsResponse()
    ensures IsRun(s, [Other(Route), Other(Enqueue)])
    ensures Final(s, [Other(Route), Other(Enqueue)]) == s.(reader := Reading, queue := s.queue + [s.reader.f])
  {
    OneStep(s, Other(Route), [Other(Enqueue)]);
    OneStep(Step(s, Other(Route)), Other(Enqueue), []);
  }

  lemma GoesFirst(s: State)
    requires s.reader.Routing? && s.reader.f.IsResponse() && Subsystem(s.reader.f.cmd0) == s.expected
    ensures IsRun(s, [Other(Route), Other(Post), Other(Enqueue)])
    ensures Final(s, [Other(Route), Other(Post), Other(Enqueue)])
         == s.(reader := Reading, queue := [s.reader.f] + s.queue, srspSem := s.srspSem + 1,
               posted := s.posted + [s.reader.f])
  {
    var s1 := Step(s, Other(Route));
    OneStep(s, Other(Route), [Other(Post), Other(Enqueue)]);
    OneStep(s1, Other(Post), [Other(Enqueue)]);
    OneStep(Step(s1, Other(Post)), Other(Enqueue), []);
  }

  lemma OneStep(s: State, a: Action, others: seq<Action>)
    requires Enabled(s, a)
    ensures ([a] + others)[1..] == others
    ensures IsRun(s, [a] + others) <==> IsRun(Step(s, a), others)
    ensures IsRun(s, [a] + others) ==> Final(s, [a] + others) == Final(Step(s, a), others)
  {
    assert ([a] + others)[1..] == others;
  }

  /** The reader's steps for a frame are what one call of the reader does with its message. */
  lemma ReaderStepsAreOneCall(s: State, message: seq<byte>, queued: seq<seq<byte>>)
    requires s.reader.Routing? && message != [] && message[0] == s.reader.f.cmd0 && Shows(s.queue, queued)
    ensures IsRun(s, Handling(s))
    ensures var e, outcome := Final(s, Handling(s)), Receiver.Route(s.expected, message);
            && e.reader == Reading
            && Shows(e.queue, Rpc.Enqueued(outcome, queued))
            && e.srspSem == s.srspSem + (if outcome.Response? then 1 else 0)
            && e.discards == s.discards + (if outcome.Discarded? then 1 else 0)
  {
    ReaderInNumbers(s);
    Receiver.RouteInNumbers(s.expected, message);
  }

  /** Before a send writes its frame it notes the subsystem, as the code does, if it is synchronous. */
  lemma SendInNumbers(s: State, t: nat)
    requires t in s.threads && s.threads[t].Building?
    ensures var cmd0, s' := s.threads[t].req.cmd0, Step(s, Thread(t, Note));
            && s'.expected == (if cmd0 & 0xE0 == 0x20 then cmd0 & 0x1F else s.expected)
            && s' == s.(threads := s'.threads, expected := s'.expected, begun := s'.begun)
  {}

  /** It waits, and the device gets something to answer, exactly if it is synchronous. */
  lemma WaitInNumbers(s: State, t: nat)
    requires t in s.threads && s.threads[t].Writing?
    ensures var req, s' := s.threads[t].req, Step(s, Thread(t, Write));
            if req.cmd0 & 0xE0 == 0x20 then
              s' == s.(threads := s.threads[t := Awaiting(req)], device := s.device + [req])
            else s' == s.(threads := s.threads[t := Leaving(req, false)])
  {}

  /** After the wait, however it ended, no subsystem is expected. */
  lemma ClearInNumbers(s: State, t: nat)
    requires t in s.threads && s.threads[t].Clearing?
    ensures Step(s, Thread(t, Clear)).expected == 0xFF
    ensures forall cmd0 :: Subsystem(cmd0) != 0xFF
  {}

  /** The answer to a request is a response of its subsystem. */
  lemma ReplyInNumbers(req: Request)
    ensures req.Reply().cmd0 & 0xE0 == 0x60 && req.Reply().cmd0 & 0x1F == req.cmd0 & 0x1F && req.Reply().id == req.id
  {}

  /** The device answers in the order asked, and the reader gets the frames in the order sent. */
  lemma LineIsInOrder(s: State, event: Event)
    requires OtherEnabled(s, event)
    ensures var s' := OtherStep(s, event);
            match event
            case Answer => [s.device[0]] + s'.device == s.device && s'.wire == s.wire + [s.device[0].Reply()]
            case Emit(f) => s'.device == s.device && s'.wire == s.wire + [f]
            case Read => s'.device == s.device && s'.reader.Routing? && [s'.reader.f] + s'.wire == s.wire
            case _ => s'.device == s.device && s'.wire == s.wire
  {}

  /** Whoever takes a message gets the first, and only a response of SYS, AF, ZDO or SAPI is stored. */
  lemma TakeInNumbers(s: State, t: nat, doing: Doing)
    requires Enabled(s, Thread(t, doing)) && (doing.Take? || doing.Poll?)
    ensures var s' := Step(s, Thread(t, doing));
            && s.queue == [s.queue[0]] + s'.queue
            && s'.srspBuff == (if s.queue[0].cmd0 in {0x61, 0x64, 0x65, 0x66} then Holding(s.queue[0]) else s.srspBuff)
            && s'.threads == s.threads[t := Idle]
            && s'.rpcSem == s.rpcSem && s'.srspSem == s.srspSem && s'.expected == s.expected
  {
    StoredOctets(s.queue[0].cmd0);
  }
}
