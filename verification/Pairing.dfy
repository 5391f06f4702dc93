/**
 * Which message a request takes when it has been woken: with one application thread, its own
 * response, unless the take falls between the reader's post and the reader's enqueueing.
 */
module Pairing {
  import opened Bytes
  import opened Frames
  import opened Threads
  import opened Handshake
  import opened HandshakeSafety

  /** The reader has posted a response and not enqueued it yet. */
  predicate BetweenPostAndEnqueue(s: State) { s.reader.Enqueuing? && s.reader.f.IsResponse() }

  /** A step that takes a message for a woken request at that moment. */
  predicate Races(s: State, a: Action) { a.Thread? && a.doing.Take? && BetweenPostAndEnqueue(s) }

  /** No timeouts, a disciplined device and no race in the whole run. */
  predicate Fair(s: State, actions: seq<Action>)
    requires IsRun(s, actions)
    decreases actions
  {
    actions == [] ||
    (&& Disciplined(actions[0])
     && !(actions[0].Thread? && actions[0].doing.TakeTimeOut?)
     && !Races(s, actions[0])
     && Fair(Step(s, actions[0]), actions[1..]))
  }

  predicate NoResponse(queue: seq<Signal>) {
    forall i :: 0 <= i < |queue| ==> !queue[i].IsResponse()
  }

  /** No response is on the queue or about to be. */
  predicate NothingLanded(s: State) { NoResponse(s.queue) && !BetweenPostAndEnqueue(s) }

  /** The response to `req`, and no other, is at the head of the queue or about to be. */
  predicate Landed(s: State, req: Request) {
    || (s.reader == Enqueuing(req.Reply()) && NoResponse(s.queue))
    || (!BetweenPostAndEnqueue(s) && s.queue != [] && s.queue[0] == req.Reply() && NoResponse(s.queue[1..]))
  }

  ghost predicate Paired(s: State) {
    && Served(s)
    && s.threads.Keys == {0}
    && match s.threads[0]
       case Awaiting(req) => if s.srspSem == 0 then NothingLanded(s) else Landed(s, req)
       case Clearing(req, woken) => if woken then Landed(s, req) else NothingLanded(s)
       case Leaving(req, woken) => if woken then Landed(s, req) else NothingLanded(s)
       case Taking(req) => Landed(s, req)
       case _ => NothingLanded(s)
  }

  lemma PairedByOther(s: State, event: Event)
    requires Paired(s) && OtherEnabled(s, event) && Disciplined(Other(event))
    ensures Paired(OtherStep(s, event))
  {
    ServedByOther(s, event);
    AwaitingAlone(s);
    if InFlight(s) > 0 {
      var t := CountWitness(s.threads, IsAwaiting);
      assert t == 0 && BelongsTo(s, s.threads[0].req);
    }
  }

  lemma PairedByThread(s: State, t: nat, doing: Doing)
    requires Paired(s) && Enabled(s, Thread(t, doing)) && Disciplined(Thread(t, doing))
    requires !doing.TakeTimeOut? && !Races(s, Thread(t, doing))
    ensures Paired(Step(s, Thread(t, doing)))
  {
    assert t == 0;
    ServedByThread(s, t, doing);
    AwaitingAlone(s);
  }

  lemma {:induction false} PairedOverRuns(s: State, actions: seq<Action>)
    requires Paired(s) && IsRun(s, actions) && Fair(s, actions)
    ensures Paired(Final(s, actions))
    decreases actions
  {
    if actions != [] {
      match actions[0] {
        case Thread(t, doing) => PairedByThread(s, t, doing);
        case Other(event) => PairedByOther(s, event);
      }
      PairedOverRuns(Step(s, actions[0]), actions[1..]);
    }
  }

  lemma PairedInitially(s: State)
    requires Initial(s) && s.threads.Keys == {0}
    ensures Paired(s)
  {
    ServedInitially(s);
  }

  /**
   * After any fair run, when the send of `req` has succeeded and a message is there to take, it is
   * the response to `req`, exactly if the reader is not between its post and its enqueueing; the
   * response buffer then gets it, if its subsystem is one that has its responses stored. Indications
   * may be queued in any number, and the request may come from the callback of one.
   */
  lemma OwnResponseExactly(s: State, actions: seq<Action>)
    requires Initial(s) && s.threads.Keys == {0} && IsRun(s, actions) && Fair(s, actions)
    requires var e := Final(s, actions); 0 in e.threads && e.threads[0].Taking? && e.queue != []
    ensures var e := Final(s, actions);
            var e' := Step(e, Thread(0, Take));
            var reply := e.threads[0].req.Reply();
            && (e.queue[0] == reply <==> !BetweenPostAndEnqueue(e))
            && (!BetweenPostAndEnqueue(e) ==>
                  && e'.srspBuff == (if reply.cmd0 in {0x61, 0x64, 0x65, 0x66} then Holding(reply) else e.srspBuff)
                  && NoResponse(e'.queue))
            && (BetweenPostAndEnqueue(e) ==> e'.srspBuff == e.srspBuff && e.reader.f == reply)
  {
    PairedInitially(s);
    PairedOverRuns(s, actions);
    ReplyIsResponse(Final(s, actions).threads[0].req);
    StoredOctets(Final(s, actions).threads[0].req.Reply().cmd0);
  }

  /** With no message there, the response is on its way: a take that waits gets it. */
  lemma AnEmptyQueueIsFilledByTheResponse(s: State, actions: seq<Action>)
    requires Initial(s) && s.threads.Keys == {0} && IsRun(s, actions) && Fair(s, actions)
    requires var e := Final(s, actions); 0 in e.threads && e.threads[0].Taking? && e.queue == []
    ensures var e := Final(s, actions);
            e.reader == Enqueuing(e.threads[0].req.Reply()) && OtherStep(e, Enqueue).queue == [e.threads[0].req.Reply()]
  {
    PairedInitially(s);
    PairedOverRuns(s, actions);
    ReplyIsResponse(Final(s, actions).threads[0].req);
  }

  // ---------- What the conditions are needed for ----------

  /** No timeout, no stray response and no taking of messages. */
  predicate Simple(a: Action) {
    match a
    case Thread(_, doing) => !doing.TimeOut? && !doing.Take? && !doing.TakeTimeOut?
    case Other(event) => event.Emit? ==> event.f.cmd0 & 0xE0 != 0x60
  }

  predicate AllSimple(actions: seq<Action>) { forall i :: 0 <= i < |actions| ==> Simple(actions[i]) }

  lemma {:induction false} Extend(s: State, actions: seq<Action>, a: Action)
    requires IsRun(s, actions) && Enabled(Final(s, actions), a)
    ensures IsRun(s, actions + [a]) && Final(s, actions + [a]) == Step(Final(s, actions), a)
    ensures AllSimple(actions) && Simple(a) ==> AllSimple(actions + [a])
    decreases actions
  {
    if actions == [] {
      assert [a][1..] == [];
    } else {
      assert (actions + [a])[1..] == actions[1..] + [a];
      Extend(Step(s, actions[0]), actions[1..], a);
    }
  }

  const FRESH := State(map[0 := Idle], 1, 0, 0, Reading, [], [], [], Empty, 0, [], 0, 0, false)

  /** The reader has queued an indication. */
  lemma IndicationQueued(f: Signal) returns (actions: seq<Action>)
    requires !f.IsResponse()
    ensures IsRun(FRESH, actions) && Final(FRESH, actions) == FRESH.(queue := [f])
  {
    var s0 := FRESH.(queue := [f]);
    Extend(FRESH, [], Other(Emit(f)));
    Extend(FRESH, [] + [Other(Emit(f))], Other(Read));
    Extend(FRESH, [] + [Other(Emit(f))] + [Other(Read)], Other(Route));
    Extend(FRESH, [] + [Other(Emit(f))] + [Other(Read)] + [Other(Route)], Other(Enqueue));
    actions := [] + [Other(Emit(f))] + [Other(Read)] + [Other(Route)] + [Other(Enqueue)];
  }

  /** The thread has written a synchronous request. */
  lemma RequestWritten(s: State, before: seq<Action>, cmd0: byte) returns (actions: seq<Action>)
    requires CommandType(cmd0) == SREQ
    requires IsRun(s, before) && Final(s, before).threads == map[0 := Idle] && Final(s, before).rpcSem == 1
    ensures IsRun(s, actions) && (AllSimple(before) ==> AllSimple(actions))
    ensures var e := Final(s, before);
            var req := Request(cmd0, e.nextId);
            Final(s, actions) == e.(threads := map[0 := Awaiting(req)], rpcSem := 0, expected := Subsystem(cmd0),
                                    begun := true, nextId := e.nextId + 1, device := e.device + [req])
  {
    actions := RequestEntered(s, before, cmd0);
    Extend(s, actions, Thread(0, Note));
    actions := actions + [Thread(0, Note)];
    Extend(s, actions, Thread(0, Write));
    actions := actions + [Thread(0, Write)];
  }

  /** The thread has called the send and passed the semaphore. */
  lemma RequestEntered(s: State, before: seq<Action>, cmd0: byte) returns (actions: seq<Action>)
    requires IsRun(s, before) && Final(s, before).threads == map[0 := Idle] && Final(s, before).rpcSem == 1
    ensures IsRun(s, actions) && (AllSimple(before) ==> AllSimple(actions))
    ensures var e := Final(s, before);
            Final(s, actions) == e.(threads := map[0 := Building(Request(cmd0, e.nextId))], rpcSem := 0,
                                    nextId := e.nextId + 1)
  {
    Extend(s, before, Thread(0, Call(cmd0)));
    actions := before + [Thread(0, Call(cmd0))];
    Extend(s, actions, Thread(0, Acquire));
    actions := actions + [Thread(0, Acquire)];
  }

  /** The device has answered the first request it has and the reader has found the response expected. */
  lemma ResponseRecognised(s: State, before: seq<Action>, req: Request, others: seq<Request>)
    returns (actions: seq<Action>)
    requires IsRun(s, before)
    requires var e := Final(s, before);
             && e.device == [req] + others && e.wire == [] && e.reader == Reading
             && e.expected == Subsystem(req.cmd0)
    ensures IsRun(s, actions) && (AllSimple(before) ==> AllSimple(actions))
    ensures Final(s, actions) == Final(s, before).(device := others, reader := Posting(req.Reply()))
  {
    ReplyIsResponse(req);
    Extend(s, before, Other(Answer));
    actions := before + [Other(Answer)];
    Extend(s, actions, Other(Read));
    actions := actions + [Other(Read)];
    Extend(s, actions, Other(Route));
    actions := actions + [Other(Route)];
  }

  /** The reader has posted and the thread has been woken. */
  lemma ThreadWoken(s: State, before: seq<Action>, req: Request) returns (actions: seq<Action>)
    requires IsRun(s, before)
    requires var e := Final(s, before); e.threads == map[0 := Awaiting(req)] && e.reader.Posting? && e.srspSem == 0
    ensures IsRun(s, actions) && (AllSimple(before) ==> AllSimple(actions))
    ensures var e := Final(s, before);
            Final(s, actions) == e.(threads := map[0 := Clearing(req, true)], reader := Enqueuing(e.reader.f),
                                    posted := e.posted + [e.reader.f], waits := e.waits + 1)
  {
    Extend(s, before, Other(Post));
    actions := before + [Other(Post)];
    Extend(s, actions, Thread(0, Wake));
    actions := actions + [Thread(0, Wake)];
  }

  /** The thread has left the protected part. */
  lemma SendFinished(s: State, before: seq<Action>, req: Request, woken: bool) returns (actions: seq<Action>)
    requires IsRun(s, before) && Final(s, before).threads == map[0 := Clearing(req, woken)]
    ensures IsRun(s, actions) && (AllSimple(before) ==> AllSimple(actions))
    ensures var e := Final(s, before);
            Final(s, actions) == e.(threads := map[0 := if woken then Taking(req) else Idle],
                                    expected := NONE_EXPECTED, rpcSem := e.rpcSem + 1)
  {
    Extend(s, before, Thread(0, Clear));
    actions := before + [Thread(0, Clear)];
    Extend(s, actions, Thread(0, Release));
    actions := actions + [Thread(0, Release)];
  }

  lemma {:induction false} SimpleIsFair(s: State, actions: seq<Action>)
    requires IsRun(s, actions) && AllSimple(actions)
    ensures Fair(s, actions) && forall i :: 0 <= i < |actions| ==> Disciplined(actions[i])
    decreases actions
  {
    if actions != [] {
      assert Simple(actions[0]) && forall i :: 0 <= i < |actions| - 1 ==> actions[1..][i] == actions[i + 1];
      SimpleIsFair(Step(s, actions[0]), actions[1..]);
    }
  }

  /**
   * The ordinary course is a fair run: any synchronous request is written, answered, woken, and then
   * ready to take a message, and its response is the only one there.
   */
  lemma OrdinaryRequest(cmd0: byte) returns (actions: seq<Action>)
    requires cmd0 & 0xE0 == 0x20
    ensures IsRun(FRESH, actions) && Fair(FRESH, actions)
    ensures forall i :: 0 <= i < |actions| ==> Disciplined(actions[i])
    ensures var e := Final(FRESH, actions);
            && e.threads == map[0 := Taking(Request(cmd0, 0))] && e.queue == [Signal(0x60 | (cmd0 & 0x1F), 0)]
            && e.rpcSem == 1 && e.srspSem == 0 && e.device == [] && e.wire == [] && e.reader == Reading
  {
    var req := Request(cmd0, 0);
    actions := RequestWritten(FRESH, [], cmd0);
    actions := ResponseRecognised(FRESH, actions, req, []);
    actions := ThreadWoken(FRESH, actions, req);
    ReplyIsResponse(req);
    Extend(FRESH, actions, Other(Enqueue));
    actions := actions + [Other(Enqueue)];
    actions := SendFinished(FRESH, actions, req, true);
    SimpleIsFair(FRESH, actions);
  }

  /**
   * The race is possible: here the thread has been woken by the response to its request, takes a
   * message, and gets the indication that was queued before.
   */
  lemma RaceTakesAnIndication(cmd0: byte, f: Signal) returns (actions: seq<Action>)
    requires CommandType(cmd0) == SREQ && !f.IsResponse()
    ensures Initial(FRESH) && IsRun(FRESH, actions)
    ensures var e := Final(FRESH, actions);
            && e.threads == map[0 := Taking(Request(cmd0, 0))]
            && e.queue == [f] && Races(e, Thread(0, Take))
            && Step(e, Thread(0, Take)).srspBuff == Empty
  {
    var req := Request(cmd0, 0);
    actions := IndicationQueued(f);
    actions := RequestWritten(FRESH, actions, cmd0);
    actions := ResponseRecognised(FRESH, actions, req, []);
    actions := ThreadWoken(FRESH, actions, req);
    actions := SendFinished(FRESH, actions, req, true);
    ReplyIsResponse(req);
    TakenTooEarly(Final(FRESH, actions), req, f);
  }

  lemma TakenTooEarly(e: State, req: Request, f: Signal)
    requires e.threads == map[0 := Taking(req)] && e.queue == [f] && !f.IsResponse() && e.srspBuff == Empty
    ensures Step(e, Thread(0, Take)).srspBuff == Empty
  {}

  /** The wait has timed out between the reader's comparison and its post. */
  lemma PostedTooLate(cmd0: byte) returns (actions: seq<Action>)
    requires CommandType(cmd0) == SREQ
    ensures IsRun(FRESH, actions)
    ensures Final(FRESH, actions) == FRESH.(expected := NONE_EXPECTED, begun := true, nextId := 1, srspSem := 1,
                                            posted := [Request(cmd0, 0).Reply()],
                                            reader := Enqueuing(Request(cmd0, 0).Reply()))
  {
    var req := Request(cmd0, 0);
    actions := RequestWritten(FRESH, [], cmd0);
    actions := ResponseRecognised(FRESH, actions, req, []);
    Extend(FRESH, actions, Thread(0, TimeOut));
    actions := actions + [Thread(0, TimeOut)];
    actions := SendFinished(FRESH, actions, req, false);
    Extend(FRESH, actions, Other(Post));
    actions := actions + [Other(Post)];
  }

  /**
   * Timeouts matter: the token that such a wait leaves behind wakes the next request before the
   * device has answered it.
   */
  lemma TimeoutLeavesAToken(cmd0: byte) returns (actions: seq<Action>)
    requires CommandType(cmd0) == SREQ
    ensures Initial(FRESH) && IsRun(FRESH, actions)
    ensures var e := Final(FRESH, actions);
            && e.threads == map[0 := Awaiting(Request(cmd0, 1))] && e.device == [Request(cmd0, 1)]
            && Enabled(e, Thread(0, Wake))
  {
    actions := PostedTooLate(cmd0);
    actions := RequestWritten(FRESH, actions, cmd0);
  }

  /** The wait has timed out while the request was still at the device, and the next one is written. */
  lemma AskedAgain(cmd0: byte) returns (actions: seq<Action>)
    requires CommandType(cmd0) == SREQ
    ensures IsRun(FRESH, actions)
    ensures Final(FRESH, actions) == FRESH.(threads := map[0 := Awaiting(Request(cmd0, 1))], rpcSem := 0,
                                            expected := Subsystem(cmd0), begun := true, nextId := 2,
                                            device := [Request(cmd0, 0), Request(cmd0, 1)])
  {
    actions := RequestWritten(FRESH, [], cmd0);
    Extend(FRESH, actions, Thread(0, TimeOut));
    actions := actions + [Thread(0, TimeOut)];
    actions := SendFinished(FRESH, actions, Request(cmd0, 0), false);
    actions := RequestWritten(FRESH, actions, cmd0);
  }

  /**
   * No token need be left behind: a late response to the same subsystem passes the comparison, wakes
   * the next request and is what it takes, while the device still has that request.
   */
  lemma LateResponseIsTaken(cmd0: byte) returns (actions: seq<Action>)
    requires CommandType(cmd0) == SREQ
    ensures Initial(FRESH) && IsRun(FRESH, actions)
    ensures var e := Final(FRESH, actions);
            && e.threads == map[0 := Taking(Request(cmd0, 1))] && e.device == [Request(cmd0, 1)]
            && e.queue == [Request(cmd0, 0).Reply()] && e.queue[0] != Request(cmd0, 1).Reply()
  {
    var late, req := Request(cmd0, 0), Request(cmd0, 1);
    actions := AskedAgain(cmd0);
    actions := ResponseRecognised(FRESH, actions, late, [req]);
    actions := ThreadWoken(FRESH, actions, req);
    Extend(FRESH, actions, Other(Enqueue));
    actions := actions + [Other(Enqueue)];
    actions := SendFinished(FRESH, actions, req, true);
    ReplyIsResponse(late);
  }
}
