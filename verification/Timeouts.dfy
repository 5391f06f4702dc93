/**
 * Requests whose waits may time out, by any number of threads: what is left over from earlier
 * requests decides whether a request is woken by its own response.
 */
module Timeouts {
  import opened Bytes
  import opened Frames
  import opened Threads
  import opened Handshake
  import opened HandshakeSafety

  /** Waits may time out; the device sends no responses but its answers. */
  predicate Answering(a: Action) { a.Other? && a.event.Emit? ==> !a.event.f.IsResponse() }

  predicate AllAnswering(actions: seq<Action>) { forall i :: 0 <= i < |actions| ==> Answering(actions[i]) }

  /** The reader has a response that it has not posted. */
  predicate HasResponse(reader: Reader) { reader.Posting? || (reader.Routing? && reader.f.IsResponse()) }

  /**
   * What the caller of the next synchronous request must find: no token, no response about to be
   * posted, and nothing on its way that would pass for the answer.
   */
  predicate Clean(s: State, req: Request) {
    && s.srspSem == 0 && !s.reader.Posting?
    && (s.reader.Routing? && s.reader.f.IsResponse() ==> Subsystem(s.reader.f.cmd0) != Subsystem(req.cmd0))
    && (forall i :: 0 <= i < |s.device| ==> Subsystem(s.device[i].cmd0) != Subsystem(req.cmd0))
    && (forall i :: 0 <= i < |s.wire| && s.wire[i].IsResponse() ==> Subsystem(s.wire[i].cmd0) != Subsystem(req.cmd0))
  }

  /**
   * The k-th successful wait takes the k-th post: if `t` is about to be woken for `req`, it is by the
   * response to `req`.
   */
  predicate ByOwn(s: State, t: nat, req: Request) {
    t in s.threads && s.threads[t] == Awaiting(req) && s.srspSem > 0 ==>
      s.waits < |s.posted| && s.posted[s.waits] == req.Reply()
  }

  /** Thread `t` is about to set `expected` for a synchronous request. */
  predicate AboutToNote(s: State, t: nat, req: Request) {
    t in s.threads && s.threads[t] == Building(req) && req.Sync()
  }

  function Noted(s: State, t: nat): State
    requires t in s.threads && s.threads[t].Building?
  { Step(s, Thread(t, Note)) }

  /** However the run goes on, the request is woken by nothing but its own response. */
  ghost predicate AlwaysByOwn(s: State, t: nat, req: Request)
    requires AboutToNote(s, t, req)
  {
    forall more :: IsRun(Noted(s, t), more) && AllAnswering(more) ==> ByOwn(Final(Noted(s, t), more), t, req)
  }

  // ---------- The condition is sufficient ----------

  /** `t` is sending `req`, and nothing but the answer to it can be posted. */
  ghost predicate Owned(s: State, t: nat, req: Request) {
    && t in s.threads && (s.threads[t] == Writing(req) || s.threads[t] == Awaiting(req))
    && s.expected == Subsystem(req.cmd0)
    && (forall i :: 0 <= i < |s.device| ==> s.device[i] == req || Subsystem(s.device[i].cmd0) != Subsystem(req.cmd0))
    && (forall i :: 0 <= i < |s.wire| && s.wire[i].IsResponse() ==>
          s.wire[i] == req.Reply() || Subsystem(s.wire[i].cmd0) != Subsystem(req.cmd0))
    && (s.reader.Routing? && s.reader.f.IsResponse() ==>
          s.reader.f == req.Reply() || Subsystem(s.reader.f.cmd0) != Subsystem(req.cmd0))
    && (s.reader.Posting? ==> s.reader.f == req.Reply())
    && (forall i :: s.waits <= i < |s.posted| ==> s.posted[i] == req.Reply())
  }

  /** `t` has left the wait for `req` and will not return to it. */
  predicate Gone(s: State, t: nat, req: Request) {
    && t in s.threads && req.id < s.nextId
    && (match s.threads[t]
        case Entering(r) => r.id != req.id
        case Building(r) => r.id != req.id
        case Writing(r) => r.id != req.id
        case Awaiting(r) => r.id != req.id
        case _ => true)
  }

  ghost predicate Settling(s: State, t: nat, req: Request) {
    Conserved(s) && req.Sync() && req.id < s.nextId && (Owned(s, t, req) || Gone(s, t, req))
  }

  lemma OwnedByOther(s: State, event: Event, t: nat, req: Request)
    requires req.Sync() && Owned(s, t, req) && OtherEnabled(s, event) && Answering(Other(event))
    ensures Owned(OtherStep(s, event), t, req)
  {
    if event.Answer? { ReplyIsResponse(s.device[0]); }
    ReplyIsResponse(req);
  }

  lemma GoneByOther(s: State, event: Event, t: nat, req: Request)
    requires Gone(s, t, req) && OtherEnabled(s, event)
    ensures Gone(OtherStep(s, event), t, req)
  {
    assert OtherStep(s, event).threads == s.threads && OtherStep(s, event).nextId == s.nextId;
  }

  lemma SettlingFrom(s: State, t: nat, req: Request)
    requires Conserved(s) && req.Sync() && (Owned(s, t, req) || Gone(s, t, req)) && req.id < s.nextId
    ensures Settling(s, t, req)
  {}

  lemma NumbersStay(s: State, event: Event)
    requires OtherEnabled(s, event)
    ensures OtherStep(s, event).nextId == s.nextId
  {}

  lemma SettlingByOther(s: State, event: Event, t: nat, req: Request)
    requires Settling(s, t, req) && OtherEnabled(s, event) && Answering(Other(event))
    ensures Settling(OtherStep(s, event), t, req)
  {
    ConservedOther(s, event);
    NumbersStay(s, event);
    if Owned(s, t, req) {
      OwnedByOther(s, event, t, req);
    } else {
      GoneByOther(s, event, t, req);
    }
    SettlingFrom(OtherStep(s, event), t, req);
  }

  lemma OwnedByThread(s: State, u: nat, doing: Doing, t: nat, req: Request)
    requires Conserved(s) && req.Sync() && Owned(s, t, req) && Enabled(s, Thread(u, doing))
    requires u != t
    ensures Owned(Step(s, Thread(u, doing)), t, req)
  {
    InsiderIsAlone(s, t);
  }

  lemma GoneByThread(s: State, u: nat, doing: Doing, t: nat, req: Request)
    requires req.id < s.nextId && Gone(s, t, req) && Enabled(s, Thread(u, doing))
    ensures Gone(Step(s, Thread(u, doing)), t, req)
  {}

  /** The thread itself goes on to the wait or leaves it. */
  lemma OwnerSteps(s: State, doing: Doing, t: nat, req: Request)
    requires req.Sync() && req.id < s.nextId && Owned(s, t, req) && Enabled(s, Thread(t, doing))
    ensures Owned(Step(s, Thread(t, doing)), t, req) || Gone(Step(s, Thread(t, doing)), t, req)
  {}

  lemma SettlingByThread(s: State, u: nat, doing: Doing, t: nat, req: Request)
    requires Settling(s, t, req) && Enabled(s, Thread(u, doing))
    ensures Settling(Step(s, Thread(u, doing)), t, req)
  {
    ConservedStep(s, Thread(u, doing));
    if Gone(s, t, req) {
      GoneByThread(s, u, doing, t, req);
    } else if u != t {
      OwnedByThread(s, u, doing, t, req);
    } else {
      OwnerSteps(s, doing, t, req);
    }
  }

  lemma {:induction false} SettlingOverRuns(s: State, more: seq<Action>, t: nat, req: Request)
    requires Settling(s, t, req) && IsRun(s, more) && AllAnswering(more)
    ensures Settling(Final(s, more), t, req)
    decreases more
  {
    if more != [] {
      assert Answering(more[0]);
      match more[0] {
        case Thread(u, doing) => SettlingByThread(s, u, doing, t, req);
        case Other(event) => SettlingByOther(s, event, t, req);
      }
      SettlingOverRuns(Step(s, more[0]), more[1..], t, req);
    }
  }

  lemma CleanSuffices(s: State, t: nat, req: Request)
    requires Conserved(s) && AboutToNote(s, t, req) && req.id < s.nextId && Clean(s, req)
    ensures AlwaysByOwn(s, t, req)
  {
    ConservedStep(s, Thread(t, Note));
    assert Owned(Noted(s, t), t, req);
    forall more | IsRun(Noted(s, t), more) && AllAnswering(more) ensures ByOwn(Final(Noted(s, t), more), t, req) {
      SettlingOverRuns(Noted(s, t), more, t, req);
    }
  }

  // ---------- The condition is necessary ----------

  /** Some continuation wakes `t` for `req` by something else. */
  ghost predicate Stolen(s: State, t: nat, req: Request) {
    exists more :: IsRun(s, more) && AllAnswering(more) && !ByOwn(Final(s, more), t, req)
  }

  lemma StolenLater(s: State, a: Action, t: nat, req: Request)
    requires Enabled(s, a) && Answering(a) && Stolen(Step(s, a), t, req)
    ensures Stolen(s, t, req)
  {
    var more :| IsRun(Step(s, a), more) && AllAnswering(more) && !ByOwn(Final(Step(s, a), more), t, req);
    var longer := [a] + more;
    assert longer[1..] == more;
    assert AllAnswering(longer);
  }

  /** Something left over would be posted, or is, and it does not answer `req`. */
  predicate Leftover(s: State, req: Request) {
    || s.srspSem > 0 || s.reader.Posting?
    || (s.reader.Routing? && s.reader.f.IsResponse() && Subsystem(s.reader.f.cmd0) == Subsystem(req.cmd0))
    || (exists i :: 0 <= i < |s.device| && s.device[i] != req && Subsystem(s.device[i].cmd0) == Subsystem(req.cmd0))
    || (exists i :: 0 <= i < |s.wire| && s.wire[i].IsResponse() && Subsystem(s.wire[i].cmd0) == Subsystem(req.cmd0))
  }

  /** No answer to request `id` exists anywhere, nor is the request at the device. */
  ghost predicate Unanswered(s: State, id: nat) {
    && (forall i :: 0 <= i < |s.wire| && s.wire[i].IsResponse() ==> s.wire[i].id != id)
    && (HasResponse(s.reader) ==> s.reader.f.id != id)
    && (forall i :: 0 <= i < |s.posted| ==> s.posted[i].id != id)
  }

  /** `t` waits for `req`, which is the last request at the device. */
  ghost predicate Behind(s: State, t: nat, req: Request) {
    && t in s.threads && s.threads[t] == Awaiting(req) && s.expected == Subsystem(req.cmd0)
    && s.srspSem + s.waits == |s.posted| && Unanswered(s, req.id)
    && s.device != [] && s.device[|s.device| - 1] == req
    && (forall i :: 0 <= i < |s.device| - 1 ==> s.device[i].id != req.id)
  }

  /** What happens next: the device answers what it was asked before, then the reader goes on. */
  function NextEvent(s: State): Event {
    if |s.device| > 1 then Answer
    else match s.reader
         case Posting(_) => Post
         case Routing(_) => Route
         case Enqueuing(_) => Enqueue
         case Reading => Read
  }

  lemma StaysBehind(s: State, t: nat, req: Request)
    requires Behind(s, t, req) && Leftover(s, req) && s.srspSem == 0
    ensures OtherEnabled(s, NextEvent(s))
    ensures var s' := OtherStep(s, NextEvent(s));
            && Behind(s', t, req) && Leftover(s', req)
            && 5 * |s'.device| + 4 * |s'.wire| + ReaderRank(s'.reader)
               < 5 * |s.device| + 4 * |s.wire| + ReaderRank(s.reader)
  {
    if |s.device| > 1 {
      AnswerStaysBehind(s, t, req);
    } else {
      ReaderStaysBehind(s, t, req);
    }
  }

  lemma AnswerStaysBehind(s: State, t: nat, req: Request)
    requires Behind(s, t, req) && Leftover(s, req) && s.srspSem == 0 && |s.device| > 1
    ensures Behind(OtherStep(s, Answer), t, req) && Leftover(OtherStep(s, Answer), req)
  {
    var s', first := OtherStep(s, Answer), s.device[0];
    ReplyIsResponse(first);
    assert s'.wire[|s.wire|] == first.Reply();
    if i :| 0 <= i < |s.device| && s.device[i] != req && Subsystem(s.device[i].cmd0) == Subsystem(req.cmd0) {
      if i > 0 { assert s'.device[i - 1] == s.device[i]; }
    } else if i :| 0 <= i < |s.wire| && s.wire[i].IsResponse() && Subsystem(s.wire[i].cmd0) == Subsystem(req.cmd0) {
      assert s'.wire[i] == s.wire[i];
    }
  }

  lemma ReadStaysBehind(s: State, t: nat, req: Request)
    requires Behind(s, t, req) && Leftover(s, req) && s.srspSem == 0 && |s.device| == 1 && s.reader.Reading?
    ensures s.wire != [] && Behind(OtherStep(s, Read), t, req) && Leftover(OtherStep(s, Read), req)
  {
    var i :| 0 <= i < |s.wire| && s.wire[i].IsResponse() && Subsystem(s.wire[i].cmd0) == Subsystem(req.cmd0);
    if i > 0 { assert OtherStep(s, Read).wire[i - 1] == s.wire[i]; }
  }

  lemma ReaderStaysBehind(s: State, t: nat, req: Request)
    requires Behind(s, t, req) && Leftover(s, req) && s.srspSem == 0 && |s.device| == 1
    ensures OtherEnabled(s, NextEvent(s))
    ensures Behind(OtherStep(s, NextEvent(s)), t, req) && Leftover(OtherStep(s, NextEvent(s)), req)
  {
    if s.reader.Reading? {
      ReadStaysBehind(s, t, req);
    } else {
      var s' := OtherStep(s, NextEvent(s));
      assert s'.wire == s.wire;
    }
  }

  lemma {:induction false} LeftoverSteals(s: State, t: nat, req: Request)
    requires Behind(s, t, req) && Leftover(s, req)
    ensures Stolen(s, t, req)
    decreases 5 * |s.device| + 4 * |s.wire| + ReaderRank(s.reader)
  {
    if s.srspSem > 0 {
      assert IsRun(s, []) && AllAnswering([]) && !ByOwn(Final(s, []), t, req);
    } else {
      StaysBehind(s, t, req);
      LeftoverSteals(OtherStep(s, NextEvent(s)), t, req);
      StolenLater(s, Other(NextEvent(s)), t, req);
    }
  }

  // ---------- Numbers of requests ----------

  predicate Unwritten(pc: Pc) { pc.Entering? || pc.Building? || pc.Writing? }

  /** Nothing at the device or on its way back belongs to request `id`. */
  ghost predicate Unknown(s: State, id: nat) {
    Unanswered(s, id) && forall i :: 0 <= i < |s.device| ==> s.device[i].id != id
  }

  /** What has not been written is known to nobody, and requests have different numbers. */
  ghost predicate Dated(s: State) {
    && (forall id :: id >= s.nextId ==> Unknown(s, id))
    && (forall t :: t in s.threads && Unwritten(s.threads[t]) ==>
          s.threads[t].req.id < s.nextId && Unknown(s, s.threads[t].req.id))
    && (forall t, u :: t in s.threads && u in s.threads && t != u && Unwritten(s.threads[t]) && Unwritten(s.threads[u])
          ==> s.threads[t].req.id != s.threads[u].req.id)
  }

  lemma UnknownByThread(s: State, t: nat, doing: Doing, id: nat)
    requires Unknown(s, id) && Enabled(s, Thread(t, doing))
    requires doing.Write? ==> s.threads[t].req.id != id
    ensures Unknown(Step(s, Thread(t, doing)), id)
  {}

  lemma UnknownByOther(s: State, event: Event, id: nat)
    requires Unknown(s, id) && OtherEnabled(s, event) && Answering(Other(event))
    ensures Unknown(OtherStep(s, event), id)
  {}

  lemma DatedByOther(s: State, event: Event)
    requires Dated(s) && OtherEnabled(s, event) && Answering(Other(event))
    ensures Dated(OtherStep(s, event))
  {
    forall id | Unknown(s, id) ensures Unknown(OtherStep(s, event), id) {
      UnknownByOther(s, event, id);
    }
  }

  lemma DatedByThread(s: State, t: nat, doing: Doing)
    requires Dated(s) && Enabled(s, Thread(t, doing))
    ensures Dated(Step(s, Thread(t, doing)))
  {
    var s' := Step(s, Thread(t, doing));
    forall id | Unknown(s, id) && (doing.Write? ==> s.threads[t].req.id != id) ensures Unknown(s', id) {
      UnknownByThread(s, t, doing, id);
    }
  }

  lemma {:induction false} DatedOverRuns(s: State, actions: seq<Action>)
    requires Dated(s) && Conserved(s) && IsRun(s, actions) && AllAnswering(actions)
    ensures Dated(Final(s, actions)) && Conserved(Final(s, actions))
    decreases actions
  {
    if actions != [] {
      assert Answering(actions[0]);
      match actions[0] {
        case Thread(t, doing) => DatedByThread(s, t, doing);
        case Other(event) => DatedByOther(s, event);
      }
      ConservedStep(s, actions[0]);
      DatedOverRuns(Step(s, actions[0]), actions[1..]);
    }
  }

  lemma WriteGetsBehind(s: State, t: nat, req: Request)
    requires Dated(s) && Conserved(s) && AboutToNote(s, t, req) && !Clean(s, req)
    ensures Enabled(Noted(s, t), Thread(t, Write))
    ensures var s' := Step(Noted(s, t), Thread(t, Write)); Behind(s', t, req) && Leftover(s', req)
  {
    var s' := Step(Noted(s, t), Thread(t, Write));
    assert forall i :: 0 <= i < |s.device| ==> s'.device[i] == s.device[i];
    assert Unknown(s, req.id);
  }

  /**
   * The exact condition: after any run in which waits may have timed out, a synchronous request of
   * any thread is, however the run goes on, never woken by anything but its own response, if and
   * only if nothing is left over from earlier requests that would pass for it.
   */
  lemma OwnWakeExactly(start: State, actions: seq<Action>, t: nat, req: Request)
    requires Initial(start) && IsRun(start, actions) && AllAnswering(actions)
    requires AboutToNote(Final(start, actions), t, req)
    ensures AlwaysByOwn(Final(start, actions), t, req) <==> Clean(Final(start, actions), req)
  {
    ConservedInitially(start);
    DatedOverRuns(start, actions);
    var s := Final(start, actions);
    if Clean(s, req) {
      CleanSuffices(s, t, req);
    } else {
      WriteGetsBehind(s, t, req);
      var s' := Step(Noted(s, t), Thread(t, Write));
      LeftoverSteals(s', t, req);
      StolenLater(Noted(s, t), Thread(t, Write), t, req);
      var more :| IsRun(Noted(s, t), more) && AllAnswering(more) && !ByOwn(Final(Noted(s, t), more), t, req);
    }
  }

  // ---------- What the request then takes ----------

  /** The response to `req` is at the head of the queue, or about to be; no other will be put there. */
  predicate Arriving(s: State, req: Request) {
    || s.reader == Enqueuing(req.Reply())
    || (s.queue != [] && s.queue[0] == req.Reply() && (s.reader.Enqueuing? ==> !s.reader.f.IsResponse()))
  }

  /** What is on its way for the subsystem of `req` is the response to `req`. */
  ghost predicate OnlyOwn(s: State, req: Request) {
    && s.expected == Subsystem(req.cmd0)
    && (forall i :: 0 <= i < |s.device| ==> s.device[i] == req || Subsystem(s.device[i].cmd0) != Subsystem(req.cmd0))
    && (forall i :: 0 <= i < |s.wire| && s.wire[i].IsResponse() ==>
          s.wire[i] == req.Reply() || Subsystem(s.wire[i].cmd0) != Subsystem(req.cmd0))
    && (s.reader.Routing? && s.reader.f.IsResponse() ==>
          s.reader.f == req.Reply() || Subsystem(s.reader.f.cmd0) != Subsystem(req.cmd0))
  }

  /** The only thread is at this send of `req` or has finished with it. */
  ghost predicate Taken(s: State, req: Request) {
    && s.threads.Keys == {0} && req.Sync() && req.id < s.nextId
    && (Sending(s.threads[0], req) && s.reader.Posting? ==> s.reader.f == req.Reply())
    && match s.threads[0]
       case Idle => true
       case Entering(r) => r.id != req.id
       case Building(r) => r.id != req.id
       case Writing(r) => r.id == req.id ==> r == req && s.expected == Subsystem(req.cmd0) && Clean(s, req)
       case Awaiting(r) => r.id == req.id ==> r == req && OnlyOwn(s, req) && (s.srspSem > 0 ==> Arriving(s, req))
       case Clearing(r, woken) => r.id == req.id ==> r == req && OnlyOwn(s, req) && (woken ==> Arriving(s, req))
       case Leaving(r, woken) => r.id == req.id ==> s.expected == NONE_EXPECTED && (woken ==> Arriving(s, req))
       case Taking(r) => r.id == req.id ==> s.expected == NONE_EXPECTED && Arriving(s, req)
  }

  predicate Sending(pc: Pc, req: Request) { !pc.Idle? && pc.req.id == req.id }

  lemma OnlyOwnByAnswer(s: State, req: Request)
    requires OnlyOwn(s, req) && s.device != []
    ensures OnlyOwn(OtherStep(s, Answer), req)
  {
    ReplyIsResponse(s.device[0]);
  }

  lemma CleanByAnswer(s: State, req: Request)
    requires Clean(s, req) && s.device != []
    ensures Clean(OtherStep(s, Answer), req)
  {
    ReplyIsResponse(s.device[0]);
  }

  lemma TakenByAnswer(s: State, req: Request)
    requires Taken(s, req) && s.device != []
    ensures Taken(OtherStep(s, Answer), req)
  {
    if OnlyOwn(s, req) { OnlyOwnByAnswer(s, req); }
    if Clean(s, req) { CleanByAnswer(s, req); }
  }

  lemma TakenByEmit(s: State, f: Signal, req: Request)
    requires Taken(s, req) && !f.IsResponse()
    ensures Taken(OtherStep(s, Emit(f)), req)
  {}

  lemma TakenByRead(s: State, req: Request)
    requires Taken(s, req) && OtherEnabled(s, Read)
    ensures Taken(OtherStep(s, Read), req)
  {}

  lemma TakenByRoute(s: State, req: Request)
    requires Taken(s, req) && OtherEnabled(s, Route)
    ensures Taken(OtherStep(s, Route), req)
  {
    var f := s.reader.f;
    NoneIsNoSubsystem(f.cmd0);
    if !f.IsResponse() {
      RoutedOn(s, Enqueuing(f), s.discards, req);
    } else if s.expected == Subsystem(f.cmd0) {
      RoutedOn(s, Posting(f), s.discards, req);
    } else {
      RoutedOn(s, Reading, s.discards + 1, req);
    }
  }

  lemma RoutedOn(s: State, reader: Reader, discards: nat, req: Request)
    requires Taken(s, req) && s.reader.Routing? && Subsystem(s.reader.f.cmd0) != NONE_EXPECTED
    requires reader.Enqueuing? ==> !s.reader.f.IsResponse()
    requires reader.Posting? ==> s.reader.f.IsResponse() && s.expected == Subsystem(s.reader.f.cmd0)
    requires reader == Reading || reader == Enqueuing(s.reader.f) || reader == Posting(s.reader.f)
    ensures Taken(s.(reader := reader, discards := discards), req)
  {}

  lemma NoneIsNoSubsystem(cmd0: byte)
    ensures Subsystem(cmd0) != NONE_EXPECTED
  {}

  lemma TakenByPost(s: State, req: Request)
    requires Taken(s, req) && OtherEnabled(s, Post)
    ensures Taken(OtherStep(s, Post), req)
  {}

  lemma TakenByEnqueue(s: State, req: Request)
    requires Taken(s, req) && OtherEnabled(s, Enqueue)
    ensures Taken(OtherStep(s, Enqueue), req)
  {
    ReplyIsResponse(req);
  }

  lemma TakenByOther(s: State, event: Event, req: Request)
    requires Taken(s, req) && OtherEnabled(s, event) && Answering(Other(event))
    ensures Taken(OtherStep(s, event), req)
  {
    match event
    case Answer => TakenByAnswer(s, req);
    case Emit(f) => TakenByEmit(s, f, req);
    case Read => TakenByRead(s, req);
    case Route => TakenByRoute(s, req);
    case Post => TakenByPost(s, req);
    case Enqueue => TakenByEnqueue(s, req);
  }

  lemma TakenByThread(s: State, doing: Doing, req: Request)
    requires Taken(s, req) && Enabled(s, Thread(0, doing))
    ensures Taken(Step(s, Thread(0, doing)), req)
  {}

  lemma {:induction false} TakenOverRuns(s: State, more: seq<Action>, req: Request)
    requires Taken(s, req) && IsRun(s, more) && AllAnswering(more)
    ensures Taken(Final(s, more), req)
    decreases more
  {
    if more != [] {
      assert Answering(more[0]);
      match more[0] {
        case Thread(t, doing) => TakenByThread(s, doing, req);
        case Other(event) => TakenByOther(s, event, req);
      }
      TakenOverRuns(Step(s, more[0]), more[1..], req);
    }
  }

  /**
   * With one application thread and after any timeouts: if nothing is left over when it sets `expected`
   * for a request, and that is woken and finds a message, the message is its own response, unless the
   * reader is between post and enqueueing, and then what it is about to enqueue is.
   */
  lemma OwnResponseAfterTimeouts(start: State, actions: seq<Action>, req: Request, more: seq<Action>)
    requires Initial(start) && start.threads.Keys == {0} && IsRun(start, actions) && AllAnswering(actions)
    requires AboutToNote(Final(start, actions), 0, req) && Clean(Final(start, actions), req)
    requires IsRun(Noted(Final(start, actions), 0), more) && AllAnswering(more)
    ensures TakesOwn(Final(Noted(Final(start, actions), 0), more), req)
  {
    ConservedInitially(start);
    DatedOverRuns(start, actions);
    KeysStay(start, actions);
    var s := Final(start, actions);
    NotedIsTaken(s, req);
    TakenOverRuns(Noted(s, 0), more, req);
    TakenIsOwn(Final(Noted(s, 0), more), req);
  }

  /** If thread 0 has been woken for `req` and finds a message, it is the response to `req`, or that is next. */
  predicate TakesOwn(s: State, req: Request) {
    0 in s.threads && s.threads[0] == Taking(req) && s.queue != [] ==>
      if s.reader.Enqueuing? && s.reader.f.IsResponse() then s.reader.f == req.Reply()
      else
        && s.queue[0] == req.Reply()
        && (StoresResponse(req.Reply().cmd0) ==> Step(s, Thread(0, Take)).srspBuff == Holding(req.Reply()))
  }

  lemma TakenIsOwn(s: State, req: Request)
    requires Taken(s, req)
    ensures TakesOwn(s, req)
  {
    ReplyIsResponse(req);
  }

  lemma NotedIsTaken(s: State, req: Request)
    requires s.threads.Keys == {0} && AboutToNote(s, 0, req) && Clean(s, req) && req.id < s.nextId
    ensures Taken(Noted(s, 0), req)
  {}

  lemma {:induction false} KeysStay(s: State, actions: seq<Action>)
    requires IsRun(s, actions)
    ensures Final(s, actions).threads.Keys == s.threads.Keys
    decreases actions
  {
    if actions != [] {
      KeysStay(Step(s, actions[0]), actions[1..]);
    }
  }
}
