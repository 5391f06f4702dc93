/**
 * The handshake with a device that answers every synchronous request once and sends no other
 * responses, and with no wait for a response timing out.
 */
module HandshakeSafety {
  import opened Bytes
  import opened Frames
  import opened Threads
  import opened Handshake

  /** Indications may come at any time. */
  predicate Disciplined(a: Action) {
    match a
    case Thread(_, doing) => !doing.TimeOut?
    case Other(event) => event.Emit? ==> !event.f.IsResponse()
  }

  predicate IsAwaiting(pc: Pc) { pc.Awaiting? }

  function Responses(wire: seq<Signal>): nat {
    if wire == [] then 0 else Indicator(wire[0].IsResponse()) + Responses(wire[1..])
  }

  /** The reader has a response that it has not posted. */
  predicate BeforePost(reader: Reader) { (reader.Routing? || reader.Posting?) && reader.f.IsResponse() }

  /** Where the answer to a written request is: at the device, on the wire, in the reader, posted. */
  function InFlight(s: State): nat {
    |s.device| + Responses(s.wire) + Indicator(BeforePost(s.reader)) + s.srspSem
  }

  /** All that is in flight belongs to this request. */
  ghost predicate BelongsTo(s: State, req: Request) {
    && (forall i :: 0 <= i < |s.device| ==> s.device[i] == req)
    && (forall i :: 0 <= i < |s.wire| && s.wire[i].IsResponse() ==> s.wire[i] == req.Reply())
    && (BeforePost(s.reader) ==> s.reader.f == req.Reply())
  }

  ghost predicate Served(s: State) {
    && Conserved(s)
    && InFlight(s) == Count(s.threads, IsAwaiting)
    && (forall t :: t in s.threads && s.threads[t].Awaiting? ==> BelongsTo(s, s.threads[t].req))
    && (s.reader.Posting? ==> s.reader.f.IsResponse())
    && s.discards == 0
  }

  lemma ReplyIsResponse(req: Request)
    ensures req.Reply().IsResponse() && Subsystem(req.Reply().cmd0) == Subsystem(req.cmd0)
  {}

  lemma {:induction false} ResponsesAppend(wire: seq<Signal>, f: Signal)
    ensures Responses(wire + [f]) == Responses(wire) + Indicator(f.IsResponse())
  {
    if wire == [] {
      assert [f][1..] == [];
    } else {
      assert (wire + [f])[1..] == wire[1..] + [f];
      ResponsesAppend(wire[1..], f);
    }
  }

  lemma {:induction false} NoResponses(wire: seq<Signal>)
    requires Responses(wire) == 0
    ensures forall i :: 0 <= i < |wire| ==> !wire[i].IsResponse()
  {
    if wire != [] {
      NoResponses(wire[1..]);
      assert forall i :: 1 <= i < |wire| ==> wire[i] == wire[1..][i - 1];
    }
  }

  lemma NothingInFlight(s: State, req: Request)
    requires InFlight(s) == 0
    ensures BelongsTo(s, req) && s.device == []
  {
    NoResponses(s.wire);
  }

  /** What is in flight belongs to the thread that waits. */
  lemma FlightHasOwner(s: State) returns (t: nat)
    requires Served(s) && InFlight(s) > 0
    ensures t in s.threads && s.threads[t].Awaiting? && BelongsTo(s, s.threads[t].req)
    ensures s.expected == Subsystem(s.threads[t].req.cmd0)
  {
    t := CountWitness(s.threads, IsAwaiting);
    assert Expecting(s.threads[t]);
  }

  lemma ServedByAnswer(s: State)
    requires Served(s) && s.device != []
    ensures Served(OtherStep(s, Answer))
  {
    ConservedOther(s, Answer);
    var t := FlightHasOwner(s);
    ReplyIsResponse(s.device[0]);
    ResponsesAppend(s.wire, s.device[0].Reply());
  }

  lemma ServedByEmit(s: State, f: Signal)
    requires Served(s) && !f.IsResponse()
    ensures Served(OtherStep(s, Emit(f)))
  {
    ConservedOther(s, Emit(f));
    ResponsesAppend(s.wire, f);
  }

  lemma ServedByReader(s: State, event: Event)
    requires Served(s) && OtherEnabled(s, event) && !event.Answer? && !event.Emit?
    ensures Served(OtherStep(s, event))
  {
    ConservedOther(s, event);
    if InFlight(s) > 0 {
      var t := FlightHasOwner(s);
      ReplyIsResponse(s.threads[t].req);
    }
  }

  lemma ServedByOther(s: State, event: Event)
    requires Served(s) && OtherEnabled(s, event) && Disciplined(Other(event))
    ensures Served(OtherStep(s, event))
  {
    match event
    case Answer => ServedByAnswer(s);
    case Emit(f) => ServedByEmit(s, f);
    case _ => ServedByReader(s, event);
  }

  lemma ServedByThread(s: State, t: nat, doing: Doing)
    requires Served(s) && Enabled(s, Thread(t, doing)) && Disciplined(Thread(t, doing))
    ensures Served(Step(s, Thread(t, doing)))
  {
    var s' := Step(s, Thread(t, doing));
    ConservedStep(s, Thread(t, doing));
    CountMove(s.threads, t, s'.threads[t], IsAwaiting);
    if s'.threads[t].Awaiting? {
      InsiderIsAlone(s, t);
      if InFlight(s) > 0 {
        var u := CountWitness(s.threads, IsAwaiting);
        assert Inside(s.threads[u]);
      }
      NothingInFlight(s, s'.threads[t].req);
    }
    forall u | u in s'.threads && s'.threads[u].Awaiting? ensures BelongsTo(s', s'.threads[u].req) {
      if u != t {
        assert BelongsTo(s, s.threads[u].req);
        InsiderIsAlone(s, u);
      }
    }
  }

  lemma {:induction false} ServedOverRuns(s: State, actions: seq<Action>)
    requires Served(s) && IsRun(s, actions)
    requires forall i :: 0 <= i < |actions| ==> Disciplined(actions[i])
    ensures Served(Final(s, actions))
    decreases actions
  {
    if actions != [] {
      match actions[0] {
        case Thread(t, doing) => ServedByThread(s, t, doing);
        case Other(event) => ServedByOther(s, event);
      }
      ServedOverRuns(Step(s, actions[0]), actions[1..]);
    }
  }

  lemma ServedInitially(s: State)
    requires Initial(s)
    ensures Served(s)
  {
    ConservedInitially(s);
    assert At(s.threads, IsAwaiting) == {};
  }

  /**
   * Over every interleaving: while a thread waits, exactly one thing is in flight and it answers
   * that thread's request; otherwise nothing is. So the wake-up semaphore never exceeds 1, no token
   * outlives its request and no response is thrown away.
   */
  lemma ExactlyOneAnswer(s: State, actions: seq<Action>)
    requires Initial(s) && IsRun(s, actions)
    requires forall i :: 0 <= i < |actions| ==> Disciplined(actions[i])
    ensures var e := Final(s, actions);
            && e.srspSem <= 1 && e.discards == 0
            && (forall t :: t in e.threads && e.threads[t].Awaiting? ==>
                  InFlight(e) == 1 && BelongsTo(e, e.threads[t].req))
            && ((forall t :: t in e.threads ==> !e.threads[t].Awaiting?) ==> InFlight(e) == 0)
  {
    ServedInitially(s);
    ServedOverRuns(s, actions);
    AwaitingAlone(Final(s, actions));
  }

  lemma AwaitingAlone(e: State)
    requires Served(e)
    ensures forall t :: t in e.threads && e.threads[t].Awaiting? ==> InFlight(e) == 1
    ensures (forall t :: t in e.threads ==> !e.threads[t].Awaiting?) ==> InFlight(e) == 0
    ensures InFlight(e) <= 1
  {
    if InFlight(e) > 0 {
      var u := CountWitness(e.threads, IsAwaiting);
      InsiderIsAlone(e, u);
      assert At(e.threads, IsAwaiting) == {u};
    }
    forall t | t in e.threads && e.threads[t].Awaiting? ensures InFlight(e) > 0 {
      CountPositive(e.threads, t, IsAwaiting);
    }
  }

  // ---------- Progress ----------

  /** Steps that need no new request, no polling, no new indication and no timeout. */
  predicate Internal(a: Action) {
    match a
    case Thread(_, doing) => !doing.Call? && !doing.Poll? && !doing.TimeOut? && !doing.TakeTimeOut?
    case Other(event) => !event.Emit?
  }

  /** Nothing is left to do but to wait for new requests, for indications, or for a stolen response. */
  ghost predicate Settled(s: State) {
    && s.device == [] && s.wire == [] && s.reader == Reading
    && forall t :: t in s.threads ==> s.threads[t].Idle? || (s.threads[t].Taking? && s.queue == [])
  }

  /** In a reachable state that is not settled some internal step is possible. */
  lemma SomeStepIsEnabled(s: State) returns (a: Action)
    requires Served(s) && !Settled(s)
    ensures Internal(a) && Enabled(s, a)
  {
    if s.device != [] { return Other(Answer); }
    match s.reader {
      case Routing(_) => return Other(Route);
      case Posting(_) => return Other(Post);
      case Enqueuing(_) => return Other(Enqueue);
      case Reading =>
    }
    if s.wire != [] { return Other(Read); }
    var t :| t in s.threads && !(s.threads[t].Idle? || (s.threads[t].Taking? && s.queue == []));
    match s.threads[t] {
      case Entering(_) =>
        if s.rpcSem > 0 { return Thread(t, Acquire); }
        var u := CountWitness(s.threads, Inside);
        a := InsideStep(s, u);
      case Taking(_) => return Thread(t, Take);
      case _ => a := InsideStep(s, t);
    }
  }

  lemma InsideStep(s: State, t: nat) returns (a: Action)
    requires Served(s) && t in s.threads && Inside(s.threads[t])
    requires s.device == [] && s.wire == [] && s.reader == Reading
    ensures Internal(a) && Enabled(s, a)
  {
    match s.threads[t] {
      case Building(_) => a := Thread(t, Note);
      case Writing(_) => a := Thread(t, Write);
      case Clearing(_, _) => a := Thread(t, Clear);
      case Leaving(_, _) => a := Thread(t, Release);
      case Awaiting(_) =>
        CountPositive(s.threads, t, IsAwaiting);
        a := Thread(t, Wake);
    }
  }

  const MAX_RANK := 12

  function Rank(pc: Pc): (n: nat)
    ensures n <= MAX_RANK
  {
    match pc
    case Entering(_) => 12
    case Building(_) => 11
    case Writing(_) => 10
    case Awaiting(_) => 4
    case Clearing(_, _) => 3
    case Leaving(_, _) => 2
    case Taking(_) => 1
    case Idle => 0
  }

  function ReaderRank(reader: Reader): nat {
    match reader
    case Routing(_) => 3
    case Posting(_) => 2
    case Enqueuing(_) => 1
    case Reading => 0
  }

  /** An upper bound for the work left. */
  ghost function Work(s: State): nat {
    RankSum(s.threads, Rank, MAX_RANK) + 5 * |s.device| + 4 * |s.wire| + ReaderRank(s.reader)
  }

  lemma WorkDecreases(s: State, a: Action)
    requires Internal(a) && Enabled(s, a)
    ensures Work(Step(s, a)) < Work(s)
  {
    match a
    case Other(event) =>
    case Thread(t, doing) => RankSumMove(s.threads, t, Step(s, a).threads[t], Rank, MAX_RANK);
  }

  /**
   * Every request comes to its end: after any disciplined run, internal steps alone can go on only a
   * bounded time, and where they cannot go on everything is settled.
   */
  lemma EveryRequestEnds(s: State, actions: seq<Action>, more: seq<Action>)
    requires Initial(s) && IsRun(s, actions)
    requires forall i :: 0 <= i < |actions| ==> Disciplined(actions[i])
    requires IsRun(Final(s, actions), more)
    requires forall i :: 0 <= i < |more| ==> Internal(more[i])
    ensures |more| <= Work(Final(s, actions))
    ensures (forall a :: Internal(a) ==> !Enabled(Final(Final(s, actions), more), a)) ==>
              Settled(Final(Final(s, actions), more))
  {
    ServedInitially(s);
    ServedOverRuns(s, actions);
    var e := Final(s, actions);
    ServedOverRuns(e, more);
    WorkBounds(e, more);
    if !Settled(Final(e, more)) {
      var a := SomeStepIsEnabled(Final(e, more));
    }
  }

  lemma {:induction false} WorkBounds(s: State, more: seq<Action>)
    requires IsRun(s, more)
    requires forall i :: 0 <= i < |more| ==> Internal(more[i])
    ensures |more| + Work(Final(s, more)) <= Work(s)
    decreases more
  {
    if more != [] {
      WorkDecreases(s, more[0]);
      WorkBounds(Step(s, more[0]), more[1..]);
    }
  }
}
