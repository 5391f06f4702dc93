/**
 * Requests and responses between application threads, the reader thread and the device, one shared
 * access a step. `rpcSem` admits one sender, `srspSem` wakes it, `expected` names the subsystem
 * whose response it waits for.
 */
module Handshake {
  import opened Bytes
  import opened Frames
  import opened Threads

  const NONE_EXPECTED: byte := 0xFF

  /** A request as a thread sends it; `id` tells requests apart and only the model sees it. */
  datatype Request = Request(cmd0: byte, id: nat) {
    predicate Sync() { CommandType(cmd0) == SREQ }

    /** The response of the device: same subsystem, response type. */
    function Reply(): Signal { Signal(SRSP | Subsystem(cmd0), id) }
  }

  /** A frame from the device; a response has the `id` of the request it answers. */
  datatype Signal = Signal(cmd0: byte, id: nat) {
    predicate IsResponse() { CommandType(cmd0) == SRSP }
  }

  /**
   * Where a thread is in a send and in the receive that follows a successful one. `Idle` is anywhere
   * else, so also inside the callback of an indication.
   */
  datatype Pc =
    | Idle
    | Entering(req: Request)
    | Building(req: Request)
    | Writing(req: Request)
    | Awaiting(req: Request)
    | Clearing(req: Request, woken: bool)
    | Leaving(req: Request, woken: bool)
    | Taking(req: Request)

  /** The reader has a frame: before the comparison, before the post, before the enqueueing. */
  datatype Reader = Reading | Routing(f: Signal) | Posting(f: Signal) | Enqueuing(f: Signal)

  datatype Slot = Empty | Holding(f: Signal)

  /**
   * `device` holds the synchronous requests the device has not answered; `posted`, `waits`,
   * `discards` and `begun` (a synchronous request has set `expected`) are histories.
   */
  datatype State = State(
    threads: map<nat, Pc>,
    rpcSem: nat,
    srspSem: nat,
    expected: byte,
    reader: Reader,
    device: seq<Request>,
    wire: seq<Signal>,
    queue: seq<Signal>,
    srspBuff: Slot,
    nextId: nat,
    posted: seq<Signal>,
    waits: nat,
    discards: nat,
    begun: bool
  )

  /** The steps of an application thread. */
  datatype Doing =
    | Call(cmd0: byte)
    | Acquire
    | Note
    | Write
    | Wake
    | TimeOut
    | Clear
    | Release
    | Take
    | TakeTimeOut
    | Poll

  /** The steps of the device and of the reader thread. */
  datatype Event = Answer | Emit(f: Signal) | Read | Route | Post | Enqueue

  datatype Action = Thread(t: nat, doing: Doing) | Other(event: Event)

  predicate ThreadEnabled(s: State, pc: Pc, doing: Doing) {
    match doing
    case Call(_) => pc.Idle?
    case Acquire => pc.Entering? && s.rpcSem > 0
    case Note => pc.Building?
    case Write => pc.Writing?
    case Wake => pc.Awaiting? && s.srspSem > 0
    case TimeOut => pc.Awaiting? && s.srspSem == 0
    case Clear => pc.Clearing?
    case Release => pc.Leaving?
    case Take => pc.Taking? && s.queue != []
    case TakeTimeOut => pc.Taking? && s.queue == []
    case Poll => pc.Idle? && s.queue != []
  }

  predicate OtherEnabled(s: State, event: Event) {
    match event
    case Answer => s.device != []
    case Emit(_) => true
    case Read => s.reader.Reading? && s.wire != []
    case Route => s.reader.Routing?
    case Post => s.reader.Posting?
    case Enqueue => s.reader.Enqueuing?
  }

  predicate Enabled(s: State, a: Action) {
    match a
    case Thread(t, doing) => t in s.threads && ThreadEnabled(s, s.threads[t], doing)
    case Other(event) => OtherEnabled(s, event)
  }

  /** Where the thread is after its step. */
  function NextPc(s: State, pc: Pc, doing: Doing): Pc
    requires ThreadEnabled(s, pc, doing)
  {
    match doing
    case Call(cmd0) => Entering(Request(cmd0, s.nextId))
    case Acquire => Building(pc.req)
    case Note => Writing(pc.req)
    case Write => if pc.req.Sync() then Awaiting(pc.req) else Leaving(pc.req, false)
    case Wake => Clearing(pc.req, true)
    case TimeOut => Clearing(pc.req, false)
    case Clear => Leaving(pc.req, pc.woken)
    case Release => if pc.woken then Taking(pc.req) else Idle
    case _ => Idle
  }

  /** Takes the message at the head and processes it; a response to the subsystems served is stored. */
  function Process(s: State): State
    requires s.queue != []
  {
    var m := s.queue[0];
    s.(queue := s.queue[1..], srspBuff := if StoresResponse(m.cmd0) then Holding(m) else s.srspBuff)
  }

  /** What the step of a thread at `pc` does to everything but the threads. */
  function Effect(s: State, pc: Pc, doing: Doing): State
    requires ThreadEnabled(s, pc, doing)
  {
    match doing
    case Call(_) => s.(nextId := s.nextId + 1)
    case Acquire => s.(rpcSem := s.rpcSem - 1)
    case Note => if pc.req.Sync() then s.(expected := Subsystem(pc.req.cmd0), begun := true) else s
    case Write => if pc.req.Sync() then s.(device := s.device + [pc.req]) else s
    case Wake => s.(srspSem := s.srspSem - 1, waits := s.waits + 1)
    case TimeOut => s
    case Clear => s.(expected := NONE_EXPECTED)
    case Release => s.(rpcSem := s.rpcSem + 1)
    case Take => Process(s)
    case TakeTimeOut => s
    case Poll => Process(s)
  }

  function OtherStep(s: State, event: Event): State
    requires OtherEnabled(s, event)
  {
    match event
    case Answer => s.(device := s.device[1..], wire := s.wire + [s.device[0].Reply()])
    case Emit(f) => s.(wire := s.wire + [f])
    case Read => s.(reader := Routing(s.wire[0]), wire := s.wire[1..])
    case Route =>
      var f := s.reader.f;
      if !f.IsResponse() then s.(reader := Enqueuing(f))
      else if s.expected == Subsystem(f.cmd0) then s.(reader := Posting(f))
      else s.(reader := Reading, discards := s.discards + 1)
    case Post => s.(reader := Enqueuing(s.reader.f), srspSem := s.srspSem + 1, posted := s.posted + [s.reader.f])
    case Enqueue =>
      var f := s.reader.f;
      s.(reader := Reading, queue := if f.IsResponse() then [f] + s.queue else s.queue + [f])
  }

  function Step(s: State, a: Action): State
    requires Enabled(s, a)
  {
    match a
    case Thread(t, doing) =>
      var pc := s.threads[t];
      Effect(s, pc, doing).(threads := s.threads[t := NextPc(s, pc, doing)])
    case Other(event) => OtherStep(s, event)
  }

  predicate Initial(s: State) {
    && (forall t :: t in s.threads ==> s.threads[t] == Idle)
    && s == State(s.threads, 1, 0, 0, Reading, [], [], [], Empty, 0, [], 0, 0, false)
  }

  predicate IsRun(s: State, actions: seq<Action>)
    decreases actions
  {
    actions == [] || (Enabled(s, actions[0]) && IsRun(Step(s, actions[0]), actions[1..]))
  }

  function Final(s: State, actions: seq<Action>): State
    requires IsRun(s, actions)
    decreases actions
  {
    if actions == [] then s else Final(Step(s, actions[0]), actions[1..])
  }

  // ---------- Conservation: any device, any timeouts ----------

  predicate Inside(pc: Pc) {
    pc.Building? || pc.Writing? || pc.Awaiting? || pc.Clearing? || pc.Leaving?
  }

  /** Between setting `expected` and clearing it. */
  predicate Expecting(pc: Pc) { (pc.Writing? || pc.Awaiting? || pc.Clearing?) && pc.req.Sync() }

  /** Only synchronous requests get to the wait. */
  predicate Typed(pc: Pc) { pc.Awaiting? || pc.Clearing? || pc.Taking? || (pc.Leaving? && pc.woken) ==> pc.req.Sync() }

  ghost predicate Conserved(s: State) {
    && s.rpcSem + Count(s.threads, Inside) == 1
    && s.srspSem + s.waits == |s.posted|
    && (forall t :: t in s.threads ==> Typed(s.threads[t]))
    && (forall t :: t in s.threads && Expecting(s.threads[t]) ==>
          s.begun && s.expected == Subsystem(s.threads[t].req.cmd0))
    && ((forall t :: t in s.threads ==> !Expecting(s.threads[t])) ==>
          s.expected == if s.begun then NONE_EXPECTED else 0)
  }

  /** Nobody but thread `t` is in the protected part. */
  ghost predicate Alone(s: State, t: nat) {
    forall u :: u in s.threads && u != t ==> !Inside(s.threads[u])
  }

  /** Its step keeps the sums. */
  lemma SumsAlone(s: State, t: nat, doing: Doing)
    requires Conserved(s) && Enabled(s, Thread(t, doing)) && Alone(s, t)
    ensures var s' := Step(s, Thread(t, doing));
            && s'.rpcSem + Count(s'.threads, Inside) == 1
            && s'.srspSem + s'.waits == |s'.posted|
            && (forall u :: u in s'.threads ==> Typed(s'.threads[u]))
  {
    CountMove(s.threads, t, NextPc(s, s.threads[t], doing), Inside);
  }

  /** Nobody else is between setting `expected` and clearing it. */
  lemma OnlyOneExpects(s: State, t: nat)
    requires t in s.threads && Alone(s, t)
    ensures forall u :: u in s.threads && u != t ==> !Expecting(s.threads[u])
  {
    forall u | u in s.threads && u != t ensures !Expecting(s.threads[u]) {
      assert !Inside(s.threads[u]);
    }
  }

  lemma ConservedAlone(s: State, t: nat, doing: Doing)
    requires Conserved(s) && Enabled(s, Thread(t, doing)) && Alone(s, t)
    ensures Conserved(Step(s, Thread(t, doing)))
  {
    var s' := Step(s, Thread(t, doing));
    SumsAlone(s, t, doing);
    OnlyOneExpects(s, t);
    assert forall u :: u in s'.threads && u != t ==> s'.threads[u] == s.threads[u];
    if Expecting(s'.threads[t]) {
      assert s'.begun && s'.expected == Subsystem(s'.threads[t].req.cmd0);
    }
  }

  lemma ConservedOutside(s: State, t: nat, doing: Doing)
    requires Conserved(s) && Enabled(s, Thread(t, doing))
    requires !Inside(s.threads[t]) && !doing.Acquire?
    ensures Conserved(Step(s, Thread(t, doing)))
  {
    var s' := Step(s, Thread(t, doing));
    CountMove(s.threads, t, s'.threads[t], Inside);
    forall u | u in s.threads && Expecting(s.threads[u]) ensures u in s'.threads && Expecting(s'.threads[u]) {}
  }

  lemma ConservedOther(s: State, event: Event)
    requires Conserved(s) && OtherEnabled(s, event)
    ensures Conserved(OtherStep(s, event))
  {
    assert OtherStep(s, event).threads == s.threads;
  }

  lemma InsiderIsAlone(s: State, t: nat)
    requires s.rpcSem + Count(s.threads, Inside) == 1 && t in s.threads
    requires Inside(s.threads[t]) || s.rpcSem > 0
    ensures Alone(s, t) && (Inside(s.threads[t]) ==> s.rpcSem == 0)
  {
    forall u | u in s.threads && u != t ensures !Inside(s.threads[u]) {
      if Inside(s.threads[u]) {
        CountPositive(s.threads, u, Inside);
        if Inside(s.threads[t]) { CountTwo(s.threads, u, t, Inside); }
      }
    }
    if Inside(s.threads[t]) { CountPositive(s.threads, t, Inside); }
  }

  lemma ConservedStep(s: State, a: Action)
    requires Conserved(s) && Enabled(s, a)
    ensures Conserved(Step(s, a))
  {
    match a
    case Other(event) => ConservedOther(s, event);
    case Thread(t, doing) =>
      if Inside(s.threads[t]) || doing.Acquire? {
        InsiderIsAlone(s, t);
        ConservedAlone(s, t, doing);
      } else {
        ConservedOutside(s, t, doing);
      }
  }

  lemma ConservedInitially(s: State)
    requires Initial(s)
    ensures Conserved(s)
  {
    assert At(s.threads, Inside) == {};
  }

  lemma {:induction false} ConservedOverRuns(s: State, actions: seq<Action>)
    requires Conserved(s) && IsRun(s, actions)
    ensures Conserved(Final(s, actions))
    decreases actions
  {
    if actions != [] {
      ConservedStep(s, actions[0]);
      ConservedOverRuns(Step(s, actions[0]), actions[1..]);
    }
  }

  /**
   * Whatever the device sends and whoever times out: the send semaphore and the sender inside make
   * one, tokens are posts minus successful waits, and once a synchronous request has been made a
   * response that comes while no such request is between setting and clearing `expected` is
   * thrown away.
   */
  lemma ConservationOverRuns(s: State, actions: seq<Action>)
    requires Initial(s) && IsRun(s, actions)
    ensures var e := Final(s, actions);
            && e.rpcSem + Count(e.threads, Inside) == 1
            && e.srspSem == |e.posted| - e.waits
            && (e.begun && (forall t :: t in e.threads ==> !Expecting(e.threads[t])) ==>
                  && e.expected == NONE_EXPECTED
                  && (e.reader.Routing? && e.reader.f.IsResponse() ==>
                        OtherStep(e, Route) == e.(reader := Reading, discards := e.discards + 1)))
  {
    ConservedInitially(s);
    ConservedOverRuns(s, actions);
    SubsystemsAreExpectable();
  }

  lemma SubsystemsAreExpectable()
    ensures forall cmd0: byte :: Subsystem(cmd0) != NONE_EXPECTED
  {}
}
