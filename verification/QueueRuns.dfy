/**
 * The message queue used by any number of threads at once. Every step is one thread's access to the
 * shared state: a semaphore operation, the test of `head`, or a list operation under the access
 * semaphore. A thread may add and receive in turn.
 */
module QueueRuns {
  import opened Bytes
  import opened Threads

  /** A message; `number` counts insertions and only the model sees it. */
  datatype Entry = Entry(number: nat, data: seq<byte>, prio: bool)

  datatype Pc =
    | Idle
    // adding
    | WantsToAdd(data: seq<byte>, prio: bool)
    | Adding(data: seq<byte>, prio: bool)
    | Added
    | WillCount
    // receiving
    | Waiting
    | HasToken
    | WantsToTake
    | Taking
    | Taken

  predicate HoldsAccess(pc: Pc) { pc.Adding? || pc.Added? || pc.Taking? || pc.Taken? }

  /** Inserted a message that the counting semaphore does not show yet. */
  predicate OwesCount(pc: Pc) { pc.Added? || pc.WillCount? }

  /** Passed the counting semaphore and has not removed its message yet. */
  predicate HasClaim(pc: Pc) { pc.HasToken? || pc.WantsToTake? || pc.Taking? }

  /**
   * `added` and `delivered` are the histories of insertions and removals; `emptyHanded` counts
   * receivers that passed the semaphore and found `head` null, and `crashed` tells that one of them
   * followed a null `head`.
   */
  datatype State = State(
    threads: map<nat, Pc>,
    list: seq<Entry>,
    accessSem: nat,
    countSem: nat,
    added: seq<Entry>,
    delivered: seq<Entry>,
    emptyHanded: nat,
    crashed: bool
  )

  datatype Action =
    | StartAdd(t: nat, data: seq<byte>, prio: bool)
    | LockToAdd(t: nat)
    | Insert(t: nat)
    | UnlockAfterAdd(t: nat)
    | PostCount(t: nat)
    | StartReceive(t: nat)
    | PassCount(t: nat)
    | TimeOut(t: nat)
    | TestHead(t: nat)
    | LockToTake(t: nat)
    | Remove(t: nat)
    | UnlockAfterTake(t: nat)

  predicate Enabled(s: State, a: Action) {
    a.t in s.threads &&
    var pc := s.threads[a.t];
    match a
    case StartAdd(_, _, _) => pc.Idle?
    case LockToAdd(_) => pc.WantsToAdd? && s.accessSem > 0
    case Insert(_) => pc.Adding?
    case UnlockAfterAdd(_) => pc.Added?
    case PostCount(_) => pc.WillCount?
    case StartReceive(_) => pc.Idle?
    case PassCount(_) => pc.Waiting? && s.countSem > 0
    case TimeOut(_) => pc.Waiting? && s.countSem == 0
    case TestHead(_) => pc.HasToken?
    case LockToTake(_) => pc.WantsToTake? && s.accessSem > 0
    case Remove(_) => pc.Taking?
    case UnlockAfterTake(_) => pc.Taken?
  }

  function Step(s: State, a: Action): State
    requires Enabled(s, a)
  {
    var pc := s.threads[a.t];
    match a
    case StartAdd(t, data, prio) => s.(threads := s.threads[t := WantsToAdd(data, prio)])
    case LockToAdd(t) => s.(threads := s.threads[t := Adding(pc.data, pc.prio)], accessSem := s.accessSem - 1)
    case Insert(t) =>
      var e := Entry(|s.added|, pc.data, pc.prio);
      s.(threads := s.threads[t := Added],
         list := if pc.prio then [e] + s.list else s.list + [e],
         added := s.added + [e])
    case UnlockAfterAdd(t) => s.(threads := s.threads[t := WillCount], accessSem := s.accessSem + 1)
    case PostCount(t) => s.(threads := s.threads[t := Idle], countSem := s.countSem + 1)
    case StartReceive(t) => s.(threads := s.threads[t := Waiting])
    case PassCount(t) => s.(threads := s.threads[t := HasToken], countSem := s.countSem - 1)
    case TimeOut(t) => s.(threads := s.threads[t := Idle])
    case TestHead(t) =>
      if s.list != [] then s.(threads := s.threads[t := WantsToTake])
      else s.(threads := s.threads[t := Idle], emptyHanded := s.emptyHanded + 1)
    case LockToTake(t) => s.(threads := s.threads[t := Taking], accessSem := s.accessSem - 1)
    case Remove(t) =>
      if s.list == [] then s.(threads := s.threads[t := Taken], crashed := true)
      else s.(threads := s.threads[t := Taken], list := s.list[1..], delivered := s.delivered + [s.list[0]])
    case UnlockAfterTake(t) => s.(threads := s.threads[t := Idle], accessSem := s.accessSem + 1)
  }

  /** All threads idle and the queue just opened. */
  predicate Initial(s: State) {
    && (forall t :: t in s.threads ==> s.threads[t] == Idle)
    && s == State(s.threads, [], 1, 0, [], [], 0, false)
  }

  predicate IsRun(s: State, actions: seq<Action>)
    decreases actions
  {
    actions == [] || (Enabled(s, actions[0]) && IsRun(Step(s, actions[0]), actions[1..]))
  }

  function Final(s: State, actions: seq<Action>): State
    requires IsRun(s, actions)
    decreases actions
  {
    if actions == [] then s else Final(Step(s, actions[0]), actions[1..])
  }

  // ---------- Tokens ----------

  ghost predicate Tokens(s: State) {
    && s.accessSem + Count(s.threads, HoldsAccess) == 1
    && |s.list| == s.countSem + Count(s.threads, OwesCount) + Count(s.threads, HasClaim)
    && s.emptyHanded == 0
    && !s.crashed
  }

  lemma TokensStep(s: State, a: Action)
    requires Tokens(s) && Enabled(s, a)
    ensures Tokens(Step(s, a))
  {
    var pc := Step(s, a).threads[a.t];
    CountMove(s.threads, a.t, pc, HoldsAccess);
    CountMove(s.threads, a.t, pc, OwesCount);
    CountMove(s.threads, a.t, pc, HasClaim);
    if HasClaim(s.threads[a.t]) {
      CountPositive(s.threads, a.t, HasClaim);
    }
  }

  lemma TokensInitially(s: State)
    requires Initial(s)
    ensures Tokens(s)
  {
    assert At(s.threads, HoldsAccess) == {};
    assert At(s.threads, OwesCount) == {};
    assert At(s.threads, HasClaim) == {};
  }

  // ---------- Order and conservation ----------

  function Ordinary(s: seq<Entry>): seq<Entry> {
    if s == [] then []
    else if s[|s| - 1].prio then Ordinary(s[..|s| - 1])
    else Ordinary(s[..|s| - 1]) + [s[|s| - 1]]
  }

  /** Priority messages, newest first, and then ordinary messages. */
  ghost predicate TwoClasses(list: seq<Entry>, split: nat) {
    && split <= |list|
    && (forall i :: 0 <= i < split ==> list[i].prio)
    && (forall i :: split <= i < |list| ==> !list[i].prio)
    && (forall i, j :: 0 <= i < j < split ==> list[i].number > list[j].number)
  }

  /**
   * The list is in two classes; the ordinary messages delivered and those still queued are the
   * ordinary messages added, in their order of arrival; and nothing is lost or doubled.
   */
  ghost predicate OrderedLists(added: seq<Entry>, delivered: seq<Entry>, list: seq<Entry>) {
    (exists split: nat :: InTurn(added, delivered, list, split)) && Numbered(added, delivered, list)
  }

  /** Nothing is lost or doubled, and the numbers stay what they are. */
  ghost predicate Numbered(added: seq<Entry>, delivered: seq<Entry>, list: seq<Entry>) {
    && (forall i :: 0 <= i < |list| ==> list[i].number < |added|)
    && (forall i :: 0 <= i < |added| ==> added[i].number == i)
    && multiset(delivered) + multiset(list) == multiset(added)
  }

  ghost predicate InTurn(added: seq<Entry>, delivered: seq<Entry>, list: seq<Entry>, split: nat) {
    TwoClasses(list, split) && Ordinary(added) == Ordinary(delivered) + list[split..]
  }

  ghost predicate Ordered(s: State) { OrderedLists(s.added, s.delivered, s.list) }

  lemma OrdinaryAppend(s: seq<Entry>, e: Entry)
    ensures Ordinary(s + [e]) == if e.prio then Ordinary(s) else Ordinary(s) + [e]
  {
    assert (s + [e])[..|s|] == s;
  }

  lemma TwoClassesInsert(list: seq<Entry>, split: nat, e: Entry)
    requires TwoClasses(list, split)
    requires forall i :: 0 <= i < |list| ==> list[i].number < e.number
    ensures e.prio ==> TwoClasses([e] + list, split + 1)
    ensures !e.prio ==> TwoClasses(list + [e], split)
  {}

  lemma InTurnInsertPriority(added: seq<Entry>, delivered: seq<Entry>, list: seq<Entry>, split: nat, e: Entry)
    requires InTurn(added, delivered, list, split) && e.prio
    requires forall i :: 0 <= i < |list| ==> list[i].number < e.number
    ensures InTurn(added + [e], delivered, [e] + list, split + 1)
  {
    TwoClassesInsert(list, split, e);
    OrdinaryAppend(added, e);
    DropFromCons(e, list, split);
  }

  lemma InTurnInsertOrdinary(added: seq<Entry>, delivered: seq<Entry>, list: seq<Entry>, split: nat, e: Entry)
    requires InTurn(added, delivered, list, split) && !e.prio
    requires forall i :: 0 <= i < |list| ==> list[i].number < e.number
    ensures InTurn(added + [e], delivered, list + [e], split)
  {
    TwoClassesInsert(list, split, e);
    OrdinaryAppend(added, e);
    AppendBehind(Ordinary(delivered), list, split, e);
  }

  lemma DropFromCons(e: Entry, list: seq<Entry>, split: nat)
    requires split <= |list|
    ensures ([e] + list)[split + 1..] == list[split..]
  {}

  lemma AppendBehind(front: seq<Entry>, list: seq<Entry>, split: nat, e: Entry)
    requires split <= |list|
    ensures front + (list + [e])[split..] == front + list[split..] + [e]
  {}

  lemma InTurnRemovePriority(added: seq<Entry>, delivered: seq<Entry>, list: seq<Entry>, split: nat)
    requires InTurn(added, delivered, list, split) && split > 0
    ensures InTurn(added, delivered + [list[0]], list[1..], split - 1)
  {
    OrdinaryAppend(delivered, list[0]);
    assert list[1..][split - 1..] == list[split..];
  }

  lemma InTurnRemoveOrdinary(added: seq<Entry>, delivered: seq<Entry>, list: seq<Entry>)
    requires InTurn(added, delivered, list, 0) && list != []
    ensures InTurn(added, delivered + [list[0]], list[1..], 0)
  {
    OrdinaryAppend(delivered, list[0]);
    var shorter := list[1..];
    assert list[0..] == [list[0]] + shorter && shorter[0..] == shorter;
    assert Ordinary(delivered) + ([list[0]] + shorter) == (Ordinary(delivered) + [list[0]]) + shorter;
  }

  lemma OrderedInsert(added: seq<Entry>, delivered: seq<Entry>, list: seq<Entry>, e: Entry)
    requires OrderedLists(added, delivered, list) && e.number == |added|
    ensures e.prio ==> OrderedLists(added + [e], delivered, [e] + list)
    ensures !e.prio ==> OrderedLists(added + [e], delivered, list + [e])
  {
    var split: nat :| InTurn(added, delivered, list, split);
    if e.prio {
      InTurnInsertPriority(added, delivered, list, split, e);
      NumbersInsert(added, delivered, list, [e] + list, e);
    } else {
      InTurnInsertOrdinary(added, delivered, list, split, e);
      NumbersInsert(added, delivered, list, list + [e], e);
    }
  }

  lemma NumbersInsert(added: seq<Entry>, delivered: seq<Entry>, list: seq<Entry>, longer: seq<Entry>, e: Entry)
    requires Numbered(added, delivered, list) && e.number == |added|
    requires longer == [e] + list || longer == list + [e]
    ensures Numbered(added + [e], delivered, longer)
  {
    assert multiset(longer) == multiset(list) + multiset([e]);
  }

  lemma OrderedRemove(added: seq<Entry>, delivered: seq<Entry>, list: seq<Entry>)
    requires OrderedLists(added, delivered, list) && list != []
    ensures OrderedLists(added, delivered + [list[0]], list[1..])
  {
    var split: nat :| InTurn(added, delivered, list, split);
    if split > 0 {
      InTurnRemovePriority(added, delivered, list, split);
    } else {
      InTurnRemoveOrdinary(added, delivered, list);
    }
    NumbersRemove(added, delivered, list);
  }

  lemma NumbersRemove(added: seq<Entry>, delivered: seq<Entry>, list: seq<Entry>)
    requires Numbered(added, delivered, list) && list != []
    ensures Numbered(added, delivered + [list[0]], list[1..])
  {
    assert list == [list[0]] + list[1..];
  }

  lemma OrderedStep(s: State, a: Action)
    requires Ordered(s) && Enabled(s, a)
    ensures Ordered(Step(s, a))
  {
    if a.Insert? {
      var pc := s.threads[a.t];
      OrderedInsert(s.added, s.delivered, s.list, Entry(|s.added|, pc.data, pc.prio));
    } else if a.Remove? && s.list != [] {
      OrderedRemove(s.added, s.delivered, s.list);
    }
  }

  lemma OrderedInitially(s: State)
    requires Initial(s)
    ensures Ordered(s)
  {
    assert InTurn(s.added, s.delivered, s.list, 0);
  }

  // ---------- All runs ----------

  lemma {:induction false} InvariantOverRuns(s: State, actions: seq<Action>)
    requires Tokens(s) && Ordered(s) && IsRun(s, actions)
    ensures Tokens(Final(s, actions)) && Ordered(Final(s, actions))
    decreases actions
  {
    if actions != [] {
      TokensStep(s, actions[0]);
      OrderedStep(s, actions[0]);
      InvariantOverRuns(Step(s, actions[0]), actions[1..]);
    }
  }

  /**
   * In every run: the list is as long as the count plus the insertions not yet counted plus the
   * claims not yet served, so no receiver with a claim meets an empty list, and what was delivered
   * and what is queued make up what was added.
   */
  lemma NoReceiverIsEmptyHanded(s: State, actions: seq<Action>)
    requires Initial(s) && IsRun(s, actions)
    ensures var e := Final(s, actions);
            && |e.list| == e.countSem + Count(e.threads, OwesCount) + Count(e.threads, HasClaim)
            && e.emptyHanded == 0 && !e.crashed
            && (forall t :: t in e.threads && HasClaim(e.threads[t]) ==> e.list != [])
            && multiset(e.delivered) + multiset(e.list) == multiset(e.added)
  {
    TokensInitially(s);
    OrderedInitially(s);
    InvariantOverRuns(s, actions);
    var e := Final(s, actions);
    forall t | t in e.threads && HasClaim(e.threads[t]) ensures e.list != [] {
      CountPositive(e.threads, t, HasClaim);
    }
  }

  /**
   * In every run, the ordinary messages delivered are a prefix of those added, and a removal takes
   * an ordinary message only if no priority message is queued; of priority messages it takes the
   * one inserted last.
   */
  lemma PriorityThenArrivalOrder(s: State, actions: seq<Action>, t: nat)
    requires Initial(s) && IsRun(s, actions) && Enabled(Final(s, actions), Remove(t))
    ensures var e := Final(s, actions);
            && Ordinary(e.delivered) <= Ordinary(e.added)
            && e.list != []
            && Step(e, Remove(t)).delivered == e.delivered + [e.list[0]]
            && forall i :: 1 <= i < |e.list| && e.list[i].prio ==>
                 e.list[0].prio && e.list[0].number > e.list[i].number
  {
    NoReceiverIsEmptyHanded(s, actions);
    TokensInitially(s);
    OrderedInitially(s);
    InvariantOverRuns(s, actions);
    HeadIsNext(Final(s, actions));
  }

  lemma HeadIsNext(e: State)
    requires Ordered(e) && e.list != []
    ensures Ordinary(e.delivered) <= Ordinary(e.added)
    ensures forall i :: 1 <= i < |e.list| && e.list[i].prio ==>
              e.list[0].prio && e.list[0].number > e.list[i].number
  {}

  /** The access semaphore admits one thread at a time. */
  lemma MutualExclusion(s: State, actions: seq<Action>, t: nat, u: nat)
    requires Initial(s) && IsRun(s, actions)
    requires var e := Final(s, actions);
             t in e.threads && u in e.threads && HoldsAccess(e.threads[t]) && HoldsAccess(e.threads[u])
    ensures t == u
  {
    TokensInitially(s);
    OrderedInitially(s);
    InvariantOverRuns(s, actions);
    if t != u {
      CountTwo(Final(s, actions).threads, t, u, HoldsAccess);
    }
  }

  // ---------- What undisturbed calls do, and that calls can go on ----------

  lemma OneStep(s: State, a: Action, others: seq<Action>)
    requires Enabled(s, a)
    ensures IsRun(s, [a] + others) <==> IsRun(Step(s, a), others)
    ensures IsRun(s, [a] + others) ==> Final(s, [a] + others) == Final(Step(s, a), others)
  {
    assert ([a] + others)[1..] == others;
  }

  lemma ThreeSteps(s: State, a: Action, b: Action, c: Action, others: seq<Action>, s1: State, s2: State)
    requires Enabled(s, a) && s1 == Step(s, a) && Enabled(s1, b) && s2 == Step(s1, b) && Enabled(s2, c)
    ensures IsRun(s, [a, b, c] + others) <==> IsRun(Step(s2, c), others)
    ensures IsRun(s, [a, b, c] + others) ==> Final(s, [a, b, c] + others) == Final(Step(s2, c), others)
  {
    var last, both := [c] + others, [b] + ([c] + others);
    assert [a, b, c] + others == [a] + both;
    OneStep(s, a, both);
    OneStep(s1, b, last);
    OneStep(s2, c, others);
  }

  function AddCall(t: nat, data: seq<byte>, prio: bool): seq<Action> {
    [StartAdd(t, data, prio), LockToAdd(t), Insert(t)] + [UnlockAfterAdd(t), PostCount(t)]
  }

  function ReceiveCall(t: nat): seq<Action> {
    [StartReceive(t), PassCount(t), TestHead(t)] + [LockToTake(t), Remove(t), UnlockAfterTake(t)]
  }

  /** An addition that nobody disturbs: this message, at the end that its priority says, and one token more. */
  lemma AddAlone(s: State, t: nat, data: seq<byte>, prio: bool)
    requires t in s.threads && s.threads[t] == Idle && s.accessSem > 0
    ensures IsRun(s, AddCall(t, data, prio))
    ensures var e, m := Final(s, AddCall(t, data, prio)), Entry(|s.added|, data, prio);
            && e.list == (if prio then [m] + s.list else s.list + [m]) && e.added == s.added + [m]
            && e.countSem == s.countSem + 1 && e.accessSem == s.accessSem
            && e.threads == s.threads && e.delivered == s.delivered
  {
    var s2, s3 := Inserted(s, t, data, prio);
    ThreeSteps(s, StartAdd(t, data, prio), LockToAdd(t), Insert(t), [UnlockAfterAdd(t), PostCount(t)],
               Step(s, StartAdd(t, data, prio)), s2);
    Counted(s3, t);
    assert s.threads[t := Idle] == s.threads;
  }

  lemma Inserted(s: State, t: nat, data: seq<byte>, prio: bool) returns (s2: State, s3: State)
    requires t in s.threads && s.threads[t] == Idle && s.accessSem > 0
    ensures Enabled(s, StartAdd(t, data, prio)) && Enabled(Step(s, StartAdd(t, data, prio)), LockToAdd(t))
    ensures s2 == Step(Step(s, StartAdd(t, data, prio)), LockToAdd(t))
    ensures Enabled(s2, Insert(t)) && s3 == Step(s2, Insert(t))
    ensures var m := Entry(|s.added|, data, prio);
            s3 == s.(threads := s.threads[t := Added], accessSem := s.accessSem - 1, added := s.added + [m],
                     list := if prio then [m] + s.list else s.list + [m])
    ensures s3.threads[t := Idle] == s.threads[t := Idle]
  {
    s2 := Step(Step(s, StartAdd(t, data, prio)), LockToAdd(t));
    s3 := Step(s2, Insert(t));
    assert s3.threads == s.threads[t := Added];
  }

  lemma Counted(s: State, t: nat)
    requires t in s.threads && s.threads[t] == Added
    ensures IsRun(s, [UnlockAfterAdd(t), PostCount(t)])
    ensures Final(s, [UnlockAfterAdd(t), PostCount(t)])
         == s.(threads := s.threads[t := Idle], accessSem := s.accessSem + 1, countSem := s.countSem + 1)
  {
    var s1 := Step(s, UnlockAfterAdd(t));
    assert [UnlockAfterAdd(t), PostCount(t)] == [UnlockAfterAdd(t)] + [PostCount(t)];
    assert [PostCount(t)] == [PostCount(t)] + [];
    OneStep(s, UnlockAfterAdd(t), [PostCount(t)]);
    OneStep(s1, PostCount(t), []);
    assert s.threads[t := WillCount][t := Idle] == s.threads[t := Idle];
  }

  /** A reception that nobody disturbs: the message at the head, and one token less. */
  lemma ReceiveAlone(s: State, t: nat)
    requires t in s.threads && s.threads[t] == Idle && s.accessSem > 0 && s.countSem > 0 && s.list != []
    ensures IsRun(s, ReceiveCall(t))
    ensures var e := Final(s, ReceiveCall(t));
            && [s.list[0]] + e.list == s.list && e.delivered == s.delivered + [s.list[0]]
            && e.countSem == s.countSem - 1 && e.accessSem == s.accessSem
            && e.threads == s.threads && e.added == s.added && e.emptyHanded == s.emptyHanded
  {
    var s2, s3 := Claimed(s, t);
    ThreeSteps(s, StartReceive(t), PassCount(t), TestHead(t), [LockToTake(t), Remove(t), UnlockAfterTake(t)],
               Step(s, StartReceive(t)), s2);
    Removed(s3, t);
    assert s.threads[t := Idle] == s.threads;
  }

  lemma Claimed(s: State, t: nat) returns (s2: State, s3: State)
    requires t in s.threads && s.threads[t] == Idle && s.countSem > 0 && s.list != []
    ensures Enabled(s, StartReceive(t)) && Enabled(Step(s, StartReceive(t)), PassCount(t))
    ensures s2 == Step(Step(s, StartReceive(t)), PassCount(t))
    ensures Enabled(s2, TestHead(t)) && s3 == Step(s2, TestHead(t))
    ensures s3 == s.(threads := s.threads[t := WantsToTake], countSem := s.countSem - 1)
    ensures s3.threads[t := Idle] == s.threads[t := Idle]
  {
    s2 := Step(Step(s, StartReceive(t)), PassCount(t));
    s3 := Step(s2, TestHead(t));
    assert s3.threads == s.threads[t := WantsToTake];
  }

  lemma Removed(s: State, t: nat)
    requires t in s.threads && s.threads[t] == WantsToTake && s.accessSem > 0 && s.list != []
    ensures IsRun(s, [LockToTake(t), Remove(t), UnlockAfterTake(t)])
    ensures Final(s, [LockToTake(t), Remove(t), UnlockAfterTake(t)])
         == s.(threads := s.threads[t := Idle], list := s.list[1..], delivered := s.delivered + [s.list[0]])
  {
    var s1 := Step(s, LockToTake(t));
    var s2 := Step(s1, Remove(t));
    assert [LockToTake(t), Remove(t), UnlockAfterTake(t)] == [LockToTake(t)] + ([Remove(t)] + [UnlockAfterTake(t)]);
    assert [UnlockAfterTake(t)] == [UnlockAfterTake(t)] + [];
    OneStep(s, LockToTake(t), [Remove(t)] + [UnlockAfterTake(t)]);
    OneStep(s1, Remove(t), [UnlockAfterTake(t)]);
    OneStep(s2, UnlockAfterTake(t), []);
    assert s.threads[t := Taking][t := Taken][t := Idle] == s.threads[t := Idle];
  }

  /** The step of its call that thread `t` takes next. */
  function NextOf(s: State, t: nat): Action
    requires t in s.threads && !s.threads[t].Idle?
  {
    match s.threads[t]
    case WantsToAdd(_, _) => LockToAdd(t)
    case Adding(_, _) => Insert(t)
    case Added => UnlockAfterAdd(t)
    case WillCount => PostCount(t)
    case Waiting => if s.countSem > 0 then PassCount(t) else TimeOut(t)
    case HasToken => TestHead(t)
    case WantsToTake => LockToTake(t)
    case Taking => Remove(t)
    case Taken => UnlockAfterTake(t)
  }

  /**
   * There is no deadlock: while any thread is in a call, in any run, that thread can take its next
   * step, or the one that holds the access semaphore can.
   */
  lemma SomeoneCanGoOn(s: State, actions: seq<Action>, t: nat) returns (u: nat)
    requires Initial(s) && IsRun(s, actions)
    requires var e := Final(s, actions); t in e.threads && !e.threads[t].Idle?
    ensures var e := Final(s, actions);
            && u in e.threads && !e.threads[u].Idle? && Enabled(e, NextOf(e, u))
            && (u != t ==> HoldsAccess(e.threads[u]))
  {
    TokensInitially(s);
    OrderedInitially(s);
    InvariantOverRuns(s, actions);
    var e := Final(s, actions);
    u := t;
    if !Enabled(e, NextOf(e, t)) {
      u := CountWitness(e.threads, HoldsAccess);
    }
  }
}
