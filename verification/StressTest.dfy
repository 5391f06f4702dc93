/**
 * The accounting of the stress test: in every round each node gets a sequence number, eight bits
 * wide, and sends it back; a number that has not come back by the node's next turn is an error.
 */
module StressTest {
  import opened Bytes

  const MAX_TEST_NODES := 10
  const TEST_CLUSTER: word := 6
  const COUNTER := 0x1_0000_0000

  /** A row of the table; address 0 marks a free row. */
  datatype TestNode = TestNode(nodeAddr: word, txSeqNum: byte, rxSeqNum: byte, passCnt: nat, errorCnt: nat)

  /** In a pause the echo of a row arrives, or a device announces itself. */
  datatype Event = Echo(k: nat) | Joins(addr: word)

  /**
   * The rows are taken in turn, round after round; turn `10 * r + j` is that of row `j` in round `r`.
   * For each turn, what happens after it and before the next one, in this order.
   */
  type Events = nat -> seq<Event>

  // ---------- What a turn does to the table ----------

  /** The judgement on the last number and the next number. */
  function Judged(node: TestNode): TestNode {
    var judged :=
      if node.txSeqNum != node.rxSeqNum
      then node.(txSeqNum := 0, rxSeqNum := 0, errorCnt := (node.errorCnt + 1) % COUNTER)
      else node.(passCnt := (node.passCnt + 1) % COUNTER);
    judged.(txSeqNum := judged.txSeqNum + 1)
  }

  predicate IsFirstFor(rows: seq<TestNode>, k: nat, addr: word) {
    k < |rows| && rows[k].nodeAddr == addr && forall j :: 0 <= j < k ==> rows[j].nodeAddr != addr
  }

  /** The first row for this address; if there is none, the number of rows. */
  function FirstFor(rows: seq<TestNode>, addr: word): (k: nat)
    ensures k <= |rows| && (k < |rows| ==> rows[k].nodeAddr == addr)
    ensures forall j :: 0 <= j < k ==> rows[j].nodeAddr != addr
  {
    if rows == [] || rows[0].nodeAddr == addr then 0
    else
      var k := FirstFor(rows[1..], addr);
      assert forall j :: 1 <= j < k + 1 ==> rows[j] == rows[1..][j - 1];
      k + 1
  }

  /** A number from `addr` goes to the first row with that address. */
  function Echoed(rows: seq<TestNode>, addr: word, seqNum: byte): (r: seq<TestNode>)
    ensures |r| == |rows|
  {
    var k := FirstFor(rows, addr);
    if k < |rows| then rows[k := rows[k].(rxSeqNum := seqNum)] else rows
  }

  /** The node of row `k` echoes the number it was sent last. */
  function EchoOf(rows: seq<TestNode>, k: nat): (r: seq<TestNode>)
    ensures |r| == |rows|
  {
    if k < |rows| && rows[k].nodeAddr != 0 then Echoed(rows, rows[k].nodeAddr, rows[k].txSeqNum) else rows
  }

  /** The table after a device has announced itself. */
  function Announced(rows: seq<TestNode>, addr: word): (r: seq<TestNode>)
    ensures |r| == |rows|
  {
    var k := FirstFor(rows, 0);
    if k < |rows| then rows[k := rows[k].(txSeqNum := 0, rxSeqNum := 0, nodeAddr := addr)] else rows
  }

  function Happened(rows: seq<TestNode>, e: Event): (r: seq<TestNode>)
    ensures |r| == |rows|
  {
    match e
    case Echo(k) => EchoOf(rows, k)
    case Joins(addr) => Announced(rows, addr)
  }

  /** The first `n` of these events. */
  function Heard(rows: seq<TestNode>, events: seq<Event>, n: nat): (r: seq<TestNode>)
    requires n <= |events|
    ensures |r| == |rows|
  {
    if n == 0 then rows else Happened(Heard(rows, events, n - 1), events[n - 1])
  }

  function Turned(rows: seq<TestNode>, k: nat): (r: seq<TestNode>)
    requires k < |rows|
    ensures |r| == |rows|
  { if rows[k].nodeAddr == 0 then rows else rows[k := Judged(rows[k])] }

  /** The table in round `r` after the turns of the first `j` rows. */
  function After(rows: seq<TestNode>, events: Events, r: nat, j: nat): (s: seq<TestNode>)
    requires j <= |rows|
    ensures |s| == |rows|
    decreases r, j
  {
    if j > 0 then
      var pause := events(10 * r + j - 1);
      Heard(Turned(After(rows, events, r, j - 1), j - 1), pause, |pause|)
    else if r > 0 then After(rows, events, r - 1, |rows|)
    else rows
  }

  lemma AfterTurn(rows: seq<TestNode>, events: Events, r: nat, j: nat)
    requires j < |rows|
    ensures var pause := events(10 * r + j);
            After(rows, events, r, j + 1) == Heard(Turned(After(rows, events, r, j), j), pause, |pause|)
  {}

  // ---------- Addresses ----------

  /** No two rows are for the same node. */
  predicate Distinct(rows: seq<TestNode>) {
    forall j, k :: 0 <= j < k < |rows| && rows[j].nodeAddr == rows[k].nodeAddr ==> rows[j].nodeAddr == 0
  }

  /** Rows in use stay in use, for the same node. */
  predicate Grows(rows: seq<TestNode>, rows': seq<TestNode>) {
    && |rows| == |rows'|
    && forall k :: 0 <= k < |rows| && rows[k].nodeAddr != 0 ==> rows'[k].nodeAddr == rows[k].nodeAddr
  }

  lemma {:induction false} HeardGrows(rows: seq<TestNode>, events: seq<Event>, m: nat, n: nat)
    requires m <= n <= |events|
    ensures Grows(Heard(rows, events, m), Heard(rows, events, n))
  {
    if m < n { HeardGrows(rows, events, m, n - 1); }
  }

  lemma TurnGrows(rows: seq<TestNode>, k: nat, events: seq<Event>)
    requires k < |rows|
    ensures Grows(rows, Heard(Turned(rows, k), events, |events|))
  {
    HeardGrows(Turned(rows, k), events, 0, |events|);
  }

  lemma NextGrows(rows: seq<TestNode>, events: Events, r: nat, j: nat)
    requires j < |rows|
    ensures Grows(After(rows, events, r, j), After(rows, events, r, j + 1))
  {
    AfterTurn(rows, events, r, j);
    TurnGrows(After(rows, events, r, j), j, events(10 * r + j));
  }

  lemma RoundEnds(rows: seq<TestNode>, events: Events, r: nat, n: nat)
    requires n == |rows|
    ensures After(rows, events, r + 1, 0) == After(rows, events, r, n)
  {}

  lemma GrowsTwice(a: seq<TestNode>, b: seq<TestNode>, c: seq<TestNode>)
    requires Grows(a, b) && Grows(b, c)
    ensures Grows(a, c)
  {}

  /** The tables of a run, by round and turn. */
  type Course = (nat, nat) -> seq<TestNode>

  ghost predicate TurnKeeps(tables: Course, r: nat, j: nat) { Grows(tables(r, j), tables(r, j + 1)) }

  ghost predicate RoundKeeps(tables: Course, r: nat, n: nat) { tables(r + 1, 0) == tables(r, n) }

  lemma {:induction false} GrowsAlong(tables: Course, n: nat, r: nat, j: nat, r': nat, j': nat)
    requires forall r, j: nat :: j < n ==> TurnKeeps(tables, r, j)
    requires forall r: nat :: RoundKeeps(tables, r, n)
    requires j <= n && j' <= n && (r < r' || (r == r' && j <= j'))
    ensures Grows(tables(r, j), tables(r', j'))
    decreases r', j'
  {
    if r < r' || j < j' {
      if j' > 0 {
        GrowsAlong(tables, n, r, j, r', j' - 1);
        assert TurnKeeps(tables, r', j' - 1);
        GrowsTwice(tables(r, j), tables(r', j' - 1), tables(r', j'));
      } else {
        GrowsAlong(tables, n, r, j, r' - 1, n);
        assert RoundKeeps(tables, r' - 1, n);
      }
    }
  }

  lemma AfterGrows(rows: seq<TestNode>, events: Events, r: nat, j: nat, r': nat, j': nat)
    requires j <= |rows| && j' <= |rows| && (r < r' || (r == r' && j <= j'))
    ensures Grows(After(rows, events, r, j), After(rows, events, r', j'))
  {
    var tables: Course := (r: nat, j: nat) => if j <= |rows| then After(rows, events, r, j) else rows;
    forall r, j: nat | j < |rows| ensures TurnKeeps(tables, r, j) {
      NextGrows(rows, events, r, j);
    }
    forall r: nat ensures RoundKeeps(tables, r, |rows|) {
      RoundEnds(rows, events, r, |rows|);
    }
    GrowsAlong(tables, |rows|, r, j, r', j');
  }

  lemma DistinctBefore(rows: seq<TestNode>, rows': seq<TestNode>)
    requires Grows(rows, rows') && Distinct(rows')
    ensures Distinct(rows)
  {}

  // ---------- The accounting ----------

  /** An echo of row `k` arrives after a turn from `from` up to `to`. */
  predicate Returned(events: Events, k: nat, from: nat, to: nat) {
    exists t :: from <= t < to && Echo(k) in events(t)
  }

  /** How many echoes of row `k` do not arrive before the node's next turn, of the rounds from `r0` up to `n`. */
  function Lost(events: Events, k: nat, r0: nat, n: nat): (lost: nat)
    ensures r0 <= n ==> lost <= n - r0
  {
    if n <= r0 then 0
    else Lost(events, k, r0, n - 1) + if Returned(events, k, 10 * (n - 1) + k, 10 * n + k) then 0 else 1
  }

  /** How many turns row `k` has had by then. */
  function Turns(r: nat, j: nat, k: nat): nat { if k < j then r + 1 else r }

  /** Nothing sent and nothing counted yet. */
  predicate Blank(node: TestNode) { node == TestNode(node.nodeAddr, 0, 0, 0, 0) }

  predicate Cleared(rows: seq<TestNode>) {
    forall k :: 0 <= k < |rows| ==> Blank(rows[k])
  }

  /** With one row a node, its echo sets that row's number and changes no row of another node. */
  lemma EchoHitsItsRow(rows: seq<TestNode>, j: nat, k: nat)
    requires Distinct(rows) && k < |rows| && rows[k].nodeAddr != 0
    ensures EchoOf(rows, j)[k] == if j == k then rows[k].(rxSeqNum := rows[k].txSeqNum) else rows[k]
  {
    if j == k {
      assert IsFirstFor(rows, k, rows[k].nodeAddr);
    }
  }

  lemma {:induction false} HeardRow(rows: seq<TestNode>, events: seq<Event>, n: nat, k: nat)
    requires n <= |events| && k < |rows| && rows[k].nodeAddr != 0 && Distinct(Heard(rows, events, n))
    ensures Heard(rows, events, n)[k]
         == if Echo(k) in events[..n] then rows[k].(rxSeqNum := rows[k].txSeqNum) else rows[k]
  {
    if n > 0 {
      HeardGrows(rows, events, n - 1, n);
      HeardGrows(rows, events, 0, n - 1);
      var before := Heard(rows, events, n - 1);
      DistinctBefore(before, Heard(rows, events, n));
      HeardRow(rows, events, n - 1, k);
      if events[n - 1].Echo? { EchoHitsItsRow(before, events[n - 1].k, k); }
      TakeOneMore(events, n);
    }
  }

  /** What happens in a pause leaves a row blank that has not had a turn. */
  lemma {:induction false} HeardBlank(rows: seq<TestNode>, events: seq<Event>, n: nat, k: nat)
    requires n <= |events| && k < |rows| && Blank(rows[k]) && Distinct(Heard(rows, events, n))
    ensures Blank(Heard(rows, events, n)[k])
  {
    if n > 0 {
      HeardGrows(rows, events, n - 1, n);
      var before := Heard(rows, events, n - 1);
      DistinctBefore(before, Heard(rows, events, n));
      HeardBlank(rows, events, n - 1, k);
      if before[k].nodeAddr != 0 && events[n - 1].Echo? { EchoHitsItsRow(before, events[n - 1].k, k); }
    }
  }

  /**
   * A row whose first turn in use is that of round `r0`: blank before, and then the last number is
   * back exactly if its echo has come.
   */
  predicate Accounted(node: TestNode, events: Events, k: nat, r: nat, j: nat, r0: nat) {
    var turns := Turns(r, j, k);
    if turns <= r0 then Blank(node)
    else
      && (if Returned(events, k, 10 * (turns - 1) + k, 10 * r + j) then node.txSeqNum == node.rxSeqNum
          else node.txSeqNum == node.rxSeqNum + 1)
      && node.errorCnt == Lost(events, k, r0, turns - 1)
      && node.passCnt + node.errorCnt == turns - r0
  }

  lemma ReturnedStep(events: Events, k: nat, from: nat, t: nat)
    requires from <= t
    ensures Returned(events, k, from, t + 1) <==> Returned(events, k, from, t) || Echo(k) in events(t)
  {
    if Echo(k) in events(t) { assert from <= t < t + 1; }
  }

  /** The turn of the row itself. */
  lemma OwnTurn(node: TestNode, events: Events, k: nat, r: nat, r0: nat)
    requires r0 <= r && r + 1 < COUNTER && Accounted(node, events, k, r, k, r0)
    ensures var node' := Judged(node);
            && node'.txSeqNum == node'.rxSeqNum + 1
            && node'.errorCnt == Lost(events, k, r0, r)
            && node'.passCnt + node'.errorCnt == r + 1 - r0
  {}

  lemma OwnTurnIsAccounted(node: TestNode, node': TestNode, events: Events, k: nat, r: nat, r0: nat)
    requires r0 <= r && r + 1 < COUNTER && Accounted(node, events, k, r, k, r0)
    requires var judged := Judged(node);
             node' == if Echo(k) in events(10 * r + k) then judged.(rxSeqNum := judged.txSeqNum) else judged
    ensures Accounted(node', events, k, r, k + 1, r0)
  {
    OwnTurn(node, events, k, r, r0);
    ReturnedStep(events, k, 10 * r + k, 10 * r + k);
  }

  lemma OtherTurnIsAccounted(node: TestNode, node': TestNode, events: Events, k: nat, r: nat, j: nat, r0: nat)
    requires k != j && k < 10 && Accounted(node, events, k, r, j, r0) && Turns(r, j, k) > r0
    requires node' == if Echo(k) in events(10 * r + j) then node.(rxSeqNum := node.txSeqNum) else node
    ensures Accounted(node', events, k, r, j + 1, r0)
  {
    ReturnedStep(events, k, 10 * (Turns(r, j, k) - 1) + k, 10 * r + j);
  }

  /** A turn and the pause behind it; the row is in use at its own turns from that of round `r0` on. */
  lemma TurnIsAccounted(rows: seq<TestNode>, events: Events, k: nat, r: nat, j: nat, r0: nat)
    requires j < |rows| && k < |rows| <= 10 && r + 1 < COUNTER && Accounted(rows[k], events, k, r, j, r0)
    requires k == j ==> (rows[k].nodeAddr != 0 <==> r0 <= r)
    requires Turns(r, j, k) > r0 ==> rows[k].nodeAddr != 0
    requires var pause := events(10 * r + j); Distinct(Heard(Turned(rows, j), pause, |pause|))
    ensures var pause := events(10 * r + j);
            Accounted(Heard(Turned(rows, j), pause, |pause|)[k], events, k, r, j + 1, r0)
  {
    var turned, pause := Turned(rows, j), events(10 * r + j);
    var node' := Heard(turned, pause, |pause|)[k];
    assert pause[..|pause|] == pause;
    if Turns(r, j + 1, k) <= r0 {
      HeardBlank(turned, pause, |pause|, k);
    } else {
      HeardRow(turned, pause, |pause|, k);
      if k == j {
        OwnTurnIsAccounted(rows[k], node', events, k, r, r0);
      } else {
        OtherTurnIsAccounted(rows[k], node', events, k, r, j, r0);
      }
    }
  }

  /** Row `k` has its first turn in use in round `r0`. */
  predicate StartsIn(rows: seq<TestNode>, events: Events, k: nat, r0: nat)
    requires k < |rows|
  {
    && After(rows, events, r0, k)[k].nodeAddr != 0
    && (r0 > 0 ==> After(rows, events, r0 - 1, k)[k].nodeAddr == 0)
  }

  lemma InUseFrom(rows: seq<TestNode>, events: Events, k: nat, r0: nat, r: nat, j: nat)
    requires k < |rows| && j <= |rows| && StartsIn(rows, events, k, r0)
    requires r0 < r || (r0 == r && k <= j)
    ensures After(rows, events, r, j)[k].nodeAddr != 0
  {
    AfterGrows(rows, events, r0, k, r, j);
  }

  lemma FreeBefore(rows: seq<TestNode>, events: Events, k: nat, r0: nat, r: nat)
    requires k < |rows| && StartsIn(rows, events, k, r0) && r < r0
    ensures After(rows, events, r, k)[k].nodeAddr == 0
  {
    AfterGrows(rows, events, r, k, r0 - 1, k);
  }

  lemma NextTurnIsAccounted(rows: seq<TestNode>, events: Events, k: nat, r: nat, j: nat, r0: nat)
    requires |rows| == MAX_TEST_NODES && k < 10 && j < 10 && r + 1 < COUNTER && StartsIn(rows, events, k, r0)
    requires Accounted(After(rows, events, r, j)[k], events, k, r, j, r0) && Distinct(After(rows, events, r, j + 1))
    ensures Accounted(After(rows, events, r, j + 1)[k], events, k, r, j + 1, r0)
  {
    AfterTurn(rows, events, r, j);
    if r0 < r || (r0 == r && k <= j) { InUseFrom(rows, events, k, r0, r, j); }
    if k == j && r < r0 { FreeBefore(rows, events, k, r0, r); }
    TurnIsAccounted(After(rows, events, r, j), events, k, r, j, r0);
  }

  lemma {:induction false} TurnsAreAccounted(rows: seq<TestNode>, events: Events, k: nat, r: nat, j: nat, r0: nat)
    requires |rows| == MAX_TEST_NODES && Cleared(rows) && k < 10 && StartsIn(rows, events, k, r0)
    requires j <= 10 && r + (if j > 0 then 1 else 0) < COUNTER && Distinct(After(rows, events, r, j))
    ensures Accounted(After(rows, events, r, j)[k], events, k, r, j, r0)
    decreases r, j
  {
    if j > 0 {
      AfterGrows(rows, events, r, j - 1, r, j);
      DistinctBefore(After(rows, events, r, j - 1), After(rows, events, r, j));
      TurnsAreAccounted(rows, events, k, r, j - 1, r0);
      NextTurnIsAccounted(rows, events, k, r, j - 1, r0);
    } else if r > 0 {
      TurnsAreAccounted(rows, events, k, r - 1, |rows|, r0);
    }
  }

  /**
   * After `n` rounds every row has counted the rounds since its node joined, and its errors are
   * exactly the echoes lost in all of these but the last, across all wraps and resets of the sequence
   * numbers and wherever the other echoes arrive before the node's next turn; devices may join at any
   * time, if no device gets two rows.
   */
  lemma AccountingIsExact(rows: seq<TestNode>, events: Events, r0: nat, n: nat, k: nat)
    requires |rows| == MAX_TEST_NODES && Cleared(rows) && k < 10 && StartsIn(rows, events, k, r0)
    requires r0 < n < COUNTER && Distinct(After(rows, events, n, 0))
    ensures var node := After(rows, events, n, 0)[k];
            && node.errorCnt == Lost(events, k, r0, n - 1)
            && node.passCnt + node.errorCnt == n - r0
  {
    TurnsAreAccounted(rows, events, k, n, 0, r0);
  }

  // ---------- What the steps do to a row ----------

  /** An announcement takes the first free row: its address, fresh numbers, and the counts as they are. */
  lemma AnnouncedRow(rows: seq<TestNode>, addr: word, k: nat)
    requires k < |rows| && rows[k].nodeAddr == 0 && forall j :: 0 <= j < k ==> rows[j].nodeAddr != 0
    ensures Announced(rows, addr) == rows[k := TestNode(addr, 0, 0, rows[k].passCnt, rows[k].errorCnt)]
  {}

  /** With no free row it changes nothing. */
  lemma AnnouncedInVain(rows: seq<TestNode>, addr: word)
    requires forall j :: 0 <= j < |rows| ==> rows[j].nodeAddr != 0
    ensures Announced(rows, addr) == rows
  {}

  /** A number goes to the first row of its sender and to no other. */
  lemma EchoedRow(rows: seq<TestNode>, addr: word, seqNum: byte, k: nat)
    requires k < |rows| && rows[k].nodeAddr == addr && forall j :: 0 <= j < k ==> rows[j].nodeAddr != addr
    ensures Echoed(rows, addr, seqNum)
         == rows[k := TestNode(addr, rows[k].txSeqNum, seqNum, rows[k].passCnt, rows[k].errorCnt)]
  {}

  lemma EchoedInVain(rows: seq<TestNode>, addr: word, seqNum: byte)
    requires forall j :: 0 <= j < |rows| ==> rows[j].nodeAddr != addr
    ensures Echoed(rows, addr, seqNum) == rows
  {}

  /**
   * A turn passes a free row by. Otherwise the last number sent is compared with the last received:
   * if they are equal that is a pass and the next number follows, if not an error and it is 1.
   */
  lemma TurnedRow(rows: seq<TestNode>, k: nat)
    requires k < |rows| && rows[k].passCnt + 1 < 4294967296 && rows[k].errorCnt + 1 < 4294967296
    ensures var n := rows[k];
            Turned(rows, k) ==
              if n.nodeAddr == 0 then rows
              else if n.txSeqNum == n.rxSeqNum then
                rows[k := TestNode(n.nodeAddr, n.txSeqNum + 1, n.rxSeqNum, n.passCnt + 1, n.errorCnt)]
              else rows[k := TestNode(n.nodeAddr, 1, 0, n.passCnt, n.errorCnt + 1)]
  {}

  /**
   * A device that announces itself in the pause behind a turn and meets a free row has the first of
   * these from then on, and the row is accounted from its next turn.
   */
  lemma {:induction false} JoinStarts(rows: seq<TestNode>, events: Events, r: nat, j: nat, i: nat, addr: word, k: nat)
    requires j < |rows| && k < |rows| && i < |events(10 * r + j)|
    requires events(10 * r + j)[i] == Joins(addr) && addr != 0
    requires var before := Heard(Turned(After(rows, events, r, j), j), events(10 * r + j), i);
             before[k].nodeAddr == 0 && forall l :: 0 <= l < k ==> before[l].nodeAddr != 0
    ensures After(rows, events, r, j + 1)[k].nodeAddr == addr
    ensures StartsIn(rows, events, k, if k > j then r else r + 1)
  {
    AfterTurn(rows, events, r, j);
    JoinedInPause(After(rows, events, r, j), j, events(10 * r + j), i, addr, k);
    InUseAfter(rows, events, k, r, j);
    FreeUntil(rows, events, k, r, j);
  }

  lemma {:induction false} JoinedInPause(rows: seq<TestNode>, j: nat, pause: seq<Event>, i: nat, addr: word, k: nat)
    requires j < |rows| && k < |rows| && i < |pause| && pause[i] == Joins(addr) && addr != 0
    requires var before := Heard(Turned(rows, j), pause, i);
             before[k].nodeAddr == 0 && forall l :: 0 <= l < k ==> before[l].nodeAddr != 0
    ensures rows[k].nodeAddr == 0 && Heard(Turned(rows, j), pause, |pause|)[k].nodeAddr == addr
  {
    var turned := Turned(rows, j);
    HeardGrows(turned, pause, 0, i);
    AnnouncedRow(Heard(turned, pause, i), addr, k);
    HeardGrows(turned, pause, i + 1, |pause|);
    assert Heard(turned, pause, i + 1)[k].nodeAddr == addr;
  }

  lemma InUseAfter(rows: seq<TestNode>, events: Events, k: nat, r: nat, j: nat)
    requires j < |rows| && k < |rows| && After(rows, events, r, j + 1)[k].nodeAddr != 0
    ensures After(rows, events, if k > j then r else r + 1, k)[k].nodeAddr != 0
  {
    AfterGrows(rows, events, r, j + 1, if k > j then r else r + 1, k);
  }

  lemma FreeUntil(rows: seq<TestNode>, events: Events, k: nat, r: nat, j: nat)
    requires j < |rows| && k < |rows| && After(rows, events, r, j)[k].nodeAddr == 0
    ensures k <= j ==> After(rows, events, r, k)[k].nodeAddr == 0
    ensures k > j && r > 0 ==> After(rows, events, r - 1, k)[k].nodeAddr == 0
  {
    if k <= j {
      AfterGrows(rows, events, r, k, r, j);
    } else if r > 0 {
      AfterGrows(rows, events, r - 1, k, r, j);
    }
  }

  // ---------- Nodes with two rows ----------

  /** A row behind another one for the same node never gets an echo. */
  lemma {:induction false} HeardShadowed(rows: seq<TestNode>, events: seq<Event>, n: nat, i: nat, k: nat)
    requires n <= |events| && i < k < |rows| && rows[i].nodeAddr == rows[k].nodeAddr != 0
    ensures Heard(rows, events, n)[k] == rows[k]
  {
    if n > 0 {
      HeardShadowed(rows, events, n - 1, i, k);
      HeardGrows(rows, events, 0, n - 1);
    }
  }

  /** A row that has been sent so many numbers and has got none back. */
  function Unanswered(addr: word, sent: nat): TestNode {
    if sent == 0 then TestNode(addr, 0, 0, 0, 0) else TestNode(addr, 1, 0, 1, sent - 1)
  }

  lemma ShadowedTurn(rows: seq<TestNode>, events: seq<Event>, i: nat, k: nat, j: nat, sent: nat)
    requires i < k < |rows| && j < |rows| && rows[i].nodeAddr == rows[k].nodeAddr != 0
    requires (if k == j then sent + 1 else sent) < COUNTER && rows[k] == Unanswered(rows[k].nodeAddr, sent)
    ensures Heard(Turned(rows, j), events, |events|)[k]
         == Unanswered(rows[k].nodeAddr, if k == j then sent + 1 else sent)
  {
    HeardShadowed(Turned(rows, j), events, |events|, i, k);
    if k == j { JudgedUnanswered(rows[k].nodeAddr, sent); }
  }

  lemma JudgedUnanswered(addr: word, sent: nat)
    requires sent + 1 < COUNTER
    ensures Judged(Unanswered(addr, sent)) == Unanswered(addr, sent + 1)
  {
    if sent > 0 {
      assert sent - 1 + 1 == sent;
    }
  }

  lemma ShadowedNext(rows: seq<TestNode>, events: Events, i: nat, k: nat, r: nat, j: nat)
    requires |rows| == MAX_TEST_NODES && i < k < 10 && j < 10 && Turns(r, j + 1, k) < COUNTER
    requires rows[i].nodeAddr == rows[k].nodeAddr != 0
    requires After(rows, events, r, j)[k] == Unanswered(rows[k].nodeAddr, Turns(r, j, k))
    ensures After(rows, events, r, j + 1)[k] == Unanswered(rows[k].nodeAddr, Turns(r, j + 1, k))
  {
    AfterTurn(rows, events, r, j);
    AfterGrows(rows, events, 0, 0, r, j);
    ShadowedTurn(After(rows, events, r, j), events(10 * r + j), i, k, j, Turns(r, j, k));
  }

  lemma {:induction false} ShadowedTurns(rows: seq<TestNode>, events: Events, i: nat, k: nat, r: nat, j: nat)
    requires |rows| == MAX_TEST_NODES && i < k < 10 && j <= 10 && Turns(r, j, k) < COUNTER
    requires rows[i].nodeAddr == rows[k].nodeAddr != 0 && Blank(rows[k])
    ensures After(rows, events, r, j)[k] == Unanswered(rows[k].nodeAddr, Turns(r, j, k))
    decreases r, j
  {
    if j > 0 {
      ShadowedTurns(rows, events, i, k, r, j - 1);
      ShadowedNext(rows, events, i, k, r, j - 1);
    } else if r > 0 {
      ShadowedTurns(rows, events, i, k, r - 1, |rows|);
    }
  }

  /**
   * From the moment a node has a new second row, that row counts every round but the first as an
   * error, whatever comes back.
   */
  lemma RejoinedNodeIsMiscounted(rows: seq<TestNode>, events: Events, i: nat, k: nat, n: nat)
    requires |rows| == MAX_TEST_NODES && i < k < 10 && 0 < n < COUNTER
    requires rows[i].nodeAddr == rows[k].nodeAddr != 0 && Blank(rows[k])
    ensures After(rows, events, n, 0)[k].errorCnt == n - 1
  {
    ShadowedTurns(rows, events, i, k, n, 0);
  }

  lemma {:induction false} AllLost(events: Events, k: nat, r0: nat, n: nat)
    requires r0 <= n
    ensures Lost(events, k, r0, n) == n - r0 <==>
              forall r :: r0 <= r < n ==> !Returned(events, k, 10 * r + k, 10 * (r + 1) + k)
  {
    if r0 < n { AllLost(events, k, r0, n - 1); }
  }

  /** So its count of errors is that of the echoes lost exactly if none of these came back. */
  lemma RejoinedExactly(rows: seq<TestNode>, events: Events, i: nat, k: nat, n: nat)
    requires |rows| == MAX_TEST_NODES && i < k < 10 && 0 < n < COUNTER
    requires rows[i].nodeAddr == rows[k].nodeAddr != 0 && Blank(rows[k])
    ensures After(rows, events, n, 0)[k].errorCnt == Lost(events, k, 0, n - 1) <==>
              forall r :: 0 <= r < n - 1 ==> !Returned(events, k, 10 * r + k, 10 * (r + 1) + k)
  {
    RejoinedNodeIsMiscounted(rows, events, i, k, n);
    AllLost(events, k, 0, n - 1);
  }

  // ---------- Which tables are accounted right ----------

  ghost predicate EchoesOnly(events: Events) { forall t, e :: e in events(t) ==> e.Echo? }

  /** Whatever echoes come and whenever, each row in use counts as errors the echoes lost. */
  ghost predicate AlwaysExact(rows: seq<TestNode>)
    requires |rows| == MAX_TEST_NODES
  {
    forall events: Events, n: nat, k: nat ::
      EchoesOnly(events) && 0 < n < COUNTER && k < 10 && rows[k].nodeAddr != 0 ==>
        After(rows, events, n, 0)[k].errorCnt == Lost(events, k, 0, n - 1)
  }

  predicate SameAddresses(rows: seq<TestNode>, rows': seq<TestNode>) {
    |rows| == |rows'| && forall k :: 0 <= k < |rows| ==> rows[k].nodeAddr == rows'[k].nodeAddr
  }

  lemma {:induction false} EchoesKeepAddresses(rows: seq<TestNode>, pause: seq<Event>, n: nat)
    requires n <= |pause| && forall e :: e in pause ==> e.Echo?
    ensures SameAddresses(rows, Heard(rows, pause, n))
  {
    if n > 0 {
      EchoesKeepAddresses(rows, pause, n - 1);
      assert pause[n - 1] in pause;
    }
  }

  lemma {:induction false} AddressesStay(rows: seq<TestNode>, events: Events, r: nat, j: nat)
    requires EchoesOnly(events) && j <= |rows|
    ensures SameAddresses(rows, After(rows, events, r, j))
    decreases r, j
  {
    if j > 0 {
      var l := j - 1;
      AfterTurn(rows, events, r, l);
      AddressesStay(rows, events, r, l);
      var pause := events(10 * r + l);
      EchoesKeepAddresses(Turned(After(rows, events, r, l), l), pause, |pause|);
    } else if r > 0 {
      AddressesStay(rows, events, r - 1, |rows|);
    }
  }

  lemma DistinctIsExact(rows: seq<TestNode>)
    requires |rows| == MAX_TEST_NODES && Cleared(rows) && Distinct(rows)
    ensures AlwaysExact(rows)
  {
    forall events: Events, n: nat, k: nat |
      EchoesOnly(events) && 0 < n < COUNTER && k < 10 && rows[k].nodeAddr != 0
      ensures After(rows, events, n, 0)[k].errorCnt == Lost(events, k, 0, n - 1)
    {
      AddressesStay(rows, events, n, 0);
      AddressesStay(rows, events, 0, k);
      AccountingIsExact(rows, events, 0, n, k);
    }
  }

  /** The echo of row `k` comes back at once, every time. */
  function Prompt(k: nat): Events { t => [Echo(k)] }

  lemma PromptComesBack(k: nat, n: nat)
    requires n == 2
    ensures Lost(Prompt(k), k, 0, n - 1) == 0 && EchoesOnly(Prompt(k))
  {
    assert Echo(k) in Prompt(k)(k);
    assert Returned(Prompt(k), k, 10 * 0 + k, 10 * 1 + k);
    assert Lost(Prompt(k), k, 0, 0) == 0;
  }

  lemma SharedIsWrong(rows: seq<TestNode>, n: nat)
    requires |rows| == MAX_TEST_NODES && Cleared(rows) && !Distinct(rows) && n == 2
    ensures !AlwaysExact(rows)
  {
    var i, k :| 0 <= i < k < |rows| && rows[i].nodeAddr == rows[k].nodeAddr && rows[i].nodeAddr != 0;
    RejoinedNodeIsMiscounted(rows, Prompt(k), i, k, n);
    PromptComesBack(k, n);
    WrongIsNotExact(rows, Prompt(k), n, k);
  }

  lemma WrongIsNotExact(rows: seq<TestNode>, events: Events, n: nat, k: nat)
    requires |rows| == MAX_TEST_NODES && EchoesOnly(events) && 0 < n < COUNTER && k < 10 && rows[k].nodeAddr != 0
    requires After(rows, events, n, 0)[k].errorCnt != Lost(events, k, 0, n - 1)
    ensures !AlwaysExact(rows)
  {}

  /** The table is accounted right under every schedule of echoes if and only if each node has one row. */
  lemma AlwaysExactExactly(rows: seq<TestNode>)
    requires |rows| == MAX_TEST_NODES && Cleared(rows)
    ensures AlwaysExact(rows) <==> Distinct(rows)
  {
    if Distinct(rows) {
      DistinctIsExact(rows);
    } else {
      SharedIsWrong(rows, 2);
    }
  }

  // ---------- What the second row does to the first ----------

  /** In round 0 the echo of row `k` comes back, and otherwise none. */
  function OnlyEcho(k: nat): Events { t => if t == k then [Echo(k)] else [] }

  /** The first row of the node then: the echo of the other row hides that its own is lost. */
  function FirstRow(addr: word, i: nat, k: nat, r: nat, j: nat): TestNode {
    var turns := Turns(r, j, i);
    if turns == 0 then TestNode(addr, 0, 0, 0, 0)
    else if turns == 1 then TestNode(addr, 1, if r > 0 || j > k then 1 else 0, 1, 0)
    else TestNode(addr, 2, 1, 2, 0)
  }

  lemma FirstRowTurns(rows: seq<TestNode>, i: nat, k: nat, r: nat, j: nat)
    requires j < |rows| && i < k < |rows| <= 10 && r < 2 && IsFirstFor(rows, i, rows[k].nodeAddr)
    requires rows[i].nodeAddr != 0 && rows[i] == FirstRow(rows[i].nodeAddr, i, k, r, j)
    requires rows[k] == Unanswered(rows[k].nodeAddr, Turns(r, j, k))
    ensures var pause := OnlyEcho(k)(10 * r + j);
            Heard(Turned(rows, j), pause, |pause|)[i] == FirstRow(rows[i].nodeAddr, i, k, r, j + 1)
  {
    var turned, pause := Turned(rows, j), OnlyEcho(k)(10 * r + j);
    assert Heard(turned, pause, 0) == turned;
    if r == 0 && j == k {
      assert Heard(turned, pause, 1) == EchoOf(turned, k);
      assert turned[k].txSeqNum == 1 && IsFirstFor(turned, i, turned[k].nodeAddr);
    }
  }

  lemma FirstRowNext(rows: seq<TestNode>, i: nat, k: nat, r: nat, j: nat)
    requires |rows| == MAX_TEST_NODES && Cleared(rows) && i < k < 10 && rows[k].nodeAddr != 0
    requires IsFirstFor(rows, i, rows[k].nodeAddr) && j < 10 && r < 2
    requires After(rows, OnlyEcho(k), r, j)[i] == FirstRow(rows[i].nodeAddr, i, k, r, j)
    ensures After(rows, OnlyEcho(k), r, j + 1)[i] == FirstRow(rows[i].nodeAddr, i, k, r, j + 1)
  {
    var now := After(rows, OnlyEcho(k), r, j);
    AfterTurn(rows, OnlyEcho(k), r, j);
    ShadowedTurns(rows, OnlyEcho(k), i, k, r, j);
    AddressesStay(rows, OnlyEcho(k), r, j);
    assert IsFirstFor(now, i, now[k].nodeAddr);
    FirstRowTurns(now, i, k, r, j);
  }

  lemma {:induction false} FirstRowInRound(rows: seq<TestNode>, i: nat, k: nat, r: nat, j: nat)
    requires |rows| == MAX_TEST_NODES && Cleared(rows) && i < k < 10 && rows[k].nodeAddr != 0
    requires IsFirstFor(rows, i, rows[k].nodeAddr) && j <= 10 && r < 2
    requires After(rows, OnlyEcho(k), r, 0)[i] == FirstRow(rows[i].nodeAddr, i, k, r, 0)
    ensures After(rows, OnlyEcho(k), r, j)[i] == FirstRow(rows[i].nodeAddr, i, k, r, j)
  {
    if j > 0 {
      FirstRowInRound(rows, i, k, r, j - 1);
      FirstRowNext(rows, i, k, r, j - 1);
    }
  }

  lemma FirstRowThrough(rows: seq<TestNode>, i: nat, k: nat, r: nat)
    requires |rows| == MAX_TEST_NODES && Cleared(rows) && i < k < 10 && rows[k].nodeAddr != 0
    requires IsFirstFor(rows, i, rows[k].nodeAddr) && r < 2
    requires After(rows, OnlyEcho(k), r, 0)[i] == FirstRow(rows[i].nodeAddr, i, k, r, 0)
    ensures After(rows, OnlyEcho(k), r + 1, 0)[i] == FirstRow(rows[i].nodeAddr, i, k, r + 1, 0)
  {
    FirstRowInRound(rows, i, k, r, |rows|);
    RoundEnds(rows, OnlyEcho(k), r, |rows|);
    FirstRowWraps(rows[i].nodeAddr, i, k, r, |rows|);
  }

  lemma FirstRowWraps(addr: word, i: nat, k: nat, r: nat, n: nat)
    requires i < k < n
    ensures FirstRow(addr, i, k, r, n) == FirstRow(addr, i, k, r + 1, 0)
  {}

  lemma {:induction false} FirstRowRuns(rows: seq<TestNode>, i: nat, k: nat, n: nat)
    requires |rows| == MAX_TEST_NODES && Cleared(rows) && i < k < 10 && rows[k].nodeAddr != 0
    requires IsFirstFor(rows, i, rows[k].nodeAddr) && n <= 2
    ensures After(rows, OnlyEcho(k), n, 0)[i] == FirstRow(rows[i].nodeAddr, i, k, n, 0)
  {
    if n > 0 {
      FirstRowRuns(rows, i, k, n - 1);
      FirstRowThrough(rows, i, k, n - 1);
    }
  }

  /** A lost echo of the first row is not counted if the echo of the second row comes back. */
  lemma FirstRowIsMiscounted(rows: seq<TestNode>, i: nat, k: nat, n: nat)
    requires |rows| == MAX_TEST_NODES && Cleared(rows) && i < k < 10 && rows[k].nodeAddr != 0
    requires IsFirstFor(rows, i, rows[k].nodeAddr) && n == 2
    ensures After(rows, OnlyEcho(k), n, 0)[i].errorCnt == 0 && Lost(OnlyEcho(k), i, 0, n - 1) == 1
  {
    FirstRowRuns(rows, i, k, n);
    FirstEchoIsLost(i, k);
  }

  lemma FirstEchoIsLost(i: nat, k: nat)
    requires i < k
    ensures Lost(OnlyEcho(k), i, 0, 1) == 1
  {
    assert !Returned(OnlyEcho(k), i, 10 * 0 + i, 10 * 1 + i);
    assert Lost(OnlyEcho(k), i, 0, 0) == 0;
  }

  // ---------- Late echoes ----------

  /** Whether the next judgement on the row will be that the last number is back. */
  predicate Passes(node: TestNode) { node.txSeqNum == node.rxSeqNum }

  /**
   * An echo of an older number, `seqNum`, that comes after the node's turn changes the next judgement
   * exactly if either the last number is back and the older one is different, which makes an error of
   * it, or it is not and the older one is the same, which hides that it is lost.
   */
  lemma LateEchoExactly(rows: seq<TestNode>, k: nat, seqNum: byte)
    requires Distinct(rows) && k < |rows| && rows[k].nodeAddr != 0
    ensures var late := Echoed(rows, rows[k].nodeAddr, seqNum)[k];
            Passes(late) != Passes(rows[k]) <==> (Passes(rows[k]) <==> seqNum != rows[k].txSeqNum)
  {
    assert IsFirstFor(rows, k, rows[k].nodeAddr);
  }

  /**
   * Numbers repeat after an error: with the first and the second message sent as number 1, the echo of
   * the first, coming in the second round, lets the second pass although nothing of it came back.
   */
  lemma LateEchoHidesALoss(rows: seq<TestNode>, k: nat)
    requires Distinct(rows) && k < |rows| && rows[k].nodeAddr != 0 && Blank(rows[k])
    ensures var first := Judged(rows[k]);
            var second := Judged(first);
            && first.txSeqNum == second.txSeqNum == 1 && !Passes(first) && !Passes(second)
            && Passes(Echoed(rows[k := second], rows[k].nodeAddr, first.txSeqNum)[k])
  {
    var second := Judged(Judged(rows[k]));
    assert IsFirstFor(rows[k := second], k, rows[k].nodeAddr);
  }

  /** Announcements keep the rows distinct exactly if the device has no row yet, or none is free. */
  lemma AnnouncementKeepsDistinct(rows: seq<TestNode>, addr: word)
    requires Distinct(rows) && addr != 0
    ensures Distinct(Announced(rows, addr)) <==>
              (forall k :: 0 <= k < |rows| ==> rows[k].nodeAddr != addr)
              || (forall k :: 0 <= k < |rows| ==> rows[k].nodeAddr != 0)
  {
    var rows' := Announced(rows, addr);
    if k :| 0 <= k < |rows| && rows[k].nodeAddr == addr {
      if f :| 0 <= f < |rows| && rows[f].nodeAddr == 0 {
        var first := FirstFree(rows, f);
        assert rows'[first].nodeAddr == addr && rows'[k].nodeAddr == addr;
      }
    }
  }

  lemma {:induction false} FirstFree(rows: seq<TestNode>, f: nat) returns (k: nat)
    requires f < |rows| && rows[f].nodeAddr == 0
    ensures IsFirstFor(rows, k, 0)
    decreases f
  {
    if j :| 0 <= j < f && rows[j].nodeAddr == 0 {
      k := FirstFree(rows, j);
    } else {
      k := f;
    }
  }

  // ---------- The program ----------

  class StressTest {
    const testNodes: array<TestNode>

    constructor ()
      ensures testNodes.Length == MAX_TEST_NODES && Cleared(testNodes[..]) && Distinct(testNodes[..])
    {
      testNodes := new TestNode[MAX_TEST_NODES](_ => TestNode(0, 0, 0, 0, 0));
    }

    /** The callback for the announcement of a device. */
    method EndDeviceAnnce(nwkAddr: word)
      requires testNodes.Length == MAX_TEST_NODES
      modifies testNodes
      ensures testNodes[..] == Announced(old(testNodes[..]), nwkAddr)
      ensures forall k :: 0 <= k < 10 && old(testNodes[k]).nodeAddr == 0
                          && (forall j :: 0 <= j < k ==> old(testNodes[j]).nodeAddr != 0) ==>
                testNodes[..] == old(testNodes[..])[k := TestNode(nwkAddr, 0, 0, old(testNodes[k]).passCnt,
                                                                  old(testNodes[k]).errorCnt)]
      ensures (forall k :: 0 <= k < 10 ==> old(testNodes[k]).nodeAddr != 0) ==> testNodes[..] == old(testNodes[..])
    {
      var nodeIdx := 0;
      while nodeIdx < MAX_TEST_NODES
        invariant 0 <= nodeIdx <= MAX_TEST_NODES
        invariant testNodes[..] == old(testNodes[..])
        invariant forall j :: 0 <= j < nodeIdx ==> testNodes[j].nodeAddr != 0
      {
        if testNodes[nodeIdx].nodeAddr == 0 {
          testNodes[nodeIdx] := testNodes[nodeIdx].(txSeqNum := 0, rxSeqNum := 0, nodeAddr := nwkAddr);
          break;
        }
        nodeIdx := nodeIdx + 1;
      }
    }

    /**
     * The callback for a message; only a single octet in the test cluster matters. A test node sends
     * it back, and the coordinator takes it for an echo.
     */
    method IncomingMsg(isCoordinator: bool, srcAddr: word, clusterId: word, data: seq<byte>)
      returns (echo: seq<byte>)
      requires testNodes.Length == MAX_TEST_NODES
      modifies testNodes
      ensures var isTest := clusterId == TEST_CLUSTER && |data| == 1;
              && testNodes[..] == (if isTest && isCoordinator then Echoed(old(testNodes[..]), srcAddr, data[0])
                                   else old(testNodes[..]))
              && echo == if isTest && !isCoordinator then data else []
      ensures !isCoordinator ==> echo == if clusterId == 6 && |data| == 1 then data else []
      ensures !isCoordinator || clusterId != 6 || |data| != 1 ==> testNodes[..] == old(testNodes[..])
      ensures isCoordinator && clusterId == 6 && |data| == 1 ==>
                forall k :: 0 <= k < 10 && old(testNodes[k]).nodeAddr == srcAddr
                            && (forall j :: 0 <= j < k ==> old(testNodes[j]).nodeAddr != srcAddr) ==>
                  testNodes[..] == old(testNodes[..])[k := old(testNodes[k]).(rxSeqNum := data[0])]
    {
      echo := [];
      if clusterId == TEST_CLUSTER && |data| == 1 {
        if isCoordinator {
          StoreEcho(srcAddr, data[0]);
        } else {
          echo := [data[0]];
        }
      }
    }

    method StoreEcho(srcAddr: word, seqNum: byte)
      requires testNodes.Length == MAX_TEST_NODES
      modifies testNodes
      ensures testNodes[..] == Echoed(old(testNodes[..]), srcAddr, seqNum)
    {
      var nodeIdx := 0;
      while nodeIdx < MAX_TEST_NODES
        invariant 0 <= nodeIdx <= MAX_TEST_NODES
        invariant testNodes[..] == old(testNodes[..])
        invariant forall j :: 0 <= j < nodeIdx ==> testNodes[j].nodeAddr != srcAddr
      {
        if testNodes[nodeIdx].nodeAddr == srcAddr {
          testNodes[nodeIdx] := testNodes[nodeIdx].(rxSeqNum := seqNum);
          break;
        }
        nodeIdx := nodeIdx + 1;
      }
    }

    /** The body of the loop over the rows, up to the sending. */
    method Turn(nodeIdx: nat)
      requires testNodes.Length == MAX_TEST_NODES && nodeIdx < MAX_TEST_NODES
      modifies testNodes
      ensures testNodes[..] == Turned(old(testNodes[..]), nodeIdx)
    {
      var node := testNodes[nodeIdx];
      if node.nodeAddr != 0 {
        if node.txSeqNum != node.rxSeqNum {
          testNodes[nodeIdx] := node.(txSeqNum := 0, rxSeqNum := 0, errorCnt := (node.errorCnt + 1) % COUNTER);
        } else {
          testNodes[nodeIdx] := node.(passCnt := (node.passCnt + 1) % COUNTER);
        }
        testNodes[nodeIdx] := testNodes[nodeIdx].(txSeqNum := testNodes[nodeIdx].txSeqNum + 1);
      }
    }

    /** The pause before the next turn, in which this happens. */
    method Pause(events: seq<Event>)
      requires testNodes.Length == MAX_TEST_NODES
      modifies testNodes
      ensures testNodes[..] == Heard(old(testNodes[..]), events, |events|)
    {
      ghost var rows := testNodes[..];
      var i := 0;
      while i < |events|
        invariant 0 <= i <= |events|
        invariant testNodes[..] == Heard(rows, events, i)
      {
        match events[i] {
          case Echo(k) => Answer(k);
          case Joins(addr) => EndDeviceAnnce(addr);
        }
        i := i + 1;
      }
    }

    /** The node of row `k` echoes what it was sent. */
    method Answer(k: nat)
      requires testNodes.Length == MAX_TEST_NODES
      modifies testNodes
      ensures testNodes[..] == EchoOf(old(testNodes[..]), k)
    {
      if k < MAX_TEST_NODES && testNodes[k].nodeAddr != 0 {
        var addr := testNodes[k].nodeAddr;
        var echo := IncomingMsg(false, 0, TEST_CLUSTER, [testNodes[k].txSeqNum]);
        var none := IncomingMsg(true, addr, TEST_CLUSTER, echo);
      }
    }

    /** One round over the table. */
    method Round(r: nat, events: Events, ghost rows: seq<TestNode>)
      requires testNodes.Length == |rows| == MAX_TEST_NODES && testNodes[..] == After(rows, events, r, 0)
      modifies testNodes
      ensures testNodes[..] == After(rows, events, r + 1, 0)
    {
      var nodeIdx := 0;
      while nodeIdx < MAX_TEST_NODES
        invariant 0 <= nodeIdx <= MAX_TEST_NODES
        invariant testNodes[..] == After(rows, events, r, nodeIdx)
      {
        AfterTurn(rows, events, r, nodeIdx);
        Turn(nodeIdx);
        Pause(events(10 * r + nodeIdx));
        nodeIdx := nodeIdx + 1;
      }
    }

    /** `n` rounds. */
    method Run(n: nat, events: Events)
      requires testNodes.Length == MAX_TEST_NODES
      modifies testNodes
      ensures testNodes[..] == After(old(testNodes[..]), events, n, 0)
    {
      ghost var rows := testNodes[..];
      var r := 0;
      while r < n
        invariant 0 <= r <= n
        invariant testNodes[..] == After(rows, events, r, 0)
      {
        Round(r, events, rows);
        r := r + 1;
      }
    }
  }
}
