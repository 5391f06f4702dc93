/**
 * Discovery of the network topology: the callback for a neighbour table asks every child router for
 * its own table, and while such a request waits for its acknowledgement the callback may be entered
 * again for another response.
 */
module Topology {
  import opened Bytes
  import opened Messages

  const MAX_CHILDREN := 20
  const MAX_NODE_LIST := 64
  const COORDINATOR: byte := 0
  const ROUTER: byte := 1
  const SUCCESS: byte := 0

  datatype Child = Child(address: word, kind: byte)

  /** One row of the node list; the child count is the length of `children`. */
  datatype Node = Node(address: word, kind: byte, children: seq<Child>)

  function DeviceType(n: Neighbour): byte { n.flags & 3 }
  function Relation(n: Neighbour): byte { (n.flags >> 4) & 7 }

  /** Bits 0 and 1 are the device type, 2 and 3 the receiver setting, 4 to 6 the relation. */
  lemma FlagBits(n: Neighbour, t: byte, x: byte, r: byte, reserved: byte)
    requires t < 4 && x < 4 && r < 8 && reserved < 2
    requires n.flags == t | (x << 2) | (r << 4) | (reserved << 7)
    ensures DeviceType(n) == t && Relation(n) == r
  {}

  // ---------- The network ----------

  /**
   * The devices that answer a request, each with its response. An address that is not there stands
   * for a request that is refused or a response that is lost.
   */
  type Network = map<word, LqiResponse>

  predicate Answers(net: Network, a: word) { a in net && net[a].status == SUCCESS }

  /** Entry `i` of the table of `p` is the child router `a`. */
  predicate Link(net: Network, p: word, i: nat, a: word) {
    && Answers(net, p) && i < |net[p].neighbours|
    && Relation(net[p].neighbours[i]) == 1
    && DeviceType(net[p].neighbours[i]) == ROUTER
    && net[p].neighbours[i].networkAddress == a
  }

  /** The entries with relation 1, in order: the children. */
  function Children(neighbours: seq<Neighbour>): seq<Child> {
    if neighbours == [] then []
    else
      var before, n := Children(neighbours[..|neighbours| - 1]), neighbours[|neighbours| - 1];
      if Relation(n) == 1 then before + [Child(n.networkAddress, DeviceType(n))] else before
  }

  predicate IsChild(n: Neighbour) { (n.flags >> 4) & 7 == 1 }

  /** These are the entries of the table at these positions, and they are all entries with relation 1. */
  ghost predicate PointsAt(children: seq<Child>, neighbours: seq<Neighbour>, at: seq<nat>) {
    && |at| == |children|
    && (forall j :: 0 <= j < |at| ==>
          && at[j] < |neighbours| && IsChild(neighbours[at[j]])
          && children[j] == Child(neighbours[at[j]].networkAddress, neighbours[at[j]].flags & 3))
    && (forall i, j :: 0 <= i < j < |at| ==> at[i] < at[j])
    && (forall i :: 0 <= i < |neighbours| && IsChild(neighbours[i]) ==> i in at)
  }

  lemma EntryNotPointedAt(children: seq<Child>, neighbours: seq<Neighbour>, n: Neighbour, at: seq<nat>)
    requires PointsAt(children, neighbours, at) && !IsChild(n)
    ensures PointsAt(children, neighbours + [n], at)
  {}

  lemma EntryPointedAt(children: seq<Child>, neighbours: seq<Neighbour>, n: Neighbour, at: seq<nat>)
    requires PointsAt(children, neighbours, at) && IsChild(n)
    ensures PointsAt(children + [Child(n.networkAddress, n.flags & 3)], neighbours + [n], at + [|neighbours|])
  {
    var longer := at + [|neighbours|];
    assert longer[|at|] == |neighbours|;
    assert forall i :: i in at ==> i in longer;
  }

  /** The children by position: exactly the entries with relation 1, of any type, in table order. */
  lemma {:induction false} ChildrenByPosition(neighbours: seq<Neighbour>) returns (at: seq<nat>)
    ensures PointsAt(Children(neighbours), neighbours, at)
  {
    at := [];
    if neighbours != [] {
      var n := |neighbours| - 1;
      var before, last := neighbours[..n], neighbours[n];
      at := ChildrenByPosition(before);
      assert neighbours == before + [last];
      if IsChild(last) {
        EntryPointedAt(Children(before), before, last, at);
        at := at + [n];
      } else {
        EntryNotPointedAt(Children(before), before, last, at);
      }
    }
  }

  /** Nobody is the child router of two devices or twice of one, and the coordinator of none. */
  ghost predicate IsTree(net: Network) {
    && (forall a :: a in net ==> net[a].srcAddr == a)
    && (forall p, i, q, j, a :: Link(net, p, i, a) && Link(net, q, j, a) ==> p == q && i == j)
    && (forall p, i :: !Link(net, p, i, 0))
  }

  ghost function Answering(net: Network): set<word> { set a | a in net && Answers(net, a) }

  /** The tables of the program are large enough. */
  ghost predicate FitsTables(net: Network) {
    && |Answering(net)| <= MAX_NODE_LIST
    && forall a :: Answers(net, a) ==> |Children(net[a].neighbours)| <= MAX_CHILDREN
  }

  ghost predicate HasLink(net: Network, p: word, a: word) { exists i :: Link(net, p, i, a) }

  /** A chain of child routers down from the coordinator; all but the last have answered. */
  ghost predicate IsChain(net: Network, chain: seq<word>) {
    && chain != [] && chain[0] == 0
    && forall k :: 1 <= k < |chain| ==> HasLink(net, chain[k - 1], chain[k])
  }

  ghost predicate Reachable(net: Network, a: word) {
    exists chain :: IsChain(net, chain) && chain[|chain| - 1] == a
  }

  lemma ReachableChild(net: Network, p: word, i: nat, a: word)
    requires Reachable(net, p) && Link(net, p, i, a)
    ensures Reachable(net, a)
  {
    var chain :| IsChain(net, chain) && chain[|chain| - 1] == p;
    var longer := chain + [a];
    assert HasLink(net, p, a);
    forall k | 1 <= k < |longer| ensures HasLink(net, longer[k - 1], longer[k]) {
      if k < |chain| { assert HasLink(net, chain[k - 1], chain[k]); }
    }
    assert IsChain(net, longer);
  }

  // ---------- The state ----------

  /**
   * The rows in use, for each row how many entries of its table have been looked at, the addresses
   * ever asked, and those of them whose response is still to come.
   */
  datatype View = View(rows: seq<Node>, progress: seq<nat>, requested: set<word>, outstanding: set<word>)

  ghost predicate RowRight(net: Network, row: Node, done: nat) {
    && Answers(net, row.address)
    && done <= |net[row.address].neighbours|
    && row.kind == (if row.address == 0 then COORDINATOR else ROUTER)
    && row.children == Children(net[row.address].neighbours[..done])
  }

  ghost predicate RowsRight(net: Network, v: View) {
    && |v.progress| == |v.rows|
    && (forall k :: 0 <= k < |v.rows| ==> RowRight(net, v.rows[k], v.progress[k]))
    && (forall k, l :: 0 <= k < l < |v.rows| ==> v.rows[k].address != v.rows[l].address)
  }

  predicate Recorded(rows: seq<Node>, a: word) { exists k :: 0 <= k < |rows| && rows[k].address == a }

  /** Each address asked is either awaited or recorded, unless it does not answer. */
  ghost predicate Partition(net: Network, v: View) {
    && v.outstanding <= v.requested
    && (forall a :: a in v.outstanding ==> a in net && !Recorded(v.rows, a))
    && (forall a :: Recorded(v.rows, a) ==> a in v.requested)
    && (forall a :: a in v.requested && Answers(net, a) ==> a in v.outstanding || Recorded(v.rows, a))
  }

  /** The link from the table of row `k` to `a` has been looked at. */
  ghost predicate Seen(net: Network, v: View, k: int, i: nat, a: word) {
    0 <= k < |v.rows| && k < |v.progress| && i < v.progress[k] && Link(net, v.rows[k].address, i, a)
  }

  /** Asked are exactly the coordinator and the child routers seen so far. */
  ghost predicate RequestsRight(net: Network, v: View) {
    && 0 in v.requested
    && (forall a :: a in v.requested ==> Reachable(net, a))
    && (forall a :: a in v.requested && a != 0 ==> exists k, i :: Seen(net, v, k, i, a))
    && (forall k, i, a :: Seen(net, v, k, i, a) ==> a in v.requested)
  }

  ghost predicate Inv(net: Network, v: View) {
    RowsRight(net, v) && Partition(net, v) && RequestsRight(net, v)
  }

  ghost predicate CompleteFrom(net: Network, v: View, from: nat) {
    && |v.progress| == |v.rows|
    && forall k :: from <= k < |v.rows| ==>
         v.rows[k].address in net && v.progress[k] == |net[v.rows[k].address].neighbours|
  }

  /**
   * The list holds exactly the devices that can be reached from the coordinator and answer, each
   * once, with all its children in the order of its table.
   */
  ghost predicate Exact(net: Network, rows: seq<Node>) {
    Faithful(net, rows) && forall a :: Answers(net, a) && Reachable(net, a) ==> Recorded(rows, a)
  }

  /** The rows are those of such devices, each once and with all its children; some may be missing. */
  ghost predicate Faithful(net: Network, rows: seq<Node>) {
    && (forall a :: Recorded(rows, a) ==> Answers(net, a) && Reachable(net, a))
    && (forall k, l :: 0 <= k < l < |rows| ==> rows[k].address != rows[l].address)
    && (forall k :: 0 <= k < |rows| ==>
          var a := rows[k].address;
          && a in net
          && rows[k] == Node(a, if a == 0 then COORDINATOR else ROUTER, Children(net[a].neighbours)))
  }

  /** No response is on its way that would add a row. */
  predicate NothingToCome(net: Network, outstanding: set<word>) {
    forall a :: a in outstanding ==> !Answers(net, a)
  }

  /**
   * The main result on the state: when every table received has been looked at, the rows are those of
   * devices that can be reached and answer, and they are all of them if and only if no response that
   * would add one is still to come.
   */
  lemma DiscoveryIsExact(net: Network, v: View)
    requires IsTree(net) && Inv(net, v) && CompleteFrom(net, v, 0)
    ensures Faithful(net, v.rows)
    ensures Exact(net, v.rows) <==> NothingToCome(net, v.outstanding)
  {
    RowsAreFaithful(net, v);
    if NothingToCome(net, v.outstanding) {
      forall a | Answers(net, a) && Reachable(net, a) ensures Recorded(v.rows, a) {
        var chain :| IsChain(net, chain) && chain[|chain| - 1] == a;
        ChainIsRequested(net, v, chain);
      }
    }
    if Exact(net, v.rows) {
      forall a | a in v.outstanding ensures !Answers(net, a) {
        assert a in v.requested && !Recorded(v.rows, a);
      }
    }
  }

  lemma RowsAreFaithful(net: Network, v: View)
    requires IsTree(net) && Inv(net, v) && CompleteFrom(net, v, 0)
    ensures Faithful(net, v.rows)
  {
    forall k | 0 <= k < |v.rows|
      ensures v.rows[k].children == Children(net[v.rows[k].address].neighbours)
    {
      var table := net[v.rows[k].address].neighbours;
      assert table[..|table|] == table;
    }
  }

  lemma {:induction false} ChainIsRequested(net: Network, v: View, chain: seq<word>)
    requires Inv(net, v) && CompleteFrom(net, v, 0) && NothingToCome(net, v.outstanding)
    requires IsChain(net, chain)
    ensures chain[|chain| - 1] in v.requested
  {
    if |chain| > 1 {
      var n := |chain| - 1;
      var shorter := chain[..n];
      forall k | 1 <= k < n ensures HasLink(net, shorter[k - 1], shorter[k]) {
        assert HasLink(net, chain[k - 1], chain[k]);
      }
      ChainIsRequested(net, v, shorter);
      assert HasLink(net, chain[n - 1], chain[n]);
      LinkIsRequested(net, v, chain[n - 1], chain[n]);
    }
  }

  lemma LinkIsRequested(net: Network, v: View, p: word, a: word)
    requires Inv(net, v) && CompleteFrom(net, v, 0) && NothingToCome(net, v.outstanding)
    requires p in v.requested && HasLink(net, p, a)
    ensures a in v.requested
  {
    var i :| Link(net, p, i, a);
    assert Recorded(v.rows, p);
    var k :| 0 <= k < |v.rows| && v.rows[k].address == p;
    assert Seen(net, v, k, i, a);
  }

  // ---------- Steps ----------

  function NewRow(a: word): Node { Node(a, if a == 0 then COORDINATOR else ROUTER, []) }

  function Opened(v: View, a: word): View {
    View(v.rows + [NewRow(a)], v.progress + [0], v.requested, v.outstanding - {a})
  }

  lemma RecordedOpened(v: View, a: word, b: word)
    ensures Recorded(Opened(v, a).rows, b) <==> Recorded(v.rows, b) || b == a
  {
    var rows := Opened(v, a).rows;
    assert rows[|v.rows|].address == a;
    assert forall k :: 0 <= k < |v.rows| ==> rows[k] == v.rows[k];
  }

  lemma OpenedRows(net: Network, v: View, a: word)
    requires RowsRight(net, v) && Answers(net, a) && !Recorded(v.rows, a)
    ensures RowsRight(net, Opened(v, a))
  {
    assert net[a].neighbours[..0] == [];
    assert RowRight(net, NewRow(a), 0);
  }

  lemma OpenedPartition(net: Network, v: View, a: word)
    requires Partition(net, v) && a in v.outstanding
    ensures Partition(net, Opened(v, a))
  {
    forall b ensures Recorded(Opened(v, a).rows, b) <==> Recorded(v.rows, b) || b == a {
      RecordedOpened(v, a, b);
    }
  }

  /** A response that answers opens a row of its own. */
  lemma RowOpened(net: Network, v: View, a: word)
    requires IsTree(net) && FitsTables(net) && Inv(net, v) && a in v.outstanding && Answers(net, a)
    ensures |v.rows| < MAX_NODE_LIST && Inv(net, Opened(v, a))
  {
    RowsFit(net, v, a);
    OpenedRows(net, v, a);
    OpenedPartition(net, v, a);
    SeenOpened(net, v, a);
    SeenUnchanged(net, v, Opened(v, a));
  }

  lemma SeenOpened(net: Network, v: View, a: word)
    requires |v.progress| == |v.rows|
    ensures forall k, i, b :: Seen(net, v, k, i, b) <==> Seen(net, Opened(v, a), k, i, b)
  {}

  lemma SeenUnchanged(net: Network, v: View, v': View)
    requires RequestsRight(net, v) && v'.requested == v.requested
    requires forall k, i, a :: Seen(net, v, k, i, a) <==> Seen(net, v', k, i, a)
    ensures RequestsRight(net, v')
  {
    forall a | a in v'.requested && a != 0 ensures exists k, i :: Seen(net, v', k, i, a) {
      var k, i :| Seen(net, v, k, i, a);
      assert Seen(net, v', k, i, a);
    }
  }

  lemma RowsFit(net: Network, v: View, a: word)
    requires FitsTables(net) && Inv(net, v) && a in v.outstanding && Answers(net, a)
    ensures |v.rows| < MAX_NODE_LIST
  {
    var addresses := seq(|v.rows|, k requires 0 <= k < |v.rows| => v.rows[k].address);
    DistinctFit(addresses, Answering(net) - {a});
  }

  lemma {:induction false} DistinctFit(s: seq<word>, among: set<word>)
    requires forall k :: 0 <= k < |s| ==> s[k] in among
    requires forall k, l :: 0 <= k < l < |s| ==> s[k] != s[l]
    ensures |s| <= |among|
  {
    if s != [] {
      DistinctFit(s[1..], among - {s[0]});
    }
  }

  /** A device that fails to answer is only struck off. */
  lemma FailureStruckOff(net: Network, v: View, a: word)
    requires Inv(net, v) && a in v.outstanding && !Answers(net, a)
    ensures Inv(net, v.(outstanding := v.outstanding - {a}))
  {
    SeenUnchanged(net, v, v.(outstanding := v.outstanding - {a}));
  }

  /** The row with one more entry looked at. */
  function RowAdvanced(row: Node, n: Neighbour): Node {
    if Relation(n) == 1 then row.(children := row.children + [Child(n.networkAddress, DeviceType(n))]) else row
  }

  function Advanced(v: View, k: nat, n: Neighbour): View
    requires k < |v.rows| && k < |v.progress|
  {
    v.(rows := v.rows[k := RowAdvanced(v.rows[k], n)], progress := v.progress[k := v.progress[k] + 1])
  }

  predicate IsLink(n: Neighbour) { Relation(n) == 1 && DeviceType(n) == ROUTER }

  function Asked(net: Network, v: View, a: word): View {
    v.(requested := v.requested + {a}, outstanding := if a in net then v.outstanding + {a} else v.outstanding)
  }

  lemma AdvancedRows(net: Network, v: View, k: nat)
    requires FitsTables(net) && RowsRight(net, v) && k < |v.rows|
    requires v.progress[k] < |net[v.rows[k].address].neighbours|
    ensures var n := net[v.rows[k].address].neighbours[v.progress[k]];
            && RowsRight(net, Advanced(v, k, n))
            && (Relation(n) == 1 ==> |v.rows[k].children| < MAX_CHILDREN)
            && forall a :: Recorded(Advanced(v, k, n).rows, a) <==> Recorded(v.rows, a)
  {
    var table, done := net[v.rows[k].address].neighbours, v.progress[k];
    var v' := Advanced(v, k, table[done]);
    assert table[..done + 1][..done] == table[..done];
    assert RowRight(net, v'.rows[k], v'.progress[k]);
    ChildrenGrow(table, done + 1);
    assert forall l :: 0 <= l < |v.rows| ==> v'.rows[l].address == v.rows[l].address;
    forall a ensures Recorded(v'.rows, a) <==> Recorded(v.rows, a) {
      if l :| 0 <= l < |v.rows| && v.rows[l].address == a { assert v'.rows[l].address == a; }
    }
  }

  lemma {:induction false} ChildrenGrow(table: seq<Neighbour>, n: nat)
    requires n <= |table|
    ensures |Children(table[..n])| <= |Children(table)|
    decreases |table| - n
  {
    if n < |table| {
      assert table[..n + 1][..n] == table[..n];
      ChildrenGrow(table, n + 1);
    } else {
      assert table[..n] == table;
    }
  }

  lemma SeenAdvanced(net: Network, v: View, k: nat)
    requires RowsRight(net, v) && k < |v.rows| && v.progress[k] < |net[v.rows[k].address].neighbours|
    ensures forall l, j, b :: Seen(net, Advanced(v, k, net[v.rows[k].address].neighbours[v.progress[k]]), l, j, b)
              <==> Seen(net, v, l, j, b) || (l == k && j == v.progress[k] && Link(net, v.rows[k].address, j, b))
  {}

  lemma EntryPassed(net: Network, v: View, k: nat)
    requires FitsTables(net) && Inv(net, v) && k < |v.rows|
    requires v.progress[k] < |net[v.rows[k].address].neighbours|
    requires !IsLink(net[v.rows[k].address].neighbours[v.progress[k]])
    ensures Inv(net, Advanced(v, k, net[v.rows[k].address].neighbours[v.progress[k]]))
  {
    AdvancedRows(net, v, k);
    SeenAdvanced(net, v, k);
    SeenUnchanged(net, v, Advanced(v, k, net[v.rows[k].address].neighbours[v.progress[k]]));
  }

  /** A child router that comes up has never been asked before. */
  lemma LinkIsNew(net: Network, v: View, k: nat, a: word)
    requires IsTree(net) && Inv(net, v) && k < |v.rows|
    requires Link(net, v.rows[k].address, v.progress[k], a)
    ensures a !in v.requested && !Recorded(v.rows, a)
  {}

  lemma AskedRequests(net: Network, v: View, v': View, k: nat, i: nat, a: word)
    requires RequestsRight(net, v) && 0 <= k < |v.rows| && Reachable(net, v.rows[k].address)
    requires Link(net, v.rows[k].address, i, a) && Seen(net, v', k, i, a)
    requires v'.requested == v.requested + {a}
    requires forall l, j, b :: Seen(net, v', l, j, b) ==> Seen(net, v, l, j, b) || b == a
    requires forall l, j, b :: Seen(net, v, l, j, b) ==> Seen(net, v', l, j, b)
    ensures RequestsRight(net, v')
  {
    ReachableChild(net, v.rows[k].address, i, a);
    forall b | b in v'.requested && b != 0 ensures exists l, j :: Seen(net, v', l, j, b) {
      if b != a {
        var l, j :| Seen(net, v, l, j, b);
        assert Seen(net, v', l, j, b);
      }
    }
  }

  /** Looking at a child router and asking it keeps the invariant. */
  lemma LinkAsked(net: Network, v: View, k: nat)
    requires IsTree(net) && FitsTables(net) && Inv(net, v) && k < |v.rows|
    requires v.progress[k] < |net[v.rows[k].address].neighbours|
    requires IsLink(net[v.rows[k].address].neighbours[v.progress[k]])
    ensures var n := net[v.rows[k].address].neighbours[v.progress[k]];
            n.networkAddress !in v.requested && Inv(net, Asked(net, Advanced(v, k, n), n.networkAddress))
  {
    var p, i := v.rows[k].address, v.progress[k];
    var n := net[p].neighbours[i];
    var a := n.networkAddress;
    assert Link(net, p, i, a);
    LinkIsNew(net, v, k, a);
    AdvancedRows(net, v, k);
    SeenAdvanced(net, v, k);
    var v1 := Advanced(v, k, n);
    var v' := Asked(net, v1, a);
    assert Partition(net, v');
    assert Recorded(v.rows, p);
    assert forall l, j, b :: Seen(net, v', l, j, b) <==> Seen(net, v1, l, j, b);
    AskedRequests(net, v, v', k, i, a);
  }

  /** What nested callbacks do to the state of the one they interrupt: they add complete rows. */
  ghost predicate Grown(net: Network, v: View, v': View) {
    && v.rows <= v'.rows && v.progress <= v'.progress
    && CompleteFrom(net, v', |v.rows|)
  }

  /** The devices whose response has not been handled yet. */
  ghost function Unheard(net: Network, v: View): set<word> {
    set a | a in net && (a !in v.requested || a in v.outstanding)
  }

  /** The row of the callback that is running, with `i` entries looked at; later rows are complete. */
  ghost predicate RowInHand(net: Network, v: View, k: nat, a: word, i: nat) {
    && |v.progress| == |v.rows| && k < |v.rows|
    && v.rows[k].address == a && v.progress[k] == i
    && CompleteFrom(net, v, k + 1)
  }

  lemma RowStaysInHand(net: Network, v: View, k: nat, a: word, i: nat, v': View)
    requires RowInHand(net, v, k, a, i) && a in net && i < |net[a].neighbours|
    requires Grown(net, Advanced(v, k, net[a].neighbours[i]), v')
    ensures RowInHand(net, v', k, a, i + 1)
    ensures v.rows[..k] == v'.rows[..k] && v.progress[..k] == v'.progress[..k]
  {
    var w := Advanced(v, k, net[a].neighbours[i]);
    assert v'.rows[k] == w.rows[k] && v'.progress[k] == w.progress[k];
    forall l | k + 1 <= l < |v'.rows|
      ensures v'.rows[l].address in net && v'.progress[l] == |net[v'.rows[l].address].neighbours|
    {
      if l < |v.rows| {
        assert v'.rows[l] == w.rows[l] == v.rows[l] && v'.progress[l] == w.progress[l] == v.progress[l];
      }
    }
  }

  lemma OpenedInHand(net: Network, v: View, a: word, v': View)
    requires |v.progress| == |v.rows| && Inv(net, Opened(v, a)) && v' == Opened(v, a)
    ensures Inv(net, v') && RowInHand(net, v', |v.rows|, a, 0)
    ensures v'.rows[..|v.rows|] == v.rows && v'.progress[..|v.rows|] == v.progress
  {}

  lemma StruckOff(net: Network, v: View, a: word, v': View)
    requires Inv(net, v) && a in v.outstanding && !Answers(net, a)
    requires v' == v.(outstanding := v.outstanding - {a})
    ensures Inv(net, v') && Grown(net, v, v')
  {
    FailureStruckOff(net, v, a);
  }

  lemma RowFilled(net: Network, v: View, a: word, v': View)
    requires a in net && |v.progress| == |v.rows|
    requires RowInHand(net, v', |v.rows|, a, |net[a].neighbours|)
    requires v'.rows[..|v.rows|] == v.rows && v'.progress[..|v.rows|] == v.progress
    ensures Grown(net, v, v')
  {}

  /** What a row looks like when its callback has ended; device type 0 is a coordinator, 1 a router. */
  function FullRow(msg: LqiResponse): Node {
    Node(msg.srcAddr, if msg.srcAddr == 0 then 0 else 1, Children(msg.neighbours))
  }

  lemma FilledRow(net: Network, v: View, k: nat, msg: LqiResponse)
    requires Inv(net, v) && RowInHand(net, v, k, msg.srcAddr, |msg.neighbours|)
    requires msg.srcAddr in net && msg == net[msg.srcAddr]
    ensures v.rows[k] == FullRow(msg)
  {
    assert RowRight(net, v.rows[k], v.progress[k]);
    assert msg.neighbours[..|msg.neighbours|] == msg.neighbours;
  }

  lemma HeardOnce(net: Network, v: View, a: word)
    requires Inv(net, v) && a in v.outstanding
    ensures Unheard(net, v.(outstanding := v.outstanding - {a})) < Unheard(net, v)
  {
    assert a in Unheard(net, v);
  }

  // ---------- The program ----------

  lemma NoMembers(s: set<word>)
    requires forall a: word :: a !in s
    ensures s == {}
  {
    assert forall a: word :: a in s <==> a in {};
  }

  /** Which of the outstanding responses comes first is not determined. */
  method AnyOf(outstanding: set<word>) returns (a: word)
    requires outstanding != {}
    ensures a in outstanding
  {
    if forall b: word :: b !in outstanding { NoMembers(outstanding); }
    a :| a in outstanding;
  }

  /** The members of a set, each once. */
  method Listed(s: set<word>) returns (list: seq<word>)
    ensures forall a :: a in list ==> a in s
    ensures |list| == |s|
  {
    list := [];
    var rest := s;
    while rest != {}
      invariant rest <= s && (forall a :: a in list ==> a in s) && |list| + |rest| == |s|
      decreases |rest|
    {
      var a := AnyOf(rest);
      list := list + [a];
      rest := rest - {a};
    }
  }

  class Discovery {
    const net: Network
    const nodeList: array<Node>
    var nodeCount: nat
    // the environment: which responses are on their way, to this discovery and to earlier ones
    var outstanding: set<word>
    var late: seq<word>
    ghost var progress: seq<nat>
    ghost var requested: set<word>

    ghost function Now(): View
      requires nodeCount <= nodeList.Length
      reads this, nodeList
    { View(nodeList[..nodeCount], progress, requested, outstanding) }

    ghost predicate Sound()
      reads this
    {
      IsTree(net) && FitsTables(net) && nodeList.Length == MAX_NODE_LIST && nodeCount <= MAX_NODE_LIST
    }

    /** What earlier discoveries have left over adds no rows. */
    ghost predicate Harmless()
      reads this
    {
      forall a :: a in late ==> a in net && !Answers(net, a)
    }

    constructor (net: Network)
      requires IsTree(net) && FitsTables(net)
      ensures Sound() && this.net == net && fresh(nodeList) && outstanding == {} && late == []
    {
      this.net := net;
      nodeList := new Node[MAX_NODE_LIST](_ => Node(0, 0, []));
      nodeCount, outstanding, late, progress, requested := 0, {}, [], [], {};
    }

    /** Takes one of the responses on their way, which one is not determined, and handles it. */
    method TakeResponse()
      requires Sound() && Harmless() && Inv(net, Now()) && (outstanding != {} || late != [])
      modifies this, nodeList
      ensures Sound() && Harmless() && Inv(net, Now()) && Grown(net, old(Now()), Now())
      ensures Unheard(net, Now()) <= old(Unheard(net, Now())) && |late| <= old(|late|)
      ensures old(requested) <= requested
      ensures Unheard(net, Now()) < old(Unheard(net, Now())) || |late| < old(|late|)
      decreases Unheard(net, Now()), |late|, 0
    {
      ghost var start := Now();
      var isLate := *;
      if outstanding == {} || (late != [] && isLate) {
        var i: nat :| i < |late|;
        var a := late[i];
        late := late[..i] + late[i + 1..];
        MgmtLqiRspCb(net[a], start);
      } else {
        var a := AnyOf(outstanding);
        HeardOnce(net, start, a);
        outstanding := outstanding - {a};
        if !Answers(net, a) { StruckOff(net, start, a, Now()); }
        MgmtLqiRspCb(net[a], start);
      }
    }

    /** Waits for one message; it may be a response, which is then handled, or something else. */
    method WaitMqClientMsg()
      requires Sound() && Harmless() && Inv(net, Now())
      modifies this, nodeList
      ensures Sound() && Harmless() && Inv(net, Now()) && Grown(net, old(Now()), Now())
      ensures Unheard(net, Now()) <= old(Unheard(net, Now())) && |late| <= old(|late|)
      ensures old(requested) <= requested
      decreases Unheard(net, Now()), |late|, 1
    {
      if * {
        if outstanding != {} || late != [] {
          TakeResponse();
        }
      }
    }

    /**
     * Sends a request and waits for its acknowledgement, which may be preceded by a response to an
     * earlier request.
     */
    method MgmtLqiReq(dstAddr: word)
      requires Sound() && Harmless() && dstAddr !in requested && Inv(net, Asked(net, Now(), dstAddr))
      modifies this, nodeList
      ensures Sound() && Harmless() && Inv(net, Now()) && Grown(net, old(Now()), Now())
      ensures Unheard(net, Now()) <= old(Unheard(net, Now())) && |late| <= old(|late|)
      ensures old(requested) <= requested
      ensures dstAddr in requested
      decreases Unheard(net, Now()), |late|, 2
    {
      requested := requested + {dstAddr};
      outstanding := if dstAddr in net then outstanding + {dstAddr} else outstanding;
      WaitMqClientMsg();
    }

    /** One turn of the loop of the callback that fills row `k`. */
    method LookAtEntry(k: nat, n: Neighbour)
      requires Sound() && Harmless() && Inv(net, Now()) && k < nodeCount
      requires progress[k] < |net[nodeList[k].address].neighbours|
      requires n == net[nodeList[k].address].neighbours[progress[k]]
      modifies this, nodeList
      ensures Sound() && Harmless() && Inv(net, Now()) && Grown(net, Advanced(old(Now()), k, n), Now())
      ensures Unheard(net, Now()) <= old(Unheard(net, Now())) && |late| <= old(|late|)
      ensures old(requested) <= requested
      ensures IsChild(n) && n.flags & 3 == 1 ==> n.networkAddress in requested
      ensures !(IsChild(n) && n.flags & 3 == 1) ==>
                requested == old(requested) && outstanding == old(outstanding) && nodeCount == old(nodeCount)
      decreases Unheard(net, Now()), |late|, 3
    {
      ghost var before := Now();
      AdvancedRows(net, before, k);
      var isRouter := RecordEntry(k, n);
      if isRouter {
        LinkAsked(net, before, k);
        MgmtLqiReq(n.networkAddress);
      } else {
        EntryPassed(net, before, k);
      }
    }

    /** Records the entry if it is a child, and tells whether it is a child router. */
    method RecordEntry(k: nat, n: Neighbour) returns (isRouter: bool)
      requires k < nodeCount <= nodeList.Length && |progress| == nodeCount
      modifies this`progress, nodeList
      ensures Now() == Advanced(old(Now()), k, n)
      ensures isRouter <==> IsLink(n)
    {
      ghost var rows := nodeList[..nodeCount];
      isRouter := StoreEntry(k, n);
      progress := progress[k := progress[k] + 1];
      assert rows[k].children + [] == rows[k].children;
      assert nodeList[k] == RowAdvanced(rows[k], n);
      assert nodeList[..nodeCount] == rows[k := nodeList[k]];
    }

    /**
     * The part of the loop that reads the flags: an entry with 1 in bits 4 to 6 is appended to the
     * children of the row, with bits 0 and 1 as its type; with 1 in these too it is to be asked.
     */
    method StoreEntry(k: nat, n: Neighbour) returns (isRouter: bool)
      requires k < nodeCount <= nodeList.Length
      modifies nodeList
      ensures isRouter <==> (n.flags >> 4) & 7 == 1 && n.flags & 3 == 1
      ensures forall l :: 0 <= l < nodeList.Length && l != k ==> nodeList[l] == old(nodeList[l])
      ensures nodeList[k].address == old(nodeList[k].address) && nodeList[k].kind == old(nodeList[k].kind)
      ensures nodeList[k].children
           == old(nodeList[k].children)
              + if (n.flags >> 4) & 7 == 1 then [Child(n.networkAddress, n.flags & 3)] else []
    {
      var devType, devRelation := DeviceType(n), Relation(n);
      if devRelation == 1 {
        var row := nodeList[k];
        nodeList[k] := row.(children := row.children + [Child(n.networkAddress, devType)]);
      }
      isRouter := devRelation == 1 && devType == ROUTER;
    }

    /**
     * The callback, for a message that was on its way in `v` and now is not. One that reports a failure
     * may come from an earlier discovery.
     */
    method MgmtLqiRspCb(msg: LqiResponse, ghost v: View)
      requires Sound() && Harmless() && msg.srcAddr in net && msg == net[msg.srcAddr]
      requires msg.status == SUCCESS ==>
                 && Inv(net, v) && msg.srcAddr in v.outstanding
                 && Now() == v.(outstanding := v.outstanding - {msg.srcAddr})
      requires msg.status != SUCCESS ==> Inv(net, Now()) && Grown(net, v, Now())
      modifies this, nodeList
      ensures Sound() && Harmless() && Inv(net, Now()) && Grown(net, v, Now())
      ensures Unheard(net, Now()) <= old(Unheard(net, Now())) && |late| <= old(|late|)
      ensures old(requested) <= requested
      ensures msg.status == 0 ==> nodeCount > old(nodeCount) && nodeList[old(nodeCount)] == FullRow(msg)
      ensures msg.status != 0 ==>
                requested == old(requested) && nodeCount == old(nodeCount) && nodeList[..] == old(nodeList[..])
      decreases Unheard(net, Now()), |late|, 6
    {
      if msg.status == SUCCESS {
        RowOpened(net, v, msg.srcAddr);
        RecordResponse(msg, v);
      }
    }

    /** The branch of the callback for a response that reports success. */
    method RecordResponse(msg: LqiResponse, ghost v: View)
      requires Sound() && Harmless() && nodeCount < MAX_NODE_LIST
      requires Now() == v.(outstanding := v.outstanding - {msg.srcAddr}) && |v.progress| == |v.rows|
      requires Inv(net, Opened(v, msg.srcAddr)) && msg.srcAddr in net && msg == net[msg.srcAddr]
      modifies this, nodeList
      ensures Sound() && Harmless() && Inv(net, Now()) && Grown(net, v, Now())
      ensures Unheard(net, Now()) <= old(Unheard(net, Now())) && |late| <= old(|late|)
      ensures old(requested) <= requested
      ensures nodeCount > old(nodeCount) && nodeList[old(nodeCount)] == FullRow(msg)
      decreases Unheard(net, Now()), |late|, 5
    {
      var localNodeCount := nodeCount;
      OpenRow(msg.srcAddr);
      OpenedInHand(net, v, msg.srcAddr, Now());
      FillRow(localNodeCount, msg, v);
      FilledRow(net, Now(), localNodeCount, msg);
    }

    /** The loop of the callback: looks at all entries of the table, in order. */
    method FillRow(k: nat, msg: LqiResponse, ghost v: View)
      requires Sound() && Harmless() && Inv(net, Now()) && RowInHand(net, Now(), k, msg.srcAddr, 0)
      requires |v.rows| == |v.progress| == k && Now().rows[..k] == v.rows && Now().progress[..k] == v.progress
      requires msg.srcAddr in net && msg == net[msg.srcAddr]
      modifies this, nodeList
      ensures Sound() && Harmless() && Inv(net, Now()) && Grown(net, v, Now())
      ensures Unheard(net, Now()) <= old(Unheard(net, Now())) && |late| <= old(|late|)
      ensures old(requested) <= requested
      ensures RowInHand(net, Now(), k, msg.srcAddr, |msg.neighbours|)
      decreases Unheard(net, Now()), |late|, 4
    {
      ghost var start := Now();
      var i := 0;
      while i < |msg.neighbours|
        invariant 0 <= i <= |msg.neighbours|
        invariant Sound() && Harmless() && Inv(net, Now())
        invariant RowInHand(net, Now(), k, msg.srcAddr, i)
        invariant Now().rows[..k] == start.rows[..k] && Now().progress[..k] == start.progress[..k]
        invariant Unheard(net, Now()) <= Unheard(net, start) && |late| <= old(|late|)
        invariant old(requested) <= requested
      {
        ghost var before := Now();
        LookAtEntry(k, msg.neighbours[i]);
        RowStaysInHand(net, before, k, msg.srcAddr, i, Now());
        i := i + 1;
      }
      RowFilled(net, v, msg.srcAddr, Now());
    }

    /** Fills in the next row. */
    method OpenRow(srcAddr: word)
      requires nodeCount < nodeList.Length
      modifies this`nodeCount, this`progress, nodeList
      ensures nodeCount == old(nodeCount) + 1
      ensures nodeList[..nodeCount] == old(nodeList[..nodeCount]) + [NewRow(srcAddr)]
      ensures progress == old(progress) + [0]
    {
      var localNodeCount := nodeCount;
      nodeCount := nodeCount + 1;
      nodeList[localNodeCount] := Node(srcAddr, if srcAddr == 0 then COORDINATOR else ROUTER, []);
      progress := progress + [0];
    }

    /**
     * One discovery, from the first request until a wait times out, which may be too early. What is
     * still on its way from an earlier discovery may come in between, and must add no rows. In
     * whatever order the responses come and however they nest, each row of the list is then a device
     * that can be reached and answers, once, with its children; and the list holds all of these if and
     * only if no response that would add one is outstanding at the timeout.
     */
    method Discover()
      requires Sound() && Harmless() && NothingToCome(net, outstanding)
      requires forall a :: a in outstanding ==> a in net
      modifies this, nodeList
      ensures Sound() && Harmless() && forall a :: a in outstanding ==> a in net && Reachable(net, a)
      ensures Faithful(net, nodeList[..nodeCount])
      ensures Exact(net, nodeList[..nodeCount]) <==> NothingToCome(net, outstanding)
    {
      nodeCount := 0;
      var leftover := Listed(outstanding);
      late := late + leftover;
      outstanding, progress, requested := {}, [], {};
      FirstRequest(net);
      assert Now() == View([], [], {}, {});
      MgmtLqiReq(0);
      WaitForResponses();
      DiscoveryIsExact(net, Now());
    }

    /** Handles responses until a wait times out. */
    method WaitForResponses()
      requires Sound() && Harmless() && Inv(net, Now()) && CompleteFrom(net, Now(), 0)
      modifies this, nodeList
      ensures Sound() && Harmless() && Inv(net, Now()) && CompleteFrom(net, Now(), 0)
    {
      while outstanding != {} || late != []
        invariant Sound() && Harmless() && Inv(net, Now()) && CompleteFrom(net, Now(), 0)
        decreases Unheard(net, Now()), |late|
      {
        if * {
          break;
        }
        ghost var before := Now();
        TakeResponse();
        StillComplete(net, before, Now());
      }
    }
  }

  lemma StillComplete(net: Network, v: View, v': View)
    requires CompleteFrom(net, v, 0) && Grown(net, v, v')
    ensures CompleteFrom(net, v', 0)
  {
    forall k | 0 <= k < |v.rows| ensures v'.rows[k] == v.rows[k] && v'.progress[k] == v.progress[k] {}
  }

  lemma FirstRequest(net: Network)
    ensures Inv(net, Asked(net, View([], [], {}, {}), 0))
  {
    assert IsChain(net, [0]);
  }
}
