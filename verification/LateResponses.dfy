/**
 * A discovery that meets responses to an earlier one. Here the callbacks do not nest: the wait of each
 * request ends with its acknowledgement.
 */
module LateResponses {
  import opened Bytes
  import opened Messages
  import opened Topology
  import opened Threads

  /** The rows filled and the responses on their way, which may come in any order. */
  datatype Stage = Stage(rows: seq<Node>, pending: seq<word>)

  /** The child routers that the callback asks, as far as they respond. */
  function AskedBy(net: Network, neighbours: seq<Neighbour>): seq<word> {
    if neighbours == [] then []
    else
      var before, n := AskedBy(net, neighbours[..|neighbours| - 1]), neighbours[|neighbours| - 1];
      if IsLink(n) && n.networkAddress in net then before + [n.networkAddress] else before
  }

  function Without<T>(s: seq<T>, i: nat): seq<T>
    requires i < |s|
  { s[..i] + s[i + 1..] }

  predicate CanTake(net: Network, s: Stage, i: nat) { i < |s.pending| && s.pending[i] in net }

  /** The callback for the i-th of the responses on their way. */
  function Taken(net: Network, s: Stage, i: nat): Stage
    requires CanTake(net, s, i)
  {
    var a, rest := s.pending[i], Without(s.pending, i);
    if net[a].status != SUCCESS then Stage(s.rows, rest)
    else
      var row := NewRow(a).(children := Children(net[a].neighbours));
      Stage(s.rows + [row], rest + AskedBy(net, net[a].neighbours))
  }

  predicate IsOrder(net: Network, s: Stage, order: seq<nat>)
    decreases order
  {
    order == [] || (CanTake(net, s, order[0]) && IsOrder(net, Taken(net, s, order[0]), order[1..]))
  }

  function Final(net: Network, s: Stage, order: seq<nat>): Stage
    requires IsOrder(net, s, order)
    decreases order
  {
    if order == [] then s else Final(net, Taken(net, s, order[0]), order[1..])
  }

  /** The coordinator has been asked, and these responses are left over. */
  function Start(net: Network, leftover: seq<word>): Stage {
    Stage([], leftover + if 0 in net then [0] else [])
  }

  predicate RecordedTwice(rows: seq<Node>, a: word) {
    exists k, l :: 0 <= k < l < |rows| && rows[k].address == a && rows[l].address == a
  }

  lemma {:induction false} LinkIsAsked(net: Network, neighbours: seq<Neighbour>, i: nat)
    requires i < |neighbours| && IsLink(neighbours[i]) && neighbours[i].networkAddress in net
    ensures neighbours[i].networkAddress in AskedBy(net, neighbours)
  {
    var n := |neighbours| - 1;
    if i < n {
      LinkIsAsked(net, neighbours[..n], i);
    }
  }

  /** Taking first the device `chain[m]`, then the next one down, and so on, ends with the last of the chain. */
  lemma {:induction false} DownTheChain(net: Network, s: Stage, chain: seq<word>, m: nat) returns (order: seq<nat>)
    requires IsChain(net, chain) && m < |chain| && Answers(net, chain[|chain| - 1])
    requires chain[m] in s.pending && s.rows != []
    ensures IsOrder(net, s, order)
    ensures var rows := Final(net, s, order).rows;
            |rows| > |s.rows| && rows[0] == s.rows[0] && rows[|rows| - 1].address == chain[|chain| - 1]
    decreases |chain| - m
  {
    if m + 1 < |chain| { assert HasLink(net, chain[m], chain[m + 1]); }
    assert Answers(net, chain[m]);
    var i: nat :| i < |s.pending| && s.pending[i] == chain[m];
    var next := Taken(net, s, i);
    if m + 1 == |chain| {
      order := [i];
      assert order[1..] == [];
    } else {
      NextIsPending(net, s, i, chain, m);
      var others := DownTheChain(net, next, chain, m + 1);
      order := [i] + others;
      assert order[1..] == others;
    }
  }

  lemma NextIsPending(net: Network, s: Stage, i: nat, chain: seq<word>, m: nat)
    requires IsChain(net, chain) && m + 1 < |chain| && Answers(net, chain[|chain| - 1])
    requires CanTake(net, s, i) && s.pending[i] == chain[m]
    ensures chain[m + 1] in Taken(net, s, i).pending
  {
    var p, a := chain[m], chain[m + 1];
    assert HasLink(net, p, a);
    var j :| Link(net, p, j, a);
    if m + 2 < |chain| { assert HasLink(net, a, chain[m + 2]); }
    LinkIsAsked(net, net[p].neighbours, j);
  }

  /**
   * One response left over that reports success is enough: if it comes first and the others from the
   * coordinator downwards, its device is recorded twice.
   */
  lemma LeftoverIsRecordedTwice(net: Network, leftover: seq<word>, a: word) returns (order: seq<nat>)
    requires a in leftover && Answers(net, a) && Reachable(net, a)
    ensures IsOrder(net, Start(net, leftover), order)
    ensures RecordedTwice(Final(net, Start(net, leftover), order).rows, a)
  {
    var s := Start(net, leftover);
    var chain :| IsChain(net, chain) && chain[|chain| - 1] == a;
    if |chain| > 1 { assert HasLink(net, chain[0], chain[1]); }
    var i: nat :| i < |leftover| && leftover[i] == a;
    LeftoverFirst(net, leftover, i);
    var others := DownTheChain(net, Taken(net, s, i), chain, 0);
    order := [i] + others;
    assert order[1..] == others;
    var rows := Final(net, s, order).rows;
    assert rows[0].address == rows[|rows| - 1].address == a;
  }

  lemma LeftoverFirst(net: Network, leftover: seq<word>, i: nat)
    requires i < |leftover| && Answers(net, leftover[i]) && 0 in net
    ensures var s := Start(net, leftover);
            && CanTake(net, s, i)
            && |Taken(net, s, i).rows| == 1 && Taken(net, s, i).rows[0].address == leftover[i]
            && 0 in Taken(net, s, i).pending
  {
    var pending := Taken(net, Start(net, leftover), i).pending;
    assert pending[|leftover| - 1] == 0;
  }

  // ---------- Two devices ----------

  /** A coordinator with a child router that has no children. */
  ghost predicate IsPair(net: Network, n: Neighbour) {
    && (forall a :: a in net <==> a == 0 || a == 1)
    && IsLink(n) && n.networkAddress == 1
    && net[0] == LqiResponse(0, SUCCESS, 1, 0, [n]) && net[1] == LqiResponse(1, SUCCESS, 0, 0, [])
  }

  lemma TablesOfPair(net: Network, n: Neighbour)
    requires IsPair(net, n)
    ensures AskedBy(net, []) == [] && AskedBy(net, [n]) == [1]
    ensures Children([]) == [] && Children([n]) == [Child(1, ROUTER)]
  {
    assert [n][..0] == [];
    assert AskedBy(net, []) == [] && Children([]) == [];
  }

  /** One more response in an order. */
  lemma OneMore(net: Network, s: Stage, i: nat, order: seq<nat>)
    requires CanTake(net, s, i) && IsOrder(net, Taken(net, s, i), order)
    ensures IsOrder(net, s, [i] + order) && Final(net, s, [i] + order) == Final(net, Taken(net, s, i), order)
  {
    assert ([i] + order)[1..] == order;
  }

  lemma StagesOfPair(net: Network, n: Neighbour) returns (s1: Stage, s2: Stage, s3: Stage)
    requires IsPair(net, n)
    ensures CanTake(net, Start(net, [1]), 0) && s1 == Taken(net, Start(net, [1]), 0)
    ensures CanTake(net, s1, 0) && s2 == Taken(net, s1, 0) && CanTake(net, s2, 0) && s3 == Taken(net, s2, 0)
    ensures s3.pending == [] && |s3.rows| == 3
    ensures s3.rows[0].address == 1 && s3.rows[1].address == 0 && s3.rows[2].address == 1
  {
    TablesOfPair(net, n);
    assert Start(net, [1]).pending == [1, 0];
    s1 := Taken(net, Start(net, [1]), 0);
    assert s1.pending == [0];
    s2 := Taken(net, s1, 0);
    assert s2.pending == [1];
    s3 := Taken(net, s2, 0);
  }

  /** Two devices, three rows: the response of the router to the discovery before comes first. */
  lemma TwoDevicesThreeRows(net: Network, n: Neighbour) returns (order: seq<nat>)
    requires IsPair(net, n)
    ensures IsOrder(net, Start(net, [1]), order)
    ensures var end := Final(net, Start(net, [1]), order);
            && end.pending == [] && |end.rows| == 3
            && end.rows[0].address == 1 && end.rows[1].address == 0 && end.rows[2].address == 1
  {
    var s1, s2, s3 := StagesOfPair(net, n);
    OneMore(net, s2, 0, []);
    OneMore(net, s1, 0, [0] + []);
    OneMore(net, Start(net, [1]), 0, [0] + ([0] + []));
    order := [0] + ([0] + ([0] + []));
  }

  /** That network meets all the conditions of a discovery. */
  lemma PairIsTree(net: Network, n: Neighbour)
    requires IsPair(net, n)
    ensures IsTree(net) && FitsTables(net)
  {
    TablesOfPair(net, n);
    var two: set<word> := {0, 1};
    SubsetSize(Answering(net), two);
  }
}
