/** The linked message queue of the RPC layer: a pointer structure that refines a sequence. */
module MessageQueue {
  import opened Bytes

  datatype Received = Timeout | Message(data: seq<byte>)

  class Node {
    var ptr: Node?
    const data: seq<byte>

    constructor (data: seq<byte>)
      ensures this.data == data && ptr == null
    {
      this.data := data;
      ptr := null;
    }
  }

  /** The data of a chain of nodes. */
  function Data(nodes: seq<Node>): (d: seq<seq<byte>>)
    ensures |d| == |nodes|
    ensures forall i :: 0 <= i < |nodes| ==> d[i] == nodes[i].data
  {
    seq(|nodes|, i requires 0 <= i < |nodes| => nodes[i].data)
  }

  class Queue {
    var head: Node?
    var tail: Node?
    var temp: Node?
    var accessSem: nat
    var countSem: nat
    ghost var spine: seq<Node>

    /** The nodes from `head` along `ptr`, without repetition, and `tail` is the last of them. */
    ghost predicate Linked()
      reads this`head, this`tail, this`spine, spine
    {
      && (head == null <==> spine == [])
      && (tail == null <==> spine == [])
      && (spine != [] ==> head == spine[0] && tail == spine[|spine| - 1] && tail.ptr == null)
      && (forall i :: 0 <= i < |spine| - 1 ==> spine[i].ptr == spine[i + 1])
      && (forall i, j :: 0 <= i < j < |spine| ==> spine[i] != spine[j])
    }

    /** No operation is under way: the access semaphore is free and the count is the length. */
    ghost predicate Valid()
      reads this, spine
    {
      Linked() && accessSem == 1 && countSem == |spine|
    }

    ghost function Contents(): seq<seq<byte>>
      reads this
    {
      Data(spine)
    }

    lemma TailIsInSpine()
      requires Valid() && tail != null
      ensures tail in spine
    {
      assert spine[|spine| - 1] in spine;
    }

    constructor Open()
      ensures Valid() && Contents() == [] && spine == []
    {
      head, tail, temp := null, null, null;
      accessSem, countSem := 1, 0;
      spine := [];
    }

    method AddToHead(data: seq<byte>)
      requires Linked()
      modifies this`head, this`tail, this`temp, this`spine
      ensures Linked()
      ensures Contents() == [data] + old(Contents())
      ensures forall n :: n in spine ==> n in old(spine) || fresh(n)
    {
      if head == null {
        head := new Node(data);
        tail := head;
        spine := [head];
      } else {
        temp := new Node(data);
        temp.ptr := head;
        spine := [temp] + spine;
        head := temp;
      }
    }

    method AddToTail(data: seq<byte>)
      requires Linked()
      modifies this`head, this`tail, this`temp, this`spine, tail
      ensures Linked()
      ensures Contents() == old(Contents()) + [data]
      ensures forall n :: n in spine ==> n in old(spine) || fresh(n)
    {
      if tail == null {
        tail := new Node(data);
        head := tail;
        spine := [tail];
      } else {
        temp := new Node(data);
        tail.ptr := temp;
        spine := spine + [temp];
        tail := temp;
      }
    }

    /** Adds at the head when `prio` is 1 and at the tail otherwise, then counts the message. */
    method Add(data: seq<byte>, prio: int)
      requires Valid()
      modifies this, tail
      ensures Valid()
      ensures Contents() == if prio == 1 then [data] + old(Contents()) else old(Contents()) + [data]
      ensures forall n :: n in spine ==> n in old(spine) || fresh(n)
    {
      accessSem := accessSem - 1;
      if prio == 1 {
        AddToHead(data);
      } else {
        AddToTail(data);
      }
      accessSem := accessSem + 1;
      countSem := countSem + 1;
    }

    /**
     * Takes the message at the head; with none there the wait on the counting semaphore times out.
     * A semaphore that can be locked at once never times out.
     */
    method TimedReceive() returns (r: Received)
      requires Valid()
      modifies this
      ensures Valid()
      ensures old(Contents()) == [] ==> r == Timeout && Contents() == [] && spine == old(spine)
      ensures old(Contents()) != [] ==>
                r == Message(old(Contents()[0])) && Contents() == old(Contents()[1..]) && spine == old(spine[1..])
    {
      if countSem == 0 {
        return Timeout;
      }
      countSem := countSem - 1;
      if head != null {
        accessSem := accessSem - 1;
        temp := head.ptr;
        assert |spine| > 1 ==> temp == spine[1];
        r := Message(head.data);
        if temp != null {
          head := temp;
        } else {
          head := null;
          tail := null;
        }
        spine := spine[1..];
        accessSem := accessSem + 1;
      } else {
        r := Message([]);
      }
    }
  }
}
