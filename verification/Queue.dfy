/** The kernel's queue of pids: nodes linked from `first`, relinked and dropped in place. */
module Queue {
  import opened SchedulerSpec
  import opened WaitQueueSpec
  import opened Scheduler

  class QueueNode {
    var elem: int
    var next: QueueNode?

    constructor (elem: int)
      ensures this.elem == elem && next == null
    {
      this.elem, next := elem, null;
    }
  }

  /** The nodes are distinct, hold the elements, and each links to the one after it. */
  ghost predicate Chained(first: QueueNode?, nodes: seq<QueueNode>, elems: seq<int>)
    reads nodes
  {
    && |nodes| == |elems|
    && first == (if nodes == [] then null else nodes[0])
    && (forall i, j :: 0 <= i < j < |nodes| ==> nodes[i] != nodes[j])
    && (forall i :: 0 <= i < |nodes| ==> nodes[i].elem == elems[i])
    && (forall i {:trigger nodes[i].next} :: 0 <= i < |nodes| ==>
          nodes[i].next == if i + 1 < |nodes| then nodes[i + 1] else null)
  }

  class PidQueue {
    var first: QueueNode?
    ghost var nodes: seq<QueueNode>
    ghost var elems: seq<int>

    ghost predicate Valid()
      reads this, nodes
    {
      Chained(first, nodes, elems)
    }

    constructor ()
      ensures Valid() && elems == [] && nodes == []
    {
      first, nodes, elems := null, [], [];
    }

    /** queue_add; granted says whether mm_alloc can supply the node. */
    method Add(elem: int, granted: bool) returns (r: int)
      requires Valid()
      modifies this, nodes
      ensures Valid() && forall n :: n in nodes && n !in old(nodes) ==> fresh(n)
      ensures r == if granted then 0 else -1
      ensures elems == if granted then old(elems) + [elem] else old(elems)
    {
      if !granted {
        return -1;
      }
      var node := new QueueNode(elem);
      var current := first;
      if first == null {
        first := node;
      } else {
        ghost var k := 0;
        while current.next != null
          invariant 0 <= k < |nodes| && current == nodes[k]
          decreases |nodes| - k
        {
          current := current.next;
          k := k + 1;
        }
        current.next := node;
      }
      nodes, elems := nodes + [node], elems + [elem];
      r := 0;
    }

    method Pop() returns (pid: int)
      requires Valid()
      modifies this
      ensures Valid()
      ensures pid == if old(elems) == [] then -1 else old(elems)[0]
      ensures elems == if old(elems) == [] then [] else old(elems)[1..]
      ensures nodes == if old(nodes) == [] then [] else old(nodes)[1..]
    {
      if first != null {
        pid := first.elem;
        first := first.next;
        nodes, elems := nodes[1..], elems[1..];
        return;
      }
      pid := -1;
    }

    method RemoveElem(elem: int)
      requires Valid()
      modifies this, nodes
      ensures Valid() && elems == Remove(old(elems), elem)
      ensures forall n :: n in nodes ==> n in old(nodes)
    {
      ghost var ns;
      first, ns := RemoveRec(first, elem, nodes, elems);
      nodes, elems := ns, Remove(elems, elem);
    }

    /** queue_unblock: the head is removed and woken. */
    method UnblockFirst(sch: SchedulerState)
      requires Valid() && sch.Valid()
      modifies this, sch, sch.processesStates
      ensures Valid() && sch.Valid()
      ensures elems == if old(elems) == [] then [] else old(elems)[1..]
      ensures sch.Model() == if old(elems) == [] then old(sch.Model()) else Unblock(old(sch.Model()), old(elems)[0])
    {
      if first != null {
        var current := first;
        first := first.next;
        nodes, elems := nodes[1..], elems[1..];
        var _ := sch.UnblockPid(current.elem);
      }
    }

    /** queue_unblock_all. */
    method UnblockEvery(sch: SchedulerState)
      requires Valid() && sch.Valid()
      modifies this, sch, sch.processesStates
      ensures Valid() && sch.Valid()
      ensures elems == [] && sch.Model() == UnblockAll(old(sch.Model()), old(elems))
    {
      FreeRec(first, sch, nodes, elems);
      first := null;
      nodes, elems := [], [];
    }
  }

  /** remove_rec relinks on the way back up. */
  method RemoveRec(current: QueueNode?, elem: int, ghost nodes: seq<QueueNode>, ghost elems: seq<int>)
    returns (r: QueueNode?, ghost left: seq<QueueNode>)
    requires Chained(current, nodes, elems)
    modifies nodes
    ensures Chained(r, left, Remove(elems, elem))
    ensures forall n :: n in left ==> n in nodes
    decreases |nodes|
  {
    if current == null {
      return null, [];
    }
    if current.elem == elem {
      return current.next, nodes[1..];
    }
    ghost var rest;
    var next;
    next, rest := RemoveRec(current.next, elem, nodes[1..], elems[1..]);
    assert current !in nodes[1..] && current !in rest;
    current.next := next;
    r, left := current, [current] + rest;
    assert Chained(next, rest, Remove(elems[1..], elem));
    assert forall i :: 0 < i < |left| ==> left[i] == rest[i - 1];
    assert forall i :: 0 <= i < |rest| ==> rest[i] in rest;
  }

  /** free_rec wakes the tail before the head. */
  method FreeRec(node: QueueNode?, sch: SchedulerState, ghost nodes: seq<QueueNode>, ghost elems: seq<int>)
    requires Chained(node, nodes, elems) && sch.Valid()
    modifies sch, sch.processesStates
    ensures sch.Valid() && sch.Model() == UnblockAll(old(sch.Model()), elems)
    ensures Chained(node, nodes, elems)
    decreases |nodes|
  {
    if node == null {
      return;
    }
    FreeRec(node.next, sch, nodes[1..], elems[1..]);
    var _ := sch.UnblockPid(node.elem);
  }
}
