/** Wait queues on values: removal, and waking every waiter from the tail to the head. */
module WaitQueueSpec {
  import opened SchedulerSpec
  import opened Sums

  /** queue_remove: the first occurrence only. */
  function Remove(q: seq<int>, elem: int): seq<int> {
    if q == [] then [] else if q[0] == elem then q[1..] else [q[0]] + Remove(q[1..], elem)
  }

  /** queue_unblock_all: the waiters are unblocked from the last to the first. */
  function UnblockAll(s: Sched, q: seq<int>): (t: Sched)
    requires |s.procs| == MAX_PROCESSES
    ensures |t.procs| == MAX_PROCESSES
  {
    if q == [] then s else Unblock(UnblockAll(s, q[1..]), q[0])
  }

  /** Nothing but the first occurrence of the element goes, and the rest keeps its order. */
  lemma {:induction false} RemoveFirstOccurrence(q: seq<int>, elem: int, k: nat)
    requires k <= |q| && elem !in q[..k]
    requires k < |q| ==> q[k] == elem
    ensures Remove(q, elem) == if k < |q| then q[..k] + q[k + 1..] else q
  {
    if q != [] && k > 0 {
      assert q[1..][..k - 1] == q[..k][1..];
      assert q[0] in q[..k];
      RemoveFirstOccurrence(q[1..], elem, k - 1);
      if k < |q| {
        assert q[..k] + q[k + 1..] == [q[0]] + (q[1..][..k - 1] + q[1..][k..]);
      } else {
        assert q == [q[0]] + q[1..];
      }
    }
  }

  lemma {:induction false} RemoveMembers(q: seq<int>, elem: int)
    requires NoDuplicates(q)
    ensures NoDuplicates(Remove(q, elem))
    ensures forall x :: x in Remove(q, elem) <==> x in q && x != elem
  {
    if q != [] {
      assert forall x :: x in q <==> x == q[0] || x in q[1..];
      assert q[0] !in q[1..];
      RemoveMembers(q[1..], elem);
      var rest := Remove(q[1..], elem);
      if q[0] != elem {
        assert forall i :: 0 <= i < |rest| ==> rest[i] in rest;
        assert Remove(q, elem) == [q[0]] + rest;
      }
    }
  }

  ghost predicate Sleeping(s: Sched, pid: int)
    requires |s.procs| == MAX_PROCESSES
  {
    IsActive(s.procs, pid) && s.procs[pid].status == BLOCKED
  }

  /** Waking a queue makes exactly its sleeping members ready and touches no other process. */
  lemma {:induction false} UnblockAllWakes(s: Sched, q: seq<int>)
    requires Inv(s)
    ensures var t := UnblockAll(s, q);
      && Inv(t) && t.current == s.current && t.quantums == s.quantums && t.kernelRsp == s.kernelRsp
      && forall p :: 0 <= p < MAX_PROCESSES ==>
           t.procs[p] == if p in q && Sleeping(s, p) then s.procs[p].(status := READY) else s.procs[p]
    decreases |q|
  {
    if q != [] {
      UnblockAllWakes(s, q[1..]);
      NextInv(UnblockAll(s, q[1..]), Unblocked(q[0]));
      assert forall p :: p in q <==> p == q[0] || p in q[1..];
    }
  }

  predicate Urgent(s: Sched, pid: int)
    requires |s.procs| == MAX_PROCESSES
  {
    IsActive(s.procs, pid) && s.procs[pid].status == BLOCKED && s.procs[pid].priority <= REALTIME_PRIORITY
  }

  /** Position of the frontmost sleeping member with real-time priority; |q| when there is none. */
  function FirstUrgent(s: Sched, q: seq<int>): (k: nat)
    requires |s.procs| == MAX_PROCESSES
    ensures k <= |q|
    ensures k < |q| ==> Urgent(s, q[k])
    ensures forall i :: 0 <= i < k ==> !Urgent(s, q[i])
  {
    if q == [] || Urgent(s, q[0]) then 0 else 1 + FirstUrgent(s, q[1..])
  }

  /** Because the waking runs from tail to head, the forced-next slot ends on the frontmost
      real-time sleeper, or is left alone when there is none. */
  lemma {:induction false} UnblockAllForces(s: Sched, q: seq<int>)
    requires Inv(s) && NoDuplicates(q)
    ensures var k := FirstUrgent(s, q);
      UnblockAll(s, q).forceNext == if k < |q| then q[k] else s.forceNext
    decreases |q|
  {
    if q != [] {
      UnblockAllForces(s, q[1..]);
      UnblockAllWakes(s, q[1..]);
      assert q[0] !in q[1..];
    }
  }

  /** The next switch dispatches that process. */
  lemma {:induction false} FrontmostUrgentRunsNext(s: Sched, q: seq<int>, rsp: nat)
    requires Inv(s) && NoDuplicates(q) && rsp != NULL && FirstUrgent(s, q) < |q|
    ensures Inv(UnblockAll(s, q))
    ensures Switch(UnblockAll(s, q), rsp).current == q[FirstUrgent(s, q)]
  {
    UnblockAllForces(s, q);
    UnblockAllWakes(s, q);
    var p := q[FirstUrgent(s, q)];
    assert p in q && Sleeping(s, p);
  }
}
