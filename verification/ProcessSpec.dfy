/** The process tree on values: parent links against child queues, descent, and what a kill
    leaves behind. */
module ProcessSpec {
  import opened SchedulerSpec
  import opened Sums
  import opened WaitQueueSpec

  /** A slot of `processes`; alive stands for stack_end != NULL. */
  datatype Context = Context(alive: bool, parentPid: int, children: seq<int>, waiting: seq<int>)

  /** What memset leaves. */
  const EMPTY := Context(false, 0, [], [])

  predicate Alive(procs: seq<Context>, pid: int)
    requires |procs| == MAX_PROCESSES
  {
    ValidPid(pid) && procs[pid].alive
  }

  /** The tree between kills, or in the middle of one: `dying` are the processes whose kill is
      under way above p. They are still in the table, but their queues are partly emptied. p itself
      need not be in its parent's queue.
      Births number the creations; a parent is always born before its child. */
  ghost predicate TreeOk(procs: seq<Context>, births: seq<nat>, dying: set<int>, p: int) {
    && |procs| == |births| == MAX_PROCESSES
    && (forall q, c :: 0 <= q < MAX_PROCESSES && c in procs[q].children ==>
          Alive(procs, c) && procs[c].parentPid == q)
    && (forall c :: 0 <= c < MAX_PROCESSES && procs[c].alive && procs[c].parentPid >= 0 ==>
          ParentOk(procs, births, c, procs[c].parentPid)
          && (c !in dying && c != p ==> c in procs[procs[c].parentPid].children))
    && (forall q :: 0 <= q < MAX_PROCESSES ==> NoDuplicates(procs[q].children))
    && (forall c :: 0 <= c < MAX_PROCESSES && !procs[c].alive ==> procs[c] == EMPTY)
  }

  ghost predicate ParentOk(procs: seq<Context>, births: seq<nat>, c: int, q: int)
    requires |procs| == |births| == MAX_PROCESSES && ValidPid(c)
  {
    Alive(procs, q) && births[q] < births[c]
  }

  /** x is p or one of its descendants, by parent links. */
  ghost predicate Descends(procs: seq<Context>, births: seq<nat>, p: int, x: int)
    requires |procs| == |births| == MAX_PROCESSES && ValidPid(x)
    decreases births[x]
  {
    x == p
    || (ParentOk(procs, births, x, procs[x].parentPid) && Descends(procs, births, p, procs[x].parentPid))
  }

  /** The live subtree of p. */
  ghost function Subtree(procs: seq<Context>, births: seq<nat>, p: int): set<int>
    requires |procs| == |births| == MAX_PROCESSES
  {
    set x | 0 <= x < MAX_PROCESSES && procs[x].alive && Descends(procs, births, p, x)
  }

  /** A slot after proc_kill(p): the subtree is gone, p's parent no longer lists it, and
      every other context is as it was. */
  ghost function ContextAfter(before: seq<Context>, births: seq<nat>, p: int, x: int): Context
    requires |before| == |births| == MAX_PROCESSES && ValidPid(p) && ValidPid(x)
  {
    if x in Subtree(before, births, p) then EMPTY
    else if x == before[p].parentPid then before[x].(children := Remove(before[x].children, p))
    else before[x]
  }

  ghost predicate TableAfter(before: seq<Context>, births: seq<nat>, p: int, after: seq<Context>)
    requires |before| == |births| == MAX_PROCESSES && ValidPid(p)
  {
    && |after| == MAX_PROCESSES
    && forall x :: 0 <= x < MAX_PROCESSES ==> after[x] == ContextAfter(before, births, p, x)
  }

  lemma {:induction false} DescendsOrder(procs: seq<Context>, births: seq<nat>, p: int, x: int)
    requires |procs| == |births| == MAX_PROCESSES && ValidPid(p) && ValidPid(x)
    requires Descends(procs, births, p, x)
    ensures births[p] <= births[x] && (births[p] == births[x] ==> p == x)
    decreases births[x]
  {
    if x != p {
      DescendsOrder(procs, births, p, procs[x].parentPid);
    }
  }

  lemma {:induction false} DescendsTransitive(procs: seq<Context>, births: seq<nat>, p: int, q: int, x: int)
    requires |procs| == |births| == MAX_PROCESSES && ValidPid(q) && ValidPid(x)
    requires Descends(procs, births, p, q) && Descends(procs, births, q, x)
    ensures Descends(procs, births, p, x)
    decreases births[x]
  {
    if x != q {
      DescendsTransitive(procs, births, p, q, procs[x].parentPid);
    }
  }

  /** Two ancestors of one process are ancestors of each other. */
  lemma {:induction false} DescendsComparable(procs: seq<Context>, births: seq<nat>, a: int, b: int, x: int)
    requires |procs| == |births| == MAX_PROCESSES && ValidPid(x) && ValidPid(a) && ValidPid(b)
    requires Descends(procs, births, a, x) && Descends(procs, births, b, x)
    ensures Descends(procs, births, a, b) || Descends(procs, births, b, a)
    decreases births[x]
  {
    if x != a && x != b {
      DescendsComparable(procs, births, a, b, procs[x].parentPid);
    }
  }

  /** Siblings have separate subtrees, and neither contains the parent. */
  lemma {:induction false} SiblingsApart(procs: seq<Context>, births: seq<nat>, p: int, a: int, b: int)
    requires |procs| == |births| == MAX_PROCESSES && ValidPid(a) && ValidPid(b)
    requires ParentOk(procs, births, a, p) && ParentOk(procs, births, b, p)
    requires procs[a].parentPid == p == procs[b].parentPid && a != b
    ensures Subtree(procs, births, a) !! Subtree(procs, births, b)
    ensures p !in Subtree(procs, births, a)
  {
    forall x | x in Subtree(procs, births, a) && x in Subtree(procs, births, b)
      ensures false
    {
      DescendsComparable(procs, births, a, b, x);
      if Descends(procs, births, a, b) {
        DescendsOrder(procs, births, a, p);
      } else {
        DescendsOrder(procs, births, b, p);
      }
    }
    if p in Subtree(procs, births, a) {
      DescendsOrder(procs, births, a, p);
    }
  }

  /** Descent only looks at parent links of live processes. */
  lemma {:induction false} DescendsSame(procs: seq<Context>, now: seq<Context>, births: seq<nat>, p: int, x: int)
    requires |procs| == |now| == |births| == MAX_PROCESSES && ValidPid(x) && now[x].alive
    requires forall y :: 0 <= y < MAX_PROCESSES && now[y].alive ==>
               procs[y].alive && procs[y].parentPid == now[y].parentPid
               && (now[y].parentPid >= 0 ==> ParentOk(now, births, y, now[y].parentPid))
    ensures Descends(now, births, p, x) <==> Descends(procs, births, p, x)
    decreases births[x]
  {
    if x != p && now[x].parentPid >= 0 {
      DescendsSame(procs, now, births, p, now[x].parentPid);
    }
  }

  /** Below p, everything is below one of p's children. */
  lemma {:induction false} ChildOnPath(procs: seq<Context>, births: seq<nat>, dying: set<int>, p: int, x: int)
    requires TreeOk(procs, births, dying, p) && ValidPid(p) && ValidPid(x) && x != p
    requires forall k :: k in dying ==> ValidPid(k) && births[k] < births[p]
    requires procs[x].alive && Descends(procs, births, p, x)
    ensures exists c :: c in procs[p].children && Descends(procs, births, c, x)
    decreases births[x]
  {
    var y := procs[x].parentPid;
    DescendsOrder(procs, births, p, x);
    if y == p {
      assert x in procs[p].children && Descends(procs, births, x, x);
    } else {
      ChildOnPath(procs, births, dying, p, y);
    }
  }

  // ----- the scheduler's side of a kill -----

  /** x waits for the death of a member of woken. */
  ghost predicate WaitsForOne(procs: seq<Context>, woken: set<int>, x: int)
    requires |procs| == MAX_PROCESSES
  {
    exists k :: k in woken && ValidPid(k) && x in procs[k].waiting
  }

  /** A scheduler slot once `dead` have been killed, p with the given status and the others with
      255, and the waiters of `woken` have been unblocked. */
  ghost function SlotAfter(s: Sched, procs: seq<Context>, dead: set<int>, woken: set<int>,
                           p: int, status: int, x: int): ProcState
    requires |s.procs| == |procs| == MAX_PROCESSES && ValidPid(x)
  {
    if x in dead then
      s.procs[x].(status := KILLED, rsp := NULL, exitStatus := if x == p then status else CHILD_STATUS)
    else if Sleeping(s, x) && WaitsForOne(procs, woken, x) then s.procs[x].(status := READY)
    else s.procs[x]
  }

  /** proc_kill(child_pid, -1) passes its status as uint8_t. */
  const CHILD_STATUS := 255

  ghost predicate SchedAfter(s: Sched, t: Sched, procs: seq<Context>, dead: set<int>, woken: set<int>, p: int,
                             status: int)
    requires |s.procs| == |procs| == MAX_PROCESSES
  {
    && |t.procs| == MAX_PROCESSES
    && t.kernelRsp == s.kernelRsp && t.quantums == s.quantums
    && t.current == (if s.current in dead then KILLED_PROC_PID else s.current)
    && forall x :: 0 <= x < MAX_PROCESSES ==> t.procs[x] == SlotAfter(s, procs, dead, woken, p, status, x)
  }

  lemma {:induction false} KillFirst(s: Sched, procs: seq<Context>, p: int, status: int)
    requires Inv(s) && |procs| == MAX_PROCESSES && IsActive(s.procs, p)
    ensures Inv(Kill(s, p, status))
    ensures SchedAfter(s, Kill(s, p, status), procs, {p}, {}, p, status)
  {
    NextInv(s, Killed(p, status));
  }

  /** Killing a whole child subtree in between. */
  lemma {:induction false} KillMore(s: Sched, t: Sched, u: Sched, procs: seq<Context>, now: seq<Context>,
                                    dead: set<int>, woken: set<int>, more: set<int>, p: int, status: int, c: int)
    requires |s.procs| == |procs| == |now| == MAX_PROCESSES
    requires SchedAfter(s, t, procs, dead, woken, p, status)
    requires SchedAfter(t, u, now, more, more, c, CHILD_STATUS)
    requires dead !! more && p in dead && woken <= dead
    requires forall k :: k in more ==> ValidPid(k) && now[k].waiting == procs[k].waiting
    ensures SchedAfter(s, u, procs, dead + more, woken + more, p, status)
  {
    forall x | 0 <= x < MAX_PROCESSES
      ensures u.procs[x] == SlotAfter(s, procs, dead + more, woken + more, p, status, x)
    {
      assert t.procs[x] == SlotAfter(s, procs, dead, woken, p, status, x);
      assert u.procs[x] == SlotAfter(t, now, more, more, c, CHILD_STATUS, x);
      WaitersUnite(procs, now, woken, more, x);
    }
  }

  lemma {:induction false} WaitersUnite(procs: seq<Context>, now: seq<Context>, woken: set<int>, more: set<int>, x: int)
    requires |procs| == |now| == MAX_PROCESSES
    requires forall k :: k in more ==> ValidPid(k) && now[k].waiting == procs[k].waiting
    ensures WaitsForOne(procs, woken + more, x) <==> WaitsForOne(procs, woken, x) || WaitsForOne(now, more, x)
  {
    if WaitsForOne(procs, woken, x) {
      var k :| k in woken && ValidPid(k) && x in procs[k].waiting;
      assert k in woken + more;
    }
    if WaitsForOne(now, more, x) {
      var k :| k in more && ValidPid(k) && x in now[k].waiting;
      assert k in woken + more;
    }
  }

  /** Last, the waiters of p itself are unblocked. */
  lemma {:induction false} WakeLast(s: Sched, t: Sched, procs: seq<Context>,
                                    dead: set<int>, woken: set<int>, p: int, status: int)
    requires Inv(t) && |s.procs| == |procs| == MAX_PROCESSES && ValidPid(p)
    requires SchedAfter(s, t, procs, dead, woken, p, status) && woken <= dead && p in dead
    ensures Inv(UnblockAll(t, procs[p].waiting))
    ensures SchedAfter(s, UnblockAll(t, procs[p].waiting), procs, dead, woken + {p}, p, status)
  {
    UnblockAllWakes(t, procs[p].waiting);
    forall x | 0 <= x < MAX_PROCESSES
      ensures UnblockAll(t, procs[p].waiting).procs[x] == SlotAfter(s, procs, dead, woken + {p}, p, status, x)
    {
      WaitersUnite(procs, procs, woken, {p}, x);
      assert WaitsForOne(procs, {p}, x) <==> x in procs[p].waiting;
      assert t.procs[x] == SlotAfter(s, procs, dead, woken, p, status, x);
    }
  }

  /** The k-th waiter of p is the frontmost one that sleeps with real-time priority, it survives p's
      kill, and it waits for nobody else who dies with p. */
  ghost predicate UrgentWaiter(s: Sched, procs: seq<Context>, births: seq<nat>, p: int, k: nat)
    requires |s.procs| == |procs| == |births| == MAX_PROCESSES && ValidPid(p)
  {
    var q, dead := procs[p].waiting, Subtree(procs, births, p);
    && NoDuplicates(q) && k < |q| && FirstUrgent(s, q) == k
    && q[k] !in dead && !WaitsForOne(procs, dead - {p}, q[k])
  }

  /** Such a waiter is woken last, and so is the one to force. */
  lemma {:induction false} UrgentWaiterForced(s: Sched, t: Sched, procs: seq<Context>, births: seq<nat>,
                                              dead: set<int>, p: int, status: int, k: nat)
    requires Inv(t) && |s.procs| == |procs| == |births| == MAX_PROCESSES && ValidPid(p)
    requires SchedAfter(s, t, procs, dead + {p}, dead, p, status)
    requires p !in dead && Subtree(procs, births, p) == dead + {p} && UrgentWaiter(s, procs, births, p, k)
    ensures UnblockAll(t, procs[p].waiting).forceNext == procs[p].waiting[k]
  {
    hide Subtree, Inv;
    var q := procs[p].waiting;
    assert dead + {p} - {p} == dead;
    forall x | ValidPid(x)
      ensures Urgent(t, x) ==> Urgent(s, x)
      ensures Urgent(s, x) && x !in dead + {p} && !WaitsForOne(procs, dead, x) ==> Urgent(t, x)
    {
      assert t.procs[x] == SlotAfter(s, procs, dead + {p}, dead, p, status, x);
    }
    UnblockAllForces(t, q);
    assert Urgent(t, q[k]);
    assert forall i :: 0 <= i < k ==> !Urgent(t, q[i]);
  }

  // ----- the scheduler's side, step by step -----

  function Rank(births: seq<nat>, clock: nat, p: int): nat
    requires |births| == MAX_PROCESSES && ValidPid(p)
  {
    if births[p] < clock then clock - births[p] else 0
  }

  /** All scheduler calls of proc_kill(p) in the order they are made: p is killed, then its children
      one after the other, and last the waiters of p are woken. */
  function KillTree(s: Sched, procs: seq<Context>, births: seq<nat>, clock: nat, p: int, status: int): (t: Sched)
    requires |s.procs| == |procs| == |births| == MAX_PROCESSES && ValidPid(p)
    ensures |t.procs| == MAX_PROCESSES
    decreases Rank(births, clock, p), 1, 0
  {
    UnblockAll(KillChildren(Kill(s, p, status), procs, births, clock, p, procs[p].children), procs[p].waiting)
  }

  /** A child is one that was born after its parent. */
  function KillChildren(s: Sched, procs: seq<Context>, births: seq<nat>, clock: nat, p: int, cs: seq<int>): (t: Sched)
    requires |s.procs| == |procs| == |births| == MAX_PROCESSES && ValidPid(p)
    ensures |t.procs| == MAX_PROCESSES
    decreases Rank(births, clock, p), 0, |cs|
  {
    if cs == [] then s else
      var c := cs[0];
      var t := if ValidPid(c) && births[p] < births[c] < clock
               then KillTree(s, procs, births, clock, c, CHILD_STATUS) else s;
      KillChildren(t, procs, births, clock, p, cs[1..])
  }

  lemma {:induction false} KillChildrenNext(s: Sched, procs: seq<Context>, births: seq<nat>, clock: nat, p: int,
                                            cs: seq<int>, c: int)
    requires |s.procs| == |procs| == |births| == MAX_PROCESSES && ValidPid(p)
    requires ValidPid(c) && births[p] < births[c] < clock
    ensures KillChildren(s, procs, births, clock, p, cs + [c])
         == KillTree(KillChildren(s, procs, births, clock, p, cs), procs, births, clock, c, CHILD_STATUS)
    decreases |cs|
  {
    hide KillTree;
    if cs == [] {
      assert ([c])[1..] == [];
      assert cs + [c] == [c];
    } else {
      var d := cs[0];
      var t := if ValidPid(d) && births[p] < births[d] < clock
               then KillTree(s, procs, births, clock, d, CHILD_STATUS) else s;
      assert (cs + [c])[0] == d && (cs + [c])[1..] == cs[1..] + [c];
      KillChildrenNext(t, procs, births, clock, p, cs[1..], c);
    }
  }

  /** The calls depend on nothing but the contexts of the subtree. */
  lemma {:induction false} KillTreeSame(s: Sched, procs: seq<Context>, now: seq<Context>, births: seq<nat>, clock: nat,
                                        dying: set<int>, root: int, r: int, p: int, status: int)
    requires |s.procs| == |procs| == |now| == |births| == MAX_PROCESSES && TreeOk(now, births, dying, r)
    requires ValidPid(p) && p in Subtree(now, births, root)
    requires forall x :: x in Subtree(now, births, root) ==> now[x] == procs[x]
    ensures KillTree(s, now, births, clock, p, status) == KillTree(s, procs, births, clock, p, status)
    decreases Rank(births, clock, p), 1, 0
  {
    hide Subtree, TreeOk;
    ChildrenBelow(now, births, dying, root, r, p);
    KillChildrenSame(Kill(s, p, status), procs, now, births, clock, dying, root, r, p, now[p].children);
  }

  lemma {:induction false} KillChildrenSame(s: Sched, procs: seq<Context>, now: seq<Context>, births: seq<nat>,
                                            clock: nat,
                                            dying: set<int>, root: int, r: int, p: int, cs: seq<int>)
    requires |s.procs| == |procs| == |now| == |births| == MAX_PROCESSES && TreeOk(now, births, dying, r)
    requires ValidPid(p) && forall c :: c in cs ==> c in Subtree(now, births, root)
    requires forall x :: x in Subtree(now, births, root) ==> now[x] == procs[x]
    ensures KillChildren(s, now, births, clock, p, cs) == KillChildren(s, procs, births, clock, p, cs)
    decreases Rank(births, clock, p), 0, |cs|
  {
    hide Subtree, TreeOk, KillTree;
    if cs != [] {
      var c := cs[0];
      assert c in cs && forall d :: d in cs[1..] ==> d in cs;
      var t := if ValidPid(c) && births[p] < births[c] < clock
               then KillTree(s, now, births, clock, c, CHILD_STATUS) else s;
      if ValidPid(c) && births[p] < births[c] < clock {
        KillTreeSame(s, procs, now, births, clock, dying, root, r, c, CHILD_STATUS);
      }
      KillChildrenSame(t, procs, now, births, clock, dying, root, r, p, cs[1..]);
    }
  }

  lemma {:induction false} ChildrenBelow(procs: seq<Context>, births: seq<nat>, dying: set<int>, root: int,
                                         r: int, p: int)
    requires TreeOk(procs, births, dying, r) && ValidPid(p) && p in Subtree(procs, births, root)
    ensures forall c :: c in procs[p].children ==> c in Subtree(procs, births, root)
  {
    forall c | c in procs[p].children
      ensures c in Subtree(procs, births, root)
    {
      assert Alive(procs, c) && procs[c].parentPid == p && ParentOk(procs, births, c, p);
    }
  }
}
