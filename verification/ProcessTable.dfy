/** The process table, with creation and the recursive kill that changes it in place. */
module ProcessTable {
  import opened SchedulerSpec
  import opened Sums
  import opened WaitQueueSpec
  import opened ProcessSpec
  import opened Scheduler

  /** The scheduler runs exactly the processes of the table that are not dying. */
  ghost predicate InStep(procs: seq<Context>, s: Sched, dying: set<int>)
    requires |procs| == |s.procs| == MAX_PROCESSES
  {
    forall x :: 0 <= x < MAX_PROCESSES ==> (IsActive(s.procs, x) <==> procs[x].alive && x !in dying)
  }

  ghost predicate Older(births: seq<nat>, dying: set<int>, p: int)
    requires ValidPid(p) && |births| == MAX_PROCESSES
  {
    forall k :: k in dying ==> ValidPid(k) && births[k] < births[p]
  }

  // ----- in the middle of a kill: the first children have been killed -----

  ghost function Subtrees(procs: seq<Context>, births: seq<nat>, cs: seq<int>): set<int>
    requires |procs| == |births| == MAX_PROCESSES
  {
    if cs == [] then {} else Subtrees(procs, births, cs[..|cs| - 1]) + Subtree(procs, births, cs[|cs| - 1])
  }

  ghost function MidContext(before: seq<Context>, births: seq<nat>, p: int, gone: seq<int>, left: seq<int>,
                            x: int): Context
    requires |before| == |births| == MAX_PROCESSES && ValidPid(x)
  {
    if x in Subtrees(before, births, gone) then EMPTY
    else if x == p then before[x].(children := left)
    else before[x]
  }

  ghost predicate Mid(before: seq<Context>, births: seq<nat>, p: int, gone: seq<int>, left: seq<int>, now: seq<Context>)
    requires |before| == |births| == MAX_PROCESSES
  {
    |now| == MAX_PROCESSES
    && forall x :: 0 <= x < MAX_PROCESSES ==> now[x] == MidContext(before, births, p, gone, left, x)
  }

  lemma {:induction false} SubtreesMember(procs: seq<Context>, births: seq<nat>, cs: seq<int>, x: int)
    requires |procs| == |births| == MAX_PROCESSES
    ensures x in Subtrees(procs, births, cs) <==> exists i :: 0 <= i < |cs| && x in Subtree(procs, births, cs[i])
  {
    if cs != [] {
      SubtreesMember(procs, births, cs[..|cs| - 1], x);
    }
  }

  lemma {:induction false} ChildOf(procs: seq<Context>, births: seq<nat>, dying: set<int>, p: int, q: int, c: int)
    requires TreeOk(procs, births, dying, p) && ValidPid(q) && c in procs[q].children
    ensures Alive(procs, c) && procs[c].parentPid == q && ParentOk(procs, births, c, q)
  {
  }

  lemma {:induction false} AllDifferent(gone: seq<int>, c: int, left: seq<int>, q: seq<int>)
    requires NoDuplicates(q) && q == gone + [c] + left
    ensures c !in gone && c !in left && NoDuplicates(left)
    ensures forall x :: x in left ==> x !in gone
    ensures forall x :: x in q <==> x in gone || x == c || x in left
  {
    assert q[|gone|] == c;
    assert forall i :: 0 <= i < |gone| ==> gone[i] == q[i];
    assert forall i :: 0 <= i < |left| ==> left[i] == q[|gone| + 1 + i];
  }

  /** The children killed so far do not contain p or the next child, and closed under descent. */
  lemma {:induction false} GoneIsApart(before: seq<Context>, births: seq<nat>, dying: set<int>, p: int,
                                       gone: seq<int>, c: int)
    requires TreeOk(before, births, dying, p) && Alive(before, p)
    requires forall g :: g in gone ==> g in before[p].children
    requires c in before[p].children && c !in gone
    ensures p !in Subtrees(before, births, gone)
    ensures Subtree(before, births, c) !! Subtrees(before, births, gone)
  {
    ChildOf(before, births, dying, p, p, c);
    forall x | x in Subtrees(before, births, gone)
      ensures x != p && x !in Subtree(before, births, c)
    {
      SubtreesMember(before, births, gone, x);
      var i :| 0 <= i < |gone| && x in Subtree(before, births, gone[i]);
      assert gone[i] in gone;
      ChildOf(before, births, dying, p, p, gone[i]);
      SiblingsApart(before, births, p, gone[i], c);
    }
  }

  lemma {:induction false} GoneAvoidsParent(before: seq<Context>, births: seq<nat>, dying: set<int>, p: int,
                                            gone: seq<int>)
    requires TreeOk(before, births, dying, p) && Alive(before, p)
    requires forall g :: g in gone ==> g in before[p].children
    ensures forall x :: x in Subtrees(before, births, gone) ==>
              ValidPid(x) && before[x].alive && x != p && births[p] < births[x] && Descends(before, births, p, x)
  {
    forall x | x in Subtrees(before, births, gone)
      ensures ValidPid(x) && before[x].alive && x != p && births[p] < births[x] && Descends(before, births, p, x)
    {
      SubtreesMember(before, births, gone, x);
      var i :| 0 <= i < |gone| && x in Subtree(before, births, gone[i]);
      var g := gone[i];
      assert g in gone;
      ChildOf(before, births, dying, p, p, g);
      DescendsOrder(before, births, g, x);
      assert Descends(before, births, p, p) && Descends(before, births, p, g);
      DescendsTransitive(before, births, p, g, x);
    }
  }

  /** A live parent of a survivor survives. */
  lemma {:induction false} GoneIsClosed(before: seq<Context>, births: seq<nat>, gone: seq<int>, y: int)
    requires |before| == |births| == MAX_PROCESSES && ValidPid(y) && before[y].alive
    requires ParentOk(before, births, y, before[y].parentPid)
    requires before[y].parentPid in Subtrees(before, births, gone)
    ensures y in Subtrees(before, births, gone)
  {
    SubtreesMember(before, births, gone, before[y].parentPid);
    var i :| 0 <= i < |gone| && before[y].parentPid in Subtree(before, births, gone[i]);
    assert y in Subtree(before, births, gone[i]);
    SubtreesMember(before, births, gone, y);
  }

  /** With the next child taken off its queue, the table is ready for that child's kill. */
  lemma {:induction false} MidTreeOk(before: seq<Context>, births: seq<nat>, dying: set<int>, p: int,
                                     gone: seq<int>, c: int, left: seq<int>, now: seq<Context>)
    requires TreeOk(before, births, dying, p) && Alive(before, p) && Older(births, dying, p)
    requires before[p].children == gone + [c] + left
    requires Mid(before, births, p, gone, left, now)
    ensures TreeOk(now, births, dying + {p}, c)
    ensures Alive(now, c) && Older(births, dying + {p}, c)
    ensures Subtree(now, births, c) == Subtree(before, births, c)
  {
    hide ParentOk, Descends;
    MidNextChild(before, births, dying, p, gone, c, left, now);
    MidDescends(before, births, dying, p, gone, left, now);
    MidQueues(before, births, dying, p, gone, c, left, now);
    MidParents(before, births, dying, p, gone, c, left, now);
    forall x | 0 <= x < MAX_PROCESSES
      ensures x in Subtree(now, births, c) <==> x in Subtree(before, births, c)
    {
      if now[x].alive {
        DescendsSame(before, now, births, c, x);
      }
    }
  }

  lemma {:induction false} MidNextChild(before: seq<Context>, births: seq<nat>, dying: set<int>, p: int,
                                        gone: seq<int>, c: int, left: seq<int>, now: seq<Context>)
    requires TreeOk(before, births, dying, p) && Alive(before, p) && Older(births, dying, p)
    requires before[p].children == gone + [c] + left
    requires Mid(before, births, p, gone, left, now)
    ensures Alive(now, c) && Older(births, dying + {p}, c)
    ensures |now| == MAX_PROCESSES && forall x :: 0 <= x < MAX_PROCESSES && !now[x].alive ==> now[x] == EMPTY
    ensures Subtree(before, births, c) !! Subtrees(before, births, gone)
    ensures forall x :: x in Subtree(before, births, c) ==> ValidPid(x) && now[x].alive
  {
    AllDifferent(gone, c, left, before[p].children);
    ChildOf(before, births, dying, p, p, c);
    GoneIsApart(before, births, dying, p, gone, c);
    GoneAvoidsParent(before, births, dying, p, gone);
    hide ParentOk, Subtrees;
    assert c in Subtree(before, births, c);
  }

  lemma {:induction false} MidDescends(before: seq<Context>, births: seq<nat>, dying: set<int>, p: int,
                                       gone: seq<int>, left: seq<int>, now: seq<Context>)
    requires TreeOk(before, births, dying, p) && Alive(before, p)
    requires forall g :: g in gone ==> g in before[p].children
    requires Mid(before, births, p, gone, left, now)
    ensures forall y :: 0 <= y < MAX_PROCESSES && now[y].alive ==>
              before[y].alive && before[y].parentPid == now[y].parentPid
              && (now[y].parentPid >= 0 ==> ParentOk(now, births, y, now[y].parentPid))
  {
    GoneAvoidsParent(before, births, dying, p, gone);
    forall y | 0 <= y < MAX_PROCESSES && now[y].alive && now[y].parentPid >= 0
      ensures ParentOk(now, births, y, now[y].parentPid)
    {
      var q := before[y].parentPid;
      assert ParentOk(before, births, y, q);
      if q in Subtrees(before, births, gone) {
        GoneIsClosed(before, births, gone, y);
      }
    }
  }

  lemma {:induction false} MidQueues(before: seq<Context>, births: seq<nat>, dying: set<int>, p: int,
                                     gone: seq<int>, c: int, left: seq<int>, now: seq<Context>)
    requires TreeOk(before, births, dying, p) && Alive(before, p) && Older(births, dying, p)
    requires before[p].children == gone + [c] + left
    requires Mid(before, births, p, gone, left, now)
    ensures forall q, x :: 0 <= q < MAX_PROCESSES && x in now[q].children ==>
              Alive(now, x) && now[x].parentPid == q
    ensures forall q :: 0 <= q < MAX_PROCESSES ==> NoDuplicates(now[q].children)
  {
    AllDifferent(gone, c, left, before[p].children);
    GoneAvoidsParent(before, births, dying, p, gone);
    forall q | 0 <= q < MAX_PROCESSES
      ensures NoDuplicates(now[q].children)
    {
      assert now[q].children == [] || now[q].children == before[q].children || now[q].children == left;
    }
    forall q, x | 0 <= q < MAX_PROCESSES && x in now[q].children
      ensures Alive(now, x) && now[x].parentPid == q
    {
      assert x in before[q].children;
      assert q !in Subtrees(before, births, gone);
      ChildOf(before, births, dying, p, q, x);
      MidSurvivor(before, births, dying, p, gone, c, left, q, x);
    }
  }

  /** Whoever is still listed has not been killed. */
  lemma {:induction false} MidSurvivor(before: seq<Context>, births: seq<nat>, dying: set<int>, p: int,
                                       gone: seq<int>, c: int, left: seq<int>, q: int, x: int)
    requires TreeOk(before, births, dying, p) && Alive(before, p)
    requires before[p].children == gone + [c] + left && ValidPid(q) && q !in Subtrees(before, births, gone)
    requires x in (if q == p then left else before[q].children)
    ensures x !in Subtrees(before, births, gone)
  {
    AllDifferent(gone, c, left, before[p].children);
    ChildOf(before, births, dying, p, q, x);
    if x in Subtrees(before, births, gone) {
      SubtreesMember(before, births, gone, x);
      var i :| 0 <= i < |gone| && x in Subtree(before, births, gone[i]);
      assert gone[i] in gone;
      ChildOf(before, births, dying, p, p, gone[i]);
      SubtreesMember(before, births, gone, q);
    }
  }

  lemma {:induction false} MidParents(before: seq<Context>, births: seq<nat>, dying: set<int>, p: int,
                                      gone: seq<int>, c: int, left: seq<int>, now: seq<Context>)
    requires TreeOk(before, births, dying, p) && Alive(before, p) && Older(births, dying, p)
    requires before[p].children == gone + [c] + left
    requires Mid(before, births, p, gone, left, now)
    ensures forall y :: 0 <= y < MAX_PROCESSES && now[y].alive && now[y].parentPid >= 0 ==>
              ParentOk(now, births, y, now[y].parentPid)
              && (y !in dying + {p} && y != c ==> y in now[now[y].parentPid].children)
  {
    MidDescends(before, births, dying, p, gone, left, now);
    forall y | 0 <= y < MAX_PROCESSES && now[y].alive && now[y].parentPid >= 0 && y !in dying + {p} && y != c
      ensures y in now[now[y].parentPid].children
    {
      var q := before[y].parentPid;
      assert y in before[q].children;
      AllDifferent(gone, c, left, before[p].children);
      if q == p && y in gone {
        assert y in Subtree(before, births, y);
        var i :| 0 <= i < |gone| && gone[i] == y;
        SubtreesMember(before, births, gone, y);
        assert false;
      }
    }
  }

  /** The next child's subtree is gone too. */
  lemma {:induction false} MidAdvances(before: seq<Context>, births: seq<nat>, dying: set<int>, p: int,
                                       gone: seq<int>, c: int, left: seq<int>, now: seq<Context>, after: seq<Context>)
    requires TreeOk(before, births, dying, p) && Alive(before, p) && Older(births, dying, p)
    requires before[p].children == gone + [c] + left
    requires Mid(before, births, p, gone, left, now)
    requires ValidPid(c) && TableAfter(now, births, c, after)
    ensures Mid(before, births, p, gone + [c], left, after)
    ensures after[p] == before[p].(children := left)
  {
    MidTreeOk(before, births, dying, p, gone, c, left, now);
    assert (gone + [c])[..|gone|] == gone;
    AllDifferent(gone, c, left, before[p].children);
    ChildOf(before, births, dying, p, p, c);
    GoneIsApart(before, births, dying, p, gone, c);
    ParentOutsideChild(before, births, dying, p, c);
    RemoveAbsent(left, c);
    assert now[c].parentPid == p;
    forall x | 0 <= x < MAX_PROCESSES
      ensures after[x] == MidContext(before, births, p, gone + [c], left, x)
    {
      assert after[x] == ContextAfter(now, births, c, x);
      assert now[x] == MidContext(before, births, p, gone, left, x);
    }
  }

  lemma {:induction false} ParentOutsideChild(before: seq<Context>, births: seq<nat>, dying: set<int>, p: int, c: int)
    requires TreeOk(before, births, dying, p) && Alive(before, p) && c in before[p].children
    ensures p !in Subtree(before, births, c)
  {
    ChildOf(before, births, dying, p, p, c);
    if p in Subtree(before, births, c) {
      DescendsOrder(before, births, c, p);
    }
  }

  lemma {:induction false} RemoveAbsent(q: seq<int>, elem: int)
    requires elem !in q
    ensures Remove(q, elem) == q
  {
    RemoveFirstOccurrence(q, elem, |q|);
  }

  /** Once all children are gone and p itself is cleared, exactly the subtree has been removed. */
  lemma {:induction false} WholeSubtree(before: seq<Context>, births: seq<nat>, dying: set<int>, p: int)
    requires TreeOk(before, births, dying, p) && Alive(before, p) && Older(births, dying, p)
    ensures Subtree(before, births, p) == Subtrees(before, births, before[p].children) + {p}
    ensures before[p].parentPid !in Subtree(before, births, p)
  {
    var cs := before[p].children;
    GoneAvoidsParent(before, births, dying, p, cs);
    forall x | x in Subtree(before, births, p) && x != p
      ensures x in Subtrees(before, births, cs)
    {
      ChildOnPath(before, births, dying, p, x);
      var c :| c in cs && Descends(before, births, c, x);
      SubtreesMember(before, births, cs, x);
    }
    if before[p].parentPid in Subtree(before, births, p) {
      DescendsOrder(before, births, p, before[p].parentPid);
    }
  }

  /** After a kill from outside, the tree is in order again. */
  lemma {:induction false} TreeAfterKill(before: seq<Context>, births: seq<nat>, p: int, after: seq<Context>)
    requires TreeOk(before, births, {}, p) && Alive(before, p) && TableAfter(before, births, p, after)
    ensures TreeOk(after, births, {}, -1)
  {
    hide ParentOk, Descends;
    forall q | 0 <= q < MAX_PROCESSES
      ensures NoDuplicates(after[q].children)
      ensures !after[q].alive ==> after[q] == EMPTY
    {
      KilledSlot(before, births, p, after, q);
    }
    forall q, c | 0 <= q < MAX_PROCESSES && c in after[q].children
      ensures Alive(after, c) && after[c].parentPid == q
    {
      KilledSlot(before, births, p, after, q);
      ChildSurvives(before, births, p, after, q, c);
    }
    forall c | 0 <= c < MAX_PROCESSES && after[c].alive && after[c].parentPid >= 0
      ensures ValidPid(after[c].parentPid)
      ensures ParentOk(after, births, c, after[c].parentPid) && c in after[after[c].parentPid].children
    {
      ParentSurvives(before, births, p, after, c);
    }
  }

  lemma {:induction false} TreeFromOutside(procs: seq<Context>, births: seq<nat>, p: int)
    requires TreeOk(procs, births, {}, -1)
    ensures TreeOk(procs, births, {}, p) && |births| == MAX_PROCESSES
    ensures ValidPid(p) ==> Older(births, {}, p)
  {
    hide ParentOk;
  }

  lemma {:induction false} StillInStep(before: seq<Context>, births: seq<nat>, s: Sched, p: int, status: int,
                                       after: seq<Context>, t: Sched)
    requires TreeOk(before, births, {}, -1) && Inv(s) && InStep(before, s, {}) && Alive(before, p)
    requires TableAfter(before, births, p, after)
    requires SchedAfter(s, t, before, Subtree(before, births, p), Subtree(before, births, p), p, status)
    ensures InStep(after, t, {})
  {
    hide ParentOk, Descends;
    var dead := Subtree(before, births, p);
    forall x | 0 <= x < MAX_PROCESSES
      ensures IsActive(t.procs, x) <==> after[x].alive
    {
      assert t.procs[x] == SlotAfter(s, before, dead, dead, p, status, x);
      assert after[x] == ContextAfter(before, births, p, x);
    }
  }

  /** One slot after a kill. */
  lemma {:induction false} KilledSlot(before: seq<Context>, births: seq<nat>, p: int, after: seq<Context>, q: int)
    requires TreeOk(before, births, {}, p) && Alive(before, p) && TableAfter(before, births, p, after) && ValidPid(q)
    ensures NoDuplicates(after[q].children)
    ensures after[q].alive <==> before[q].alive && q !in Subtree(before, births, p)
    ensures if after[q].alive then after[q].parentPid == before[q].parentPid else after[q] == EMPTY
    ensures after[q].alive ==> forall x :: x in after[q].children <==>
              x in before[q].children && !(q == before[p].parentPid && x == p)
  {
    hide Descends, ParentOk;
    assert after[q] == ContextAfter(before, births, p, q);
    assert NoDuplicates(before[q].children);
    RemoveMembers(before[q].children, p);
  }

  lemma {:induction false} ChildSurvives(before: seq<Context>, births: seq<nat>, p: int, after: seq<Context>,
                                         q: int, c: int)
    requires TreeOk(before, births, {}, p) && Alive(before, p) && TableAfter(before, births, p, after)
    requires ValidPid(q) && c in after[q].children
    ensures Alive(after, c) && after[c].parentPid == q
  {
    KilledSlot(before, births, p, after, q);
    ChildOf(before, births, {}, p, q, c);
    KilledSlot(before, births, p, after, c);
    var dead := Subtree(before, births, p);
    assert c in dead ==> c == p || q in dead;
  }

  lemma {:induction false} ParentSurvives(before: seq<Context>, births: seq<nat>, p: int, after: seq<Context>, c: int)
    requires TreeOk(before, births, {}, p) && Alive(before, p) && TableAfter(before, births, p, after)
    requires Alive(after, c) && after[c].parentPid >= 0
    ensures ValidPid(after[c].parentPid)
    ensures ParentOk(after, births, c, after[c].parentPid) && c in after[after[c].parentPid].children
  {
    KilledSlot(before, births, p, after, c);
    var q := before[c].parentPid;
    assert ParentOk(before, births, c, q) && c in before[q].children;
    KilledSlot(before, births, p, after, q);
    if q in Subtree(before, births, p) {
      assert Descends(before, births, p, c);
    }
    assert Descends(before, births, p, p);
  }

  // ----- creation -----

  /** The first slot not in use, or MAX_PROCESSES. */
  function FreeSlot(procs: seq<Context>, from: nat): (pid: nat)
    requires |procs| == MAX_PROCESSES && from <= MAX_PROCESSES
    ensures from <= pid <= MAX_PROCESSES && (pid < MAX_PROCESSES ==> !procs[pid].alive)
    ensures forall x :: from <= x < pid ==> procs[x].alive
    decreases MAX_PROCESSES - from
  {
    if from < MAX_PROCESSES && procs[from].alive then FreeSlot(procs, from + 1) else from
  }

  /** A process in its slot, not yet in its parent's queue. */
  ghost function Entered(before: seq<Context>, pid: int, parent: int): seq<Context>
    requires |before| == MAX_PROCESSES && ValidPid(pid)
  {
    before[pid := before[pid].(alive := true, parentPid := parent)]
  }

  /** The table after a process is entered in a free slot under the given parent (or the kernel). */
  ghost function TableWith(before: seq<Context>, pid: int, parent: int): seq<Context>
    requires |before| == MAX_PROCESSES && ValidPid(pid) && parent < MAX_PROCESSES
  {
    var entered := Entered(before, pid, parent);
    if parent >= 0 then entered[parent := entered[parent].(children := entered[parent].children + [pid])] else entered
  }

  lemma {:induction false} TreeAfterCreate(before: seq<Context>, births: seq<nat>, clock: nat, pid: int, parent: int)
    requires TreeOk(before, births, {}, -1) && ValidPid(pid) && !before[pid].alive
    requires KERNEL_PROC_PID <= parent < MAX_PROCESSES && (parent >= 0 ==> Alive(before, parent))
    requires forall x :: 0 <= x < MAX_PROCESSES ==> births[x] < clock
    ensures TreeOk(TableWith(before, pid, parent), births[pid := clock], {}, -1)
  {
    var after, now := TableWith(before, pid, parent), births[pid := clock];
    hide ParentOk, TableWith;
    forall q | 0 <= q < MAX_PROCESSES
      ensures NoDuplicates(after[q].children)
      ensures !after[q].alive ==> after[q] == EMPTY
    {
      CreatedSlot(before, births, pid, parent, q);
    }
    forall q, c | 0 <= q < MAX_PROCESSES && c in after[q].children
      ensures Alive(after, c) && after[c].parentPid == q
    {
      CreatedChild(before, births, pid, parent, q, c);
    }
    forall c | 0 <= c < MAX_PROCESSES && after[c].alive && after[c].parentPid >= 0
      ensures ValidPid(after[c].parentPid)
      ensures ParentOk(after, now, c, after[c].parentPid) && c in after[after[c].parentPid].children
    {
      CreatedParent(before, births, clock, pid, parent, c);
    }
  }

  /** One slot after a creation. */
  lemma {:induction false} CreatedSlot(before: seq<Context>, births: seq<nat>, pid: int, parent: int, q: int)
    requires TreeOk(before, births, {}, -1) && ValidPid(pid) && !before[pid].alive && ValidPid(q)
    requires KERNEL_PROC_PID <= parent < MAX_PROCESSES && (parent >= 0 ==> Alive(before, parent))
    ensures var after := TableWith(before, pid, parent);
      && |after| == MAX_PROCESSES && NoDuplicates(after[q].children)
      && (after[q].alive <==> before[q].alive || q == pid)
      && (!after[q].alive ==> after[q] == EMPTY)
      && after[q].parentPid == (if q == pid then parent else before[q].parentPid)
      && after[q].children == if q == parent then before[q].children + [pid] else before[q].children
  {
    hide ParentOk;
    assert NoDuplicates(before[q].children);
    if pid in before[q].children {
      ChildOf(before, births, {}, -1, q, pid);
    }
  }

  lemma {:induction false} CreatedChild(before: seq<Context>, births: seq<nat>, pid: int, parent: int, q: int, c: int)
    requires TreeOk(before, births, {}, -1) && ValidPid(pid) && !before[pid].alive && ValidPid(q)
    requires KERNEL_PROC_PID <= parent < MAX_PROCESSES && (parent >= 0 ==> Alive(before, parent))
    requires c in TableWith(before, pid, parent)[q].children
    ensures Alive(TableWith(before, pid, parent), c) && TableWith(before, pid, parent)[c].parentPid == q
  {
    CreatedSlot(before, births, pid, parent, q);
    if c in before[q].children {
      ChildOf(before, births, {}, -1, q, c);
      CreatedSlot(before, births, pid, parent, c);
    } else {
      CreatedSlot(before, births, pid, parent, pid);
    }
  }

  lemma {:induction false} CreatedParent(before: seq<Context>, births: seq<nat>, clock: nat, pid: int,
                                         parent: int, c: int)
    requires TreeOk(before, births, {}, -1) && ValidPid(pid) && !before[pid].alive && ValidPid(c)
    requires KERNEL_PROC_PID <= parent < MAX_PROCESSES && (parent >= 0 ==> Alive(before, parent))
    requires forall x :: 0 <= x < MAX_PROCESSES ==> births[x] < clock
    requires var after := TableWith(before, pid, parent);
      |after| == MAX_PROCESSES && after[c].alive && after[c].parentPid >= 0
    ensures var after, now := TableWith(before, pid, parent), births[pid := clock];
      ValidPid(after[c].parentPid)
      && ParentOk(after, now, c, after[c].parentPid) && c in after[after[c].parentPid].children
  {
    CreatedSlot(before, births, pid, parent, c);
    var q := if c == pid then parent else before[c].parentPid;
    assert c != pid ==> ParentOk(before, births, c, q) && c in before[q].children;
    CreatedSlot(before, births, pid, parent, q);
  }

  /** One slot before the new process is linked. */
  lemma {:induction false} EnteredSlot(before: seq<Context>, births: seq<nat>, pid: int, parent: int, q: int)
    requires TreeOk(before, births, {}, -1) && ValidPid(pid) && !before[pid].alive && ValidPid(q)
    ensures var after := Entered(before, pid, parent);
      && |after| == MAX_PROCESSES && NoDuplicates(after[q].children) && after[q].children == before[q].children
      && (after[q].alive <==> before[q].alive || q == pid)
      && (!after[q].alive ==> after[q] == EMPTY)
      && after[q].parentPid == if q == pid then parent else before[q].parentPid
  {
    hide ParentOk;
    assert NoDuplicates(before[q].children);
  }

  lemma {:induction false} EnteredParent(before: seq<Context>, births: seq<nat>, clock: nat, pid: int,
                                         parent: int, c: int)
    requires TreeOk(before, births, {}, -1) && ValidPid(pid) && !before[pid].alive && ValidPid(c)
    requires KERNEL_PROC_PID <= parent < MAX_PROCESSES && (parent >= 0 ==> Alive(before, parent))
    requires forall x :: 0 <= x < MAX_PROCESSES ==> births[x] < clock
    requires var after := Entered(before, pid, parent);
      |after| == MAX_PROCESSES && after[c].alive && after[c].parentPid >= 0
    ensures var after, now := Entered(before, pid, parent), births[pid := clock];
      ParentOk(after, now, c, after[c].parentPid) && (c != pid ==> c in after[after[c].parentPid].children)
  {
    EnteredSlot(before, births, pid, parent, c);
    var q := if c == pid then parent else before[c].parentPid;
    assert c != pid ==> ParentOk(before, births, c, q) && c in before[q].children;
    EnteredSlot(before, births, pid, parent, q);
  }

  /** Before it is linked, the new process can be killed. */
  lemma {:induction false} TreeBeforeLink(before: seq<Context>, births: seq<nat>, clock: nat, pid: int, parent: int)
    requires TreeOk(before, births, {}, -1) && ValidPid(pid) && !before[pid].alive
    requires KERNEL_PROC_PID <= parent < MAX_PROCESSES && (parent >= 0 ==> Alive(before, parent))
    requires forall x :: 0 <= x < MAX_PROCESSES ==> births[x] < clock
    ensures TreeOk(Entered(before, pid, parent), births[pid := clock], {}, pid)
  {
    var after, now := Entered(before, pid, parent), births[pid := clock];
    hide ParentOk, Entered;
    forall q | 0 <= q < MAX_PROCESSES
      ensures NoDuplicates(after[q].children)
      ensures !after[q].alive ==> after[q] == EMPTY
    {
      EnteredSlot(before, births, pid, parent, q);
    }
    forall q, c | 0 <= q < MAX_PROCESSES && c in after[q].children
      ensures Alive(after, c) && after[c].parentPid == q
    {
      EnteredSlot(before, births, pid, parent, q);
      ChildOf(before, births, {}, -1, q, c);
      EnteredSlot(before, births, pid, parent, c);
    }
    forall c | 0 <= c < MAX_PROCESSES && after[c].alive && after[c].parentPid >= 0
      ensures ParentOk(after, now, c, after[c].parentPid)
      ensures c != pid ==> c in after[after[c].parentPid].children
    {
      EnteredParent(before, births, clock, pid, parent, c);
    }
  }

  /** A process without children is its whole subtree. */
  lemma {:induction false} LeafSubtree(procs: seq<Context>, births: seq<nat>, p: int)
    requires |procs| == |births| == MAX_PROCESSES && TreeOk(procs, births, {}, p)
    requires Alive(procs, p) && procs[p].children == []
    ensures Subtree(procs, births, p) == {p}
  {
    hide TreeOk;
    forall x | x in Subtree(procs, births, p)
      ensures x == p
    {
      if x != p {
        ChildOnPath(procs, births, {}, p, x);
      }
    }
    assert Descends(procs, births, p, p);
  }

  /** The kill of a childless process: one kill, and its waiters wake. */
  lemma {:induction false} KillOfLeaf(s: Sched, procs: seq<Context>, births: seq<nat>, clock: nat, p: int, status: int)
    requires |s.procs| == |procs| == |births| == MAX_PROCESSES && ValidPid(p) && procs[p].children == []
    ensures KillTree(s, procs, births, clock, p, status)
         == UnblockAll(SchedulerSpec.Kill(s, p, status), procs[p].waiting)
  {
    var t := SchedulerSpec.Kill(s, p, status);
    assert KillChildren(t, procs, births, clock, p, []) == t;
  }

  /** Killing the process that could not be linked restores the table. */
  lemma {:induction false} CreationUndone(before: seq<Context>, births: seq<nat>, clock: nat, pid: int, parent: int,
                                          after: seq<Context>)
    requires TreeOk(before, births, {}, -1) && ValidPid(pid) && !before[pid].alive
    requires KERNEL_PROC_PID <= parent < MAX_PROCESSES && (parent >= 0 ==> Alive(before, parent))
    requires forall x :: 0 <= x < MAX_PROCESSES ==> births[x] < clock
    requires TableAfter(Entered(before, pid, parent), births[pid := clock], pid, after)
    ensures after == before
  {
    var entered, now := Entered(before, pid, parent), births[pid := clock];
    TreeBeforeLink(before, births, clock, pid, parent);
    LeafSubtree(entered, now, pid);
    hide Subtree, ParentOk;
    forall x | 0 <= x < MAX_PROCESSES
      ensures after[x] == before[x]
    {
      assert after[x] == ContextAfter(entered, now, pid, x);
      if x == parent {
        if pid in before[x].children {
          ChildOf(before, births, {}, -1, x, pid);
        }
        RemoveAbsent(before[x].children, pid);
      }
    }
  }

  // ----- the order of the children -----

  /** Every child queue lists the children in the order they were created. */
  ghost predicate InBirthOrder(procs: seq<Context>, births: seq<nat>) {
    |procs| == |births| == MAX_PROCESSES
    && forall q :: 0 <= q < MAX_PROCESSES ==> OldestFirst(procs[q].children, births)
  }

  ghost predicate OldestFirst(children: seq<int>, births: seq<nat>)
    requires |births| == MAX_PROCESSES
  {
    forall i, j :: 0 <= i < j < |children| ==> Birth(births, children[i]) < Birth(births, children[j])
  }

  ghost function Birth(births: seq<nat>, p: int): nat
    requires |births| == MAX_PROCESSES
  {
    if ValidPid(p) then births[p] else 0
  }

  lemma {:induction false} OrderAfterCreate(before: seq<Context>, births: seq<nat>, clock: nat, pid: int, parent: int)
    requires TreeOk(before, births, {}, -1) && ValidPid(pid) && !before[pid].alive && InBirthOrder(before, births)
    requires KERNEL_PROC_PID <= parent < MAX_PROCESSES && (parent >= 0 ==> Alive(before, parent))
    requires forall x :: 0 <= x < MAX_PROCESSES ==> births[x] < clock
    ensures InBirthOrder(TableWith(before, pid, parent), births[pid := clock])
    ensures InBirthOrder(before, births[pid := clock])
  {
    hide ParentOk;
    var after, now := TableWith(before, pid, parent), births[pid := clock];
    forall q | 0 <= q < MAX_PROCESSES
      ensures OldestFirst(before[q].children, now) && OldestFirst(after[q].children, now)
    {
      var cs := before[q].children;
      assert OldestFirst(cs, births);
      forall i | 0 <= i < |cs|
        ensures cs[i] != pid && ValidPid(cs[i])
      {
        assert cs[i] in cs;
        ChildOf(before, births, {}, -1, q, cs[i]);
      }
      assert after[q].children == if q == parent then cs + [pid] else cs;
    }
  }

  lemma {:induction false} OrderAfterKill(before: seq<Context>, births: seq<nat>, p: int, after: seq<Context>)
    requires |before| == |births| == MAX_PROCESSES && ValidPid(p) && TableAfter(before, births, p, after)
    requires InBirthOrder(before, births)
    ensures InBirthOrder(after, births)
  {
    hide Subtree;
    forall q | 0 <= q < MAX_PROCESSES
      ensures OldestFirst(after[q].children, births)
    {
      var cs := before[q].children;
      assert after[q] == ContextAfter(before, births, p, q) && OldestFirst(cs, births);
      OrderAfterRemove(cs, births, p);
    }
  }

  lemma {:induction false} OrderAfterRemove(cs: seq<int>, births: seq<nat>, p: int)
    requires |births| == MAX_PROCESSES && OldestFirst(cs, births)
    ensures OldestFirst(Remove(cs, p), births)
  {
    if k :| 0 <= k < |cs| && cs[k] == p && p !in cs[..k] {
      RemoveFirstOccurrence(cs, p, k);
    } else {
      NoFirst(cs, p);
      RemoveAbsent(cs, p);
    }
  }

  lemma {:induction false} NoFirst(cs: seq<int>, p: int)
    requires forall k :: 0 <= k < |cs| && cs[k] == p ==> p in cs[..k]
    ensures p !in cs
    decreases |cs|
  {
    if cs != [] {
      var n := |cs| - 1;
      assert forall k :: 0 <= k < n ==> cs[..n][..k] == cs[..k];
      NoFirst(cs[..n], p);
    }
  }

  lemma {:induction false} CurrentIsAlive(procs: seq<Context>, births: seq<nat>, s: Sched)
    requires TreeOk(procs, births, {}, -1) && Inv(s) && InStep(procs, s, {})
    ensures |births| == MAX_PROCESSES && KILLED_PROC_PID <= s.current < MAX_PROCESSES
    ensures s.current >= 0 ==> Alive(procs, s.current)
  {
  }

  lemma {:induction false} CreateInStep(before: seq<Context>, s: Sched, pid: int, parent: int, priority: int, rsp: nat)
    requires |before| == MAX_PROCESSES && Inv(s) && InStep(before, s, {}) && ValidPid(pid) && rsp != NULL
    requires parent < MAX_PROCESSES
    ensures InStep(TableWith(before, pid, parent), SchedulerSpec.Create(s, pid, priority, rsp), {})
    ensures InStep(Entered(before, pid, parent), SchedulerSpec.Create(s, pid, priority, rsp), {})
    ensures var t := SchedulerSpec.Create(s, pid, priority, rsp);
      t.current == s.current && |t.procs| == MAX_PROCESSES
  {
  }

  lemma {:induction false} UndoneInStep(before: seq<Context>, s: Sched, pid: int, priority: int, rsp: nat)
    requires |before| == MAX_PROCESSES && Inv(s) && InStep(before, s, {})
    requires ValidPid(pid) && !before[pid].alive && rsp != NULL
    ensures InStep(before, SchedulerSpec.Kill(SchedulerSpec.Create(s, pid, priority, rsp), pid, CHILD_STATUS), {})
  {
  }

  lemma {:induction false} EmptySlot(procs: seq<Context>, births: seq<nat>, x: int)
    requires TreeOk(procs, births, {}, -1) && ValidPid(x) && !procs[x].alive
    ensures procs[x] == EMPTY
  {
  }

  /** The scheduler after proc_create: a process that could not be linked has come and gone. */
  ghost function SchedAfterCreate(s: Sched, refused: bool, pid: int, slot: nat, priority: int, rsp: nat): Sched
    requires |s.procs| == MAX_PROCESSES && (!refused ==> ValidPid(slot) && rsp != NULL)
  {
    if refused then s
    else if pid == -1 then SchedulerSpec.Kill(SchedulerSpec.Create(s, slot, priority, rsp), slot, CHILD_STATUS)
    else SchedulerSpec.Create(s, slot, priority, rsp)
  }

  /** Refused, nothing happens; unlinked, the process has left nothing behind but its exit status, its
      priority, and, if it was urgent, its mark as the one to force; otherwise it is ready. */
  lemma {:induction false} CreationInScheduler(s: Sched, refused: bool, pid: int, slot: nat, priority: int, rsp: nat)
    requires Inv(s) && rsp != NULL && (!refused ==> slot < MAX_PROCESSES && !IsActive(s.procs, slot))
    ensures var t := SchedAfterCreate(s, refused, pid, slot, priority, rsp);
      && |t.procs| == MAX_PROCESSES && t.current == s.current && t.quantums == s.quantums && t.kernelRsp == s.kernelRsp
      && (refused ==> t == s)
      && (!refused ==> (forall q :: 0 <= q < MAX_PROCESSES && q != slot ==> t.procs[q] == s.procs[q])
                       && t.forceNext == if -20 <= priority <= -5 then slot else s.forceNext)
      && (!refused && pid == -1 ==> !IsActive(t.procs, slot) && t.procs[slot].exitStatus == 255)
      && (!refused && pid != -1 ==> IsReady(t.procs, slot) && t.procs[slot].exitStatus == s.procs[slot].exitStatus)
  {
  }

  lemma {:induction false} SwitchInStep(procs: seq<Context>, s: Sched, rsp: nat)
    requires |procs| == MAX_PROCESSES && Inv(s) && InStep(procs, s, {}) && rsp != NULL
    ensures Inv(Switch(s.(quantums := 0), rsp)) && InStep(procs, Switch(s.(quantums := 0), rsp), {})
  {
    SwitchInv(s.(quantums := 0), rsp);
  }

  lemma {:induction false} TreeIgnoresWaiting(before: seq<Context>, births: seq<nat>, pid: int, waiting: seq<int>)
    requires TreeOk(before, births, {}, -1) && Alive(before, pid)
    ensures TreeOk(before[pid := before[pid].(waiting := waiting)], births, {}, -1)
  {
    var after := before[pid := before[pid].(waiting := waiting)];
    forall q | 0 <= q < MAX_PROCESSES
      ensures after[q].children == before[q].children && NoDuplicates(after[q].children)
    {
      assert NoDuplicates(before[q].children);
    }
    forall q, c | 0 <= q < MAX_PROCESSES && c in after[q].children
      ensures Alive(after, c) && after[c].parentPid == q
    {
      ChildOf(before, births, {}, -1, q, c);
    }
    forall c | 0 <= c < MAX_PROCESSES && after[c].alive && after[c].parentPid >= 0
      ensures ValidPid(after[c].parentPid)
      ensures ParentOk(after, births, c, after[c].parentPid) && c in after[after[c].parentPid].children
    {
      assert ParentOk(before, births, c, before[c].parentPid) && c in before[before[c].parentPid].children;
    }
  }

  ghost function Unkilled(procs: seq<Context>, dying: set<int>): set<int>
    requires |procs| == MAX_PROCESSES
  {
    set x | 0 <= x < MAX_PROCESSES && procs[x].alive && x !in dying
  }

  /** The first step of a kill: p itself, before any of its children. */
  lemma {:induction false} KillStarts(before: seq<Context>, births: seq<nat>, dying: set<int>, p: int,
                                      s: Sched, status: int)
    requires |before| == |births| == MAX_PROCESSES && Alive(before, p)
    requires Inv(s) && InStep(before, s, dying) && Older(births, dying, p)
    ensures Mid(before, births, p, [], before[p].children, before)
    ensures var dead := Subtrees(before, births, []);
      SchedAfter(s, Kill(s, p, status), before, dead + {p}, dead, p, status)
  {
    assert Subtrees(before, births, []) + {p} == {p};
    assert p !in dying;
    KillFirst(s, before, p, status);
  }

  /** Popping the head of p's child queue. */
  lemma {:induction false} MidPop(before: seq<Context>, births: seq<nat>, p: int, gone: seq<int>,
                                  left: seq<int>, now: seq<Context>)
    requires |before| == |births| == MAX_PROCESSES && ValidPid(p) && left != []
    requires Mid(before, births, p, gone, left, now) && now[p].alive
    ensures Mid(before, births, p, gone, left[1..], now[p := now[p].(children := left[1..])])
  {
  }

  /** Everything the kill of the next child asks for. */
  lemma {:induction false} MidReady(before: seq<Context>, births: seq<nat>, dying: set<int>, p: int,
                                    gone: seq<int>, c: int, left: seq<int>, now: seq<Context>,
                                    s: Sched, t: Sched, status: int)
    requires TreeOk(before, births, dying, p) && Alive(before, p) && Older(births, dying, p)
    requires before[p].children == gone + [c] + left
    requires Mid(before, births, p, gone, left, now)
    requires Inv(s) && Inv(t) && InStep(before, s, dying)
    requires SchedAfter(s, t, before, Subtrees(before, births, gone) + {p}, Subtrees(before, births, gone), p, status)
    ensures TreeOk(now, births, dying + {p}, c) && Alive(now, c) && Older(births, dying + {p}, c)
    ensures InStep(now, t, dying + {p})
    ensures Unkilled(now, dying + {p}) < Unkilled(before, dying)
  {
    MidTreeOk(before, births, dying, p, gone, c, left, now);
    hide TreeOk, InBirthOrder, Subtrees, Descends;
    forall x | 0 <= x < MAX_PROCESSES
      ensures IsActive(t.procs, x) <==> now[x].alive && x !in dying + {p}
    {
      var dead := Subtrees(before, births, gone);
      assert t.procs[x] == SlotAfter(s, before, dead + {p}, dead, p, status, x);
      assert now[x] == MidContext(before, births, p, gone, left, x);
    }
    assert p in Unkilled(before, dying);
  }

  /** The scheduler's share of the next child's kill. */
  lemma {:induction false} MidSched(before: seq<Context>, births: seq<nat>, dying: set<int>, p: int,
                                    gone: seq<int>, c: int, left: seq<int>, now: seq<Context>,
                                    s: Sched, t: Sched, u: Sched, status: int)
    requires TreeOk(before, births, dying, p) && Alive(before, p) && Older(births, dying, p)
    requires before[p].children == gone + [c] + left
    requires Mid(before, births, p, gone, left, now)
    requires |s.procs| == MAX_PROCESSES
    requires SchedAfter(s, t, before, Subtrees(before, births, gone) + {p}, Subtrees(before, births, gone), p, status)
    requires SchedAfter(t, u, now, Subtree(now, births, c), Subtree(now, births, c), c, CHILD_STATUS)
    ensures var dead := Subtrees(before, births, gone + [c]);
      SchedAfter(s, u, before, dead + {p}, dead, p, status)
  {
    hide Descends, ParentOk, SchedAfter;
    MidTreeOk(before, births, dying, p, gone, c, left, now);
    MidNextChild(before, births, dying, p, gone, c, left, now);
    ParentOutsideChild(before, births, dying, p, c);
    GoneAvoidsParent(before, births, dying, p, gone);
    var dead, more := Subtrees(before, births, gone), Subtree(before, births, c);
    assert forall k :: k in more ==> now[k] == MidContext(before, births, p, gone, left, k);
    KillMore(s, t, u, before, now, dead + {p}, dead, more, p, status, c);
    assert (gone + [c])[..|gone|] == gone;
    assert dead + {p} + more == Subtrees(before, births, gone + [c]) + {p};
  }

  /** The calls of the next child's kill are those it would make with the whole tree still there. */
  lemma {:induction false} MidCalls(before: seq<Context>, births: seq<nat>, clock: nat, dying: set<int>, p: int,
                                    gone: seq<int>, c: int, left: seq<int>, now: seq<Context>, s: Sched, t: Sched)
    requires TreeOk(before, births, dying, p) && Alive(before, p) && Older(births, dying, p)
    requires before[p].children == gone + [c] + left
    requires Mid(before, births, p, gone, left, now)
    requires |s.procs| == |t.procs| == MAX_PROCESSES && forall x :: 0 <= x < MAX_PROCESSES ==> births[x] < clock
    requires t == KillChildren(s, before, births, clock, p, gone)
    ensures ValidPid(c)
    ensures KillTree(t, now, births, clock, c, CHILD_STATUS) == KillChildren(s, before, births, clock, p, gone + [c])
  {
    hide KillTree, KillChildren, Descends, Subtrees;
    MidTreeOk(before, births, dying, p, gone, c, left, now);
    MidNextChild(before, births, dying, p, gone, c, left, now);
    ParentOutsideChild(before, births, dying, p, c);
    ChildOf(before, births, dying, p, p, c);
    forall x | x in Subtree(now, births, c)
      ensures now[x] == before[x]
    {
      assert now[x] == MidContext(before, births, p, gone, left, x);
    }
    RootInSubtree(now, births, c);
    KillTreeSame(t, before, now, births, clock, dying + {p}, c, c, c, CHILD_STATUS);
    KillChildrenNext(s, before, births, clock, p, gone, c);
  }

  lemma {:induction false} NoChildYet(s: Sched, procs: seq<Context>, births: seq<nat>, clock: nat, p: int)
    requires |s.procs| == |procs| == |births| == MAX_PROCESSES && ValidPid(p)
    ensures KillChildren(s, procs, births, clock, p, []) == s
  {
  }

  lemma {:induction false} KillTreeEnds(procs: seq<Context>, births: seq<nat>, clock: nat, p: int,
                                        s: Sched, t: Sched, status: int)
    requires |s.procs| == |procs| == |births| == MAX_PROCESSES && ValidPid(p)
    requires t == KillChildren(SchedulerSpec.Kill(s, p, status), procs, births, clock, p, procs[p].children)
    ensures UnblockAll(t, procs[p].waiting) == KillTree(s, procs, births, clock, p, status)
  {
  }

  lemma {:induction false} RootInSubtree(procs: seq<Context>, births: seq<nat>, c: int)
    requires |procs| == |births| == MAX_PROCESSES && Alive(procs, c)
    ensures c in Subtree(procs, births, c)
  {
  }

  /** The end of a kill: all children are gone, the parent forgets p, p's slot is cleared. */
  lemma {:induction false} KillDone(before: seq<Context>, births: seq<nat>, dying: set<int>, p: int,
                                    now: seq<Context>, after: seq<Context>, s: Sched, t: Sched, status: int)
    requires TreeOk(before, births, dying, p) && Alive(before, p) && Older(births, dying, p)
    requires Mid(before, births, p, before[p].children, [], now)
    requires Inv(t) && |s.procs| == MAX_PROCESSES
    requires var dead := Subtrees(before, births, before[p].children);
      SchedAfter(s, t, before, dead + {p}, dead, p, status)
    requires |after| == MAX_PROCESSES && after[p] == EMPTY
    requires forall x :: 0 <= x < MAX_PROCESSES && x != p ==>
               after[x] == if x == before[p].parentPid && now[x].alive
                           then now[x].(children := Remove(now[x].children, p)) else now[x]
    ensures TableAfter(before, births, p, after)
    ensures Inv(UnblockAll(t, before[p].waiting))
    ensures var dead := Subtree(before, births, p);
      SchedAfter(s, UnblockAll(t, before[p].waiting), before, dead, dead, p, status)
  {
    WholeSubtree(before, births, dying, p);
    var dead := Subtrees(before, births, before[p].children);
    WakeLast(s, t, before, dead + {p}, dead, p, status);
    hide Descends, ParentOk, Subtree, Subtrees, SchedAfter, UnblockAll;
    forall x | 0 <= x < MAX_PROCESSES
      ensures after[x] == ContextAfter(before, births, p, x)
    {
      assert now[x] == MidContext(before, births, p, before[p].children, [], x);
    }
  }

  lemma {:induction false} KillForces(before: seq<Context>, births: seq<nat>, dying: set<int>, p: int,
                                      s: Sched, t: Sched, status: int)
    requires TreeOk(before, births, dying, p) && Alive(before, p) && Older(births, dying, p)
    requires Inv(t) && |s.procs| == MAX_PROCESSES
    requires var dead := Subtrees(before, births, before[p].children);
      SchedAfter(s, t, before, dead + {p}, dead, p, status)
    ensures forall k: nat :: UrgentWaiter(s, before, births, p, k) ==>
              UnblockAll(t, before[p].waiting).forceNext == before[p].waiting[k]
  {
    var dead := Subtrees(before, births, before[p].children);
    WholeSubtree(before, births, dying, p);
    GoneAvoidsParent(before, births, dying, p, before[p].children);
    hide Subtree, Subtrees, SchedAfter, UrgentWaiter, Inv;
    forall k: nat | UrgentWaiter(s, before, births, p, k)
      ensures UnblockAll(t, before[p].waiting).forceNext == before[p].waiting[k]
    {
      UrgentWaiterForced(s, t, before, births, dead, p, status, k);
    }
  }

  class Table {
    const processes: array<Context>
    const sch: SchedulerState
    ghost var births: seq<nat>
    ghost var clock: nat

    ghost predicate Valid()
      reads this, processes, sch, sch.processesStates
    {
      && processes.Length == MAX_PROCESSES && sch.Valid()
      && TreeOk(processes[..], births, {}, -1)
      && InStep(processes[..], sch.Model(), {})
      && (forall x :: 0 <= x < MAX_PROCESSES ==> births[x] < clock)
      && InBirthOrder(processes[..], births)
    }

    constructor (sch: SchedulerState)
      requires sch.Valid() && sch.Model() == Initial()
      ensures Valid() && fresh(processes) && this.sch == sch
      ensures forall x :: 0 <= x < MAX_PROCESSES ==> processes[x] == EMPTY
    {
      this.sch := sch;
      processes := new Context[MAX_PROCESSES](_ => EMPTY);
      births, clock := seq(MAX_PROCESSES, _ => 0), 1;
    }

    predicate Known(pid: int)
      requires processes.Length == MAX_PROCESSES
      reads processes
    {
      ValidPid(pid) && processes[pid].alive
    }

    /** proc_create, with memory granted or not for the process, and then for its place in its parent's
        queue; admissible stands for the checks of name and argc. A killed process that gets here
        yields, and since nothing saves its context it never returns. */
    method Create(priority: int, rsp: nat, admissible: bool, granted: bool, linkGranted: bool, yieldRsp: nat)
      returns (pid: int, returned: bool)
      requires Valid() && rsp != NULL && yieldRsp != NULL
      modifies this, processes, sch, sch.processesStates
      ensures Valid()
      ensures returned <==> old(sch.currentRunningPid) != KILLED_PROC_PID
      ensures !returned ==> pid == -1 && processes[..] == old(processes[..])
                            && sch.Model() == Switch(old(sch.Model()).(quantums := 0), yieldRsp)
      ensures returned ==>
                var slot, parent := FreeSlot(old(processes[..]), 0), old(sch.currentRunningPid);
                var refused := !admissible || !granted || slot == MAX_PROCESSES;
                && pid == (if refused || (parent >= 0 && !linkGranted) then -1 else slot)
                && processes[..] == (if pid == -1 then old(processes[..])
                                     else TableWith(old(processes[..]), pid, parent))
                && sch.Model() == SchedAfterCreate(old(sch.Model()), refused, pid, slot, priority, rsp)
    {
      hide Switch, TreeOk, SchedulerSpec.Create;
      if sch.currentRunningPid == KILLED_PROC_PID {
        SwitchInStep(processes[..], sch.Model(), yieldRsp);
        var _ := sch.YieldContext(yieldRsp);
        return -1, false;
      }
      returned := true;
      pid := CreateNow(priority, rsp, admissible, granted, linkGranted);
    }

    /** proc_create for a living caller. */
    method CreateNow(priority: int, rsp: nat, admissible: bool, granted: bool, linkGranted: bool) returns (pid: int)
      requires Valid() && rsp != NULL && sch.currentRunningPid != KILLED_PROC_PID
      modifies this, processes, sch, sch.processesStates
      ensures Valid()
      ensures var slot, parent := FreeSlot(old(processes[..]), 0), old(sch.currentRunningPid);
              var refused := !admissible || !granted || slot == MAX_PROCESSES;
              && pid == (if refused || (parent >= 0 && !linkGranted) then -1 else slot)
              && processes[..] == (if pid == -1 then old(processes[..]) else TableWith(old(processes[..]), pid, parent))
              && sch.Model() == SchedAfterCreate(old(sch.Model()), refused, pid, slot, priority, rsp)
    {
      hide TreeOk, InBirthOrder, SchedulerSpec.Create, Inv, TableAfter, SchedAfter, KillTree;
      hide SchedulerSpec.Kill, Subtree;
      CurrentIsAlive(processes[..], births, sch.Model());
      pid := 0;
      while pid < MAX_PROCESSES && processes[pid].alive
        invariant 0 <= pid <= MAX_PROCESSES
        invariant FreeSlot(processes[..], 0) == FreeSlot(processes[..], pid)
      {
        pid := pid + 1;
      }
      if !admissible || pid == MAX_PROCESSES || !granted {
        return -1;
      }
      ghost var before, s := processes[..], sch.Model();
      EmptySlot(before, births, pid);
      processes[pid] := processes[pid].(alive := true);
      CreateInStep(before, s, pid, sch.currentRunningPid, priority, rsp);
      sch.OnProcessCreate(pid, priority, rsp);
      var parentPid := sch.currentRunningPid;
      processes[pid] := processes[pid].(parentPid := parentPid);
      assert processes[..] == Entered(before, pid, parentPid);
      ghost var was := births;
      births, clock := births[pid := clock], clock + 1;
      if parentPid >= 0 && !linkGranted {
        KillUnlinked(pid, parentPid, priority, rsp, before, s, was);
        return -1;
      }
      if parentPid >= 0 {
        processes[parentPid] := processes[parentPid].(children := processes[parentPid].children + [pid]);
      }
      TreeAfterCreate(before, was, clock - 1, pid, parentPid);
      OrderAfterCreate(before, was, clock - 1, pid, parentPid);
      assert processes[..] == TableWith(before, pid, parentPid);
    }

    /** The kill of a process that could not be linked. */
    method KillUnlinked(pid: int, parentPid: int, ghost priority: int, ghost rsp: nat,
                        ghost before: seq<Context>, ghost s: Sched, ghost was: seq<nat>)
      requires |before| == |was| == processes.Length == MAX_PROCESSES && sch.Valid() && clock > 0
      requires TreeOk(before, was, {}, -1) && InBirthOrder(before, was) && Inv(s) && InStep(before, s, {})
      requires ValidPid(pid) && !before[pid].alive && rsp != NULL && Alive(before, parentPid)
      requires forall x :: 0 <= x < MAX_PROCESSES ==> was[x] < clock - 1
      requires births == was[pid := clock - 1] && processes[..] == Entered(before, pid, parentPid)
      requires sch.Model() == SchedulerSpec.Create(s, pid, priority, rsp)
      modifies processes, sch, sch.processesStates
      ensures Valid() && processes[..] == before
      ensures sch.Model() == SchedulerSpec.Kill(SchedulerSpec.Create(s, pid, priority, rsp), pid, CHILD_STATUS)
    {
      hide TreeOk, InBirthOrder, SchedulerSpec.Create, Inv, TableAfter, SchedAfter, KillTree;
      hide SchedulerSpec.Kill, Subtree;
      CreateInStep(before, s, pid, parentPid, priority, rsp);
      EmptySlot(before, was, pid);
      TreeBeforeLink(before, was, clock - 1, pid, parentPid);
      KillOfLeaf(sch.Model(), processes[..], births, clock, pid, CHILD_STATUS);
      ghost var t := SchedulerSpec.Kill(sch.Model(), pid, CHILD_STATUS);
      assert UnblockAll(t, []) == t;
      assert processes[..][pid] == processes[pid];
      var _ := ProcKill(pid, CHILD_STATUS, {});
      CreationUndone(before, was, clock - 1, pid, parentPid, processes[..]);
      TreeAfterKill(Entered(before, pid, parentPid), births, pid, before);
      OrderAfterCreate(before, was, clock - 1, pid, parentPid);
      UndoneInStep(before, s, pid, priority, rsp);
    }

    /** proc_kill, with a null kill callback and no open descriptors. `dying` are the processes
        whose own kill is waiting for this one; it is empty for a kill from outside. */
    method ProcKill(pid: int, status: int, ghost dying: set<int>) returns (r: int)
      requires processes.Length == MAX_PROCESSES && sch.Valid() && |births| == MAX_PROCESSES
      requires TreeOk(processes[..], births, dying, pid) && InStep(processes[..], sch.Model(), dying)
      requires Known(pid) ==> Older(births, dying, pid)
      requires forall x :: 0 <= x < MAX_PROCESSES ==> births[x] < clock
      modifies processes, sch, sch.processesStates
      ensures sch.Valid()
      ensures r == if old(Known(pid)) then 0 else -1
      ensures !old(Known(pid)) ==> processes[..] == old(processes[..]) && sch.Model() == old(sch.Model())
      ensures old(Known(pid)) ==> TableAfter(old(processes[..]), births, pid, processes[..])
      ensures old(Known(pid)) ==>
                var dead := Subtree(old(processes[..]), births, pid);
                SchedAfter(old(sch.Model()), sch.Model(), old(processes[..]), dead, dead, pid, status)
      ensures old(Known(pid)) ==>
                sch.Model() == KillTree(old(sch.Model()), old(processes[..]), births, clock, pid, status)
      ensures old(Known(pid)) ==>
                forall k: nat :: UrgentWaiter(old(sch.Model()), old(processes[..]), births, pid, k) ==>
                  sch.forceNextPid == old(processes[pid]).waiting[k]
      decreases Unkilled(processes[..], dying)
    {
      hide TreeOk, InBirthOrder, Subtree, Subtrees, SchedAfter, Inv, UnblockAll, SchedulerSpec.Kill, Older, InStep, Mid;
      hide TableAfter, Remove, Unkilled, KillTree, KillChildren, UrgentWaiter;
      if !Known(pid) {
        return -1;
      }
      ghost var before, s := processes[..], sch.Model();
      var _ := sch.OnProcessKilled(pid, status);
      KillStarts(before, births, dying, pid, s, status);
      NoChildYet(SchedulerSpec.Kill(s, pid, status), before, births, clock, pid);
      ghost var gone: seq<int>, left := [], before[pid].children;
      while processes[pid].children != []
        invariant processes.Length == MAX_PROCESSES && sch.Valid()
        invariant before[pid].children == gone + left
        invariant Mid(before, births, pid, gone, left, processes[..])
        invariant processes[pid] == before[pid].(children := left)
        invariant SchedAfter(s, sch.Model(), before, Subtrees(before, births, gone) + {pid},
                             Subtrees(before, births, gone), pid, status)
        invariant sch.Model() == KillChildren(SchedulerSpec.Kill(s, pid, status), before, births, clock, pid, gone)
        decreases |left|
      {
        MidPop(before, births, pid, gone, left, processes[..]);
        ghost var now, t := processes[..][pid := processes[pid].(children := left[1..])], sch.Model();
        var childPid := processes[pid].children[0];
        processes[pid] := processes[pid].(children := processes[pid].children[1..]);
        assert before[pid].children == gone + [childPid] + left[1..];
        assert processes[..] == now;
        MidReady(before, births, dying, pid, gone, childPid, left[1..], now, s, t, status);
        MidCalls(before, births, clock, dying, pid, gone, childPid, left[1..], now,
                 SchedulerSpec.Kill(s, pid, status), t);
        var _ := ProcKill(childPid, CHILD_STATUS, dying + {pid});
        MidAdvances(before, births, dying, pid, gone, childPid, left[1..], now, processes[..]);
        MidSched(before, births, dying, pid, gone, childPid, left[1..], now, s, t, sch.Model(), status);
        gone, left := gone + [childPid], left[1..];
      }
      assert gone == before[pid].children;
      ghost var now, t := processes[..], sch.Model();
      var parentPid := processes[pid].parentPid;
      if Known(parentPid) {
        processes[parentPid] := processes[parentPid].(children := Remove(processes[parentPid].children, pid));
      }
      sch.UnblockQueue(processes[pid].waiting);
      processes[pid] := EMPTY;
      KillDone(before, births, dying, pid, now, processes[..], s, t, status);
      KillTreeEnds(before, births, clock, pid, s, t, status);
      KillForces(before, births, dying, pid, s, t, status);
      r := 0;
    }

    /** The kill as the system call makes it: the whole subtree of pid goes and nothing else, its
        waiters wake, and tree and scheduler stay in step. */
    method Kill(pid: int, status: int) returns (r: int)
      requires Valid()
      modifies processes, sch, sch.processesStates
      ensures Valid()
      ensures r == if old(Known(pid)) then 0 else -1
      ensures r == -1 ==> processes[..] == old(processes[..]) && sch.Model() == old(sch.Model())
      ensures r == 0 ==> TableAfter(old(processes[..]), births, pid, processes[..])
      ensures r == 0 ==>
                var dead := Subtree(old(processes[..]), births, pid);
                SchedAfter(old(sch.Model()), sch.Model(), old(processes[..]), dead, dead, pid, status)
      ensures r == 0 ==>
                sch.Model() == KillTree(old(sch.Model()), old(processes[..]), births, clock, pid, status)
      ensures r == 0 ==>
                forall k: nat :: UrgentWaiter(old(sch.Model()), old(processes[..]), births, pid, k) ==>
                  sch.forceNextPid == old(processes[pid]).waiting[k]
    {
      ghost var before, s := processes[..], sch.Model();
      TreeFromOutside(before, births, pid);
      hide TreeOk, InBirthOrder, InStep, TableAfter, SchedAfter, Inv, Subtree, KillTree, UrgentWaiter;
      r := ProcKill(pid, status, {});
      if r == 0 {
        TreeAfterKill(before, births, pid, processes[..]);
        OrderAfterKill(before, births, pid, processes[..]);
        StillInStep(before, births, s, pid, status, processes[..], sch.Model());
      }
    }

    /** proc_unblock_on_killed. The queue is there once someone waits; otherwise queueGranted says
        whether there is memory for it, and nodeGranted whether there is for one more node. */
    method UnblockOnKilled(waitingPid: int, workingPid: int, queueGranted: bool, nodeGranted: bool) returns (r: int)
      requires Valid()
      modifies processes
      ensures Valid()
      ensures r == if old(Known(workingPid)) && (old(processes[workingPid]).waiting != [] || queueGranted) then 0
                   else -1
      ensures processes[..] == if r == 0 && nodeGranted
                then old(processes[..])[workingPid := old(processes[workingPid]).(
                       waiting := old(processes[workingPid]).waiting + [waitingPid])]
                else old(processes[..])
    {
      if !Known(workingPid) {
        return -1;
      }
      if processes[workingPid].waiting == [] && !queueGranted {
        return -1;
      }
      r := 0;
      if nodeGranted {
        ghost var before := processes[..];
        processes[workingPid] := processes[workingPid].(waiting := processes[workingPid].waiting + [waitingPid]);
        TreeIgnoresWaiting(before, births, workingPid, before[workingPid].waiting + [waitingPid]);
        assert processes[..] == before[workingPid := processes[workingPid]];
      }
    }
  }
}
