/** The round that starves a ready process, made by the kernel's own calls. */
module Starvation {
  import opened SchedulerSpec
  import opened SchedulerRuns
  import opened Scheduler
  import opened WaitQueueSpec
  import opened ProcessSpec
  import opened ProcessTable

  /** The scheduler is in the state of the round, and process 1 has no children. */
  ghost predicate Starving(t: Table)
    reads t, t.processes, t.sch, t.sch.processesStates
  {
    t.Valid() && Churning(t.sch.Model()) && t.processes[1].children == []
  }

  lemma {:induction false} BlockInStep(procs: seq<Context>, s: Sched, p: int)
    requires |procs| == MAX_PROCESSES && Inv(s) && InStep(procs, s, {})
    ensures InStep(procs, Block(s, p), {})
  {
  }

  /** In the state of the round the lowest free slot is 2. */
  lemma {:induction false} LowestIsTwo(procs: seq<Context>, s: Sched)
    requires |procs| == MAX_PROCESSES && Churning(s) && InStep(procs, s, {})
    ensures procs[0].alive && procs[1].alive && !procs[2].alive
  {
    assert IsActive(s.procs, 0) && IsActive(s.procs, 1) && !IsActive(s.procs, 2);
  }

  /** Waking the one waiter. */
  lemma {:induction false} OneWaiter(s: Sched, q: int)
    requires |s.procs| == MAX_PROCESSES
    ensures UnblockAll(s, [q]) == Unblock(s, q) && UnblockAll(s, []) == s
  {
    assert [q][1..] == [];
    assert UnblockAll(s, []) == s;
  }

  lemma {:induction false} RunOfRound(s: Sched, a: Sched, b: Sched, c: Sched, d: Sched, e: Sched, f: Sched)
    requires Inv(s) && Inv(a) && Inv(b) && Inv(c) && Inv(d) && Inv(e) && Inv(f)
    requires var r := Round();
      && Allowed(s, r[0]) && a == Next(s, r[0]) && Allowed(a, r[1]) && b == Next(a, r[1])
      && Allowed(b, r[2]) && c == Next(b, r[2]) && Allowed(c, r[3]) && d == Next(c, r[3])
      && Allowed(d, r[4]) && e == Next(d, r[4]) && Allowed(e, r[5]) && f == Next(e, r[5])
    ensures Runs(s, Round()) && After(s, Round()) == f
  {
    hide Inv, Next, Allowed;
    var r := Round();
    assert r[1..][0] == r[1] && r[2..][0] == r[2] && r[3..][0] == r[3] && r[4..][0] == r[4] && r[5..][0] == r[5];
    assert r[5..][1..] == [] && r[4..][1..] == r[5..] && r[3..][1..] == r[4..] && r[2..][1..] == r[3..];
    assert r[1..][1..] == r[2..];
    assert Runs(f, []) && After(f, []) == f;
    assert Runs(e, r[5..]) && After(e, r[5..]) == f;
    assert Runs(d, r[4..]) && After(d, r[4..]) == f;
    assert Runs(c, r[3..]) && After(c, r[3..]) == f;
    assert Runs(b, r[2..]) && After(b, r[2..]) == f;
    assert Runs(a, r[1..]) && After(a, r[1..]) == f;
  }

  /** Process 1 creates a child, waits for it, and the child is killed while it runs: the scheduler
      goes through the events of the round, and everything is as it was before. */
  method KernelRound(t: Table)
    requires Starving(t)
    modifies t, t.processes, t.sch, t.sch.processesStates
    ensures Starving(t)
    ensures Runs(old(t.sch.Model()), Round()) && t.sch.Model() == After(old(t.sch.Model()), Round())
  {
    hide Churning, Inv, TreeOk, Allowed, Switch, Block, Unblock, SchedulerSpec.Create, SchedulerSpec.Kill, Runs, After;
    ghost var s := t.sch.Model();
    ghost var a, b, c, d, e, f := RoundStates(s);
    RunOfRound(s, a, b, c, d, e, f);
    StartChild(t);
    WaitForChild(t);
    KillChild(t);
    SwitchBack(t);
  }

  method StartChild(t: Table)
    requires Starving(t)
    modifies t, t.processes, t.sch, t.sch.processesStates
    ensures t.Valid()
    ensures t.sch.Model() == Next(old(t.sch.Model()), Round()[0])
    ensures t.processes[2] == Context(true, 1, [], []) && t.processes[1].children == [2] && t.processes[1].alive
  {
    hide TreeOk, InBirthOrder, SchedulerSpec.Create, Switch, Inv;
    LowestIsTwo(t.processes[..], t.sch.Model());
    EmptySlot(t.processes[..], t.births, 2);
    var pid, returned := t.Create(DEFAULT_PRIORITY, 1, true, true, true, 1);
    assert pid == 2;
    assert t.processes[..][2] == t.processes[2] && t.processes[..][1] == t.processes[1];
  }

  method WaitForChild(t: Table)
    requires t.Valid() && t.processes[2] == Context(true, 1, [], []) && t.processes[1].children == [2]
    requires t.processes[1].alive
    modifies t.processes, t.sch, t.sch.processesStates
    ensures t.Valid()
    ensures Inv(Block(old(t.sch.Model()), 1))
    ensures t.sch.Model() == Switch(Block(old(t.sch.Model()), 1).(quantums := 0), 1)
    ensures t.processes[2] == Context(true, 1, [], [1]) && t.processes[1].children == [2] && t.processes[1].alive
  {
    hide TreeOk, InBirthOrder, Switch, Block;
    var r := t.UnblockOnKilled(1, 2, true, true);
    assert t.processes[..][2] == t.processes[2] && t.processes[..][1] == t.processes[1];
    BlockInStep(t.processes[..], t.sch.Model(), 1);
    var _ := t.sch.BlockPid(1);
    SwitchInStep(t.processes[..], t.sch.Model(), 1);
    var _ := t.sch.YieldContext(1);
  }

  method KillChild(t: Table)
    requires t.Valid() && t.processes[2] == Context(true, 1, [], [1]) && t.processes[1].children == [2]
    modifies t.processes, t.sch, t.sch.processesStates
    ensures t.Valid() && t.processes[1].children == []
    ensures t.sch.Model() == Unblock(SchedulerSpec.Kill(old(t.sch.Model()), 2, 0), 1)
  {
    ghost var before := t.processes[..];
    TreeFromOutside(before, t.births, 2);
    LeafSubtree(before, t.births, 2);
    KillOfLeaf(t.sch.Model(), before, t.births, t.clock, 2, 0);
    OneWaiter(SchedulerSpec.Kill(t.sch.Model(), 2, 0), 1);
    hide TreeOk, InBirthOrder, KillTree, SchedAfter, Subtree;
    var r := t.Kill(2, 0);
    assert t.processes[..][1] == ContextAfter(before, t.births, 2, 1);
    assert Remove([2], 2) == [];
  }

  method SwitchBack(t: Table)
    requires t.Valid()
    modifies t.sch, t.sch.processesStates
    ensures t.Valid() && t.sch.Model() == Switch(old(t.sch.Model()), 1)
  {
    hide TreeOk, InBirthOrder, Switch;
    TickInStep(t.processes[..], t.sch.Model(), 1);
    var _ := t.sch.SwitchContext(1);
  }

  lemma {:induction false} TickInStep(procs: seq<Context>, s: Sched, rsp: nat)
    requires |procs| == MAX_PROCESSES && Inv(s) && InStep(procs, s, {}) && rsp != NULL
    ensures Inv(Switch(s, rsp)) && InStep(procs, Switch(s, rsp), {})
  {
    SwitchInv(s, rsp);
  }

  // ----- from the start -----

  /** The shell in slot 0 runs and has started k - 1 processes; nothing else exists. */
  ghost predicate Launched(s: Sched, k: nat) {
    && Inv(s) && s.current == 0 && s.forceNext == KILLED_PROC_PID && s.procs[0].status == RUNNING
    && (forall p :: 0 <= p < MAX_PROCESSES ==>
          if p < k then IsActive(s.procs, p) && s.procs[p].priority == DEFAULT_PRIORITY
          else s.procs[p].rsp == NULL)
    && (forall p :: 0 < p < MAX_PROCESSES && p < k ==> s.procs[p].status == READY)
  }

  ghost predicate ShellWith(t: Table, k: nat)
    reads t, t.processes, t.sch, t.sch.processesStates
  {
    && t.Valid() && 1 <= k <= MAX_PROCESSES && Launched(t.sch.Model(), k)
    && (forall x :: 0 <= x < MAX_PROCESSES ==> (t.processes[x].alive <==> x < k))
    && (forall x :: 0 < x < MAX_PROCESSES && x < k ==> t.processes[x] == Context(true, 0, [], []))
  }

  lemma {:induction false} LaunchOne(s: Sched, k: nat)
    requires Launched(s, k) && 1 <= k < MAX_PROCESSES
    ensures Launched(SchedulerSpec.Create(s, k, DEFAULT_PRIORITY, 1), k + 1)
  {
    NextInv(s, Created(k, DEFAULT_PRIORITY, 1));
  }

  method Launch(t: Table, ghost k: nat)
    requires ShellWith(t, k) && k < MAX_PROCESSES
    modifies t, t.processes, t.sch, t.sch.processesStates
    ensures ShellWith(t, k + 1)
  {
    hide TreeOk, InBirthOrder, InStep, FreeSlot, SchedulerSpec.Create, Switch, Inv, Launched;
    CurrentIsShell(t.sch.Model(), k);
    LaunchOne(t.sch.Model(), k);
    EmptySlot(t.processes[..], t.births, k);
    var pid, returned := t.Create(DEFAULT_PRIORITY, 1, true, true, true, 1);
    assert pid == k;
    assert forall x :: 0 <= x < MAX_PROCESSES ==> t.processes[..][x] == t.processes[x];
  }

  lemma {:induction false} CurrentIsShell(s: Sched, k: nat)
    requires Launched(s, k)
    ensures s.current == 0
  {
  }

  method StartShell() returns (t: Table)
    ensures fresh(t) && fresh(t.processes) && fresh(t.sch) && fresh(t.sch.processesStates)
    ensures ShellWith(t, 1)
  {
    hide TreeOk, InBirthOrder, SchedulerSpec.Create, Switch;
    var sch := new SchedulerState();
    t := new Table(sch);
    assert !t.processes[0].alive;
    var pid, returned := t.Create(DEFAULT_PRIORITY, 1, true, true, true, 1);
    assert pid == 0;
    assert forall x :: 0 <= x < MAX_PROCESSES ==> t.processes[..][x] == t.processes[x];
    FirstLaunch(t.sch.Model());
    TickInStep(t.processes[..], t.sch.Model(), 1);
    var _ := sch.SwitchContext(1);
  }

  lemma {:induction false} FirstLaunch(s: Sched)
    requires s == SchedulerSpec.Create(Initial(), 0, DEFAULT_PRIORITY, 1)
    ensures Launched(Switch(s, 1), 1)
  {
    NextInv(Initial(), Created(0, DEFAULT_PRIORITY, 1));
    FirstSwitch(s);
  }

  method KillSecond(t: Table)
    requires ShellWith(t, 4)
    modifies t.processes, t.sch, t.sch.processesStates
    ensures t.Valid() && t.processes[1].children == []
    ensures t.sch.Model() == SchedulerSpec.Kill(old(t.sch.Model()), 2, 0)
  {
    ghost var before := t.processes[..];
    TreeFromOutside(before, t.births, 2);
    LeafSubtree(before, t.births, 2);
    KillOfLeaf(t.sch.Model(), before, t.births, t.clock, 2, 0);
    OneWaiter(SchedulerSpec.Kill(t.sch.Model(), 2, 0), 0);
    hide TreeOk, InBirthOrder, KillTree, SchedAfter, Subtree, Launched;
    var r := t.Kill(2, 0);
    assert t.processes[..][1] == ContextAfter(before, t.births, 2, 1);
  }

  lemma {:induction false} ReadyToWait(s: Sched)
    requires Launched(s, 4)
    ensures var g := Block(SchedulerSpec.Kill(s, 2, 0), 0);
      Inv(g) && Churning(Switch(g.(quantums := 0), 1))
  {
    NextInv(s, Killed(2, 0));
    var f := SchedulerSpec.Kill(s, 2, 0);
    NextInv(f, Blocked(0));
    ShellWaits(Block(f, 0));
  }

  method WaitAsShell(t: Table)
    requires t.Valid()
    modifies t.sch, t.sch.processesStates
    ensures t.Valid() && Inv(Block(old(t.sch.Model()), 0))
    ensures t.sch.Model() == Switch(Block(old(t.sch.Model()), 0).(quantums := 0), 1)
  {
    hide TreeOk, InBirthOrder, Switch, Block;
    BlockInStep(t.processes[..], t.sch.Model(), 0);
    var _ := t.sch.BlockPid(0);
    SwitchInStep(t.processes[..], t.sch.Model(), 1);
    var _ := t.sch.YieldContext(1);
  }

  /** From a fresh kernel, the shell starts three processes, kills the second and waits: from here on
      the round repeats. */
  method SetUp() returns (t: Table)
    ensures fresh(t) && fresh(t.processes) && fresh(t.sch) && fresh(t.sch.processesStates)
    ensures Starving(t)
  {
    hide TreeOk, InBirthOrder, Switch, Block, Launched, Churning, SchedulerSpec.Kill, Inv;
    t := StartShell();
    Launch(t, 1);
    Launch(t, 2);
    Launch(t, 3);
    ReadyToWait(t.sch.Model());
    KillSecond(t);
    WaitAsShell(t);
  }

  /** n rounds from a fresh kernel: the switches go on, and the process in slot 3, ready in every state
      since the first round, has not run. */
  method StarveFor(n: nat) returns (t: Table, ghost s: Sched)
    ensures fresh(t) && Starving(t)
    ensures Churning(s) && Runs(s, Rounds(n)) && t.sch.Model() == After(s, Rounds(n))
    ensures ReadyThroughout(s, Rounds(n), 3) && Switches(Rounds(n)) == 2 * n
  {
    hide Inv, Runs, After, Churning, Round, Switches, ReadyThroughout;
    t := SetUp();
    s := t.sch.Model();
    KillsCanStarve(s, 0);
    NoRound(s);
    var i := 0;
    while i < n
      invariant i <= n && Starving(t) && fresh(t) && fresh(t.processes) && fresh(t.sch) && fresh(t.sch.processesStates)
      invariant Churning(s) && Runs(s, Rounds(i)) && t.sch.Model() == After(s, Rounds(i))
    {
      KernelRound(t);
      RoundAfter(s, i);
      i := i + 1;
    }
    KillsCanStarve(s, n);
  }

  lemma {:induction false} NoRound(s: Sched)
    requires Churning(s)
    ensures Runs(s, Rounds(0)) && After(s, Rounds(0)) == s
  {
  }

  /** One more round at the end is one more round. */
  lemma {:induction false} RoundAfter(s: Sched, n: nat)
    requires Churning(s)
    ensures Runs(s, Rounds(n)) && Runs(s, Rounds(n + 1)) && Churning(After(s, Rounds(n)))
    ensures Runs(After(s, Rounds(n)), Round())
    ensures After(After(s, Rounds(n)), Round()) == After(s, Rounds(n + 1))
  {
    hide Inv, Runs, After, Churning, Round, Switches, ReadyThroughout;
    RoundEnds(s);
    KillsCanStarve(s, n);
    KillsCanStarve(s, n + 1);
    RoundRuns(After(s, Rounds(n)));
    RunsAppend(s, Rounds(n), Round());
    RoundsSnoc(n);
  }

  lemma {:induction false} RoundsSnoc(n: nat)
    ensures Rounds(n) + Round() == Rounds(n + 1)
  {
    hide Round;
    if n > 0 {
      RoundsSnoc(n - 1);
      assert Round() + Rounds(n - 1) + Round() == Round() + (Rounds(n - 1) + Round());
    }
  }
}
