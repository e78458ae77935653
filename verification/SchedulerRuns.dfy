/** What every run of the scheduler keeps, and how long a ready process can wait. */
module SchedulerRuns {
  import opened SchedulerSpec

  ghost predicate Runs(s: Sched, es: seq<Event>)
    requires Inv(s)
    decreases |es|
  {
    es == [] || (Allowed(s, es[0]) && (NextInv(s, es[0]); Runs(Next(s, es[0]), es[1..])))
  }

  ghost function After(s: Sched, es: seq<Event>): (t: Sched)
    requires Inv(s) && Runs(s, es)
    ensures Inv(t)
    decreases |es|
  {
    if es == [] then s else
      NextInv(s, es[0]);
      After(Next(s, es[0]), es[1..])
  }

  // ----- one process at a time -----

  /** sch_switch leaves exactly one process RUNNING, the one it dispatched, or none when it resumes the kernel. */
  lemma {:induction false} OneRunning(s: Sched, rsp: nat)
    requires Inv(s) && rsp != NULL
    ensures var t := Switch(s, rsp);
      forall p :: 0 <= p < MAX_PROCESSES ==> (t.procs[p].status == RUNNING <==> p == t.current)
  {
    SwitchInv(s, rsp);
  }

  /** The kernel context is resumed if and only if no process is ready. */
  lemma {:induction false} KernelIffIdle(s: Sched, rsp: nat)
    requires Inv(s) && rsp != NULL
    ensures Switch(s, rsp).current == KERNEL_PROC_PID
       <==> forall p :: !IsReady(SaveContext(s, rsp).procs, p)
  {
    var t := SaveContext(s, rsp);
    ScanFinds(t.procs, Cursor(t), 1);
  }

  // ----- contexts -----

  /** The stack pointer a run has left for a process (or the kernel, pid -1): from its
      creation, or from the last switch that interrupted it. */
  ghost function LastSaved(s: Sched, es: seq<Event>, pid: int, initial: nat): nat
    requires Inv(s) && Runs(s, es)
    decreases |es|
  {
    if es == [] then initial else
      NextInv(s, es[0]);
      var saved := match es[0]
        case Created(slot, _, rsp) => if slot == pid then rsp else initial
        case Ticked(rsp) => if s.current == pid then rsp else initial
        case Yielded(rsp) => if s.current == pid then rsp else initial
        case _ => initial;
      LastSaved(Next(s, es[0]), es[1..], pid, saved)
  }

  ghost function Context(s: Sched, pid: int): nat
    requires |s.procs| == MAX_PROCESSES
  {
    if pid == KERNEL_PROC_PID then s.kernelRsp
    else if ValidPid(pid) then s.procs[pid].rsp else NULL
  }

  /** Over every run, the context stored for a living process or the kernel is the one last saved for it. */
  lemma {:induction false} ContextsKept(s: Sched, es: seq<Event>, pid: int, initial: nat)
    requires Inv(s) && Runs(s, es)
    requires pid == KERNEL_PROC_PID || ValidPid(pid)
    requires pid == KERNEL_PROC_PID || IsActive(s.procs, pid) ==> Context(s, pid) == initial
    ensures pid == KERNEL_PROC_PID || IsActive(After(s, es).procs, pid)
        ==> Context(After(s, es), pid) == LastSaved(s, es, pid, initial)
    decreases |es|
  {
    if es != [] {
      NextInv(s, es[0]);
      var saved := match es[0]
        case Created(slot, _, rsp) => if slot == pid then rsp else initial
        case Ticked(rsp) => if s.current == pid then rsp else initial
        case Yielded(rsp) => if s.current == pid then rsp else initial
        case _ => initial;
      ContextsKept(Next(s, es[0]), es[1..], pid, saved);
    }
  }

  /** What sch_switch returns at the end of a run is exactly the context last saved for
      whoever it resumes. */
  lemma {:induction false} SwitchResumes(es: seq<Event>)
    requires Runs(Initial(), es)
    requires es != [] && IsSwitch(es[|es| - 1])
    ensures var t := After(Initial(), es);
      KERNEL_PROC_PID <= t.current && Resumed(t) == LastSaved(Initial(), es, t.current, NULL)
  {
    var t := After(Initial(), es);
    EndsInSwitch(Initial(), es);
    ContextsKept(Initial(), es, t.current, NULL);
  }

  lemma {:induction false} EndsInSwitch(s: Sched, es: seq<Event>)
    requires Inv(s) && Runs(s, es) && es != [] && IsSwitch(es[|es| - 1])
    ensures KERNEL_PROC_PID <= After(s, es).current
    decreases |es|
  {
    NextInv(s, es[0]);
    if |es| > 1 {
      EndsInSwitch(Next(s, es[0]), es[1..]);
    } else {
      assert es[1..] == [];
    }
  }

  // ----- killed processes -----

  lemma {:induction false} KillRemoves(s: Sched, pid: int, status: int)
    requires Inv(s)
    ensures var t := Kill(s, pid, status);
      if ValidPid(pid) then !IsActive(t.procs, pid) && t.current != pid else t == s
    ensures var t := Kill(s, pid, status);
      forall q :: 0 <= q < MAX_PROCESSES && q != pid ==> t.procs[q] == s.procs[q]
  {
  }

  ghost predicate Recreates(es: seq<Event>, pid: nat) {
    exists i :: 0 <= i < |es| && es[i].Created? && es[i].slot == pid
  }

  /** A dead slot is never dispatched again until a process is created in it. */
  lemma {:induction false} DeadStaysDead(s: Sched, es: seq<Event>, pid: nat)
    requires Inv(s) && Runs(s, es) && pid < MAX_PROCESSES
    requires !IsActive(s.procs, pid) && !Recreates(es, pid)
    ensures !IsActive(After(s, es).procs, pid) && After(s, es).current != pid
    decreases |es|
  {
    if es != [] {
      NextInv(s, es[0]);
      assert forall i :: 0 <= i < |es[1..]| ==> es[1..][i] == es[i + 1];
      DeadStep(s, es[0], pid);
      DeadStaysDead(Next(s, es[0]), es[1..], pid);
    }
  }

  lemma {:induction false} DeadStep(s: Sched, e: Event, pid: nat)
    requires Inv(s) && Allowed(s, e) && pid < MAX_PROCESSES
    requires !IsActive(s.procs, pid) && !(e.Created? && e.slot == pid)
    ensures !IsActive(Next(s, e).procs, pid)
  {
  }

  // ----- bounded waiting -----

  /** p is ready in every state of the run. */
  ghost predicate ReadyThroughout(s: Sched, es: seq<Event>, p: nat)
    requires Inv(s) && Runs(s, es) && p < MAX_PROCESSES
    decreases |es|
  {
    IsReady(s.procs, p) && (es == [] || (NextInv(s, es[0]); ReadyThroughout(Next(s, es[0]), es[1..], p)))
  }

  /** The switch takes the forced-next slot, and that is not p. */
  predicate ForcesAnother(s: Sched, rsp: nat, p: nat)
    requires Inv(s)
  {
    s.forceNext != p && IsReady(SaveContext(s, rsp).procs, s.forceNext)
  }

  /** What can put p back: the kill of the running process, which restarts the scan at slot 0, and
      a switch to a forced process. */
  predicate PutsBack(s: Sched, e: Event, p: nat)
    requires Inv(s)
  {
    match e
    case Killed(pid, _) => pid == s.current && pid >= 0
    case Ticked(rsp) => ForcesAnother(s, rsp, p)
    case Yielded(rsp) => ForcesAnother(s, rsp, p)
    case _ => false
  }

  ghost function PutBacks(s: Sched, es: seq<Event>, p: nat): nat
    requires Inv(s) && Runs(s, es)
    decreases |es|
  {
    if es == [] then 0 else
      NextInv(s, es[0]);
      (if PutsBack(s, es[0], p) then 1 else 0) + PutBacks(Next(s, es[0]), es[1..], p)
  }

  ghost function Switches(es: seq<Event>): nat {
    if es == [] then 0 else (if IsSwitch(es[0]) then 1 else 0) + Switches(es[1..])
  }

  ghost function Patience(s: Sched, p: nat): (n: int)
    requires Inv(s) && p < MAX_PROCESSES
    ensures 0 <= n < 40 * MAX_PROCESSES
  {
    (Distance(Cursor(s), p) - 1) * 40 + s.quantums
  }

  /** A switch that neither dispatches p nor forces another process brings p's turn closer. */
  lemma {:induction false} SwitchBringsCloser(s: Sched, rsp: nat, p: nat)
    requires Inv(s) && rsp != NULL && p < MAX_PROCESSES && IsReady(s.procs, p)
    requires !ForcesAnother(s, rsp, p)
    requires IsReady(Switch(s, rsp).procs, p)
    ensures Inv(Switch(s, rsp)) && Patience(Switch(s, rsp), p) < Patience(s, p)
  {
    SwitchInv(s, rsp);
    var t := SaveContext(s, rsp);
    assert IsReady(t.procs, p);
    ScanFinds(t.procs, Cursor(t), 1);
    var next := Scan(t.procs, Cursor(t), 1);
    assert next != KERNEL_PROC_PID && Distance(Cursor(t), next) <= Distance(Cursor(t), p);
  }

  lemma {:induction false} OthersDoNotDelay(s: Sched, e: Event, p: nat)
    requires Inv(s) && Allowed(s, e) && p < MAX_PROCESSES
    requires !IsSwitch(e) && !PutsBack(s, e, p)
    ensures Inv(Next(s, e)) && Patience(Next(s, e), p) <= Patience(s, p)
  {
    NextInv(s, e);
  }

  /** What one event costs or earns a process that is ready before and after it. */
  lemma {:induction false} EventIsPaid(s: Sched, e: Event, p: nat)
    requires Inv(s) && Allowed(s, e) && p < MAX_PROCESSES && IsReady(s.procs, p)
    requires Inv(Next(s, e)) && IsReady(Next(s, e).procs, p)
    ensures (if IsSwitch(e) then 1 else 0) + Patience(Next(s, e), p)
         <= Patience(s, p) + if PutsBack(s, e, p) then 40 * MAX_PROCESSES else 0
  {
    hide Switch, Patience;
    if !PutsBack(s, e, p) {
      match e {
        case Ticked(rsp) => SwitchBringsCloser(s, rsp, p);
        case Yielded(rsp) => YieldBringsCloser(s, rsp, p);
        case _ => OthersDoNotDelay(s, e, p);
      }
    }
  }

  lemma {:induction false} YieldBringsCloser(s: Sched, rsp: nat, p: nat)
    requires Inv(s) && rsp != NULL && p < MAX_PROCESSES && IsReady(s.procs, p)
    requires !ForcesAnother(s, rsp, p)
    requires IsReady(Switch(s.(quantums := 0), rsp).procs, p)
    ensures Inv(Switch(s.(quantums := 0), rsp)) && Patience(Switch(s.(quantums := 0), rsp), p) < Patience(s, p)
  {
    var t := s.(quantums := 0);
    assert SaveContext(t, rsp).procs == SaveContext(s, rsp).procs;
    SwitchBringsCloser(t, rsp, p);
  }

  /** Over any run at all, the switches a ready process sits through are paid for: by its patience,
      and by 40 * MAX_PROCESSES for every event that puts it back. */
  lemma {:induction false} WaitIsPaid(s: Sched, es: seq<Event>, p: nat)
    requires Inv(s) && Runs(s, es) && p < MAX_PROCESSES && ReadyThroughout(s, es, p)
    ensures Switches(es) <= Patience(s, p) + 40 * MAX_PROCESSES * PutBacks(s, es, p)
    decreases |es|
  {
    hide Next, PutsBack, Patience, IsReady;
    if es != [] {
      NextInv(s, es[0]);
      EventIsPaid(s, es[0], p);
      WaitIsPaid(Next(s, es[0]), es[1..], p);
    }
  }

  /** In the other direction, what puts a process back takes switches: a forced dispatch is one, and
      between two kills of the running process something must have been dispatched. */
  lemma {:induction false} PutBacksNeedSwitches(s: Sched, es: seq<Event>, p: nat)
    requires Inv(s) && Runs(s, es) && p < MAX_PROCESSES
    ensures PutBacks(s, es, p) <= 2 * Switches(es) + if s.current >= 0 then 1 else 0
    decreases |es|
  {
    if es != [] {
      NextInv(s, es[0]);
      PutBacksNeedSwitches(Next(s, es[0]), es[1..], p);
    }
  }

  /** A process that stays ready is dispatched before 40 * MAX_PROCESSES calls of sch_switch have
      gone by, unless it is put back. */
  lemma {:induction false} BoundedWaiting(s: Sched, es: seq<Event>, p: nat)
    requires Inv(s) && Runs(s, es) && p < MAX_PROCESSES && ReadyThroughout(s, es, p)
    requires PutBacks(s, es, p) == 0
    ensures Switches(es) < 40 * MAX_PROCESSES
  {
    WaitIsPaid(s, es, p);
  }

  /** No run of the collection has more than n switches. */
  ghost predicate SwitchesAtMost(runs: iset<seq<Event>>, n: nat) {
    forall es :: es in runs ==> Switches(es) <= n
  }

  /** Nor more than n events that put p back. */
  ghost predicate PutBacksAtMost(s: Sched, runs: iset<seq<Event>>, p: nat, n: nat)
    requires Inv(s) && forall es :: es in runs ==> Runs(s, es)
  {
    forall es :: es in runs ==> PutBacks(s, es, p) <= n
  }

  /** The exact condition: over any collection of runs in which p stays ready, its waits are bounded
      if and only if the events that put it back are. */
  lemma {:induction false} WaitBoundedIff(s: Sched, runs: iset<seq<Event>>, p: nat)
    requires Inv(s) && p < MAX_PROCESSES
    requires forall es :: es in runs ==> Runs(s, es) && ReadyThroughout(s, es, p)
    ensures (exists n: nat :: SwitchesAtMost(runs, n)) <==> (exists n: nat :: PutBacksAtMost(s, runs, p, n))
  {
    hide Switches, PutBacks, ReadyThroughout, Runs, Inv;
    if n: nat :| SwitchesAtMost(runs, n) {
      forall es | es in runs
        ensures PutBacks(s, es, p) <= 2 * n + 1
      {
        PutBacksNeedSwitches(s, es, p);
      }
      assert PutBacksAtMost(s, runs, p, 2 * n + 1);
    }
    if n: nat :| PutBacksAtMost(s, runs, p, n) {
      forall es | es in runs
        ensures Switches(es) <= 40 * MAX_PROCESSES * (n + 1)
      {
        WaitIsPaid(s, es, p);
      }
      assert SwitchesAtMost(runs, 40 * MAX_PROCESSES * (n + 1));
    }
  }

  /** Nobody is forced, and nobody could be. */
  predicate NobodyUrgent(s: Sched) {
    s.forceNext == KILLED_PROC_PID
    && forall p :: 0 <= p < |s.procs| ==> s.procs[p].priority > REALTIME_PRIORITY
  }

  /** Only blocking, waking and switching. */
  predicate CallsOnly(es: seq<Event>) {
    forall e :: e in es ==> e.Blocked? || e.Unblocked? || e.Ticked? || e.Yielded?
  }

  lemma {:induction false} QuietStep(s: Sched, e: Event, p: nat)
    requires Inv(s) && Allowed(s, e) && NobodyUrgent(s)
    requires e.Blocked? || e.Unblocked? || e.Ticked? || e.Yielded?
    ensures NobodyUrgent(Next(s, e)) && !PutsBack(s, e, p)
  {
  }

  /** Without real-time processes, blocking, waking and switching never put a process back. */
  lemma {:induction false} QuietRun(s: Sched, es: seq<Event>, p: nat)
    requires Inv(s) && Runs(s, es) && NobodyUrgent(s) && CallsOnly(es)
    ensures PutBacks(s, es, p) == 0
    decreases |es|
  {
    hide Next, Allowed, PutsBack, NobodyUrgent;
    if es != [] {
      NextInv(s, es[0]);
      assert es[0] in es && forall e :: e in es[1..] ==> e in es;
      QuietStep(s, es[0], p);
      QuietRun(Next(s, es[0]), es[1..], p);
    }
  }

  // ----- a run that starves a ready process -----

  /** What proc_create does: the slot is the lowest free one. */
  predicate LowestSlot(s: Sched, e: Event)
    requires Inv(s)
  {
    e.Created? && e.slot < MAX_PROCESSES ==> forall q :: 0 <= q < e.slot ==> s.procs[q].rsp != NULL
  }

  /** Creations go to the lowest free slot, and no switch takes the forced-next slot. */
  ghost predicate Plain(s: Sched, es: seq<Event>)
    requires Inv(s) && Runs(s, es)
    decreases |es|
  {
    es == [] ||
    (LowestSlot(s, es[0])
     && (IsSwitch(es[0]) ==> !IsReady(SaveContext(s, es[0].rsp).procs, s.forceNext))
     && (NextInv(s, es[0]); Plain(Next(s, es[0]), es[1..])))
  }

  /** Slot 0 sleeps, slot 1 runs, slot 2 is free, slot 3 is ready; nobody is or can be forced. */
  predicate Churning(s: Sched) {
    && Inv(s) && s.current == 1 && s.procs[1].status == RUNNING
    && IsActive(s.procs, 0) && s.procs[0].status == BLOCKED
    && s.procs[2].rsp == NULL && IsReady(s.procs, 3)
    && s.forceNext == KILLED_PROC_PID
    && forall p :: 0 <= p < 4 ==> s.procs[p].priority > REALTIME_PRIORITY
  }

  /** One round: the running process starts a child, waits for it, and is woken by its death. */
  function Round(): seq<Event> {
    [Created(2, DEFAULT_PRIORITY, 1), Blocked(1), Yielded(1), Killed(2, 0), Unblocked(1), Ticked(1)]
  }

  lemma {:induction false} SwitchToNext(s: Sched, rsp: nat, q: nat)
    requires Inv(s) && rsp != NULL && 1 <= q <= 2
    requires s.forceNext == KILLED_PROC_PID && s.current == (if q == 2 then 1 else KILLED_PROC_PID)
    requires s.procs[3 - q].rsp == NULL || s.procs[3 - q].status == BLOCKED
    requires IsReady(s.procs, q)
    ensures var t := Switch(s, rsp);
      && Inv(t) && t.current == q && t.forceNext == KILLED_PROC_PID
      && t.procs == SaveContext(s, rsp).procs[q := s.procs[q].(status := RUNNING)]
      && !IsReady(SaveContext(s, rsp).procs, s.forceNext)
  {
    SwitchInv(s, rsp);
    var t := SaveContext(s, rsp);
    ScanFinds(t.procs, Cursor(t), 1);
    var next := Scan(t.procs, Cursor(t), 1);
    assert IsReady(t.procs, q) && !IsReady(t.procs, 3 - q);
    assert Distance(Cursor(t), next) <= Distance(Cursor(t), q);
  }

  /** The states the round goes through. */
  lemma {:induction false} RoundStates(s: Sched) returns (a: Sched, b: Sched, c: Sched, d: Sched, e: Sched, f: Sched)
    requires Churning(s)
    ensures var r := Round();
      && Allowed(s, r[0]) && a == Next(s, r[0]) && Inv(a) && IsReady(a.procs, 3) && LowestSlot(s, r[0])
      && Allowed(a, r[1]) && b == Next(a, r[1]) && Inv(b) && IsReady(b.procs, 3)
      && Allowed(b, r[2]) && c == Next(b, r[2]) && Inv(c) && IsReady(c.procs, 3)
      && !IsReady(SaveContext(b, 1).procs, b.forceNext)
      && Allowed(c, r[3]) && d == Next(c, r[3]) && Inv(d) && IsReady(d.procs, 3) && c.current == 2
      && Allowed(d, r[4]) && e == Next(d, r[4]) && Inv(e) && IsReady(e.procs, 3)
      && Allowed(e, r[5]) && f == Next(e, r[5]) && Churning(f)
      && !IsReady(SaveContext(e, 1).procs, e.forceNext)
  {
    var r := Round();
    NextInv(s, r[0]);
    a := Next(s, r[0]);
    NextInv(a, r[1]);
    b := Next(a, r[1]);
    SwitchToNext(b.(quantums := 0), 1, 2);
    assert SaveContext(b.(quantums := 0), 1).procs == SaveContext(b, 1).procs;
    c := Next(b, r[2]);
    NextInv(c, r[3]);
    d := Next(c, r[3]);
    NextInv(d, r[4]);
    e := Next(d, r[4]);
    SwitchToNext(e, 1, 1);
    f := Next(e, r[5]);
  }

  lemma {:induction false} Prepend(s: Sched, e: Event, es: seq<Event>, p: nat)
    requires Inv(s) && Allowed(s, e) && p < MAX_PROCESSES && IsReady(s.procs, p) && LowestSlot(s, e)
    requires IsSwitch(e) ==> !IsReady(SaveContext(s, e.rsp).procs, s.forceNext)
    requires Inv(Next(s, e)) && Runs(Next(s, e), es) && ReadyThroughout(Next(s, e), es, p) && Plain(Next(s, e), es)
    ensures Runs(s, [e] + es) && ReadyThroughout(s, [e] + es, p) && Plain(s, [e] + es)
    ensures After(s, [e] + es) == After(Next(s, e), es)
    ensures Switches([e] + es) == Switches(es) + if IsSwitch(e) then 1 else 0
    ensures PutBacks(s, [e] + es, p) == PutBacks(Next(s, e), es, p) + if PutsBack(s, e, p) then 1 else 0
  {
    assert ([e] + es)[1..] == es;
  }

  /** One round leads back to such a state, with slot 3 ready throughout and put back once. */
  lemma {:induction false} RoundRuns(s: Sched)
    requires Churning(s)
    ensures Runs(s, Round()) && Plain(s, Round()) && ReadyThroughout(s, Round(), 3)
    ensures Switches(Round()) == 2 && PutBacks(s, Round(), 3) == 1
    ensures Churning(After(s, Round()))
  {
    var a, b, c, d, e, f := RoundStates(s);
    hide Inv, Next, Allowed, IsReady, Churning, SaveContext, Runs, Plain, After, ReadyThroughout, PutBacks, LowestSlot;
    var r := Round();
    RoundEnds(f);
    Prepend(e, r[5], [], 3);
    var es := [r[5]] + [];
    Prepend(d, r[4], es, 3);
    es := [r[4]] + es;
    Prepend(c, r[3], es, 3);
    es := [r[3]] + es;
    Prepend(b, r[2], es, 3);
    es := [r[2]] + es;
    Prepend(a, r[1], es, 3);
    es := [r[1]] + es;
    Prepend(s, r[0], es, 3);
    es := [r[0]] + es;
    assert es == r;
  }

  lemma {:induction false} RoundEnds(f: Sched)
    requires Churning(f)
    ensures Inv(f) && Runs(f, []) && Plain(f, []) && ReadyThroughout(f, [], 3)
    ensures After(f, []) == f && Switches([]) == 0 && PutBacks(f, [], 3) == 0
  {
  }

  /** Two runs, one after the other. */
  lemma {:induction false} RunsAppend(s: Sched, es: seq<Event>, fs: seq<Event>)
    requires Inv(s) && Runs(s, es) && Runs(After(s, es), fs)
    ensures Runs(s, es + fs) && After(s, es + fs) == After(After(s, es), fs)
    ensures Switches(es + fs) == Switches(es) + Switches(fs)
    decreases |es|
  {
    hide Inv, Next, Allowed;
    if es == [] {
      assert es + fs == fs;
    } else {
      NextInv(s, es[0]);
      RunsAppend(Next(s, es[0]), es[1..], fs);
      assert (es + fs)[0] == es[0] && (es + fs)[1..] == es[1..] + fs;
    }
  }

  lemma {:induction false} WaitsAppend(s: Sched, es: seq<Event>, fs: seq<Event>, p: nat)
    requires Inv(s) && p < MAX_PROCESSES && Runs(s, es) && Runs(After(s, es), fs)
    requires ReadyThroughout(s, es, p) && ReadyThroughout(After(s, es), fs, p)
    ensures Runs(s, es + fs) && ReadyThroughout(s, es + fs, p)
    ensures PutBacks(s, es + fs, p) == PutBacks(s, es, p) + PutBacks(After(s, es), fs, p)
    decreases |es|
  {
    hide Inv, Next, Allowed, PutsBack, IsReady;
    RunsAppend(s, es, fs);
    if es == [] {
      assert es + fs == fs;
    } else {
      NextInv(s, es[0]);
      WaitsAppend(Next(s, es[0]), es[1..], fs, p);
      assert (es + fs)[0] == es[0] && (es + fs)[1..] == es[1..] + fs;
    }
  }

  lemma {:induction false} PlainAppend(s: Sched, es: seq<Event>, fs: seq<Event>)
    requires Inv(s) && Runs(s, es) && Runs(After(s, es), fs) && Plain(s, es) && Plain(After(s, es), fs)
    ensures Runs(s, es + fs) && Plain(s, es + fs)
    decreases |es|
  {
    hide Inv, Next, Allowed, LowestSlot, IsReady, SaveContext;
    RunsAppend(s, es, fs);
    if es == [] {
      assert es + fs == fs;
    } else {
      NextInv(s, es[0]);
      PlainAppend(Next(s, es[0]), es[1..], fs);
      assert (es + fs)[0] == es[0] && (es + fs)[1..] == es[1..] + fs;
    }
  }

  /** n rounds. */
  function Rounds(n: nat): seq<Event> {
    if n == 0 then [] else Round() + Rounds(n - 1)
  }

  /** Kills of the running process alone can starve a ready process for good: n rounds are a run of
      2 * n switches, none of them forced and all creations in the lowest free slot, that passes over
      slot 3 although it is ready throughout. It is put back once a round, by the kill. */
  lemma {:induction false} KillsCanStarve(s: Sched, n: nat)
    requires Churning(s)
    ensures Runs(s, Rounds(n)) && Plain(s, Rounds(n)) && ReadyThroughout(s, Rounds(n), 3)
    ensures Switches(Rounds(n)) == 2 * n && PutBacks(s, Rounds(n), 3) == n
    ensures Churning(After(s, Rounds(n)))
    decreases n
  {
    hide Inv, Runs, Plain, ReadyThroughout, Switches, PutBacks, After, Churning, Round;
    RoundEnds(s);
    if n > 0 {
      RoundRuns(s);
      var t := After(s, Round());
      KillsCanStarve(t, n - 1);
      RunsAppend(s, Round(), Rounds(n - 1));
      WaitsAppend(s, Round(), Rounds(n - 1), 3);
      PlainAppend(s, Round(), Rounds(n - 1));
    }
  }

  /** Such a state is reached from sch_init: the shell in slot 0 starts three processes, kills the
      second and waits for the first. */
  lemma {:induction false} ChurnReached() returns (es: seq<Event>)
    ensures Runs(Initial(), es) && Plain(Initial(), es) && Churning(After(Initial(), es))
  {
    var s := Initial();
    var e0, e1, e2 := Created(0, DEFAULT_PRIORITY, 1), Ticked(1), Created(1, DEFAULT_PRIORITY, 1);
    var e3, e4 := Created(2, DEFAULT_PRIORITY, 1), Created(3, DEFAULT_PRIORITY, 1);
    NextInv(s, e0);
    var a := Next(s, e0);
    FirstSwitch(a);
    var b := Next(a, e1);
    NextInv(b, e2);
    var c := Next(b, e2);
    NextInv(c, e3);
    var d := Next(c, e3);
    NextInv(d, e4);
    var e := Next(d, e4);
    hide Inv, Next, Allowed, Churning, SaveContext, Runs, Plain, After, LowestSlot;
    es := KillAndWait(e);
    es := Lead(d, e4, es);
    es := Lead(c, e3, es);
    es := Lead(b, e2, es);
    es := Lead(a, e1, es);
    es := Lead(s, e0, es);
  }

  lemma {:induction false} KillAndWait(s: Sched) returns (es: seq<Event>)
    requires Inv(s) && s.current == 0 && s.forceNext == KILLED_PROC_PID
    requires IsReady(s.procs, 1) && IsReady(s.procs, 2) && IsReady(s.procs, 3)
    requires forall p :: 0 <= p < 4 ==> s.procs[p].priority > REALTIME_PRIORITY
    ensures Runs(s, es) && Plain(s, es) && Churning(After(s, es))
  {
    var e5, e6, e7 := Killed(2, 0), Blocked(0), Yielded(1);
    NextInv(s, e5);
    var f := Next(s, e5);
    NextInv(f, e6);
    var g := Next(f, e6);
    ShellWaits(g);
    var h := Next(g, e7);
    hide Inv, Next, Allowed, IsReady, Churning, SaveContext, Runs, Plain, After, LowestSlot;
    LastEvent(h);
    es := Lead(g, e7, []);
    es := Lead(f, e6, es);
    es := Lead(s, e5, es);
  }

  lemma {:induction false} LastEvent(s: Sched)
    requires Churning(s)
    ensures Inv(s) && Runs(s, []) && Plain(s, []) && Churning(After(s, []))
  {
  }

  lemma {:induction false} Lead(s: Sched, e: Event, es: seq<Event>) returns (all: seq<Event>)
    requires Inv(s) && Allowed(s, e) && LowestSlot(s, e)
    requires IsSwitch(e) ==> !IsReady(SaveContext(s, e.rsp).procs, s.forceNext)
    requires Inv(Next(s, e)) && Runs(Next(s, e), es) && Plain(Next(s, e), es) && Churning(After(Next(s, e), es))
    ensures Runs(s, all) && Plain(s, all) && Churning(After(s, all))
  {
    all := [e] + es;
    assert all[1..] == es;
  }

  lemma {:induction false} FirstSwitch(s: Sched)
    requires Inv(s) && s.current == KERNEL_PROC_PID && s.forceNext == KILLED_PROC_PID
    requires IsReady(s.procs, 0) && forall q :: 0 < q < MAX_PROCESSES ==> s.procs[q].rsp == NULL
    ensures var t := Switch(s, 1);
      Inv(t) && t.current == 0 && t.forceNext == KILLED_PROC_PID
      && t.procs == s.procs[0 := s.procs[0].(status := RUNNING)]
  {
    SwitchInv(s, 1);
    ScanFinds(s.procs, 0, 1);
  }

  lemma {:induction false} ShellWaits(s: Sched)
    requires Inv(s) && s.current == 0 && s.forceNext == KILLED_PROC_PID
    requires s.procs[0].status == BLOCKED && IsReady(s.procs, 1) && s.procs[2].rsp == NULL && IsReady(s.procs, 3)
    requires forall p :: 0 <= p < 4 ==> s.procs[p].priority > REALTIME_PRIORITY
    ensures Churning(Next(s, Yielded(1)))
  {
    var t := s.(quantums := 0);
    SwitchInv(t, 1);
    var u := SaveContext(t, 1);
    ScanFinds(u.procs, 0, 1);
    assert IsReady(u.procs, 1);
  }
}
