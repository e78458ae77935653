/** What a process gets from the scheduler: its time slice, its priority, its exit status, and its
    turn when it is urgent. */
module SchedulerLaws {
  import opened SchedulerSpec
  import opened SchedulerRuns

  // ----- time slices -----

  /** The switch starts a new slice: by a yield, for a forced process, or by the scan. */
  predicate Picks(s: Sched, e: Event)
    requires Inv(s) && Allowed(s, e) && IsSwitch(e)
  {
    var saved := SaveContext(s, e.rsp).procs;
    e.Yielded? || IsReady(saved, s.forceNext) || !IsReady(saved, s.current) || s.quantums == 0
  }

  ghost predicate OnlyTicks(es: seq<Event>) {
    forall e :: e in es ==> e.Ticked?
  }

  ghost predicate AnotherReady(s: Sched, p: nat)
    requires |s.procs| == MAX_PROCESSES
  {
    exists q :: q != p && IsReady(s.procs, q)
  }

  /** p is the running process in every state of the run. */
  ghost predicate RunsThroughout(s: Sched, es: seq<Event>, p: nat)
    requires Inv(s) && Runs(s, es)
    decreases |es|
  {
    s.current == p && (es == [] || (NextInv(s, es[0]); RunsThroughout(Next(s, es[0]), es[1..], p)))
  }

  /** p runs, and nobody is forced. */
  predicate Undisturbed(s: Sched, p: nat) {
    && Inv(s) && s.current == p && p < MAX_PROCESSES && s.procs[p].status == RUNNING
    && s.forceNext != p && !IsReady(s.procs, s.forceNext)
  }

  /** After any switch nobody is forced any more. */
  lemma {:induction false} SwitchSettles(s: Sched, e: Event, p: nat)
    requires Inv(s) && Allowed(s, e) && IsSwitch(e) && Next(s, e).current == p
    ensures Undisturbed(Next(s, e), p)
  {
    NextInv(s, e);
    assert SaveContext(s.(quantums := 0), e.rsp).procs == SaveContext(s, e.rsp).procs;
  }

  /** With slice left, a tick leaves an undisturbed process running. */
  lemma {:induction false} TickWithin(s: Sched, rsp: nat, p: nat)
    requires Undisturbed(s, p) && rsp != NULL && s.quantums > 0
    ensures var t := Switch(s, rsp);
      && t.current == p && t.quantums == s.quantums - 1
      && forall q :: 0 <= q < MAX_PROCESSES ==>
           t.procs[q] == if q == p then s.procs[p].(rsp := rsp) else s.procs[q]
    ensures Switch(s, rsp).forceNext == s.forceNext
  {
  }

  /** What is saved of an undisturbed process, and what the scan then finds. */
  lemma {:induction false} SavedAndScanned(s: Sched, rsp: nat, p: nat)
    requires Undisturbed(s, p) && rsp != NULL
    ensures SaveContext(s, rsp) == s.(procs := s.procs[p := s.procs[p].(rsp := rsp, status := READY)])
    ensures var saved := SaveContext(s, rsp);
      && !IsReady(saved.procs, s.forceNext) && IsReady(saved.procs, p)
      && (forall q :: q != p ==> (IsReady(saved.procs, q) <==> IsReady(s.procs, q)))
      && (Scan(saved.procs, p, 1) == p <==> !AnotherReady(s, p))
      && Scan(saved.procs, p, 1) != KERNEL_PROC_PID
  {
    var saved := SaveContext(s, rsp);
    hide Scan, Inv;
    ScanFinds(saved.procs, p, 1);
    assert forall q :: q != p ==> (IsReady(saved.procs, q) <==> IsReady(s.procs, q));
    assert forall q: nat :: q < MAX_PROCESSES && q != p ==> Distance(p, q) < Distance(p, p);
  }

  /** Without, it goes to another, if one is ready. */
  lemma {:induction false} TickAtEnd(s: Sched, rsp: nat, p: nat)
    requires Undisturbed(s, p) && rsp != NULL && s.quantums == 0
    ensures var t := Switch(s, rsp);
      && (t.current == p <==> !AnotherReady(s, p)) && t.forceNext == s.forceNext
      && (t.current == p ==> forall q :: 0 <= q < MAX_PROCESSES ==>
            t.procs[q] == if q == p then s.procs[p].(rsp := rsp) else s.procs[q])
  {
    hide SaveContext, Scan, AnotherReady;
    SavedAndScanned(s, rsp, p);
  }

  /** One tick of an undisturbed process. */
  lemma {:induction false} TickOf(s: Sched, rsp: nat, p: nat)
    requires Undisturbed(s, p) && rsp != NULL
    ensures Inv(s) && Next(s, Ticked(rsp)) == Switch(s, rsp)
    ensures var t := Switch(s, rsp);
      && Inv(t)
      && (t.current == p <==> s.quantums > 0 || !AnotherReady(s, p))
      && (t.current == p ==> Undisturbed(t, p) && (AnotherReady(t, p) <==> AnotherReady(s, p)))
      && (s.quantums > 0 ==> t.quantums == s.quantums - 1)
  {
    hide Switch, SaveContext;
    SwitchInv(s, rsp);
    if s.quantums > 0 {
      TickWithin(s, rsp, p);
    } else {
      TickAtEnd(s, rsp, p);
    }
    var t := Switch(s, rsp);
    if t.current == p {
      assert forall q :: q != p ==> (IsReady(t.procs, q) <==> IsReady(s.procs, q));
    }
  }

  lemma {:induction false} StartsWith(s: Sched, p: nat)
    requires Undisturbed(s, p)
    ensures Inv(s) && s.current == p
  {
  }

  lemma {:induction false} SliceLeft(s: Sched, es: seq<Event>, p: nat)
    requires Undisturbed(s, p) && Inv(s) && Runs(s, es) && OnlyTicks(es)
    ensures RunsThroughout(s, es, p) <==> |es| <= s.quantums || !AnotherReady(s, p)
    decreases |es|
  {
    hide Next, Switch, Undisturbed, AnotherReady, Inv;
    StartsWith(s, p);
    if es == [] {
      SomeSlice(s);
    } else {
      assert es[0] in es && forall e :: e in es[1..] ==> e in es;
      TickOf(s, es[0].rsp, p);
      var t := Next(s, es[0]);
      if t.current == p {
        SliceLeft(t, es[1..], p);
      }
    }
  }

  lemma {:induction false} SomeSlice(s: Sched)
    requires Inv(s)
    ensures s.quantums >= 0
  {
  }

  /** The time slice: a process that a switch has picked runs on through exactly 19 - priority ticks,
      while another process is ready; otherwise through any number. */
  lemma {:induction false} SliceIsPriority(s: Sched, e: Event, es: seq<Event>, p: nat)
    requires Inv(s) && Allowed(s, e) && IsSwitch(e) && Picks(s, e) && Next(s, e).current == p
    requires Inv(Next(s, e)) && Runs(Next(s, e), es) && OnlyTicks(es)
    ensures var t := Next(s, e);
      RunsThroughout(t, es, p) <==> |es| <= 19 - t.procs[p].priority || !AnotherReady(t, p)
  {
    SwitchSettles(s, e, p);
    SliceLeft(Next(s, e), es, p);
    assert SaveContext(s.(quantums := 0), e.rsp).procs == SaveContext(s, e.rsp).procs;
  }

  /** So of two processes the more urgent one never gets the shorter slice. */
  lemma {:induction false} UrgentRunLonger(s: Sched, e: Event, t: Sched, f: Event, es: seq<Event>, p: nat, q: nat)
    requires Inv(s) && Allowed(s, e) && IsSwitch(e) && Picks(s, e) && Next(s, e).current == p
    requires Inv(t) && Allowed(t, f) && IsSwitch(f) && Picks(t, f) && Next(t, f).current == q
    requires Inv(Next(s, e)) && Runs(Next(s, e), es) && Inv(Next(t, f)) && Runs(Next(t, f), es) && OnlyTicks(es)
    requires Next(t, f).procs[q].priority <= Next(s, e).procs[p].priority && AnotherReady(Next(s, e), p)
    requires RunsThroughout(Next(s, e), es, p)
    ensures RunsThroughout(Next(t, f), es, q)
  {
    hide Picks, Next, Allowed, RunsThroughout, AnotherReady;
    SliceIsPriority(s, e, es, p);
    SliceIsPriority(t, f, es, q);
  }

  // ----- giving up a turn -----

  /** Whoever blocks while running gives up the rest of its slice, even if it is awake again before
      the switch: with another process ready, the switch goes to another. */
  lemma {:induction false} BlockEndsTurn(s: Sched, p: nat, rsp: nat)
    requires Inv(s) && s.current == p && s.procs[p].status == RUNNING && rsp != NULL
    requires AnotherReady(s, p) && s.procs[p].priority > REALTIME_PRIORITY && s.forceNext != p
    ensures Switch(Unblock(Block(s, p), p), rsp).current != p
  {
    var t := Unblock(Block(s, p), p);
    NextInv(s, Blocked(p));
    NextInv(Block(s, p), Unblocked(p));
    var saved := SaveContext(t, rsp);
    ScanFinds(saved.procs, Cursor(saved), 1);
    var q :| q != p && IsReady(s.procs, q);
    assert IsReady(saved.procs, q) && Distance(p, q) < Distance(p, p);
  }

  // ----- priorities and exit statuses -----

  /** An accepted request sets the priority and nothing else; any other changes nothing. */
  lemma {:induction false} NiceSets(s: Sched, pid: int, priority: int)
    requires Inv(s)
    ensures var t := SetPriority(s, pid, priority);
      if IsActive(s.procs, pid) && -20 <= priority <= 19 then
        && t.procs[pid].priority == priority && t.procs[pid].status == s.procs[pid].status
        && t.procs[pid].rsp == s.procs[pid].rsp && t.procs[pid].exitStatus == s.procs[pid].exitStatus
        && (forall q :: 0 <= q < MAX_PROCESSES && q != pid ==> t.procs[q] == s.procs[q])
        && t.current == s.current && t.quantums == s.quantums && t.forceNext == s.forceNext
        && t.kernelRsp == s.kernelRsp
      else t == s
  {
  }

  /** The priority a run has given to a slot: by a creation, 0 for an invalid one, or by the last
      valid request to a live process. */
  ghost function LastPriority(s: Sched, es: seq<Event>, pid: nat, initial: int): int
    requires Inv(s) && Runs(s, es) && pid < MAX_PROCESSES
    decreases |es|
  {
    if es == [] then initial else
      NextInv(s, es[0]);
      LastPriority(Next(s, es[0]), es[1..], pid, PriorityGiven(s, es[0], pid, initial))
  }

  predicate InRange(priority: int) {
    -20 <= priority <= 19
  }

  function PriorityGiven(s: Sched, e: Event, pid: nat, initial: int): int
    requires Inv(s) && pid < MAX_PROCESSES
  {
    match e
    case Created(slot, priority, _) => if slot != pid then initial else if InRange(priority) then priority else 0
    case Niced(p, priority) => if p == pid && InRange(priority) && IsActive(s.procs, p) then priority else initial
    case _ => initial
  }

  /** Over every run the priority of a slot is the last one given to it. */
  lemma {:induction false} PrioritiesKept(s: Sched, es: seq<Event>, pid: nat)
    requires Inv(s) && Runs(s, es) && pid < MAX_PROCESSES
    ensures After(s, es).procs[pid].priority == LastPriority(s, es, pid, s.procs[pid].priority)
    decreases |es|
  {
    hide Switch;
    if es != [] {
      var t := Next(s, es[0]);
      NextInv(s, es[0]);
      PriorityStep(s, es[0], pid);
      PrioritiesKept(t, es[1..], pid);
    }
  }

  lemma {:induction false} PriorityStep(s: Sched, e: Event, pid: nat)
    requires Inv(s) && Allowed(s, e) && pid < MAX_PROCESSES
    ensures Inv(Next(s, e))
    ensures Next(s, e).procs[pid].priority == PriorityGiven(s, e, pid, s.procs[pid].priority)
  {
    NextInv(s, e);
  }

  /** So, on every run from the start, what a process runs on through once a switch has picked it is
      fixed by the last priority it was given. */
  lemma {:induction false} SliceOnAnyRun(es: seq<Event>, e: Event, ticks: seq<Event>, p: nat)
    requires Runs(Initial(), es) && p < MAX_PROCESSES
    requires var s := After(Initial(), es);
      && Allowed(s, e) && IsSwitch(e) && Picks(s, e) && Next(s, e).current == p
      && Inv(Next(s, e)) && Runs(Next(s, e), ticks) && OnlyTicks(ticks)
    ensures var t := Next(After(Initial(), es), e);
      RunsThroughout(t, ticks, p) <==> |ticks| <= 19 - LastPriority(Initial(), es, p, 0) || !AnotherReady(t, p)
  {
    hide Next, Picks, Allowed, Runs, After, RunsThroughout, AnotherReady, OnlyTicks;
    var s := After(Initial(), es);
    SliceIsPriority(s, e, ticks, p);
    PriorityStep(s, e, p);
    PrioritiesKept(Initial(), es, p);
  }

  /** The status of the last kill that met pid alive. */
  ghost function LastExit(s: Sched, es: seq<Event>, pid: nat, initial: int): int
    requires Inv(s) && Runs(s, es) && pid < MAX_PROCESSES
    decreases |es|
  {
    if es == [] then initial else
      NextInv(s, es[0]);
      var e := es[0];
      LastExit(Next(s, e), es[1..], pid,
               if e.Killed? && e.pid == pid && IsActive(s.procs, pid) then e.status else initial)
  }

  /** Over every run a slot's exit status is that of the last process killed in it, also while a new
      process lives there. */
  lemma {:induction false} ExitStatusKept(s: Sched, es: seq<Event>, pid: nat)
    requires Inv(s) && Runs(s, es) && pid < MAX_PROCESSES
    ensures After(s, es).procs[pid].exitStatus == LastExit(s, es, pid, s.procs[pid].exitStatus)
    decreases |es|
  {
    if es != [] {
      var t := Next(s, es[0]);
      NextInv(s, es[0]);
      ExitStatusKept(t, es[1..], pid);
    }
  }

  // ----- urgent processes -----

  /** While the running process has slice left and nobody is forced, the next tick goes to the process
      just created if and only if its priority is one of -20 to -5, or the slot it got was still
      marked as the one to force. */
  lemma {:induction false} CreatedUrgent(s: Sched, e: Event, rsp: nat)
    requires Inv(s) && Allowed(s, e) && e.Created? && rsp != NULL
    requires s.current >= 0 && s.procs[s.current].status == RUNNING && s.quantums > 0
    requires !IsReady(SaveContext(s, rsp).procs, s.forceNext)
    ensures Inv(Next(s, e))
    ensures Switch(Next(s, e), rsp).current
         == if -20 <= e.priority <= -5 || s.forceNext == e.slot then e.slot else s.current
  {
    NextInv(s, e);
  }

  /** Another process is forced, or p is no longer ready. */
  predicate TakesTurn(s: Sched, e: Event, p: nat)
    requires Inv(s) && Allowed(s, e)
  {
    match e
    case Created(slot, priority, _) => -20 <= priority <= -5
    case Unblocked(pid) => IsActive(s.procs, pid) && s.procs[pid].status !in {READY, RUNNING}
                           && s.procs[pid].priority <= -5
    case Killed(pid, _) => pid == p
    case Blocked(pid) => pid == p
    case Niced(_, _) => false
    case _ => true
  }

  ghost predicate NothingComesBetween(s: Sched, es: seq<Event>, p: nat)
    requires Inv(s) && Runs(s, es)
    decreases |es|
  {
    es == [] || (!TakesTurn(s, es[0], p) && (NextInv(s, es[0]); NothingComesBetween(Next(s, es[0]), es[1..], p)))
  }

  /** A process created at -20 to -5 is dispatched by the next switch, whatever happens before it
      that neither forces another process nor stops this one. */
  lemma {:induction false} UrgentRunsNext(s: Sched, e: Event, es: seq<Event>, f: Event)
    requires Inv(s) && Allowed(s, e) && e.Created? && -20 <= e.priority <= -5
    requires Inv(Next(s, e)) && Runs(Next(s, e), es) && NothingComesBetween(Next(s, e), es, e.slot)
    requires Allowed(After(Next(s, e), es), f) && IsSwitch(f)
    ensures Next(After(Next(s, e), es), f).current == e.slot
  {
    ForcedStays(Next(s, e), es, e.slot);
    var t := After(Next(s, e), es);
    assert IsReady(SaveContext(t, f.rsp).procs, e.slot);
  }

  lemma {:induction false} ForcedStays(s: Sched, es: seq<Event>, p: nat)
    requires Inv(s) && Runs(s, es) && NothingComesBetween(s, es, p)
    requires s.forceNext == p && IsReady(s.procs, p)
    ensures var t := After(s, es); t.forceNext == p && IsReady(t.procs, p)
    decreases |es|
  {
    hide Switch;
    if es != [] {
      NextInv(s, es[0]);
      ForcedStays(Next(s, es[0]), es[1..], p);
    }
  }
}
