/** The scheduler on values: its state, what each entry point does to it, and runs of events. */
module SchedulerSpec {

  const MAX_PROCESSES := 32
  const DEFAULT_PRIORITY := 0
  const MAX_PRIORITY := -20
  const MIN_PRIORITY := 19
  const REALTIME_PRIORITY := -5
  const KERNEL_PROC_PID := -1
  const KILLED_PROC_PID := -2
  const NULL := 0

  datatype Status = READY | RUNNING | BLOCKED | KILLED

  datatype ProcState = ProcState(priority: int, exitStatus: int, status: Status, rsp: nat)

  /** All static variables of the scheduler. */
  datatype Sched = Sched(kernelRsp: nat, procs: seq<ProcState>, current: int, forceNext: int, quantums: int)

  predicate ValidPid(pid: int) {
    0 <= pid < MAX_PROCESSES
  }

  predicate ValidPriority(priority: int) {
    MAX_PRIORITY <= priority <= MIN_PRIORITY
  }

  predicate IsActive(procs: seq<ProcState>, pid: int)
    requires |procs| == MAX_PROCESSES
  {
    ValidPid(pid) && procs[pid].rsp != NULL
  }

  predicate IsReady(procs: seq<ProcState>, pid: int)
    requires |procs| == MAX_PROCESSES
  {
    IsActive(procs, pid) && procs[pid].status == READY
  }

  /** sch_init, over zero-initialised slots. */
  function Initial(): (s: Sched)
    ensures Inv(s)
  {
    Sched(0, seq(MAX_PROCESSES, i => ProcState(0, 0, READY, NULL)), KERNEL_PROC_PID, KILLED_PROC_PID, 0)
  }

  // ----- the entry points -----

  function Create(s: Sched, pid: nat, priority: int, rsp: nat): Sched
    requires |s.procs| == MAX_PROCESSES && pid < MAX_PROCESSES
  {
    var p := if ValidPriority(priority) then priority else DEFAULT_PRIORITY;
    s.(procs := s.procs[pid := s.procs[pid].(priority := p, status := READY, rsp := rsp)],
       forceNext := if p <= REALTIME_PRIORITY then pid else s.forceNext)
  }

  function Kill(s: Sched, pid: int, status: int): Sched
    requires |s.procs| == MAX_PROCESSES
  {
    if !IsActive(s.procs, pid) || s.procs[pid].status == KILLED then s
    else s.(procs := s.procs[pid := s.procs[pid].(status := KILLED, rsp := NULL, exitStatus := status)],
            current := if s.current == pid then KILLED_PROC_PID else s.current)
  }

  function Block(s: Sched, pid: int): Sched
    requires |s.procs| == MAX_PROCESSES
  {
    if !IsActive(s.procs, pid) then s
    else s.(procs := s.procs[pid := s.procs[pid].(status := BLOCKED)],
            quantums := if s.current == pid then 0 else s.quantums)
  }

  function Unblock(s: Sched, pid: int): Sched
    requires |s.procs| == MAX_PROCESSES
  {
    if !IsActive(s.procs, pid) || s.procs[pid].status in {READY, RUNNING} then s
    else s.(procs := s.procs[pid := s.procs[pid].(status := READY)],
            forceNext := if s.procs[pid].priority <= REALTIME_PRIORITY then pid else s.forceNext)
  }

  function SetPriority(s: Sched, pid: int, priority: int): Sched
    requires |s.procs| == MAX_PROCESSES
  {
    if !IsActive(s.procs, pid) || !ValidPriority(priority) then s
    else s.(procs := s.procs[pid := s.procs[pid].(priority := priority)])
  }

  /** The first half of sch_switch: the interrupted context is stored. */
  function SaveContext(s: Sched, rsp: nat): Sched
    requires |s.procs| == MAX_PROCESSES && s.current < MAX_PROCESSES
  {
    if s.current >= 0 then
      var p := s.procs[s.current];
      s.(procs := s.procs[s.current := p.(rsp := rsp, status := if p.status == RUNNING then READY else p.status)])
    else if s.current == KERNEL_PROC_PID then s.(kernelRsp := rsp)
    else s
  }

  /** How many steps after the cursor the cyclic scan meets a slot: 1 for the next one, 32 for the cursor itself. */
  function Distance(cursor: nat, pid: nat): (d: int)
    requires cursor < MAX_PROCESSES && pid < MAX_PROCESSES
    ensures 1 <= d <= MAX_PROCESSES
  {
    if pid > cursor then pid - cursor else pid - cursor + MAX_PROCESSES
  }

  function Cursor(s: Sched): nat {
    if s.current < 0 then 0 else s.current
  }

  /** r is the ready process the scan meets first, or the kernel when none is ready. */
  ghost predicate IsNextReady(procs: seq<ProcState>, cursor: nat, r: int)
    requires |procs| == MAX_PROCESSES && cursor < MAX_PROCESSES
  {
    if r == KERNEL_PROC_PID then forall q :: !IsReady(procs, q)
    else IsReady(procs, r) && forall q :: IsReady(procs, q) ==> Distance(cursor, r) <= Distance(cursor, q)
  }

  /** The scan of get_next_ready_pid, from `steps` slots after the cursor on. */
  function Scan(procs: seq<ProcState>, cursor: nat, steps: nat): (r: int)
    requires |procs| == MAX_PROCESSES && cursor < MAX_PROCESSES && 1 <= steps <= MAX_PROCESSES
    ensures r == KERNEL_PROC_PID || IsReady(procs, r)
    decreases MAX_PROCESSES - steps
  {
    var next := (cursor + steps) % MAX_PROCESSES;
    if IsReady(procs, next) then next
    else if steps == MAX_PROCESSES then KERNEL_PROC_PID
    else Scan(procs, cursor, steps + 1)
  }

  function GetQuantums(procs: seq<ProcState>, pid: nat): int
    requires |procs| == MAX_PROCESSES && pid < MAX_PROCESSES
  {
    MIN_PRIORITY - procs[pid].priority
  }

  function Dispatch(s: Sched, pid: nat): Sched
    requires |s.procs| == MAX_PROCESSES && pid < MAX_PROCESSES
  {
    s.(procs := s.procs[pid := s.procs[pid].(status := RUNNING)], current := pid)
  }

  /** sch_switch: the state after it. */
  function Switch(s: Sched, rsp: nat): Sched
    requires |s.procs| == MAX_PROCESSES && s.current < MAX_PROCESSES
  {
    var t := SaveContext(s, rsp);
    if IsReady(t.procs, t.forceNext) then
      Dispatch(t, t.forceNext).(forceNext := KILLED_PROC_PID, quantums := GetQuantums(t.procs, t.forceNext))
    else if !IsReady(t.procs, t.current) || t.quantums == 0 then
      var next := Scan(t.procs, Cursor(t), 1);
      if next == KERNEL_PROC_PID then t.(current := KERNEL_PROC_PID, quantums := 0)
      else Dispatch(t, next).(quantums := GetQuantums(t.procs, next))
    else
      Dispatch(t, t.current).(quantums := t.quantums - 1)
  }

  /** sch_switch: the stack pointer it hands back. */
  function Resumed(s: Sched): nat
    requires |s.procs| == MAX_PROCESSES && s.current < MAX_PROCESSES
  {
    if s.current < 0 then s.kernelRsp else s.procs[s.current].rsp
  }

  lemma {:induction false} WrapAround(first: nat, steps: nat)
    requires first < MAX_PROCESSES && steps < MAX_PROCESSES
    ensures ((first + steps) % MAX_PROCESSES + 1) % MAX_PROCESSES == (first + steps + 1) % MAX_PROCESSES
    ensures (first + steps + 1) % MAX_PROCESSES == first <==> steps + 1 == MAX_PROCESSES
  {
  }

  lemma {:induction false} DistanceIs(cursor: nat, steps: nat, q: nat)
    requires cursor < MAX_PROCESSES && 1 <= steps <= MAX_PROCESSES && q < MAX_PROCESSES
    ensures Distance(cursor, q) == steps <==> q == (cursor + steps) % MAX_PROCESSES
  {
  }

  lemma {:induction false} ScanFinds(procs: seq<ProcState>, cursor: nat, steps: nat)
    requires |procs| == MAX_PROCESSES && cursor < MAX_PROCESSES && 1 <= steps <= MAX_PROCESSES
    requires forall q: nat :: q < MAX_PROCESSES && Distance(cursor, q) < steps ==> !IsReady(procs, q)
    ensures IsNextReady(procs, cursor, Scan(procs, cursor, steps))
    decreases MAX_PROCESSES - steps
  {
    hide Distance;
    var next := (cursor + steps) % MAX_PROCESSES;
    forall q: nat | q < MAX_PROCESSES
      ensures Distance(cursor, q) == steps <==> q == next
    {
      DistanceIs(cursor, steps, q);
    }
    if !IsReady(procs, next) && steps < MAX_PROCESSES {
      ScanFinds(procs, cursor, steps + 1);
    }
  }

  // ----- runs -----

  datatype Event =
    | Created(slot: nat, priority: int, rsp: nat)
    | Killed(pid: int, status: int)
    | Blocked(pid: int)
    | Unblocked(pid: int)
    | Niced(pid: int, priority: int)
    | Ticked(rsp: nat)
    | Yielded(rsp: nat)

  /** What the callers guarantee: processes are created in unused slots, and stack pointers are never null. */
  predicate Allowed(s: Sched, e: Event)
    requires |s.procs| == MAX_PROCESSES
  {
    match e
    case Created(pid, _, rsp) => pid < MAX_PROCESSES && s.procs[pid].rsp == NULL && rsp != NULL
    case Ticked(rsp) => rsp != NULL
    case Yielded(rsp) => rsp != NULL
    case _ => true
  }

  function Next(s: Sched, e: Event): Sched
    requires Inv(s) && Allowed(s, e)
  {
    match e
    case Created(pid, priority, rsp) => Create(s, pid, priority, rsp)
    case Killed(pid, status) => Kill(s, pid, status)
    case Blocked(pid) => Block(s, pid)
    case Unblocked(pid) => Unblock(s, pid)
    case Niced(pid, priority) => SetPriority(s, pid, priority)
    case Ticked(rsp) => Switch(s, rsp)
    case Yielded(rsp) => Switch(s.(quantums := 0), rsp)
  }

  predicate IsSwitch(e: Event) {
    e.Ticked? || e.Yielded?
  }

  /** Only the current process can be RUNNING, it is never a dead one, and quantums stay in 0..39. */
  predicate Inv(s: Sched) {
    && |s.procs| == MAX_PROCESSES
    && KILLED_PROC_PID <= s.current < MAX_PROCESSES
    && 0 <= s.quantums <= MIN_PRIORITY - MAX_PRIORITY
    && (s.current >= 0 ==> IsActive(s.procs, s.current))
    && (forall p :: 0 <= p < MAX_PROCESSES ==> SlotOk(s.procs[p], p, s.current))
  }

  predicate SlotOk(proc: ProcState, pid: nat, current: int) {
    && ValidPriority(proc.priority)
    && (proc.status == RUNNING ==> pid == current)
    && (proc.status == KILLED ==> proc.rsp == NULL)
  }

  lemma {:induction false} SwitchInv(s: Sched, rsp: nat)
    requires Inv(s) && rsp != NULL
    ensures Inv(Switch(s, rsp))
  {
    var t := SaveContext(s, rsp);
    assert Inv(t) && forall p :: 0 <= p < MAX_PROCESSES ==> t.procs[p].status != RUNNING;
  }

  lemma {:induction false} NextInv(s: Sched, e: Event)
    requires Inv(s) && Allowed(s, e)
    ensures Inv(Next(s, e))
  {
    match e
    case Ticked(rsp) => SwitchInv(s, rsp);
    case Yielded(rsp) => SwitchInv(s.(quantums := 0), rsp);
    case _ =>
  }
}
