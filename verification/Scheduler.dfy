/** The scheduler's static state as an object, with each entry point proved to do what its
    specification on values says. */
module Scheduler {
  import opened SchedulerSpec
  import opened WaitQueueSpec

  class SchedulerState {
    var kernelRsp: nat
    const processesStates: array<ProcState>
    var currentRunningPid: int
    var forceNextPid: int
    var quantums: int

    /** The state as a value. */
    ghost function Model(): Sched
      reads this, processesStates
    {
      Sched(kernelRsp, processesStates[..], currentRunningPid, forceNextPid, quantums)
    }

    ghost predicate Valid()
      reads this, processesStates
    {
      Inv(Model())
    }

    constructor ()
      ensures Valid() && fresh(processesStates)
      ensures Model() == Initial()
    {
      kernelRsp := 0;
      processesStates := new ProcState[MAX_PROCESSES](_ => ProcState(0, 0, READY, NULL));
      currentRunningPid, forceNextPid, quantums := KERNEL_PROC_PID, KILLED_PROC_PID, 0;
      new;
      assert Model().procs == Initial().procs;
    }

    predicate Active(pid: int)
      requires processesStates.Length == MAX_PROCESSES
      reads processesStates
      ensures Active(pid) == IsActive(processesStates[..], pid)
    {
      ValidPid(pid) && processesStates[pid].rsp != NULL
    }

    predicate Ready(pid: int)
      requires processesStates.Length == MAX_PROCESSES
      reads processesStates
      ensures Ready(pid) == IsReady(processesStates[..], pid)
    {
      Active(pid) && processesStates[pid].status == READY
    }

    method OnProcessCreate(pid: nat, priority: int, rsp: nat)
      requires Valid() && pid < MAX_PROCESSES && rsp != NULL && !Active(pid)
      modifies this, processesStates
      ensures Valid() && Model() == Create(old(Model()), pid, priority, rsp)
    {
      ghost var s := Model();
      var p := priority;
      if !ValidPriority(p) {
        p := DEFAULT_PRIORITY;
      }
      if p <= REALTIME_PRIORITY {
        forceNextPid := pid;
      }
      processesStates[pid] := processesStates[pid].(priority := p);
      processesStates[pid] := processesStates[pid].(status := READY);
      processesStates[pid] := processesStates[pid].(rsp := rsp);
      NextInv(s, Created(pid, priority, rsp));
      assert Model().procs == Create(s, pid, priority, rsp).procs;
    }

    method OnProcessKilled(pid: int, status: int) returns (r: int)
      requires Valid()
      modifies this, processesStates
      ensures Valid() && Model() == Kill(old(Model()), pid, status)
      ensures r == if old(Active(pid)) then 0 else -1
    {
      ghost var s := Model();
      NextInv(s, Killed(pid, status));
      if !Active(pid) {
        return -1;
      }
      if processesStates[pid].status == KILLED {
        return 0;
      }
      processesStates[pid] := processesStates[pid].(status := KILLED);
      processesStates[pid] := processesStates[pid].(rsp := NULL);
      processesStates[pid] := processesStates[pid].(exitStatus := status);
      if currentRunningPid == pid {
        currentRunningPid := KILLED_PROC_PID;
      }
      r := 0;
      assert Model().procs == Kill(s, pid, status).procs;
    }

    method BlockPid(pid: int) returns (r: int)
      requires Valid()
      modifies this, processesStates
      ensures Valid() && Model() == Block(old(Model()), pid)
      ensures r == if old(Active(pid)) then 0 else -1
    {
      ghost var s := Model();
      NextInv(s, Blocked(pid));
      if !Active(pid) {
        return -1;
      }
      processesStates[pid] := processesStates[pid].(status := BLOCKED);
      if currentRunningPid == pid {
        quantums := 0;
      }
      r := 0;
      assert Model().procs == Block(s, pid).procs;
    }

    method UnblockPid(pid: int) returns (r: int)
      requires Valid()
      modifies this, processesStates
      ensures Valid() && Model() == Unblock(old(Model()), pid)
      ensures r == if old(Active(pid)) then 0 else -1
    {
      ghost var s := Model();
      NextInv(s, Unblocked(pid));
      if !Active(pid) {
        return -1;
      }
      if processesStates[pid].status == READY || processesStates[pid].status == RUNNING {
        return 0;
      }
      if processesStates[pid].priority <= REALTIME_PRIORITY {
        forceNextPid := pid;
      }
      processesStates[pid] := processesStates[pid].(status := READY);
      r := 0;
      assert Model().procs == Unblock(s, pid).procs;
    }

    /** queue_unblock_all on the elements of a queue: the recursion wakes the tail first. */
    method UnblockQueue(q: seq<int>)
      requires Valid()
      modifies this, processesStates
      ensures Valid() && Model() == UnblockAll(old(Model()), q)
      decreases |q|
    {
      if q != [] {
        UnblockQueue(q[1..]);
        var _ := UnblockPid(q[0]);
      }
    }

    method ChangePriority(pid: int, newPriority: int) returns (r: int)
      requires Valid()
      modifies processesStates
      ensures Valid() && Model() == SetPriority(old(Model()), pid, newPriority)
      ensures r == if old(Active(pid)) && ValidPriority(newPriority) then 0 else -1
      ensures r == 0 ==> processesStates[pid].priority == newPriority
    {
      ghost var s := Model();
      NextInv(s, Niced(pid, newPriority));
      if !Active(pid) {
        return -1;
      }
      if ValidPriority(newPriority) {
        processesStates[pid] := processesStates[pid].(priority := newPriority);
        assert Model().procs == SetPriority(s, pid, newPriority).procs;
        return 0;
      }
      r := -1;
    }

    /** The cyclic scan. */
    method GetNextReadyPid() returns (r: int)
      requires processesStates.Length == MAX_PROCESSES && currentRunningPid < MAX_PROCESSES
      ensures r == Scan(processesStates[..], Cursor(Model()), 1)
    {
      ghost var procs := processesStates[..];
      var first := if currentRunningPid < 0 then 0 else currentRunningPid;
      var next := first;
      ghost var steps := 0;
      var more := true;
      while more
        invariant 0 <= steps <= MAX_PROCESSES && next == (first + steps) % MAX_PROCESSES
        invariant more <==> steps < MAX_PROCESSES
        invariant more ==> Scan(procs, first, 1) == Scan(procs, first, steps + 1)
        invariant !more ==> Scan(procs, first, 1) == KERNEL_PROC_PID
        decreases MAX_PROCESSES - steps
      {
        WrapAround(first, steps);
        next := (next + 1) % MAX_PROCESSES;
        steps := steps + 1;
        if Ready(next) {
          return next;
        }
        more := next != first;
      }
      r := KERNEL_PROC_PID;
    }

    method SwitchContext(currentRsp: nat) returns (rsp: nat)
      requires Valid() && currentRsp != NULL
      modifies this, processesStates
      ensures Valid() && Model() == Switch(old(Model()), currentRsp)
      ensures rsp == Resumed(Model())
    {
      ghost var s := Model();
      SwitchInv(s, currentRsp);
      if currentRunningPid >= 0 {
        processesStates[currentRunningPid] := processesStates[currentRunningPid].(rsp := currentRsp);
        if processesStates[currentRunningPid].status == RUNNING {
          processesStates[currentRunningPid] := processesStates[currentRunningPid].(status := READY);
        }
      } else if currentRunningPid == KERNEL_PROC_PID {
        kernelRsp := currentRsp;
      }
      ghost var t := SaveContext(s, currentRsp);
      assert Model().procs == t.procs;

      if Ready(forceNextPid) {
        currentRunningPid := forceNextPid;
        forceNextPid := KILLED_PROC_PID;
        quantums := MIN_PRIORITY - processesStates[currentRunningPid].priority;
      } else if !Ready(currentRunningPid) || quantums == 0 {
        currentRunningPid := GetNextReadyPid();
        if currentRunningPid == KERNEL_PROC_PID {
          quantums := 0;
          return kernelRsp;
        }
        quantums := MIN_PRIORITY - processesStates[currentRunningPid].priority;
      } else {
        quantums := quantums - 1;
      }
      processesStates[currentRunningPid] := processesStates[currentRunningPid].(status := RUNNING);
      rsp := processesStates[currentRunningPid].rsp;
      assert Model().procs == Switch(s, currentRsp).procs;
    }

    /** sch_yield: a switch with no quantums left. */
    method YieldContext(currentRsp: nat) returns (rsp: nat)
      requires Valid() && currentRsp != NULL
      modifies this, processesStates
      ensures Valid() && Model() == Switch(old(Model()).(quantums := 0), currentRsp)
      ensures rsp == Resumed(Model())
    {
      quantums := 0;
      rsp := SwitchContext(currentRsp);
    }
  }
}
