/** Blocking pipe calls and the scheduler together: the running process makes the passes, timer
    ticks and yields switch between processes. */
module PipeRuns {
  import opened SchedulerSpec
  import opened SchedulerRuns
  import opened WaitQueueSpec
  import Protocol = PipeSpec

  type System = Protocol.System

  /** A pass by the running process, a timer tick, or a yield. */
  datatype Move = Pass(step: Protocol.Step) | Tick(rsp: nat) | Yield(rsp: nat)

  predicate CanMove(w: System, s: Sched, m: Move) {
    match m
    case Pass(e) => Protocol.Enabled(w, e) && s.current == e.pid
    case Tick(rsp) => rsp != NULL
    case Yield(rsp) => rsp != NULL
  }

  /** The queue is unblocked from its tail to its head. */
  function Unblocks(q: seq<int>): seq<Event> {
    if q == [] then [] else Unblocks(q[1..]) + [Unblocked(q[0])]
  }

  /** The queue a pass empties: the writers' when it reads something, the readers' when it writes. */
  function Woken(w: System, e: Protocol.Step): seq<int>
    requires Protocol.Enabled(w, e)
  {
    if e.BeginRead? || (e.Continue? && w.calls[e.pid].Reads?) then
      if w.pipe.held == [] then [] else w.pipe.wrQ
    else if |w.pipe.held| == Protocol.BUFFER_MAX_SIZE then []
    else w.pipe.rdQ
  }

  predicate Sleeps(w: System, e: Protocol.Step)
    requires Protocol.Enabled(w, e)
  {
    Protocol.IsAsleep(Protocol.Next(w, e).calls[e.pid])
  }

  function Events(w: System, s: Sched, m: Move): seq<Event>
    requires CanMove(w, s, m)
  {
    match m
    case Tick(rsp) => [Ticked(rsp)]
    case Yield(rsp) => [Yielded(rsp)]
    case Pass(e) =>
      Unblocks(Woken(w, e)) + if Sleeps(w, e) then [Blocked(e.pid)] else []
  }

  lemma {:induction false} UnblocksRun(s: Sched, q: seq<int>)
    requires Inv(s)
    ensures Runs(s, Unblocks(q)) && After(s, Unblocks(q)) == UnblockAll(s, q)
  {
    if q != [] {
      UnblocksRun(s, q[1..]);
      OneEvent(After(s, Unblocks(q[1..])), Unblocked(q[0]));
      RunsAppend(s, Unblocks(q[1..]), [Unblocked(q[0])]);
    }
  }

  lemma {:induction false} OneEvent(s: Sched, e: Event)
    requires Inv(s) && Allowed(s, e)
    ensures Inv(Next(s, e)) && Runs(s, [e]) && After(s, [e]) == Next(s, e)
    ensures Runs(s, []) && After(s, []) == s
  {
    NextInv(s, e);
    assert [e][1..] == [];
    assert Runs(Next(s, e), []) && After(Next(s, e), []) == Next(s, e);
  }

  /** The scheduler after a move. */
  function NextSched(w: System, s: Sched, m: Move): (t: Sched)
    requires CanMove(w, s, m) && Inv(s)
  {
    match m
    case Tick(rsp) => Switch(s, rsp)
    case Yield(rsp) => Switch(s.(quantums := 0), rsp)
    case Pass(e) =>
      var t := UnblockAll(s, Woken(w, e));
      if Sleeps(w, e) then Block(t, e.pid) else t
  }

  /** It is where the move's events lead. */
  lemma {:induction false} EventsRun(w: System, s: Sched, m: Move)
    requires CanMove(w, s, m) && Inv(s)
    ensures Inv(NextSched(w, s, m)) && Runs(s, Events(w, s, m))
    ensures After(s, Events(w, s, m)) == NextSched(w, s, m)
  {
    hide Switch, UnblockAll, Block, Sleeps, Woken;
    match m
    case Tick(rsp) => OneEvent(s, Ticked(rsp));
    case Yield(rsp) => OneEvent(s, Yielded(rsp));
    case Pass(e) =>
      var us := Unblocks(Woken(w, e));
      UnblocksRun(s, Woken(w, e));
      OneEvent(After(s, us), Blocked(e.pid));
      RunsAppend(s, us, []);
      RunsAppend(s, us, [Blocked(e.pid)]);
  }

  function NextSystem(w: System, s: Sched, m: Move): System
    requires CanMove(w, s, m)
  {
    if m.Pass? then Protocol.Next(w, m.step) else w
  }

  /** The sleepers of the pipe are exactly the scheduler's blocked processes, and whoever is in a
      call is alive. */
  ghost predicate Matches(w: System, s: Sched) {
    && |s.procs| == MAX_PROCESSES == |w.calls|
    && forall p :: 0 <= p < MAX_PROCESSES ==> SlotMatches(w.calls[p], s.procs[p])
  }

  predicate SlotMatches(c: Protocol.Call, proc: ProcState) {
    && (Protocol.IsAsleep(c) <==> proc.rsp != NULL && proc.status == BLOCKED)
    && (!c.Idle? ==> proc.rsp != NULL)
  }

  ghost predicate JointInv(w: System, s: Sched) {
    Protocol.Inv(w) && Inv(s) && Matches(w, s)
  }

  /** What a pass does to the calls: the queue it empties is awake, and the caller is idle or asleep. */
  lemma {:induction false} CallsAfter(w: System, e: Protocol.Step)
    requires Protocol.Inv(w) && Protocol.Enabled(w, e)
    ensures var cs, q := Protocol.Next(w, e).calls, Woken(w, e);
      && |cs| == |w.calls| && (cs[e.pid].Idle? || Protocol.IsAsleep(cs[e.pid]))
      && (forall p :: p in q ==> 0 <= p < |w.calls| && Protocol.IsAsleep(w.calls[p]))
      && forall p :: 0 <= p < |w.calls| && p != e.pid ==>
           cs[p] == if p in q then Protocol.Wake(w.calls[p]) else w.calls[p]
  {
    assert Protocol.RequestOk(w.calls[e.pid]);
  }

  /** Every pass keeps the pipe in step with the scheduler. */
  lemma {:induction false} PassMatches(w: System, s: Sched, e: Protocol.Step)
    requires JointInv(w, s) && CanMove(w, s, Pass(e))
    ensures Matches(Protocol.Next(w, e), NextSched(w, s, Pass(e)))
  {
    hide Protocol.Next, Protocol.Inv, Woken, UnblockAll, Inv;
    var q := Woken(w, e);
    CallsAfter(w, e);
    CurrentActive(s, e.pid);
    UnblockAllWakes(s, q);
    forall p | 0 <= p < MAX_PROCESSES
      ensures SlotMatches(Protocol.Next(w, e).calls[p], NextSched(w, s, Pass(e)).procs[p])
    {
      assert SlotMatches(w.calls[p], s.procs[p]);
      if p == e.pid {
        assert p !in q;
      }
    }
  }

  lemma {:induction false} CurrentActive(s: Sched, p: nat)
    requires Inv(s) && s.current == p
    ensures |s.procs| == MAX_PROCESSES && IsActive(s.procs, p)
  {
  }

  /** Switching changes nobody between blocked and not blocked. */
  lemma {:induction false} SwitchMatches(w: System, s: Sched, rsp: nat)
    requires Matches(w, s) && Inv(s) && rsp != NULL
    ensures Matches(w, Switch(s, rsp))
  {
    var t := SaveContext(s, rsp);
    forall p | 0 <= p < MAX_PROCESSES
      ensures SlotMatches(w.calls[p], t.procs[p])
    {
      assert SlotMatches(w.calls[p], s.procs[p]);
    }
    assert Matches(w, t);
  }

  lemma {:induction false} StillInv(s: Sched)
    requires Inv(s)
    ensures Inv(s.(quantums := 0))
  {
  }

  lemma {:induction false} MoveKeepsInv(w: System, s: Sched, m: Move)
    requires JointInv(w, s) && CanMove(w, s, m)
    ensures JointInv(NextSystem(w, s, m), NextSched(w, s, m))
  {
    hide Switch, Inv, Protocol.Inv, Protocol.Next;
    EventsRun(w, s, m);
    match m
    case Pass(e) =>
      Protocol.NextInv(w, e);
      PassMatches(w, s, e);
    case Tick(rsp) => SwitchMatches(w, s, rsp);
    case Yield(rsp) =>
      StillInv(s);
      SwitchMatches(w, s.(quantums := 0), rsp);
  }

  // ----- runs -----

  ghost predicate JointRuns(w: System, s: Sched, ms: seq<Move>)
    requires Inv(s)
    decreases |ms|
  {
    ms == [] ||
    (CanMove(w, s, ms[0])
     && (EventsRun(w, s, ms[0]); JointRuns(NextSystem(w, s, ms[0]), NextSched(w, s, ms[0]), ms[1..])))
  }

  ghost function AfterMoves(w: System, s: Sched, ms: seq<Move>): (r: (System, Sched))
    requires Inv(s) && JointRuns(w, s, ms)
    ensures Inv(r.1)
    decreases |ms|
  {
    if ms == [] then (w, s) else
      EventsRun(w, s, ms[0]);
      AfterMoves(NextSystem(w, s, ms[0]), NextSched(w, s, ms[0]), ms[1..])
  }

  /** What the scheduler sees of a run. */
  ghost function Trace(w: System, s: Sched, ms: seq<Move>): seq<Event>
    requires Inv(s) && JointRuns(w, s, ms)
    decreases |ms|
  {
    if ms == [] then [] else
      EventsRun(w, s, ms[0]);
      Events(w, s, ms[0]) + Trace(NextSystem(w, s, ms[0]), NextSched(w, s, ms[0]), ms[1..])
  }

  /** A run of the two together is a run of the scheduler, and keeps them in step. */
  lemma {:induction false} TraceRuns(w: System, s: Sched, ms: seq<Move>)
    requires JointInv(w, s) && JointRuns(w, s, ms)
    ensures Runs(s, Trace(w, s, ms)) && After(s, Trace(w, s, ms)) == AfterMoves(w, s, ms).1
    ensures JointInv(AfterMoves(w, s, ms).0, AfterMoves(w, s, ms).1)
    decreases |ms|
  {
    hide CanMove, NextSystem, NextSched, Events, Inv, Protocol.Inv, Matches;
    if ms != [] {
      var v, t := NextSystem(w, s, ms[0]), NextSched(w, s, ms[0]);
      EventsRun(w, s, ms[0]);
      MoveKeepsInv(w, s, ms[0]);
      TraceRuns(v, t, ms[1..]);
      RunsAppend(s, Events(w, s, ms[0]), Trace(v, t, ms[1..]));
    }
  }

  /** Ready for another pass. */
  predicate IsAwake(w: System, p: nat) {
    p < |w.calls| && (w.calls[p].Reads? || w.calls[p].Writes?)
  }

  lemma {:induction false} AwakeIsReady(w: System, s: Sched, p: nat)
    requires JointInv(w, s) && IsAwake(w, p)
    ensures p < MAX_PROCESSES && (IsReady(s.procs, p) || (s.current == p && s.procs[p].status == RUNNING))
  {
    assert SlotOk(s.procs[p], p, s.current) && SlotMatches(w.calls[p], s.procs[p]);
  }

  /** After every run, a reader or writer that has been woken is ready to be dispatched or running. */
  lemma {:induction false} WokenIsDispatchable(w: System, s: Sched, ms: seq<Move>, p: nat)
    requires JointInv(w, s) && JointRuns(w, s, ms) && IsAwake(AfterMoves(w, s, ms).0, p)
    ensures var t := AfterMoves(w, s, ms).1;
      p < MAX_PROCESSES && (IsReady(t.procs, p) || (t.current == p && t.procs[p].status == RUNNING))
  {
    TraceRuns(w, s, ms);
    AwakeIsReady(AfterMoves(w, s, ms).0, AfterMoves(w, s, ms).1, p);
  }

  /** p is not the running process in any state of the run. */
  ghost predicate NeverCurrent(w: System, s: Sched, ms: seq<Move>, p: nat)
    requires Inv(s) && JointRuns(w, s, ms)
    decreases |ms|
  {
    s.current != p
    && (ms == [] ||
        (EventsRun(w, s, ms[0]);
         NeverCurrent(NextSystem(w, s, ms[0]), NextSched(w, s, ms[0]), ms[1..], p)))
  }

  lemma {:induction false} StaysAwake(w: System, s: Sched, m: Move, p: nat)
    requires JointInv(w, s) && CanMove(w, s, m) && IsAwake(w, p) && s.current != p
    ensures IsAwake(NextSystem(w, s, m), p)
  {
    if m.Pass? {
      CallsAfter(w, m.step);
    }
  }

  lemma {:induction false} UnblocksLeaveReady(s: Sched, q: seq<int>, p: nat)
    requires Inv(s) && p < MAX_PROCESSES && IsReady(s.procs, p)
    ensures Runs(s, Unblocks(q)) && ReadyThroughout(s, Unblocks(q), p) && IsReady(UnblockAll(s, q).procs, p)
  {
    hide UnblockAll;
    UnblocksRun(s, q);
    UnblockAllWakes(s, q);
    if q != [] {
      UnblocksRun(s, q[1..]);
      UnblocksLeaveReady(s, q[1..], p);
      var t, e := UnblockAll(s, q[1..]), Unblocked(q[0]);
      OneEvent(t, e);
      UnblockLeavesReady(t, q[0], p);
      OneReady(t, e, p);
      WaitsAppend(s, Unblocks(q[1..]), [e], p);
    }
  }

  lemma {:induction false} UnblockLeavesReady(s: Sched, q: int, p: nat)
    requires Inv(s) && p < MAX_PROCESSES && IsReady(s.procs, p)
    ensures IsReady(Unblock(s, q).procs, p)
  {
  }

  lemma {:induction false} OneReady(s: Sched, e: Event, p: nat)
    requires Inv(s) && Allowed(s, e) && p < MAX_PROCESSES && IsReady(s.procs, p)
    requires Inv(Next(s, e)) && IsReady(Next(s, e).procs, p)
    ensures Runs(s, [e]) && ReadyThroughout(s, [e], p)
    ensures Runs(s, []) && ReadyThroughout(s, [], p)
  {
    OneEvent(s, e);
    assert [e][1..] == [];
    assert Runs(Next(s, e), []) && ReadyThroughout(Next(s, e), [], p);
  }

  /** A process that is ready before and after a move is ready at each of its events. */
  lemma {:induction false} ReadyDuringMove(w: System, s: Sched, m: Move, p: nat)
    requires CanMove(w, s, m) && Inv(s) && p < MAX_PROCESSES && IsReady(s.procs, p)
    requires IsReady(NextSched(w, s, m).procs, p)
    ensures Runs(s, Events(w, s, m)) && ReadyThroughout(s, Events(w, s, m), p)
  {
    hide Switch, UnblockAll, Block, Sleeps, Woken, IsReady, ReadyThroughout;
    EventsRun(w, s, m);
    match m
    case Tick(rsp) =>
      OneEvent(s, Ticked(rsp));
      OneReady(s, Ticked(rsp), p);
    case Yield(rsp) =>
      OneEvent(s, Yielded(rsp));
      OneReady(s, Yielded(rsp), p);
    case Pass(e) =>
      var q := Woken(w, e);
      var t := UnblockAll(s, q);
      UnblocksRun(s, q);
      UnblocksLeaveReady(s, q, p);
      if Sleeps(w, e) {
        OneEvent(t, Blocked(e.pid));
        OneReady(t, Blocked(e.pid), p);
        WaitsAppend(s, Unblocks(q), [Blocked(e.pid)], p);
      } else {
        assert Unblocks(q) + [] == Unblocks(q);
      }
  }

  lemma {:induction false} ReadyWhileAwake(w: System, s: Sched, ms: seq<Move>, p: nat)
    requires JointInv(w, s) && JointRuns(w, s, ms) && IsAwake(w, p) && NeverCurrent(w, s, ms, p)
    ensures p < MAX_PROCESSES && Runs(s, Trace(w, s, ms)) && ReadyThroughout(s, Trace(w, s, ms), p)
    decreases |ms|
  {
    hide CanMove, NextSystem, NextSched, Events, Protocol.Inv, IsAwake, IsReady;
    TraceRuns(w, s, ms);
    AwakeIsReady(w, s, p);
    if ms != [] {
      var v, t := NextSystem(w, s, ms[0]), NextSched(w, s, ms[0]);
      EventsRun(w, s, ms[0]);
      MoveKeepsInv(w, s, ms[0]);
      StaysAwake(w, s, ms[0], p);
      ReadyWhileAwake(v, t, ms[1..], p);
      AwakeIsReady(v, t, p);
      ReadyDuringMove(w, s, ms[0], p);
      WaitsAppend(s, Events(w, s, ms[0]), Trace(v, t, ms[1..]), p);
    }
  }

  /** A woken reader or writer is dispatched before its patience is used up, give or take
      40 * MAX_PROCESSES switches for each forced dispatch of another. */
  lemma {:induction false} WokenIsServed(w: System, s: Sched, ms: seq<Move>, p: nat)
    requires JointInv(w, s) && JointRuns(w, s, ms) && IsAwake(w, p) && NeverCurrent(w, s, ms, p)
    ensures p < MAX_PROCESSES && Runs(s, Trace(w, s, ms))
    ensures Switches(Trace(w, s, ms)) <= Patience(s, p) + 40 * MAX_PROCESSES * PutBacks(s, Trace(w, s, ms), p)
  {
    hide Trace, JointRuns, NeverCurrent, Switches, PutBacks, Runs, Patience, ReadyThroughout;
    ReadyWhileAwake(w, s, ms, p);
    WaitIsPaid(s, Trace(w, s, ms), p);
  }

  lemma {:induction false} TraceIsQuiet(w: System, s: Sched, ms: seq<Move>)
    requires Inv(s) && JointRuns(w, s, ms)
    ensures CallsOnly(Trace(w, s, ms))
    decreases |ms|
  {
    hide CanMove, NextSystem, NextSched;
    if ms != [] {
      EventsRun(w, s, ms[0]);
      EventsQuiet(w, s, ms[0]);
      TraceIsQuiet(NextSystem(w, s, ms[0]), NextSched(w, s, ms[0]), ms[1..]);
    }
  }

  lemma {:induction false} EventsQuiet(w: System, s: Sched, m: Move)
    requires CanMove(w, s, m)
    ensures CallsOnly(Events(w, s, m))
  {
    if m.Pass? {
      UnblocksQuiet(Woken(w, m.step));
    }
  }

  lemma {:induction false} UnblocksQuiet(q: seq<int>)
    ensures CallsOnly(Unblocks(q))
  {
    if q != [] {
      UnblocksQuiet(q[1..]);
    }
  }

  /** Where no process has real-time priority, a woken reader or writer is dispatched before
      40 * MAX_PROCESSES switches, on every run of the two together. */
  lemma {:induction false} WokenIsServedInTime(w: System, s: Sched, ms: seq<Move>, p: nat)
    requires JointInv(w, s) && JointRuns(w, s, ms) && IsAwake(w, p) && NeverCurrent(w, s, ms, p) && NobodyUrgent(s)
    ensures Switches(Trace(w, s, ms)) < 40 * MAX_PROCESSES
  {
    hide Trace, JointRuns, NeverCurrent, Switches, PutBacks, Runs, Patience, NobodyUrgent, CallsOnly;
    WokenIsServed(w, s, ms, p);
    TraceIsQuiet(w, s, ms);
    QuietRun(s, Trace(w, s, ms), p);
  }
}
