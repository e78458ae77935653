/** The semaphore protocol and the scheduler together: the running process makes the calls, timer
    ticks and yields switch between processes. */
module SemaphoreRuns {
  import opened SchedulerSpec
  import opened SchedulerRuns
  import Protocol = SemaphoreSpec

  type World = Protocol.World

  /** A step of the protocol by the running process, a timer tick, or a yield. */
  datatype Move = Call(step: Protocol.Step) | Tick(rsp: nat) | Yield(rsp: nat)

  predicate CanMove(w: World, s: Sched, m: Move) {
    match m
    case Call(e) => Protocol.Enabled(w, e) && s.current == e.pid
    case Tick(rsp) => rsp != NULL
    case Yield(rsp) => rsp != NULL
  }

  /** What a move does to the scheduler: a failed wait blocks the caller, a post unblocks the head
      of the queue. */
  function Events(w: World, s: Sched, m: Move): (es: seq<Event>)
    requires CanMove(w, s, m)
    ensures |es| <= 1
  {
    match m
    case Tick(rsp) => [Ticked(rsp)]
    case Yield(rsp) => [Yielded(rsp)]
    case Call(e) =>
      var queue := w.sems[Protocol.Target(w, e)].queue;
      if e.Post? then if queue == [] then [] else [Unblocked(queue[0])]
      else if Protocol.Completes(w, e) then [] else [Blocked(e.pid)]
  }

  function NextWorld(w: World, s: Sched, m: Move): World
    requires CanMove(w, s, m)
  {
    if m.Call? then Protocol.Next(w, m.step) else w
  }

  function NextSched(w: World, s: Sched, m: Move): (t: Sched)
    requires CanMove(w, s, m) && Inv(s)
    ensures Inv(t)
  {
    var es := Events(w, s, m);
    if es == [] then s else
      NextInv(s, es[0]);
      Next(s, es[0])
  }

  /** The protocol's sleepers are exactly the scheduler's blocked processes, and whoever is in a
      semaphore call is alive. */
  ghost predicate Matches(w: World, s: Sched) {
    && |s.procs| == MAX_PROCESSES == |w.modes|
    && (forall p :: 0 <= p < MAX_PROCESSES ==>
          (w.modes[p].Asleep? <==> IsActive(s.procs, p) && s.procs[p].status == BLOCKED))
    && (forall p :: 0 <= p < MAX_PROCESSES && !w.modes[p].Active? ==> IsActive(s.procs, p))
  }

  ghost predicate JointInv(w: World, s: Sched) {
    Protocol.QueuesOk(w) && Inv(s) && Matches(w, s)
  }

  /** Every step of the protocol keeps it in step with the scheduler: who goes to the back of a
      queue is blocked, who leaves one is ready, and nobody else's status changes. */
  lemma {:induction false} StepMatches(w: World, s: Sched, e: Protocol.Step)
    requires JointInv(w, s) && CanMove(w, s, Call(e))
    ensures Matches(Protocol.Next(w, e), NextSched(w, s, Call(e)))
  {
    var k := Protocol.Target(w, e);
    assert Protocol.QueueOk(w, k);
    var queue := w.sems[k].queue;
    if e.Post? && queue != [] {
      assert queue[0] in queue;
    }
  }

  /** Switching changes nobody between blocked and not blocked. */
  lemma {:induction false} SwitchMatches(w: World, s: Sched, rsp: nat)
    requires Matches(w, s) && Inv(s) && rsp != NULL
    ensures Matches(w, Switch(s, rsp))
  {
    var t := SaveContext(s, rsp);
    assert Matches(w, t);
  }

  lemma {:induction false} StillInv(s: Sched)
    requires Inv(s)
    ensures Inv(s.(quantums := 0))
  {
  }

  lemma {:induction false} MoveKeepsInv(w: World, s: Sched, m: Move)
    requires JointInv(w, s) && CanMove(w, s, m)
    ensures JointInv(NextWorld(w, s, m), NextSched(w, s, m))
  {
    hide Switch, Inv, Protocol.QueuesOk, Protocol.Next;
    match m
    case Call(e) =>
      Protocol.NextQueuesOk(w, e);
      StepMatches(w, s, e);
    case Tick(rsp) => SwitchMatches(w, s, rsp);
    case Yield(rsp) =>
      StillInv(s);
      SwitchMatches(w, s.(quantums := 0), rsp);
  }

  // ----- runs -----

  ghost predicate JointRuns(w: World, s: Sched, ms: seq<Move>)
    requires Inv(s)
    decreases |ms|
  {
    ms == [] || (CanMove(w, s, ms[0]) && JointRuns(NextWorld(w, s, ms[0]), NextSched(w, s, ms[0]), ms[1..]))
  }

  ghost function AfterMoves(w: World, s: Sched, ms: seq<Move>): (r: (World, Sched))
    requires Inv(s) && JointRuns(w, s, ms)
    ensures Inv(r.1)
    decreases |ms|
  {
    if ms == [] then (w, s) else AfterMoves(NextWorld(w, s, ms[0]), NextSched(w, s, ms[0]), ms[1..])
  }

  /** What the scheduler sees of a run. */
  ghost function Trace(w: World, s: Sched, ms: seq<Move>): seq<Event>
    requires Inv(s) && JointRuns(w, s, ms)
    decreases |ms|
  {
    if ms == [] then [] else
      Events(w, s, ms[0]) + Trace(NextWorld(w, s, ms[0]), NextSched(w, s, ms[0]), ms[1..])
  }

  lemma {:induction false} RunKeepsInv(w: World, s: Sched, ms: seq<Move>)
    requires JointInv(w, s) && JointRuns(w, s, ms)
    ensures JointInv(AfterMoves(w, s, ms).0, AfterMoves(w, s, ms).1)
    decreases |ms|
  {
    if ms != [] {
      MoveKeepsInv(w, s, ms[0]);
      RunKeepsInv(NextWorld(w, s, ms[0]), NextSched(w, s, ms[0]), ms[1..]);
    }
  }

  lemma {:induction false} EventsAllowed(w: World, s: Sched, m: Move, rest: seq<Event>)
    requires Inv(s) && CanMove(w, s, m) && Runs(NextSched(w, s, m), rest)
    ensures Runs(s, Events(w, s, m) + rest) && After(s, Events(w, s, m) + rest) == After(NextSched(w, s, m), rest)
  {
    var es := Events(w, s, m);
    if es == [] {
      assert es + rest == rest;
    } else {
      assert (es + rest)[1..] == rest && (es + rest)[0] == es[0];
    }
  }

  /** A run of the two together is a run of the scheduler. */
  lemma {:induction false} TraceRuns(w: World, s: Sched, ms: seq<Move>)
    requires Inv(s) && JointRuns(w, s, ms)
    ensures Runs(s, Trace(w, s, ms)) && After(s, Trace(w, s, ms)) == AfterMoves(w, s, ms).1
    decreases |ms|
  {
    if ms != [] {
      var v, t := NextWorld(w, s, ms[0]), NextSched(w, s, ms[0]);
      TraceRuns(v, t, ms[1..]);
      EventsAllowed(w, s, ms[0], Trace(v, t, ms[1..]));
    }
  }

  /** After every run, a process woken on a semaphore is ready to be dispatched or already running. */
  lemma {:induction false} WokenIsDispatchable(w: World, s: Sched, ms: seq<Move>, p: nat)
    requires JointInv(w, s) && JointRuns(w, s, ms) && p < MAX_PROCESSES
    ensures var r := AfterMoves(w, s, ms);
      && |r.0.modes| == MAX_PROCESSES
      && (r.0.modes[p].Woken? ==> IsReady(r.1.procs, p) || (r.1.current == p && r.1.procs[p].status == RUNNING))
  {
    RunKeepsInv(w, s, ms);
    var r := AfterMoves(w, s, ms);
    assert SlotOk(r.1.procs[p], p, r.1.current);
  }

  /** p is not the running process in any state of the run. */
  ghost predicate NeverCurrent(w: World, s: Sched, ms: seq<Move>, p: nat)
    requires Inv(s) && JointRuns(w, s, ms)
    decreases |ms|
  {
    s.current != p
    && (ms == [] || NeverCurrent(NextWorld(w, s, ms[0]), NextSched(w, s, ms[0]), ms[1..], p))
  }

  lemma {:induction false} StaysWoken(w: World, s: Sched, m: Move, p: nat)
    requires JointInv(w, s) && CanMove(w, s, m) && p < MAX_PROCESSES
    requires w.modes[p].Woken? && s.current != p
    ensures NextWorld(w, s, m).modes[p].Woken?
  {
    if m.Call? {
      assert Protocol.QueueOk(w, Protocol.Target(w, m.step));
    }
  }

  lemma {:induction false} WokenIsReady(w: World, s: Sched, p: nat)
    requires JointInv(w, s) && p < MAX_PROCESSES && w.modes[p].Woken? && s.current != p
    ensures IsReady(s.procs, p)
  {
    assert SlotOk(s.procs[p], p, s.current);
  }

  lemma {:induction false} ReadyWhileWoken(w: World, s: Sched, ms: seq<Move>, p: nat)
    requires JointInv(w, s) && JointRuns(w, s, ms) && p < MAX_PROCESSES
    requires w.modes[p].Woken? && NeverCurrent(w, s, ms, p)
    ensures Runs(s, Trace(w, s, ms)) && ReadyThroughout(s, Trace(w, s, ms), p)
    decreases |ms|
  {
    TraceRuns(w, s, ms);
    WokenIsReady(w, s, p);
    if ms != [] {
      var v, t := NextWorld(w, s, ms[0]), NextSched(w, s, ms[0]);
      MoveKeepsInv(w, s, ms[0]);
      StaysWoken(w, s, ms[0], p);
      ReadyWhileWoken(v, t, ms[1..], p);
      var es, rest := Events(w, s, ms[0]), Trace(v, t, ms[1..]);
      if es == [] {
        assert es + rest == rest;
      } else {
        assert (es + rest)[1..] == rest && (es + rest)[0] == es[0];
      }
    }
  }

  /** A process woken on a semaphore is dispatched before its patience is used up, give or take
      40 * MAX_PROCESSES switches for each forced dispatch of another. */
  lemma {:induction false} WokenIsServed(w: World, s: Sched, ms: seq<Move>, p: nat)
    requires JointInv(w, s) && JointRuns(w, s, ms) && p < MAX_PROCESSES
    requires w.modes[p].Woken? && NeverCurrent(w, s, ms, p)
    ensures Runs(s, Trace(w, s, ms))
    ensures Switches(Trace(w, s, ms)) <= Patience(s, p) + 40 * MAX_PROCESSES * PutBacks(s, Trace(w, s, ms), p)
  {
    hide Trace, JointRuns, NeverCurrent, Switches, PutBacks, Runs, Patience, ReadyThroughout;
    ReadyWhileWoken(w, s, ms, p);
    WaitIsPaid(s, Trace(w, s, ms), p);
  }

  // ----- without real-time processes -----

  lemma {:induction false} TraceIsQuiet(w: World, s: Sched, ms: seq<Move>)
    requires Inv(s) && JointRuns(w, s, ms)
    ensures CallsOnly(Trace(w, s, ms))
    decreases |ms|
  {
    hide CanMove, NextWorld, NextSched;
    if ms != [] {
      EventsQuiet(w, s, ms[0]);
      TraceIsQuiet(NextWorld(w, s, ms[0]), NextSched(w, s, ms[0]), ms[1..]);
    }
  }

  lemma {:induction false} EventsQuiet(w: World, s: Sched, m: Move)
    requires CanMove(w, s, m)
    ensures CallsOnly(Events(w, s, m))
  {
  }

  /** Where no process has real-time priority, a woken process is dispatched before
      40 * MAX_PROCESSES switches, on every run of the two together. */
  lemma {:induction false} WokenIsServedInTime(w: World, s: Sched, ms: seq<Move>, p: nat)
    requires JointInv(w, s) && JointRuns(w, s, ms) && p < MAX_PROCESSES && NobodyUrgent(s)
    requires w.modes[p].Woken? && NeverCurrent(w, s, ms, p)
    ensures Switches(Trace(w, s, ms)) < 40 * MAX_PROCESSES
  {
    hide Trace, JointRuns, NeverCurrent, Switches, PutBacks, Runs, Patience, NobodyUrgent, CallsOnly;
    WokenIsServed(w, s, ms, p);
    TraceIsQuiet(w, s, ms);
    QuietRun(s, Trace(w, s, ms), p);
  }
}
