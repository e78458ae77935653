/** The synchronised increments of the sync test: workers that share one named semaphore and
    one counter. A step is one system call, or one access to the counter. */
module SyncWorkers {
  import opened SemaphoreSpec
  import opened Sums
  import opened Words

  const MAX_WORKERS := 255   // linked_processes is a uint8_t

  /** Where a worker is; slow_inc yields between its read and its write, and keeps what it read in
      an int of 32 bits. */
  datatype Pc = Opening | Waiting | Reading | Writing(aux: int) | Posting | Closing | Done | Refused

  /** Whose step comes next, and whether a slot and memory are to be had should it need them. */
  datatype Turn = Turn(p: nat, granted: bool)

  datatype Worker = Worker(pc: Pc, left: nat, inc: int)

  /** The slot of the shared name, in world.sems[0] while used, its links, and the counter. */
  datatype Sync = Sync(used: bool, linked: nat, world: World, workers: seq<Worker>, counter: int)

  predicate Shaped(t: Sync) {
    |t.world.sems| == 1 && |t.world.modes| == |t.workers| <= MAX_WORKERS
  }

  /** All about to open, each with at least one increment to make. */
  predicate IsQuiet(t: Sync) {
    && Shaped(t) && !t.used && t.linked == 0 && t.world.sems[0] == Sem(0, [])
    && forall p :: 0 <= p < |t.workers| ==>
         t.workers[p].pc == Opening && t.workers[p].left > 0 && t.world.modes[p] == Active
  }

  predicate IsFinished(w: Worker) {
    w.pc == Done || w.pc == Refused
  }

  predicate CanStep(t: Sync, p: nat)
    requires Shaped(t)
  {
    p < |t.workers| && !IsFinished(t.workers[p]) && !t.world.modes[p].Asleep?
  }

  function At(t: Sync, p: nat, pc: Pc): Sync
    requires p < |t.workers|
  {
    t.(workers := t.workers[p := t.workers[p].(pc := pc)])
  }

  function Opened(t: Sync): (u: Sync)
    requires Shaped(t)
    ensures Shaped(u) && u.workers == t.workers
  {
    if t.used then t.(linked := (t.linked + 1) % 256)
    else t.(used := true, linked := 1, world := t.world.(sems := [Sem(1, [])]))
  }

  /** Freeing the slot wakes everyone queued on it. */
  function Closed(t: Sync): (u: Sync)
    requires Shaped(t)
    ensures Shaped(u) && u.workers == t.workers
  {
    if !t.used then t
    else if t.linked == 1 then
      t.(used := false, linked := 0,
         world := World([Sem(t.world.sems[0].value, [])],
                        seq(|t.workers|, i requires 0 <= i < |t.workers| =>
                          if t.world.modes[i].Asleep? then Woken(0) else t.world.modes[i])))
    else t.(linked := (t.linked + 255) % 256)
  }

  function WaitCall(t: Sync, p: nat): Step
    requires Shaped(t) && CanStep(t, p)
  {
    if t.world.modes[p].Woken? then Resume(p, true) else Wait(p, 0, true)
  }

  predicate ModeOk(t: Sync, p: nat)
    requires Shaped(t) && p < |t.workers|
  {
    !t.world.modes[p].Active? ==> t.workers[p].pc == Waiting && t.world.modes[p].sem == 0
  }

  /** Opening fails, and the worker gives up, only where the slot has to be made. A wait or post on a
      slot not in use fails, and the worker does not look at the answer. */
  function NextSync(t: Sync, p: nat, granted: bool): (u: Sync)
    requires Shaped(t) && CanStep(t, p) && ModeOk(t, p)
    ensures Shaped(u) && |u.workers| == |t.workers|
  {
    var w := t.workers[p];
    match w.pc
    case Opening => if t.used || granted then At(Opened(t), p, Waiting) else At(t, p, Refused)
    case Waiting =>
      if !t.used then At(t, p, Reading)
      else
        var u := t.(world := Next(t.world, WaitCall(t, p)));
        if Completes(t.world, WaitCall(t, p)) then At(u, p, Reading) else u
    case Reading => At(t, p, Writing(Int32(t.counter)))
    case Writing(aux) =>
      t.(counter := Int32(aux + w.inc),
         workers := t.workers[p := w.(pc := Posting, left := if w.left == 0 then 0 else w.left - 1)])
    case Posting =>
      var u := if t.used then t.(world := Next(t.world, Post(p, 0))) else t;
      At(u, p, if w.left == 0 then Closing else Waiting)
    case Closing => At(Closed(t), p, Done)
  }

  predicate IsMember(w: Worker) {
    w.pc != Opening && !IsFinished(w)
  }

  predicate IsInside(w: Worker) {
    w.pc.Reading? || w.pc.Writing? || w.pc.Posting?
  }

  ghost function Members(ws: seq<Worker>): set<nat> {
    set p: nat | p < |ws| && IsMember(ws[p])
  }

  ghost function Inside(ws: seq<Worker>): set<nat> {
    set p: nat | p < |ws| && IsInside(ws[p])
  }

  predicate WorkerOk(t: Sync, p: nat)
    requires Shaped(t) && p < |t.workers|
  {
    var w := t.workers[p];
    && (w.pc.Closing? || w.pc.Done? ==> w.left == 0)
    && (w.left == 0 ==> w.pc.Closing? || w.pc.Done? || w.pc.Posting?)
    && (w.pc.Writing? ==> w.pc.aux == Int32(t.counter))
  }

  /** Links count the workers between open and close, the slot is in use exactly while there are
      any, and its one unit is on offer or with the one worker between wait and post. */
  ghost predicate SyncInv(t: Sync) {
    && Shaped(t) && Inv(t.world)
    && (forall p: nat :: p < |t.workers| ==> ModeOk(t, p) && WorkerOk(t, p))
    && t.linked == |Members(t.workers)| && (t.used <==> t.linked > 0)
    && (t.used ==> t.world.sems[0].value + |Inside(t.workers)| == 1)
  }

  lemma {:induction false} MembersMove(ws: seq<Worker>, p: nat, w: Worker)
    requires p < |ws|
    ensures |Members(ws[p := w])| == |Members(ws)| + (if IsMember(w) then 1 else 0) - (if IsMember(ws[p]) then 1 else 0)
  {
    hide IsMember;
    OneChanged(Members(ws), Members(ws[p := w]), p);
  }

  lemma {:induction false} InsideMove(ws: seq<Worker>, p: nat, w: Worker)
    requires p < |ws|
    ensures |Inside(ws[p := w])| == |Inside(ws)| + (if IsInside(w) then 1 else 0) - (if IsInside(ws[p]) then 1 else 0)
  {
    hide IsInside;
    OneChanged(Inside(ws), Inside(ws[p := w]), p);
  }

  lemma {:induction false} SetsMove(ws: seq<Worker>, p: nat, w: Worker)
    requires p < |ws|
    ensures |Members(ws[p := w])| == |Members(ws)| + (if IsMember(w) then 1 else 0) - (if IsMember(ws[p]) then 1 else 0)
    ensures |Inside(ws[p := w])| == |Inside(ws)| + (if IsInside(w) then 1 else 0) - (if IsInside(ws[p]) then 1 else 0)
  {
    MembersMove(ws, p, w);
    InsideMove(ws, p, w);
  }

  lemma {:induction false} Bounded(hs: set<nat>, n: nat)
    requires forall p :: p in hs ==> p < n
    ensures |hs| <= n
  {
    if n > 0 {
      Bounded(hs - {n - 1}, n - 1);
      assert hs <= hs - {n - 1} + {n - 1};
      assert n - 1 in hs ==> hs == hs - {n - 1} + {n - 1};
      assert n - 1 !in hs ==> hs == hs - {n - 1};
    }
  }

  lemma {:induction false} AMember(t: Sync, p: nat)
    requires SyncInv(t) && p < |t.workers| && IsMember(t.workers[p])
    ensures t.used && t.linked >= 1
    ensures IsInside(t.workers[p]) ==> t.world.sems[0].value == 0
  {
    AtLeastTwo(Members(t.workers), p, p);
    if IsInside(t.workers[p]) {
      AtLeastTwo(Inside(t.workers), p, p);
    }
  }

  /** Mutual exclusion: at most one worker is between its wait and its post. */
  lemma {:induction false} OneInside(t: Sync, p: nat, q: nat)
    requires SyncInv(t) && p < |t.workers| && q < |t.workers|
    requires IsInside(t.workers[p]) && IsInside(t.workers[q])
    ensures p == q
  {
    AMember(t, p);
    AtLeastTwo(Inside(t.workers), p, q);
  }

  /** The close that frees the slot finds nobody queued on it and nobody on the way back from it. */
  lemma {:induction false} FreedWithoutWaiters(t: Sync, p: nat)
    requires SyncInv(t) && p < |t.workers| && t.workers[p].pc == Closing && t.linked == 1
    ensures t.world.sems[0].queue == []
    ensures forall q :: 0 <= q < |t.workers| ==> t.world.modes[q] == Active
    ensures forall q :: 0 <= q < |t.workers| && q != p ==> !IsMember(t.workers[q])
  {
    forall q: nat | q < |t.workers|
      ensures q != p ==> !IsMember(t.workers[q])
      ensures t.world.modes[q] == Active
    {
      assert WorkerOk(t, q);
      if IsMember(t.workers[q]) {
        AtLeastTwo(Members(t.workers), p, q);
      }
    }
    assert SemOk(t.world, 0);
    EmptyOrNot(t.world.sems[0].queue);
  }

  lemma {:induction false} QuietInv(t: Sync)
    requires IsQuiet(t)
    ensures SyncInv(t)
  {
    assert Members(t.workers) == {};
    assert SemOk(t.world, 0);
  }

  /** Where the test starts. */
  ghost predicate IsStart(t: Sync)
    ensures IsStart(t) ==> SyncInv(t)
  {
    IsQuiet(t) && (QuietInv(t); true)
  }

  lemma {:induction false} OpenKeepsInv(t: Sync, p: nat, granted: bool)
    requires SyncInv(t) && CanStep(t, p) && t.workers[p].pc == Opening
    ensures SyncInv(NextSync(t, p, granted))
  {
    var u := NextSync(t, p, granted);
    assert WorkerOk(t, p);
    SetsMove(t.workers, p, u.workers[p]);
    Bounded(Members(u.workers), |t.workers|);
    forall q: nat | q < |t.workers|
      ensures ModeOk(u, q) && WorkerOk(u, q)
    {
      assert WorkerOk(t, q);
    }
    assert SemOk(t.world, 0);
    if !t.used {
      assert Members(t.workers) == {};
      assert forall q: nat :: q < |t.workers| && q != p ==> q !in Members(t.workers);
      forall q: nat | q < |t.workers|
        ensures t.world.modes[q].Active?
      {
        assert q !in Members(t.workers) && WorkerOk(t, q);
      }
      assert Inside(u.workers) == {};
      assert SemOk(u.world, 0);
    }
  }

  lemma {:induction false} CloseKeepsInv(t: Sync, p: nat, granted: bool)
    requires SyncInv(t) && CanStep(t, p) && t.workers[p].pc == Closing
    ensures SyncInv(NextSync(t, p, granted))
  {
    var u := NextSync(t, p, granted);
    assert WorkerOk(t, p);
    SetsMove(t.workers, p, u.workers[p]);
    Bounded(Members(t.workers), |t.workers|);
    AMember(t, p);
    if t.linked == 1 {
      FreedWithoutWaiters(t, p);
      assert u.world.modes == t.world.modes;
      assert u.world.sems == t.world.sems;
    }
    forall q: nat | q < |t.workers|
      ensures ModeOk(u, q) && WorkerOk(u, q)
    {
      assert WorkerOk(t, q);
    }
  }

  /** The steps between open and close. */
  lemma {:induction false} InnerKeepsInv(t: Sync, p: nat, granted: bool)
    requires SyncInv(t) && CanStep(t, p) && t.workers[p].pc != Opening && t.workers[p].pc != Closing
    ensures SyncInv(NextSync(t, p, granted))
  {
    assert WorkerOk(t, p);
    var u := NextSync(t, p, granted);
    AMember(t, p);
    if t.workers[p].pc == Waiting {
      NextInv(t.world, WaitCall(t, p));
    } else if t.workers[p].pc == Posting {
      NextInv(t.world, Post(p, 0));
    }
    SetsMove(t.workers, p, u.workers[p]);
    assert t.workers[p := t.workers[p]] == t.workers;
    forall q: nat | q < |t.workers|
      ensures ModeOk(u, q) && WorkerOk(u, q)
    {
      InnerKeepsWorker(t, p, q, granted);
    }
  }

  lemma {:induction false} InnerKeepsWorker(t: Sync, p: nat, q: nat, granted: bool)
    requires SyncInv(t) && CanStep(t, p) && t.workers[p].pc != Opening && t.workers[p].pc != Closing
    requires q < |t.workers|
    requires ModeOk(t, p)
    ensures ModeOk(NextSync(t, p, granted), q) && WorkerOk(NextSync(t, p, granted), q)
  {
    assert WorkerOk(t, q) && WorkerOk(t, p);
    AMember(t, p);
    if t.workers[p].pc == Posting {
      assert SemOk(t.world, 0);
      var queue := t.world.sems[0].queue;
      if queue != [] {
        assert queue[0] in queue;
        assert WorkerOk(t, queue[0]);
      }
    }
    if t.workers[p].pc.Writing? && t.workers[q].pc.Writing? {
      OneInside(t, p, q);
    }
  }

  lemma {:induction false} StepKeepsInv(t: Sync, p: nat, granted: bool)
    requires SyncInv(t) && CanStep(t, p)
    ensures ModeOk(t, p) && SyncInv(NextSync(t, p, granted))
  {
    assert WorkerOk(t, p);
    match t.workers[p].pc
    case Opening => OpenKeepsInv(t, p, granted);
    case Closing => CloseKeepsInv(t, p, granted);
    case _ => InnerKeepsInv(t, p, granted);
  }

  /** While someone has not finished, someone can step. */
  lemma {:induction false} NoDeadlock(t: Sync, p: nat)
    requires SyncInv(t) && p < |t.workers| && !IsFinished(t.workers[p])
    ensures exists q: nat :: CanStep(t, q)
  {
    assert WorkerOk(t, p);
    if !CanStep(t, p) {
      AMember(t, p);
      if t.world.sems[0].value > 0 {
        NoLostWakeup(t.world, 0, p);
        var q: nat :| q < |t.world.modes| && t.world.modes[q] == Woken(0);
        assert WorkerOk(t, q) && CanStep(t, q);
      } else {
        assert Inside(t.workers) != {};
        var q :| q in Inside(t.workers);
        assert WorkerOk(t, q) && CanStep(t, q);
      }
    }
  }

  // ----- runs -----

  /** What each worker has still to add. */
  function Owed(ws: seq<Worker>): (os: seq<int>)
    ensures |os| == |ws| && forall i :: 0 <= i < |ws| ==> os[i] == ws[i].left * ws[i].inc
  {
    seq(|ws|, i requires 0 <= i < |ws| => ws[i].left * ws[i].inc)
  }

  lemma {:induction false} OneLess(left: nat, inc: int)
    requires left > 0
    ensures (left - 1) * inc == left * inc - inc
  {
  }

  /** Nothing is lost between the read and the write: what is in the counter and what is still
      owed always add up to the same, modulo the width of the local copy. */
  lemma {:induction false} StepConserves(t: Sync, p: nat, granted: bool)
    requires SyncInv(t) && CanStep(t, p) && ModeOk(t, p)
    ensures var u := NextSync(t, p, granted);
      && Int32(u.counter + Sum(Owed(u.workers))) == Int32(t.counter + Sum(Owed(t.workers)))
      && (Int32(u.counter) == u.counter || NothingWritten(t, u)) && Outsiders(t, u)
  {
    hide Int32, Sum;
    var u := NextSync(t, p, granted);
    var was, now := Owed(t.workers), Owed(u.workers);
    assert WorkerOk(t, p);
    if t.workers[p].pc.Writing? {
      var inc := t.workers[p].inc;
      OneLess(t.workers[p].left, inc);
      SumUpdate(was, p, now[p]);
      assert now == was[p := now[p]];
      Int32Sum(t.counter, inc);
      Int32Sum(t.counter + inc, Sum(now));
      Int32Sum(t.counter + inc, 0);
    } else {
      assert now == was;
    }
  }

  /** No increment was made between t and u. */
  ghost predicate NothingWritten(t: Sync, u: Sync) {
    && u.counter == t.counter && |u.workers| == |t.workers|
    && forall p :: 0 <= p < |t.workers| ==> u.workers[p].left == t.workers[p].left
  }

  function StepsLeft(w: Worker): int {
    match w.pc
    case Opening => 4 * w.left + 2
    case Waiting => 4 * w.left + 1
    case Reading => 4 * w.left
    case Writing(_) => 4 * w.left - 1
    case Posting => 4 * w.left + 2
    case Closing => 1
    case Done | Refused => 0
  }

  /** A worker's remaining steps, and the wake-ups and retries they may take. */
  function Load(w: Worker, m: Mode): int {
    3 * StepsLeft(w) + ModeWeight(m)
  }

  function Weights(t: Sync): (ws: seq<int>)
    requires Shaped(t)
    ensures |ws| == |t.workers| && forall i :: 0 <= i < |ws| ==> ws[i] == Load(t.workers[i], t.world.modes[i])
  {
    seq(|t.workers|, i requires 0 <= i < |t.workers| => Load(t.workers[i], t.world.modes[i]))
  }

  /** A post moves the caller on and the head of the queue up. */
  lemma {:induction false} PostForm(t: Sync, p: nat, granted: bool)
    requires SyncInv(t) && CanStep(t, p) && ModeOk(t, p) && t.workers[p].pc == Posting
    ensures var u, q := NextSync(t, p, granted), t.world.sems[0].queue;
      && u.workers == t.workers[p := u.workers[p]] && StepsLeft(u.workers[p]) < StepsLeft(t.workers[p])
      && (q != [] ==> q[0] < |t.workers| && q[0] != p && t.world.modes[q[0]] == Asleep(0))
      && u.world.modes == (if q == [] then t.world.modes else t.world.modes[q[0] := Woken(0)])
  {
    AMember(t, p);
    assert SemOk(t.world, 0);
    var queue := t.world.sems[0].queue;
    assert queue != [] ==> queue[0] in queue;
  }

  /** Any other step changes the caller alone. */
  lemma {:induction false} OtherForm(t: Sync, p: nat, granted: bool)
    requires SyncInv(t) && CanStep(t, p) && ModeOk(t, p) && t.workers[p].pc != Posting
    ensures var u := NextSync(t, p, granted);
      && u.workers == t.workers[p := u.workers[p]] && u.world.modes == t.world.modes[p := u.world.modes[p]]
      && Load(u.workers[p], u.world.modes[p]) < Load(t.workers[p], t.world.modes[p])
  {
    assert WorkerOk(t, p);
    if IsMember(t.workers[p]) {
      AMember(t, p);
    }
    if t.workers[p].pc == Closing && t.linked == 1 {
      FreedWithoutWaiters(t, p);
    }
  }

  lemma {:induction false} StepDecreases(t: Sync, p: nat, granted: bool)
    requires SyncInv(t) && CanStep(t, p) && ModeOk(t, p)
    ensures Sum(Weights(NextSync(t, p, granted))) < Sum(Weights(t))
  {
    hide NextSync, StepsLeft, Sum, ModeOk, Inv;
    var was, now := Weights(t), Weights(NextSync(t, p, granted));
    var queue := t.world.sems[0].queue;
    if t.workers[p].pc != Posting {
      OtherForm(t, p, granted);
    } else {
      PostForm(t, p, granted);
    }
    if t.workers[p].pc != Posting || queue == [] {
      SumUpdate(was, p, now[p]);
      assert now == was[p := now[p]];
    } else {
      SumUpdateTwo(was, p, now[p], queue[0], now[queue[0]]);
      assert now == was[p := now[p]][queue[0] := now[queue[0]]];
    }
  }

  ghost predicate SyncRuns(t: Sync, ps: seq<Turn>)
    requires SyncInv(t)
    decreases |ps|
  {
    ps == []
    || (CanStep(t, ps[0].p)
        && (StepKeepsInv(t, ps[0].p, ps[0].granted); SyncRuns(NextSync(t, ps[0].p, ps[0].granted), ps[1..])))
  }

  ghost function AfterSync(t: Sync, ps: seq<Turn>): (u: Sync)
    requires SyncInv(t) && SyncRuns(t, ps)
    ensures SyncInv(u) && |u.workers| == |t.workers|
    decreases |ps|
  {
    if ps == [] then t
    else StepKeepsInv(t, ps[0].p, ps[0].granted); AfterSync(NextSync(t, ps[0].p, ps[0].granted), ps[1..])
  }

  /** On every run, at most one worker is between its wait and its post. */
  lemma {:induction false} NeverTwoInside(t: Sync, ps: seq<Turn>, p: nat, q: nat)
    requires IsStart(t) && SyncRuns(t, ps) && p < q < |t.workers|
    ensures var u := AfterSync(t, ps); !(IsInside(u.workers[p]) && IsInside(u.workers[q]))
  {
    var u := AfterSync(t, ps);
    if IsInside(u.workers[p]) && IsInside(u.workers[q]) {
      OneInside(u, p, q);
    }
  }

  predicate IsOutside(w: Worker) {
    w.pc == Opening || w.pc == Refused
  }

  /** From t to u, whoever is not in yet has made no increment, and the counter waits for the first in. */
  ghost predicate Outsiders(t: Sync, u: Sync) {
    && |u.workers| == |t.workers|
    && (forall p :: 0 <= p < |t.workers| ==>
          u.workers[p].inc == t.workers[p].inc
          && (IsOutside(u.workers[p]) ==> IsOutside(t.workers[p]) && u.workers[p].left == t.workers[p].left))
    && ((forall p :: 0 <= p < |u.workers| ==> IsOutside(u.workers[p])) ==> u.counter == t.counter)
  }

  lemma {:induction false} RunConserves(t: Sync, ps: seq<Turn>)
    requires SyncInv(t) && SyncRuns(t, ps)
    ensures var u := AfterSync(t, ps);
      && Int32(u.counter + Sum(Owed(u.workers))) == Int32(t.counter + Sum(Owed(t.workers)))
      && (Int32(u.counter) == u.counter || NothingWritten(t, u)) && Outsiders(t, u)
    ensures |ps| + Sum(Weights(AfterSync(t, ps))) <= Sum(Weights(t))
    decreases |ps|
  {
    hide Int32, Sum, NextSync, Inv, CanStep;
    if ps != [] {
      var p, granted := ps[0].p, ps[0].granted;
      StepKeepsInv(t, p, granted);
      StepConserves(t, p, granted);
      StepDecreases(t, p, granted);
      RunConserves(NextSync(t, p, granted), ps[1..]);
    }
  }

  lemma {:induction false} WeightsPositive(t: Sync)
    requires SyncInv(t)
    ensures Sum(Weights(t)) >= 0
  {
    forall i: nat | i < |t.workers|
      ensures Weights(t)[i] >= 0
    {
      assert WorkerOk(t, i);
    }
    SumNonNegative(Weights(t));
  }

  lemma {:induction false} AllFinished(t: Sync)
    requires SyncInv(t) && forall q: nat :: !CanStep(t, q)
    ensures forall p :: 0 <= p < |t.workers| ==> IsFinished(t.workers[p])
    ensures forall p :: 0 <= p < |t.workers| && t.workers[p].pc == Done ==> t.workers[p].left == 0
    ensures !t.used
  {
    forall p: nat | p < |t.workers|
      ensures IsFinished(t.workers[p]) && (t.workers[p].pc == Done ==> t.workers[p].left == 0)
    {
      assert WorkerOk(t, p);
      if !IsFinished(t.workers[p]) {
        NoDeadlock(t, p);
      }
    }
    assert Members(t.workers) == {};
  }

  /** What the workers that got in had to add. */
  function Added(ws: seq<Worker>, ends: seq<Worker>): (os: seq<int>)
    requires |ends| == |ws|
    ensures |os| == |ws|
    ensures forall i :: 0 <= i < |ws| ==> os[i] == if ends[i].pc == Done then ws[i].left * ws[i].inc else 0
  {
    seq(|ws|, i requires 0 <= i < |ws| => if ends[i].pc == Done then ws[i].left * ws[i].inc else 0)
  }

  lemma {:induction false} AddedIsPaid(ws: seq<Worker>, ends: seq<Worker>)
    requires |ends| == |ws|
    requires forall p :: 0 <= p < |ws| ==> ends[p].inc == ws[p].inc
    requires forall p :: 0 <= p < |ws| ==> ends[p].left == if ends[p].pc == Done then 0 else ws[p].left
    ensures Sum(Owed(ws)) == Sum(Added(ws, ends)) + Sum(Owed(ends))
  {
    SumOfSums(Owed(ws), Added(ws, ends), Owed(ends));
  }

  /** What the counter holds once everyone has finished. */
  lemma {:induction false} CounterAtEnd(t: Sync, u: Sync)
    requires IsStart(t) && Outsiders(t, u) && (Int32(u.counter) == u.counter || NothingWritten(t, u))
    requires Int32(u.counter + Sum(Owed(u.workers))) == Int32(t.counter + Sum(Owed(t.workers)))
    requires forall p :: 0 <= p < |u.workers| ==>
               IsFinished(u.workers[p]) && (u.workers[p].pc == Done ==> u.workers[p].left == 0)
    ensures var total := t.counter + Sum(Added(t.workers, u.workers));
      u.counter == (if AllRefused(u) then t.counter else Int32(total))
      && (AllRefused(u) ==> total == t.counter)
  {
    hide Sum, Int32, Owed, Added, SyncInv;
    AddedIsPaid(t.workers, u.workers);
    var total := t.counter + Sum(Added(t.workers, u.workers));
    SameWithout(u.counter, total, Sum(Owed(u.workers)));
    if AllRefused(u) {
      SumConstant(Added(t.workers, u.workers), 0);
    } else {
      var p :| 0 <= p < |u.workers| && u.workers[p].pc == Done;
      assert u.workers[p].left == 0 && t.workers[p].left > 0;
    }
  }

  lemma {:induction false} SameWithout(x: int, y: int, d: int)
    requires Int32(x + d) == Int32(y + d)
    ensures Int32(x) == Int32(y)
  {
    hide Int32;
    Int32Sum(x + d, -d);
    Int32Sum(y + d, -d);
  }

  predicate AllRefused(t: Sync) {
    forall p :: 0 <= p < |t.workers| ==> t.workers[p].pc == Refused
  }

  /** Under every interleaving the run is bounded, and when it cannot be continued everyone has
      finished, the slot is free again, and the counter holds the start plus all increments of the
      workers that were not refused, as a 32-bit int: the sum itself if and only if that fits or
      everyone was refused. */
  lemma {:induction false} EveryRunAddsUp(t: Sync, ps: seq<Turn>)
    requires IsStart(t) && SyncRuns(t, ps)
    ensures |ps| <= Sum(Weights(t))
    ensures var u := AfterSync(t, ps);
      (forall q: nat :: !CanStep(u, q)) ==>
        var total := t.counter + Sum(Added(t.workers, u.workers));
        && (forall p :: 0 <= p < |u.workers| ==> IsFinished(u.workers[p]))
        && !u.used
        && u.counter == (if AllRefused(u) then t.counter else Int32(total))
        && (u.counter == total <==> AllRefused(u) || -(UINT32 / 2) <= total < UINT32 / 2)
  {
    hide CanStep, Sum, Int32, Inv, ModeOk, WorkerOk, IsQuiet, Outsiders, NothingWritten, IsFinished, AllRefused;
    RunConserves(t, ps);
    var u := AfterSync(t, ps);
    WeightsPositive(u);
    if forall q: nat :: !CanStep(u, q) {
      AllFinished(u);
      CounterAtEnd(t, u);
      Int32Fits(t.counter + Sum(Added(t.workers, u.workers)));
    }
  }

  /** The pairs of the test cancel: three workers adding -1 and three adding 1, n times each. */
  lemma {:induction false} PairsCancel(t: Sync, n: nat)
    requires |t.workers| == 6
    requires forall p :: 0 <= p < 6 ==> t.workers[p].left == n && t.workers[p].inc == (if p % 2 == 0 then -1 else 1)
    ensures Sum(Owed(t.workers)) == 0
  {
    var os := Owed(t.workers);
    var k: int := n;
    assert os == [-k, k, -k, k, -k, k];
    SumOfSix(k);
  }

  lemma {:induction false} SumOfSix(n: int)
    ensures Sum([-n, n, -n, n, -n, n]) == 0
  {
    assert [-n][..0] == [];
    assert Sum([-n]) == -n;
    assert [-n, n][..1] == [-n];
    assert Sum([-n, n]) == 0;
    assert [-n, n, -n][..2] == [-n, n];
    assert [-n, n, -n, n][..3] == [-n, n, -n];
    assert Sum([-n, n, -n, n]) == 0;
    assert [-n, n, -n, n, -n][..4] == [-n, n, -n, n];
    assert [-n, n, -n, n, -n, n][..5] == [-n, n, -n, n, -n];
  }
}
