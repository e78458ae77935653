/** The dining philosophers as steps over one semaphore per fork and one gate. A philosopher is
    his position in his program; a step is one system call, or one write to the display. */
module Philosophers {
  import opened SemaphoreSpec
  import opened Sums

  datatype Shown = EATING | HUNGRY | THINKING

  datatype Action = WaitOn(sem: nat) | PostTo(sem: nat) | Show(state: Shown)

  const DONE := 10

  /** world holds forks 0..n-1 and the gate at n; its processes are the philosophers. */
  datatype Dinner = Dinner(n: nat, world: World, stages: seq<nat>, shown: seq<Shown>)

  function RightFork(n: nat, p: nat): (f: nat)
    requires p < n && n >= 2
    ensures f < n && f != p
  {
    (p + 1) % n
  }

  /** philosopher, with philo_think and philo_eat written out. */
  function Program(n: nat, p: nat, stage: nat): Action
    requires p < n && n >= 2 && stage < DONE
  {
    match stage
    case 0 => Show(THINKING)
    case 1 => Show(HUNGRY)
    case 2 => WaitOn(n)
    case 3 => WaitOn(p)
    case 4 => WaitOn(RightFork(n, p))
    case 5 => PostTo(n)
    case 6 => Show(EATING)
    case 7 => PostTo(RightFork(n, p))
    case 8 => PostTo(p)
    case _ => Show(THINKING)
  }

  /** Waited for and not yet posted. */
  predicate Holds(n: nat, p: nat, stage: nat, s: nat)
    requires p < n && n >= 2
  {
    || (s == n && 3 <= stage <= 5)
    || (s == p && 4 <= stage <= 8)
    || (s == RightFork(n, p) && 5 <= stage <= 7)
  }

  predicate HasBothForks(t: Dinner, p: nat)
    requires Shaped(t) && p < t.n
  {
    Holds(t.n, p, t.stages[p], p) && Holds(t.n, p, t.stages[p], RightFork(t.n, p))
  }

  predicate Shaped(t: Dinner) {
    && t.n >= 2 && |t.world.sems| == t.n + 1 && |t.world.modes| == t.n
    && |t.stages| == t.n && |t.shown| == t.n
    && forall p :: 0 <= p < t.n ==> t.stages[p] <= DONE
  }

  /** Everyone seated, all semaphores just opened with one unit. */
  predicate IsInitial(t: Dinner) {
    t.n >= 2 && t == Dinner(t.n, World(seq(t.n + 1, _ => Sem(1, [])), seq(t.n, _ => Active)),
                            seq(t.n, _ => 0), seq(t.n, _ => THINKING))
  }

  predicate CanStep(t: Dinner, p: nat)
    requires Shaped(t)
  {
    p < t.n && t.stages[p] < DONE && !t.world.modes[p].Asleep?
  }

  /** The step a philosopher takes on the semaphores. */
  function Call(t: Dinner, p: nat): Step
    requires Shaped(t) && CanStep(t, p)
  {
    match Program(t.n, p, t.stages[p])
    case WaitOn(s) => if t.world.modes[p].Woken? then Resume(p, true) else Wait(p, s, true)
    case PostTo(s) => Post(p, s)
    case Show(_) => Post(p, 0)
  }

  /** Whoever is off his own code is in the loop of the wait he stands at. */
  predicate ModeOk(t: Dinner, p: nat)
    requires Shaped(t) && p < t.n
  {
    var m := t.world.modes[p];
    !m.Active? ==> t.stages[p] < DONE && Program(t.n, p, t.stages[p]) == WaitOn(m.sem)
  }

  function NextDinner(t: Dinner, p: nat): (u: Dinner)
    requires Shaped(t) && CanStep(t, p) && ModeOk(t, p)
    ensures Shaped(u) && u.n == t.n
  {
    match Program(t.n, p, t.stages[p])
    case Show(d) => t.(stages := t.stages[p := t.stages[p] + 1], shown := t.shown[p := d])
    case PostTo(s) => t.(world := Next(t.world, Call(t, p)), stages := t.stages[p := t.stages[p] + 1])
    case WaitOn(s) =>
      t.(world := Next(t.world, Call(t, p)),
         stages := if Completes(t.world, Call(t, p)) then t.stages[p := t.stages[p] + 1] else t.stages)
  }

  ghost function Holders(n: nat, stages: seq<nat>, s: nat): set<nat>
    requires n >= 2 && |stages| == n
  {
    set p: nat | p < n && Holds(n, p, stages[p], s)
  }

  predicate ShownOk(t: Dinner, p: nat)
    requires Shaped(t) && p < t.n
  {
    t.shown[p] == EATING <==> 7 <= t.stages[p] <= 9
  }

  /** Each semaphore's unit is on offer or with exactly one philosopher. */
  ghost predicate OneUnit(t: Dinner, s: nat)
    requires Shaped(t) && s <= t.n
  {
    t.world.sems[s].value + |Holders(t.n, t.stages, s)| == 1
  }

  ghost predicate DinnerInv(t: Dinner) {
    && Shaped(t) && Inv(t.world)
    && (forall p: nat :: p < t.n ==> ModeOk(t, p) && ShownOk(t, p))
    && (forall s: nat :: s <= t.n ==> OneUnit(t, s))
  }

  /** A wait takes hold of its semaphore, a post lets go of it, and nothing else changes hands. */
  lemma {:induction false} HoldsMove(n: nat, p: nat, stage: nat, s: nat)
    requires p < n && n >= 2 && stage < DONE && s <= n
    ensures match Program(n, p, stage)
      case WaitOn(k) => !Holds(n, p, stage, k) && (Holds(n, p, stage + 1, s) <==> Holds(n, p, stage, s) || s == k)
      case PostTo(k) => Holds(n, p, stage, k) && (Holds(n, p, stage + 1, s) <==> Holds(n, p, stage, s) && s != k)
      case Show(_) => Holds(n, p, stage + 1, s) <==> Holds(n, p, stage, s)
  {
    hide RightFork;
  }

  lemma {:induction false} HoldersMove(t: Dinner, p: nat, s: nat)
    requires Shaped(t) && p < t.n && t.stages[p] < DONE && s <= t.n
    ensures var was, now := Holders(t.n, t.stages, s), Holders(t.n, t.stages[p := t.stages[p] + 1], s);
      match Program(t.n, p, t.stages[p])
      case WaitOn(k) => |now| == |was| + (if k == s then 1 else 0)
      case PostTo(k) => |now| == |was| - (if k == s then 1 else 0)
      case Show(_) => |now| == |was|
  {
    hide Holds, Program;
    HoldsMove(t.n, p, t.stages[p], s);
    var was, now := Holders(t.n, t.stages, s), Holders(t.n, t.stages[p := t.stages[p] + 1], s);
    match Program(t.n, p, t.stages[p])
    case WaitOn(k) =>
      if k == s {
        assert now == was + {p} && p !in was;
      } else {
        assert now == was;
      }
    case PostTo(k) =>
      if k == s {
        assert now == was - {p} && p in was;
      } else {
        assert now == was;
      }
    case Show(_) =>
      assert now == was;
  }

  lemma {:induction false} InitialInv(t: Dinner)
    requires IsInitial(t)
    ensures DinnerInv(t)
  {
    forall s: nat | s <= t.n
      ensures SemOk(t.world, s) && OneUnit(t, s)
    {
      assert Holders(t.n, t.stages, s) == {};
    }
  }

  function Initial(n: nat): (t: Dinner)
    requires n >= 2
    ensures t.n == n && IsInitial(t) && DinnerInv(t)
  {
    var t := Dinner(n, World(seq(n + 1, _ => Sem(1, [])), seq(n, _ => Active)), seq(n, _ => 0), seq(n, _ => THINKING));
    InitialInv(t);
    t
  }

  /** A step changes only the caller's stage and display, and at most one other mode. */
  lemma {:induction false} ModesAfter(t: Dinner, p: nat, q: nat)
    requires DinnerInv(t) && CanStep(t, p) && q < t.n
    ensures ModeOk(NextDinner(t, p), q) && ShownOk(NextDinner(t, p), q)
  {
    assert ModeOk(t, q) && ShownOk(t, q) && ModeOk(t, p) && ShownOk(t, p);
    match Program(t.n, p, t.stages[p])
    case PostTo(s) =>
      assert SemOk(t.world, s);
      var queue := t.world.sems[s].queue;
      if queue != [] {
        assert queue[0] in queue;
        assert ModeOk(t, queue[0]);
      }
    case _ =>
  }

  /** Every step keeps the invariant. */
  lemma {:induction false} StepKeepsInv(t: Dinner, p: nat)
    requires DinnerInv(t) && CanStep(t, p)
    ensures DinnerInv(NextDinner(t, p))
  {
    var u := NextDinner(t, p);
    assert ModeOk(t, p);
    if !Program(t.n, p, t.stages[p]).Show? {
      NextInv(t.world, Call(t, p));
    }
    forall q: nat | q < t.n
      ensures ModeOk(u, q) && ShownOk(u, q)
    {
      ModesAfter(t, p, q);
    }
    forall s: nat | s <= t.n
      ensures OneUnit(u, s)
    {
      assert OneUnit(t, s);
      HoldersMove(t, p, s);
    }
  }

  lemma {:induction false} OneHolder(t: Dinner, s: nat, p: nat, q: nat)
    requires DinnerInv(t) && s <= t.n && p < t.n && q < t.n
    requires Holds(t.n, p, t.stages[p], s) && Holds(t.n, q, t.stages[q], s)
    ensures p == q && t.world.sems[s].value == 0
  {
    assert OneUnit(t, s);
    AtLeastTwo(Holders(t.n, t.stages, s), p, q);
  }

  /** Neighbours never hold their forks together: between taking the second fork and posting
      the first one back, a philosopher's neighbours are not in that stretch. */
  lemma {:induction false} NeighboursExclude(t: Dinner, p: nat)
    requires DinnerInv(t) && p < t.n && HasBothForks(t, p)
    ensures !HasBothForks(t, RightFork(t.n, p))
  {
    var q := RightFork(t.n, p);
    if HasBothForks(t, q) {
      OneHolder(t, q, p, q);
    }
  }

  lemma {:induction false} HolderExists(t: Dinner, s: nat) returns (h: nat)
    requires DinnerInv(t) && s <= t.n && t.world.sems[s].value == 0
    ensures h < t.n && Holds(t.n, h, t.stages[h], s)
  {
    assert OneUnit(t, s);
    assert Holders(t.n, t.stages, s) != {};
    h :| h in Holders(t.n, t.stages, s);
  }

  /** A sleeper's semaphore is either taken, or someone has been woken for it. */
  lemma {:induction false} SleeperBlocked(t: Dinner, p: nat)
    requires DinnerInv(t) && p < t.n && t.world.modes[p].Asleep?
    ensures t.world.modes[p].sem <= t.n
    ensures t.world.sems[t.world.modes[p].sem].value == 0 || exists q: nat :: CanStep(t, q)
  {
    assert ModeOk(t, p);
    var s := t.world.modes[p].sem;
    if t.world.sems[s].value > 0 {
      NoLostWakeup(t.world, s, p);
      var q: nat :| q < t.n && t.world.modes[q] == Woken(s);
      assert ModeOk(t, q) && CanStep(t, q);
    }
  }

  lemma {:induction false} ForkSleeper(t: Dinner, p: nat)
    requires DinnerInv(t) && p < t.n && t.world.modes[p].Asleep? && t.world.modes[p].sem < t.n
    ensures exists q: nat :: CanStep(t, q)
  {
    assert ModeOk(t, p);
    SleeperBlocked(t, p);
    var f := t.world.modes[p].sem;
    if t.world.sems[f].value == 0 {
      var h := HolderExists(t, f);
      assert ModeOk(t, h);
      if !CanStep(t, h) {
        OneHolder(t, t.n, p, h);
      }
    }
  }

  /** There is no deadlock: while someone has not finished, someone can take a step. */
  lemma {:induction false} NoDeadlock(t: Dinner, p: nat)
    requires DinnerInv(t) && p < t.n && t.stages[p] < DONE
    ensures exists q: nat :: CanStep(t, q)
  {
    if !CanStep(t, p) {
      assert ModeOk(t, p);
      SleeperBlocked(t, p);
      if t.world.modes[p].sem < t.n {
        ForkSleeper(t, p);
      } else if t.world.sems[t.n].value == 0 {
        var h := HolderExists(t, t.n);
        assert ModeOk(t, h);
        if !CanStep(t, h) {
          ForkSleeper(t, h);
        }
      }
    }
  }

  // ----- runs -----

  function Weight(stage: nat, m: Mode): int {
    3 * (DONE - stage) + ModeWeight(m)
  }

  function Weights(t: Dinner): (ws: seq<int>)
    requires Shaped(t)
    ensures |ws| == t.n && forall i :: 0 <= i < t.n ==> ws[i] == Weight(t.stages[i], t.world.modes[i])
  {
    seq(t.n, i requires 0 <= i < t.n => Weight(t.stages[i], t.world.modes[i]))
  }

  function Remaining(t: Dinner): (r: int)
    requires Shaped(t)
  {
    Sum(Weights(t))
  }

  /** Every step brings the end of the dinner nearer. */
  lemma {:induction false} StepDecreases(t: Dinner, p: nat)
    requires DinnerInv(t) && CanStep(t, p)
    ensures Remaining(NextDinner(t, p)) < Remaining(t)
  {
    var u := NextDinner(t, p);
    var was, now := Weights(t), Weights(u);
    assert ModeOk(t, p);
    match Program(t.n, p, t.stages[p])
    case Show(_) =>
      SumUpdate(was, p, now[p]);
      assert now == was[p := now[p]];
    case WaitOn(s) =>
      SumUpdate(was, p, now[p]);
      assert now == was[p := now[p]];
    case PostTo(s) =>
      assert SemOk(t.world, s);
      var queue := t.world.sems[s].queue;
      if queue == [] {
        SumUpdate(was, p, now[p]);
        assert now == was[p := now[p]];
      } else {
        assert queue[0] in queue;
        SumUpdateTwo(was, p, now[p], queue[0], now[queue[0]]);
        assert now == was[p := now[p]][queue[0] := now[queue[0]]];
      }
  }

  ghost predicate DinnerRuns(t: Dinner, ps: seq<nat>)
    requires DinnerInv(t)
    decreases |ps|
  {
    ps == [] || (CanStep(t, ps[0]) && (StepKeepsInv(t, ps[0]); DinnerRuns(NextDinner(t, ps[0]), ps[1..])))
  }

  ghost function AfterDinner(t: Dinner, ps: seq<nat>): (u: Dinner)
    requires DinnerInv(t) && DinnerRuns(t, ps)
    ensures DinnerInv(u) && u.n == t.n
    decreases |ps|
  {
    if ps == [] then t else StepKeepsInv(t, ps[0]); AfterDinner(NextDinner(t, ps[0]), ps[1..])
  }

  /** On every run of every table size, neighbours never eat together. */
  lemma {:induction false} NeighboursNeverEatTogether(n: nat, ps: seq<nat>, p: nat)
    requires n >= 2 && p < n && DinnerRuns(Initial(n), ps)
    ensures var u := AfterDinner(Initial(n), ps); !(HasBothForks(u, p) && HasBothForks(u, RightFork(n, p)))
  {
    var u := AfterDinner(Initial(n), ps);
    if HasBothForks(u, p) {
      NeighboursExclude(u, p);
    }
  }

  lemma {:induction false} RunShrinks(t: Dinner, ps: seq<nat>)
    requires DinnerInv(t) && DinnerRuns(t, ps)
    ensures |ps| + Remaining(AfterDinner(t, ps)) <= Remaining(t)
    decreases |ps|
  {
    if ps != [] {
      StepKeepsInv(t, ps[0]);
      StepDecreases(t, ps[0]);
      RunShrinks(NextDinner(t, ps[0]), ps[1..]);
    }
  }

  /** No run from the start is longer than 32 steps a philosopher, and one that cannot be
      continued has fed everyone: each went through his whole program, and all the forks and the
      gate are free again. */
  lemma {:induction false} EveryRunFeedsAll(n: nat, ps: seq<nat>)
    requires n >= 2 && DinnerRuns(Initial(n), ps)
    ensures |ps| <= 32 * n
    ensures var u := AfterDinner(Initial(n), ps);
      (forall q: nat :: !CanStep(u, q)) ==>
        && (forall p :: 0 <= p < n ==> u.stages[p] == DONE)
        && (forall s :: 0 <= s <= n ==> u.world.sems[s] == Sem(1, []))
  {
    var t := Initial(n);
    RunShrinks(t, ps);
    SumConstant(Weights(t), 32);
    var u := AfterDinner(t, ps);
    SumNonNegative(Weights(u));
    if forall q: nat :: !CanStep(u, q) {
      forall p: nat | p < n
        ensures u.stages[p] == DONE
      {
        if u.stages[p] < DONE {
          NoDeadlock(u, p);
        }
      }
      forall s: nat | s <= n
        ensures u.world.sems[s] == Sem(1, [])
      {
        assert OneUnit(u, s) && SemOk(u.world, s);
        assert Holders(n, u.stages, s) == {};
        var queue := u.world.sems[s].queue;
        forall q: nat | q < n
          ensures u.world.modes[q].Active?
        {
          assert ModeOk(u, q);
        }
        EmptyOrNot(queue);
      }
    }
  }

  // ----- what the display says -----

  /** The display is behind the forks: EATING is shown for a philosopher holding both forks or
      already giving them back, and two neighbours are shown EATING exactly when both are in that
      stretch and one has posted the fork between them. */
  lemma {:induction false} ShownNeighbours(t: Dinner, p: nat)
    requires DinnerInv(t) && p < t.n
    ensures var q := RightFork(t.n, p);
      t.shown[p] == EATING && t.shown[q] == EATING
      <==> 7 <= t.stages[p] <= 9 && 7 <= t.stages[q] <= 9 && (t.stages[p] > 7 || t.stages[q] > 8)
  {
    var q := RightFork(t.n, p);
    assert ShownOk(t, p) && ShownOk(t, q);
    if 5 <= t.stages[p] <= 7 && 4 <= t.stages[q] <= 8 {
      OneHolder(t, q, p, q);
    }
  }

  /** Alone at the table: all the others hold nothing, and nobody is inside a wait. */
  predicate Alone(t: Dinner, p: nat)
    requires Shaped(t)
  {
    && p < t.n
    && (forall q :: 0 <= q < t.n ==> t.world.modes[q] == Active)
    && (forall q :: 0 <= q < t.n && q != p ==> t.stages[q] < 3 || t.stages[q] >= 9)
  }

  lemma {:induction false} AloneStep(t: Dinner, p: nat)
    requires DinnerInv(t) && Alone(t, p) && t.stages[p] < DONE
    ensures CanStep(t, p) && DinnerInv(NextDinner(t, p)) && Alone(NextDinner(t, p), p)
    ensures NextDinner(t, p).stages == t.stages[p := t.stages[p] + 1]
  {
    assert ModeOk(t, p);
    StepKeepsInv(t, p);
    var a := Program(t.n, p, t.stages[p]);
    if !a.Show? {
      var s := a.sem;
      assert SemOk(t.world, s) && OneUnit(t, s);
      var queue := t.world.sems[s].queue;
      EmptyOrNot(queue);
      if a.WaitOn? {
        assert Holders(t.n, t.stages, s) == {};
      }
    }
  }

  /** Alone, a philosopher gets through his next k actions without ever sleeping. */
  lemma {:induction false} AloneRun(t: Dinner, p: nat, k: nat) returns (ps: seq<nat>)
    requires DinnerInv(t) && Alone(t, p) && t.stages[p] + k <= DONE
    ensures DinnerRuns(t, ps) && AfterDinner(t, ps).stages == t.stages[p := t.stages[p] + k]
    ensures Alone(AfterDinner(t, ps), p)
    decreases k
  {
    if k == 0 {
      ps := [];
      assert t.stages == t.stages[p := t.stages[p]];
    } else {
      AloneStep(t, p);
      var rest := AloneRun(NextDinner(t, p), p, k - 1);
      ps := [p] + rest;
      assert ps[1..] == rest;
    }
  }

  lemma {:induction false} RunsJoin(t: Dinner, ps: seq<nat>, qs: seq<nat>)
    requires DinnerInv(t) && DinnerRuns(t, ps) && DinnerRuns(AfterDinner(t, ps), qs)
    ensures DinnerRuns(t, ps + qs) && AfterDinner(t, ps + qs) == AfterDinner(AfterDinner(t, ps), qs)
    decreases |ps|
  {
    if ps == [] {
      assert ps + qs == qs;
    } else {
      StepKeepsInv(t, ps[0]);
      RunsJoin(NextDinner(t, ps[0]), ps[1..], qs);
      assert (ps + qs)[1..] == ps[1..] + qs;
    }
  }

  /** At every size of table the display can show two neighbours EATING at once: the first has
      posted both forks but not yet changed what is shown for him. */
  lemma {:induction false} DisplayCanShowBoth(n: nat) returns (ps: seq<nat>)
    requires n >= 2
    ensures DinnerRuns(Initial(n), ps)
    ensures AfterDinner(Initial(n), ps).shown[0] == EATING && AfterDinner(Initial(n), ps).shown[1] == EATING
  {
    var t := Initial(n);
    var first := AloneRun(t, 0, 9);
    var u := AfterDinner(t, first);
    var second := AloneRun(u, 1, 7);
    RunsJoin(t, first, second);
    ps := first + second;
    var v := AfterDinner(t, ps);
    assert ShownOk(v, 0) && ShownOk(v, 1);
  }
}
