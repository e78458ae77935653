/** Semaphores as a protocol of atomic steps: kernel code between two yields runs with
    interrupts off, so a wait is one step up to its first yield, and one step each time the
    process is resumed. */
module SemaphoreSpec {
  import opened Sums

  const COUNTER := 256   // value is a uint8_t

  datatype Sem = Sem(value: nat, queue: seq<nat>)

  /** One pass of the loop of sem_wait: take a unit, or go to the back of the queue; granted says
      whether there is memory for the queue's node, which the code does not look at. */
  function Take(s: Sem, pid: nat, granted: bool): Sem {
    if s.value > 0 then s.(value := s.value - 1)
    else if granted then s.(queue := s.queue + [pid])
    else s
  }

  /** sem_post: one unit more, and the head of the queue leaves it. */
  function Give(s: Sem): Sem {
    Sem((s.value + 1) % COUNTER, if s.queue == [] then [] else s.queue[1..])
  }

  /** Where a process stands with respect to the semaphores: running its own code, blocked on
      a queue, or unblocked but not yet back in the loop of sem_wait. */
  datatype Mode = Active | Asleep(sem: nat) | Woken(sem: nat)

  datatype World = World(sems: seq<Sem>, modes: seq<Mode>)

  datatype Step = Wait(pid: nat, sem: nat, granted: bool) | Resume(pid: nat, granted: bool) | Post(pid: nat, sem: nat)

  predicate Enabled(w: World, e: Step) {
    && e.pid < |w.modes|
    && match e
       case Wait(p, s, _) => w.modes[p].Active? && s < |w.sems|
       case Resume(p, _) => w.modes[p].Woken? && w.modes[p].sem < |w.sems|
       case Post(p, s) => w.modes[p].Active? && s < |w.sems|
  }

  /** The semaphore a step works on. */
  function Target(w: World, e: Step): nat
    requires Enabled(w, e)
  {
    if e.Resume? then w.modes[e.pid].sem else e.sem
  }

  /** A wait, first pass or later one, that gets its unit in this step. */
  predicate Completes(w: World, e: Step)
    requires Enabled(w, e)
  {
    !e.Post? && w.sems[Target(w, e)].value > 0
  }

  function Next(w: World, e: Step): World
    requires Enabled(w, e)
  {
    var s := Target(w, e);
    if e.Post? then
      var woken := if w.sems[s].queue == [] || w.sems[s].queue[0] >= |w.modes| then w.modes
                   else w.modes[w.sems[s].queue[0] := Woken(s)];
      World(w.sems[s := Give(w.sems[s])], woken)
    else
      World(w.sems[s := Take(w.sems[s], e.pid, e.granted)],
            w.modes[e.pid := if Completes(w, e) then Active else Asleep(s)])
  }

  /** For measures of progress: a post moves a sleeper up by one. */
  function ModeWeight(m: Mode): nat {
    if m.Active? then 2 else if m.Woken? then 1 else 0
  }

  ghost function WokenOn(modes: seq<Mode>, s: nat): set<nat> {
    set p: nat | p < |modes| && modes[p] == Woken(s)
  }

  /** The queue of s holds processes asleep on it, each once; and if there are any, the units on
      offer are spoken for by processes already woken. */
  ghost predicate QueueOk(w: World, s: nat)
    requires s < |w.sems|
  {
    && w.sems[s].value < COUNTER
    && NoDuplicates(w.sems[s].queue)
    && (forall p: nat :: p in w.sems[s].queue ==> p < |w.modes| && w.modes[p] == Asleep(s))
    && (w.sems[s].queue != [] ==> w.sems[s].value <= |WokenOn(w.modes, s)|)
  }

  ghost predicate QueuesOk(w: World) {
    forall s: nat :: s < |w.sems| ==> QueueOk(w, s)
  }

  /** Asleep on a semaphore, but not in its queue. */
  predicate Stranded(w: World, p: nat) {
    p < |w.modes| && w.modes[p].Asleep? && w.modes[p].sem < |w.sems| && p !in w.sems[w.modes[p].sem].queue
  }

  /** As QueueOk, and every sleeper is queued. */
  ghost predicate SemOk(w: World, s: nat)
    requires s < |w.sems|
  {
    QueueOk(w, s) && forall p: nat :: p < |w.modes| && w.modes[p] == Asleep(s) ==> p in w.sems[s].queue
  }

  ghost predicate Inv(w: World) {
    forall s: nat :: s < |w.sems| ==> SemOk(w, s)
  }

  /** While someone is queued for a semaphore that has units, someone else has been woken for them
      and is ready to run. */
  lemma {:induction false} QueuedIsCovered(w: World, s: nat, p: nat)
    requires QueuesOk(w) && s < |w.sems| && p in w.sems[s].queue && w.sems[s].value > 0
    ensures exists q: nat :: q < |w.modes| && w.modes[q] == Woken(s)
  {
    assert QueueOk(w, s);
    var awake := WokenOn(w.modes, s);
    assert |awake| > 0;
    var q :| q in awake;
  }

  /** No wake-up is lost while every sleeper is queued. */
  lemma {:induction false} NoLostWakeup(w: World, s: nat, p: nat)
    requires Inv(w) && s < |w.sems| && p < |w.modes| && w.modes[p] == Asleep(s) && w.sems[s].value > 0
    ensures exists q: nat :: q < |w.modes| && w.modes[q] == Woken(s)
  {
    InvIff(w);
    assert SemOk(w, s);
    QueuedIsCovered(w, s, p);
  }

  lemma {:induction false} WokenChange(modes: seq<Mode>, p: nat, m: Mode, s: nat)
    requires p < |modes|
    ensures |WokenOn(modes[p := m], s)| == |WokenOn(modes, s)|
         + (if m == Woken(s) && modes[p] != Woken(s) then 1 else 0)
         - (if m != Woken(s) && modes[p] == Woken(s) then 1 else 0)
  {
    var before, after := WokenOn(modes, s), WokenOn(modes[p := m], s);
    if m == Woken(s) {
      assert after == before + {p};
    } else {
      assert after == before - {p};
    }
  }

  lemma {:induction false} PostKeepsQueue(w: World, e: Step, k: nat)
    requires QueuesOk(w) && Enabled(w, e) && e.Post? && k < |w.sems|
    ensures QueueOk(Next(w, e), k)
  {
    var s := Target(w, e);
    var q := w.sems[s].queue;
    assert QueueOk(w, s) && QueueOk(w, k);
    if q != [] {
      assert q[0] in q;
      WokenChange(w.modes, q[0], Woken(s), k);
      assert forall p :: p in q <==> p == q[0] || p in q[1..];
      assert q[0] !in q[1..];
    }
  }

  lemma {:induction false} WaitKeepsQueue(w: World, e: Step, k: nat)
    requires QueuesOk(w) && Enabled(w, e) && !e.Post? && k < |w.sems|
    ensures QueueOk(Next(w, e), k)
  {
    var s := Target(w, e);
    assert QueueOk(w, s) && QueueOk(w, k);
    WokenChange(w.modes, e.pid, if Completes(w, e) then Active else Asleep(s), k);
  }

  /** Every step keeps the queues in order, whether or not its node was granted. */
  lemma {:induction false} NextQueuesOk(w: World, e: Step)
    requires QueuesOk(w) && Enabled(w, e)
    ensures QueuesOk(Next(w, e))
  {
    forall k: nat | k < |w.sems|
      ensures QueueOk(Next(w, e), k)
    {
      if e.Post? {
        PostKeepsQueue(w, e, k);
      } else {
        WaitKeepsQueue(w, e, k);
      }
    }
  }

  /** A wait that blocks its caller without a queue node. */
  predicate Strands(w: World, e: Step)
    requires Enabled(w, e)
  {
    !e.Post? && !Completes(w, e) && !e.granted
  }

  /** Whoever is stranded stays so, whatever anyone does, and a step strands its caller exactly when
      its node was not granted. */
  lemma {:induction false} NextStranded(w: World, e: Step, p: nat)
    requires QueuesOk(w) && Enabled(w, e)
    ensures Stranded(Next(w, e), p) <==> Stranded(w, p) || (p == e.pid && Strands(w, e))
  {
    var s := Target(w, e);
    assert QueueOk(w, s);
    var q := w.sems[s].queue;
    if e.Post? && q != [] {
      assert q[0] in q;
      assert forall x :: x in q <==> x == q[0] || x in q[1..];
      assert q[0] !in q[1..];
    }
  }

  lemma {:induction false} InvIff(w: World)
    ensures Inv(w) <==> QueuesOk(w) && forall p: nat :: !Stranded(w, p)
  {
    if Inv(w) {
      forall p: nat
        ensures !Stranded(w, p)
      {
        if p < |w.modes| && w.modes[p].Asleep? && w.modes[p].sem < |w.sems| {
          assert SemOk(w, w.modes[p].sem);
        }
      }
      forall s: nat | s < |w.sems|
        ensures QueueOk(w, s)
      {
        assert SemOk(w, s);
      }
    }
    if QueuesOk(w) && forall p: nat :: !Stranded(w, p) {
      forall s: nat | s < |w.sems|
        ensures SemOk(w, s)
      {
        assert QueueOk(w, s);
        forall p: nat | p < |w.modes| && w.modes[p] == Asleep(s)
          ensures p in w.sems[s].queue
        {
          assert !Stranded(w, p);
        }
      }
    }
  }

  /** With its node granted, a step keeps every sleeper queued. */
  lemma {:induction false} NextInv(w: World, e: Step)
    requires Inv(w) && Enabled(w, e) && !Strands(w, e)
    ensures Inv(Next(w, e))
  {
    InvIff(w);
    NextQueuesOk(w, e);
    forall p: nat
      ensures !Stranded(Next(w, e), p)
    {
      NextStranded(w, e, p);
    }
    InvIff(Next(w, e));
  }

  // ----- runs -----

  ghost predicate Runs(w: World, es: seq<Step>)
    decreases |es|
  {
    es == [] || (Enabled(w, es[0]) && Runs(Next(w, es[0]), es[1..]))
  }

  ghost function After(w: World, es: seq<Step>): World
    requires Runs(w, es)
    decreases |es|
  {
    if es == [] then w else After(Next(w, es[0]), es[1..])
  }

  ghost function Posts(es: seq<Step>, s: nat): nat {
    if es == [] then 0 else (if es[0].Post? && es[0].sem == s then 1 else 0) + Posts(es[1..], s)
  }

  /** Waits on s that got their unit during the run. */
  ghost function Completed(w: World, es: seq<Step>, s: nat): nat
    requires Runs(w, es)
    decreases |es|
  {
    if es == [] then 0 else
      (if Completes(w, es[0]) && Target(w, es[0]) == s then 1 else 0) + Completed(Next(w, es[0]), es[1..], s)
  }

  /** Every run, under every interleaving, keeps the queues in order. */
  lemma {:induction false} RunQueuesOk(w: World, es: seq<Step>)
    requires QueuesOk(w) && Runs(w, es)
    ensures QueuesOk(After(w, es))
    decreases |es|
  {
    if es != [] {
      NextQueuesOk(w, es[0]);
      RunQueuesOk(Next(w, es[0]), es[1..]);
    }
  }

  /** Every failed wait of the run got its queue node. */
  ghost predicate AllGranted(w: World, es: seq<Step>)
    requires Runs(w, es)
    decreases |es|
  {
    es == [] || (!Strands(w, es[0]) && AllGranted(Next(w, es[0]), es[1..]))
  }

  /** No continuation ever wakes a stranded process. */
  lemma {:induction false} StrandedForever(w: World, es: seq<Step>, p: nat)
    requires QueuesOk(w) && Runs(w, es) && Stranded(w, p)
    ensures Stranded(After(w, es), p)
    decreases |es|
  {
    if es != [] {
      NextQueuesOk(w, es[0]);
      NextStranded(w, es[0], p);
      StrandedForever(Next(w, es[0]), es[1..], p);
    }
  }

  /** The exact condition: a run leaves nobody stranded if and only if every failed wait in it got
      its queue node. */
  lemma {:induction false} NoneStrandedIff(w: World, es: seq<Step>)
    requires Inv(w) && Runs(w, es)
    ensures Inv(After(w, es)) <==> AllGranted(w, es)
    decreases |es|
  {
    if es != [] {
      var v := Next(w, es[0]);
      if Strands(w, es[0]) {
        InvIff(w);
        NextQueuesOk(w, es[0]);
        NextStranded(w, es[0], es[0].pid);
        StrandedForever(v, es[1..], es[0].pid);
        InvIff(After(v, es[1..]));
      } else {
        NextInv(w, es[0]);
        NoneStrandedIff(v, es[1..]);
      }
    }
  }

  /** Nobody is in a semaphore call yet. */
  predicate IsStart(w: World) {
    && (forall s :: 0 <= s < |w.sems| ==> w.sems[s].value < COUNTER && w.sems[s].queue == [])
    && (forall p :: 0 <= p < |w.modes| ==> w.modes[p] == Active)
  }

  /** Somebody sleeps on s although it has units and nobody has been woken for them. */
  ghost predicate WakeupLost(w: World, s: nat, p: nat) {
    && s < |w.sems| && p < |w.modes|
    && w.modes[p] == Asleep(s) && w.sems[s].value > 0
    && forall q: nat :: q < |w.modes| ==> w.modes[q] != Woken(s)
  }

  /** On every run, under every interleaving, the only wake-ups lost are those of processes that got
      no queue node; so none are when every node was granted. */
  lemma {:induction false} NoWakeupLostOnAnyRun(w: World, es: seq<Step>, s: nat, p: nat)
    requires IsStart(w) && Runs(w, es)
    ensures WakeupLost(After(w, es), s, p) ==> Stranded(After(w, es), p) && !AllGranted(w, es)
  {
    assert Inv(w);
    InvIff(w);
    RunQueuesOk(w, es);
    var v := After(w, es);
    if WakeupLost(v, s, p) {
      if p in v.sems[s].queue {
        QueuedIsCovered(v, s, p);
      }
      assert Stranded(v, p);
      NoneStrandedIff(w, es);
      InvIff(v);
    }
  }

  /** And those are lost: once the woken have taken their units and the queue is empty, the next post
      finds nobody to wake, and the stranded process sleeps on beside the unit. */
  lemma {:induction false} StrandedLosesPost(w: World, p: nat, q: nat)
    requires QueuesOk(w) && Stranded(w, p) && q < |w.modes| && w.modes[q] == Active
    requires var s := w.modes[p].sem;
      w.sems[s].queue == [] && w.sems[s].value < COUNTER - 1 && WokenOn(w.modes, s) == {}
    ensures var s := w.modes[p].sem;
      Enabled(w, Post(q, s)) && WakeupLost(Next(w, Post(q, s)), s, p)
  {
    var s := w.modes[p].sem;
    forall x: nat | x < |w.modes|
      ensures w.modes[x] != Woken(s)
    {
      assert x !in WokenOn(w.modes, s);
    }
  }

  /** Posts on s that find the one-byte counter at its top, and drop every unit there was. */
  ghost function Wraps(w: World, es: seq<Step>, s: nat): nat
    requires Runs(w, es) && s < |w.sems|
    decreases |es|
  {
    if es == [] then 0 else
      (if es[0].Post? && es[0].sem == s && w.sems[s].value == COUNTER - 1 then 1 else 0)
      + Wraps(Next(w, es[0]), es[1..], s)
  }

  lemma {:induction false} StepUnits(w: World, e: Step, s: nat)
    requires QueuesOk(w) && Enabled(w, e) && s < |w.sems|
    ensures s < |Next(w, e).sems|
    ensures Next(w, e).sems[s].value == w.sems[s].value
         + (if e.Post? && e.sem == s then (if w.sems[s].value == COUNTER - 1 then 1 - COUNTER else 1) else 0)
         - (if Completes(w, e) && Target(w, e) == s then 1 else 0)
  {
    assert QueueOk(w, s);
  }

  /** Units are conserved: on every run, what is on offer is what there was, plus the posts, minus
      the completed waits, minus the 256 units that each post at 255 drops. */
  lemma {:induction false} UnitsConserved(w: World, es: seq<Step>, s: nat)
    requires QueuesOk(w) && Runs(w, es) && s < |w.sems|
    ensures s < |After(w, es).sems|
    ensures After(w, es).sems[s].value
         == w.sems[s].value + Posts(es, s) - Completed(w, es, s) - COUNTER * Wraps(w, es, s)
    decreases |es|
  {
    hide Next, Completes, Target;
    if es != [] {
      NextQueuesOk(w, es[0]);
      StepUnits(w, es[0], s);
      UnitsConserved(Next(w, es[0]), es[1..], s);
    }
  }

  /** The counter is exact if and only if no post was made at 255. */
  lemma {:induction false} ExactIffNoPostAtTop(w: World, es: seq<Step>, s: nat)
    requires QueuesOk(w) && Runs(w, es) && s < |w.sems|
    ensures s < |After(w, es).sems|
    ensures After(w, es).sems[s].value == w.sems[s].value + Posts(es, s) - Completed(w, es, s)
       <==> Wraps(w, es, s) == 0
  {
    UnitsConserved(w, es, s);
  }

  /** In any case it is right modulo 256. */
  lemma {:induction false} UnitsModulo(w: World, es: seq<Step>, s: nat)
    requires QueuesOk(w) && Runs(w, es) && s < |w.sems|
    ensures s < |After(w, es).sems|
    ensures After(w, es).sems[s].value == (w.sems[s].value + Posts(es, s) - Completed(w, es, s)) % COUNTER
  {
    UnitsConserved(w, es, s);
    RunQueuesOk(w, es);
    assert QueueOk(After(w, es), s);
  }

  // ----- the order of the queue -----

  /** A post that turns p from a sleeper on s into one that has been woken. */
  predicate Wakes(w: World, e: Step, s: nat, p: nat)
    requires Enabled(w, e)
  {
    var v := Next(w, e);
    e.Post? && p < |w.modes| && p < |v.modes| && w.modes[p] == Asleep(s) && v.modes[p] == Woken(s)
  }

  /** A post wakes the head of its semaphore's queue and nobody else. */
  lemma {:induction false} PostWakesHead(w: World, e: Step, s: nat, p: nat)
    requires QueuesOk(w) && Enabled(w, e) && s < |w.sems|
    ensures Wakes(w, e, s, p) <==> e.Post? && e.sem == s && w.sems[s].queue != [] && p == w.sems[s].queue[0]
  {
    assert QueueOk(w, Target(w, e));
    var q := w.sems[Target(w, e)].queue;
    assert q != [] ==> q[0] in q;
  }

  /** The processes that blocked on s and got a queue node, in the order they did. */
  ghost function BlockedOn(w: World, es: seq<Step>, s: nat): seq<nat>
    requires Runs(w, es)
    decreases |es|
  {
    if es == [] then [] else
      var e, v := es[0], Next(w, es[0]);
      (if !e.Post? && e.granted && v.modes[e.pid] == Asleep(s) then [e.pid] else []) + BlockedOn(v, es[1..], s)
  }

  /** The processes that posts have woken from s, in the order they did. */
  ghost function WokenFrom(w: World, es: seq<Step>, s: nat): seq<nat>
    requires Runs(w, es)
    decreases |es|
  {
    if es == [] then [] else
      WokenNow(w, es[0], s) + WokenFrom(Next(w, es[0]), es[1..], s)
  }

  ghost function WokenNow(w: World, e: Step, s: nat): seq<nat>
    requires Enabled(w, e)
  {
    if p: nat :| Wakes(w, e, s, p) then [p] else []
  }

  lemma {:induction false} QueueStep(w: World, e: Step, s: nat)
    requires QueuesOk(w) && Enabled(w, e) && s < |w.sems|
    ensures var v := Next(w, e);
      && e.pid < |v.modes| && s < |v.sems|
      && w.sems[s].queue + (if !e.Post? && e.granted && v.modes[e.pid] == Asleep(s) then [e.pid] else [])
      == WokenNow(w, e, s) + v.sems[s].queue
    ensures WokenNow(w, e, s) == if e.Post? && e.sem == s && w.sems[s].queue != [] then w.sems[s].queue[..1] else []
  {
    hide Wakes;
    var q := w.sems[s].queue;
    forall p: nat
      ensures Wakes(w, e, s, p) <==> e.Post? && e.sem == s && q != [] && p == q[0]
    {
      PostWakesHead(w, e, s, p);
    }
    if e.Post? && e.sem == s && q != [] {
      assert Wakes(w, e, s, q[0]);
    }
  }

  /** First come, first woken: on every run and under every interleaving, those in the queue at the
      start and then those that blocked are those woken and then those still in the queue, all in
      the same order. */
  lemma {:induction false} FirstComeFirstWoken(w: World, es: seq<Step>, s: nat)
    requires QueuesOk(w) && Runs(w, es) && s < |w.sems|
    ensures s < |After(w, es).sems|
    ensures w.sems[s].queue + BlockedOn(w, es, s) == WokenFrom(w, es, s) + After(w, es).sems[s].queue
    decreases |es|
  {
    hide Next, Enabled, QueuesOk, WokenNow;
    if es != [] {
      var e, v := es[0], Next(w, es[0]);
      NextQueuesOk(w, e);
      QueueStep(w, e, s);
      FirstComeFirstWoken(v, es[1..], s);
      Telescope(w.sems[s].queue, if !e.Post? && e.granted && v.modes[e.pid] == Asleep(s) then [e.pid] else [],
                WokenNow(w, e, s), v.sems[s].queue,
                BlockedOn(v, es[1..], s), WokenFrom(v, es[1..], s), After(v, es[1..]).sems[s].queue);
    }
  }

  /** So nobody is overtaken: with i processes queued before it, a sleeper is the one woken by the
      post after the first i. */
  lemma {:induction false} WokenInTurn(w: World, es: seq<Step>, s: nat, i: nat)
    requires QueuesOk(w) && Runs(w, es) && s < |w.sems| && i < |w.sems[s].queue|
    ensures Posts(es, s) > i <==> i < |WokenFrom(w, es, s)|
    ensures Posts(es, s) > i ==> WokenFrom(w, es, s)[i] == w.sems[s].queue[i]
    decreases |es|
  {
    hide Next, Enabled, QueuesOk, WokenNow;
    FirstComeFirstWoken(w, es, s);
    WokenPerPost(w, es, s, i);
    if Posts(es, s) > i {
      assert (w.sems[s].queue + BlockedOn(w, es, s))[i] == w.sems[s].queue[i];
    }
  }

  lemma {:induction false} WokenPerPost(w: World, es: seq<Step>, s: nat, i: nat)
    requires QueuesOk(w) && Runs(w, es) && s < |w.sems| && i < |w.sems[s].queue|
    ensures Posts(es, s) > i <==> i < |WokenFrom(w, es, s)|
    decreases |es|
  {
    hide Next, Enabled, QueuesOk, WokenNow;
    if es != [] {
      var e, v := es[0], Next(w, es[0]);
      NextQueuesOk(w, e);
      QueueStep(w, e, s);
      if e.Post? && e.sem == s {
        if i > 0 {
          WokenPerPost(v, es[1..], s, i - 1);
        }
      } else {
        WokenPerPost(v, es[1..], s, i);
      }
    }
  }

  // ----- what first woken does not mean -----

  /** A post wakes the sleeper, but before it is dispatched another takes the unit, so it finds none
      and queues up again. */
  function Barge(): seq<Step> {
    [Post(0, 0), Wait(0, 0, true), Resume(1, true)]
  }

  function Barges(n: nat): seq<Step> {
    if n == 0 then [] else Barge() + Barges(n - 1)
  }

  const BARGED := World([Sem(0, [1])], [Active, Asleep(0)])
  const POSTED := World([Sem(1, [])], [Active, Woken(0)])
  const TAKEN := World([Sem(0, [])], [Active, Woken(0)])

  lemma {:induction false} BargeSteps()
    ensures Enabled(BARGED, Post(0, 0)) && Next(BARGED, Post(0, 0)) == POSTED
    ensures Enabled(POSTED, Wait(0, 0, true)) && Next(POSTED, Wait(0, 0, true)) == TAKEN
    ensures Enabled(TAKEN, Resume(1, true)) && Next(TAKEN, Resume(1, true)) == BARGED
    ensures !Completes(BARGED, Post(0, 0))
    ensures Completes(POSTED, Wait(0, 0, true)) && !Completes(TAKEN, Resume(1, true))
  {
    assert [1][1..] == [] && [] + [1] == [1];
    assert BARGED.modes[1 := Woken(0)] == TAKEN.modes;
    assert TAKEN.modes[1 := Asleep(0)] == BARGED.modes && POSTED.modes[0 := Active] == TAKEN.modes;
    assert Give(Sem(0, [1])) == Sem(1, []) && Take(Sem(1, []), 0, true) == Sem(0, []);
    assert Take(Sem(0, []), 1, true) == Sem(0, [1]);
  }

  lemma {:induction false} BargeWakes()
    ensures Enabled(BARGED, Post(0, 0)) && WokenNow(BARGED, Post(0, 0), 0) == [1]
    ensures Enabled(POSTED, Wait(0, 0, true)) && WokenNow(POSTED, Wait(0, 0, true), 0) == []
    ensures Enabled(TAKEN, Resume(1, true)) && WokenNow(TAKEN, Resume(1, true), 0) == []
  {
    assert SemOk(BARGED, 0) && SemOk(POSTED, 0) && SemOk(TAKEN, 0);
    InvIff(BARGED);
    InvIff(POSTED);
    InvIff(TAKEN);
    hide Next, WokenNow;
    QueueStep(BARGED, Post(0, 0), 0);
    QueueStep(POSTED, Wait(0, 0, true), 0);
    QueueStep(TAKEN, Resume(1, true), 0);
  }

  lemma {:induction false} BargeReturns(es: seq<Step>)
    requires Runs(BARGED, es)
    ensures Runs(BARGED, Barge() + es) && After(BARGED, Barge() + es) == After(BARGED, es)
    ensures Posts(Barge() + es, 0) == Posts(es, 0) + 1
    ensures Completed(BARGED, Barge() + es, 0) == Completed(BARGED, es, 0) + 1
    ensures WokenFrom(BARGED, Barge() + es, 0) == [1] + WokenFrom(BARGED, es, 0)
  {
    hide Next, Enabled, Completes, WokenNow;
    BargeSteps();
    BargeWakes();
    var a, b, c := Post(0, 0), Wait(0, 0, true), Resume(1, true);
    var fs := Barge() + es;
    assert fs[0] == a && fs[1..][0] == b && fs[1..][1..][0] == c && fs[1..][1..][1..] == es;
    var hs := fs[1..][1..];
    assert Runs(TAKEN, hs) && After(TAKEN, hs) == After(BARGED, es);
    assert Completed(TAKEN, hs, 0) == Completed(BARGED, es, 0) && WokenFrom(TAKEN, hs, 0) == WokenFrom(BARGED, es, 0);
    var gs := fs[1..];
    assert Posts(hs, 0) == Posts(es, 0) == Posts(gs, 0);
    assert Runs(POSTED, gs) && After(POSTED, gs) == After(BARGED, es);
    assert Target(POSTED, b) == 0 && Completed(POSTED, gs, 0) == Completed(BARGED, es, 0) + 1;
    assert WokenFrom(POSTED, gs, 0) == WokenFrom(BARGED, es, 0);
  }

  /** For every n there is a run in which a sleeper is woken n times, by as many posts, and still
      sleeps, because each unit goes to another process first. */
  lemma {:induction false} BargingStarves(n: nat)
    ensures Runs(BARGED, Barges(n)) && After(BARGED, Barges(n)) == BARGED
    ensures Posts(Barges(n), 0) == n == Completed(BARGED, Barges(n), 0)
    ensures |WokenFrom(BARGED, Barges(n), 0)| == n
    ensures forall p :: p in WokenFrom(BARGED, Barges(n), 0) ==> p == 1
  {
    hide Next, Enabled, Barge;
    if n > 0 {
      BargingStarves(n - 1);
      BargeReturns(Barges(n - 1));
    }
  }
}
