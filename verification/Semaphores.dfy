/** The kernel's semaphore table: slots, locks and wait queues, changed in place. */
module Semaphores {
  import opened SchedulerSpec
  import opened Scheduler
  import WaitQueueSpec
  import opened SemaphoreSpec
  import opened SemaphoreSlots

  const MAX_SEMAPHORES := 32
  const MAX_NAME := 32

  class SemInfo {
    var value: nat
    var locked: bool
    var linked: nat
    var name: string
    var waiting: seq<nat>

    constructor (initialValue: nat, name: string)
      ensures value == initialValue && !locked && linked == 1 && this.name == name && waiting == []
    {
      value, locked, linked, waiting, this.name := initialValue, false, 1, [], name;
    }

    ghost function Model(): Sem
      reads this
    {
      Sem(value, waiting)
    }

    /** asm_lock spins until the lock is free; with interrupts off nobody could free it, so
        callers must know that it is. */
    method Lock()
      requires !locked
      modifies this`locked
      ensures locked
    {
      locked := true;
    }

    method Unlock()
      modifies this`locked
      ensures !locked
    {
      locked := false;
    }
  }

  class SemaphoreTable {
    const semaphores: array<SemInfo?>
    const sch: SchedulerState
    var bigLocked: bool

    ghost function Infos(): set<SemInfo>
      reads semaphores
    {
      set s: SemInfo | s in semaphores[..]
    }

    ghost function SlotAt(i: nat): Slot
      requires i < semaphores.Length
      reads semaphores, Infos()
    {
      if semaphores[i] == null then Empty
      else Used(semaphores[i].name, semaphores[i].Model(), semaphores[i].linked)
    }

    /** The whole table as a value. */
    ghost function View(): (v: seq<Slot>)
      reads semaphores, Infos()
      ensures |v| == semaphores.Length && forall i :: 0 <= i < |v| ==> v[i] == SlotAt(i)
    {
      seq(semaphores.Length, i requires 0 <= i < semaphores.Length reads semaphores, Infos() => SlotAt(i))
    }

    /** Between system calls every lock is free. */
    ghost predicate Valid()
      reads this, semaphores, Infos(), sch, sch.processesStates
    {
      TableOk() && LocksFree() && !bigLocked && sch.Valid()
    }

    /** The counters fit a byte, and no two slots share a semaphore. */
    ghost predicate TableOk()
      reads semaphores, Infos()
    {
      && semaphores.Length == MAX_SEMAPHORES
      && (forall i :: 0 <= i < MAX_SEMAPHORES && semaphores[i] != null ==>
            semaphores[i].value < COUNTER && semaphores[i].linked < 256)
      && (forall i, j :: 0 <= i < j < MAX_SEMAPHORES && semaphores[i] != null ==> semaphores[i] != semaphores[j])
    }

    ghost predicate LocksFree()
      reads semaphores, Infos()
    {
      forall s :: s in Infos() ==> !s.locked
    }

    predicate ValidSem(sem: int)
      requires semaphores.Length == MAX_SEMAPHORES
      reads semaphores
    {
      0 <= sem < MAX_SEMAPHORES && semaphores[sem] != null
    }

    /** Working on one semaphore changes one slot of the view and one lock. */
    twostate lemma OneSlot(sem: int)
      requires old(TableOk()) && old(ValidSem(sem))
      requires semaphores[..] == old(semaphores[..])
      requires forall s: SemInfo :: s in Infos() && s != semaphores[sem] ==> unchanged(s)
      ensures View() == old(View())[sem := SlotAt(sem)]
      ensures semaphores[sem].value < COUNTER && semaphores[sem].linked < 256 ==> TableOk()
      ensures old(LocksFree()) && !semaphores[sem].locked ==> LocksFree()
    {
      assert Infos() == old(Infos());
      forall i | 0 <= i < MAX_SEMAPHORES && i != sem
        ensures SlotAt(i) == old(SlotAt(i))
        ensures semaphores[i] != null ==>
                  semaphores[i].value == old(semaphores[i].value) && semaphores[i].linked == old(semaphores[i].linked)
      {
        assert semaphores[i] == semaphores[..][i] && semaphores[..][i] == old(semaphores[..])[i];
        if semaphores[i] != null {
          assert semaphores[i] in Infos() && unchanged(semaphores[i]);
        }
      }
    }

    constructor (sch: SchedulerState)
      requires sch.Valid()
      ensures Valid() && fresh(semaphores) && this.sch == sch
      ensures View() == seq(MAX_SEMAPHORES, _ => Empty)
    {
      this.sch := sch;
      bigLocked := false;
      semaphores := new SemInfo?[MAX_SEMAPHORES](_ => null);
    }

    method LockBig()
      requires !bigLocked
      modifies this`bigLocked
      ensures bigLocked
    {
      bigLocked := true;
    }

    method UnlockBig()
      modifies this`bigLocked
      ensures !bigLocked
    {
      bigLocked := false;
    }

    /** sem_wait up to its return or its first yield; asleep says which, and granted whether there is
        memory for the queue's node. */
    method Wait(sem: int, granted: bool) returns (r: int, asleep: bool)
      requires Valid() && sch.currentRunningPid >= 0
      modifies this`bigLocked, Infos(), sch, sch.processesStates
      ensures Valid()
      ensures !old(ValidSem(sem)) ==> r == -1 && !asleep && View() == old(View()) && sch.Model() == old(sch.Model())
      ensures old(ValidSem(sem)) ==>
                var pid, slot := old(sch.currentRunningPid), old(View())[sem];
                && r == 0 && (asleep <==> slot.sem.value == 0)
                && View() == old(View())[sem := slot.(sem := Take(slot.sem, pid, granted))]
                && sch.Model() == if asleep then Block(old(sch.Model()), pid) else old(sch.Model())
    {
      LockBig();
      if !ValidSem(sem) {
        UnlockBig();
        return -1, false;
      }
      semaphores[sem].Lock();
      UnlockBig();
      asleep := WaitPass(sem, granted);
      r := 0;
      OneSlot(sem);
    }

    /** The rest of sem_wait when the sleeper is dispatched again: only the semaphore's own lock is taken. */
    method Resume(sem: int, granted: bool) returns (asleep: bool)
      requires Valid() && ValidSem(sem) && sch.currentRunningPid >= 0
      modifies Infos(), sch, sch.processesStates
      ensures Valid()
      ensures var pid, slot := old(sch.currentRunningPid), old(View())[sem];
        && (asleep <==> slot.sem.value == 0)
        && View() == old(View())[sem := slot.(sem := Take(slot.sem, pid, granted))]
        && sch.Model() == if asleep then Block(old(sch.Model()), pid) else old(sch.Model())
    {
      semaphores[sem].Lock();
      asleep := WaitPass(sem, granted);
      OneSlot(sem);
    }

    /** One test of the loop condition, with the lock held. */
    method WaitPass(sem: int, granted: bool) returns (asleep: bool)
      requires semaphores.Length == MAX_SEMAPHORES && ValidSem(sem) && sch.Valid() && sch.currentRunningPid >= 0
      requires semaphores[sem].locked
      modifies semaphores[sem], sch, sch.processesStates
      ensures sch.Valid() && !semaphores[sem].locked
      ensures semaphores[sem].name == old(semaphores[sem].name) && semaphores[sem].linked == old(semaphores[sem].linked)
      ensures var pid := old(sch.currentRunningPid);
        && (asleep <==> old(semaphores[sem].value) == 0)
        && semaphores[sem].Model() == Take(old(semaphores[sem].Model()), pid, granted)
        && semaphores[sem].waiting == old(semaphores[sem].waiting) + (if asleep && granted then [pid] else [])
        && sch.Model() == if asleep then Block(old(sch.Model()), pid) else old(sch.Model())
    {
      var s := semaphores[sem];
      var pid := sch.currentRunningPid;
      asleep := s.value == 0;
      if asleep {
        if granted {
          s.waiting := s.waiting + [pid];
        }
        s.Unlock();
        var _ := sch.BlockPid(pid);
      } else {
        s.value := s.value - 1;
        s.Unlock();
      }
    }

    method Post(sem: int) returns (r: int)
      requires Valid()
      modifies this`bigLocked, Infos(), sch, sch.processesStates
      ensures Valid()
      ensures !old(ValidSem(sem)) ==> r == -1 && View() == old(View()) && sch.Model() == old(sch.Model())
      ensures old(ValidSem(sem)) ==>
                var slot := old(View())[sem];
                && r == 0 && View() == old(View())[sem := slot.(sem := Give(slot.sem))]
                && sch.Model() == if slot.sem.queue == [] then old(sch.Model())
                                  else Unblock(old(sch.Model()), slot.sem.queue[0])
    {
      LockBig();
      if !ValidSem(sem) {
        UnlockBig();
        return -1;
      }
      semaphores[sem].Lock();
      UnlockBig();
      Deliver(sem);
      r := 0;
      OneSlot(sem);
    }

    /** The unit is added and the first waiter woken, with the lock held. */
    method Deliver(sem: int)
      requires semaphores.Length == MAX_SEMAPHORES && ValidSem(sem) && sch.Valid() && semaphores[sem].locked
      modifies semaphores[sem], sch, sch.processesStates
      ensures sch.Valid() && !semaphores[sem].locked
      ensures semaphores[sem].name == old(semaphores[sem].name) && semaphores[sem].linked == old(semaphores[sem].linked)
      ensures semaphores[sem].Model() == Give(old(semaphores[sem].Model()))
      ensures sch.Model() == if old(semaphores[sem].waiting) == [] then old(sch.Model())
                             else Unblock(old(sch.Model()), old(semaphores[sem].waiting)[0])
    {
      var s := semaphores[sem];
      s.value := (s.value + 1) % COUNTER;
      if s.waiting != [] {
        var head := s.waiting[0];
        s.waiting := s.waiting[1..];
        var _ := sch.UnblockPid(head);
      }
      s.Unlock();
    }

    method SearchSemaphore(name: string) returns (r: int)
      requires semaphores.Length == MAX_SEMAPHORES
      ensures r == FirstNamed(View(), name)
    {
      ghost var v := View();
      r := 0;
      while r < MAX_SEMAPHORES
        invariant 0 <= r <= MAX_SEMAPHORES
        invariant forall i :: 0 <= i < r ==> v[i].Used? ==> v[i].name != name
      {
        assert v[r] == SlotAt(r);
        if semaphores[r] != null && semaphores[r].name == name {
          return;
        }
        r := r + 1;
      }
      r := -1;
    }

    method SearchNext() returns (r: int)
      requires semaphores.Length == MAX_SEMAPHORES
      ensures r == FirstEmpty(View())
    {
      ghost var v := View();
      r := 0;
      while r < MAX_SEMAPHORES
        invariant 0 <= r <= MAX_SEMAPHORES
        invariant forall i :: 0 <= i < r ==> v[i].Used?
      {
        assert v[r] == SlotAt(r);
        if semaphores[r] == null {
          return;
        }
        r := r + 1;
      }
      r := -1;
    }

    method Join(i: int)
      requires TableOk() && LocksFree() && ValidSem(i)
      modifies Infos()
      ensures TableOk() && LocksFree()
      ensures View() == old(View())[i := old(View())[i].(linked := (old(View())[i].linked + 1) % 256)]
    {
      semaphores[i].linked := (semaphores[i].linked + 1) % 256;
      OneSlot(i);
    }

    /** create: a new semaphore in an empty slot; granted says whether memory can be had. */
    method CreateSlot(i: int, name: string, initialValue: nat, granted: bool) returns (r: int)
      requires TableOk() && LocksFree() && 0 <= i < MAX_SEMAPHORES && semaphores[i] == null && initialValue < COUNTER
      modifies semaphores
      ensures TableOk() && LocksFree() && r == (if granted then i else -1)
      ensures View() == if granted then old(View())[i := Used(name, Sem(initialValue, []), 1)] else old(View())
    {
      if !granted {
        return -1;
      }
      var s := new SemInfo(initialValue, name);
      semaphores[i] := s;
      r := i;
      forall j | 0 <= j < MAX_SEMAPHORES && j != i
        ensures SlotAt(j) == old(SlotAt(j))
      {
      }
    }

    /** sem_open: joins the semaphore of that name, or makes one in the first free slot. */
    method Open(name: string, initialValue: nat, granted: bool) returns (r: int)
      requires Valid() && |name| < MAX_NAME && initialValue < COUNTER
      modifies this`bigLocked, semaphores, Infos()
      ensures Valid() && (View(), r) == Opened(old(View()), name, initialValue, granted)
      ensures r != -1 ==> InUse(View(), r) && View()[r].name == name
                          && View()[r].linked == if InUse(old(View()), r) then (old(View())[r].linked + 1) % 256 else 1
    {
      hide Opened;
      OpenJoinsOrMakes(View(), name, initialValue, granted);
      LockBig();
      assert View() == old(View());
      r := OpenLocked(name, initialValue, granted);
      label done:
      UnlockBig();
      assert View() == old@done(View());
    }

    method OpenLocked(name: string, initialValue: nat, granted: bool) returns (r: int)
      requires TableOk() && LocksFree() && initialValue < COUNTER
      modifies semaphores, Infos()
      ensures TableOk() && LocksFree() && (View(), r) == Opened(old(View()), name, initialValue, granted)
    {
      hide FirstNamed, FirstEmpty, LocksFree;
      r := SearchSemaphore(name);
      if r != -1 {
        assert View()[r] == SlotAt(r);
        Join(r);
        return;
      }
      r := SearchNext();
      if r != -1 {
        assert View()[r] == SlotAt(r);
        r := CreateSlot(r, name, initialValue, granted);
      }
    }

    /** free: everyone still queued is woken, and the slot is empty again. */
    method FreeSlot(sem: int)
      requires TableOk() && ValidSem(sem) && sch.Valid()
      requires forall s :: s in Infos() && s != semaphores[sem] ==> !s.locked
      modifies semaphores, semaphores[sem], sch, sch.processesStates
      ensures TableOk() && LocksFree() && sch.Valid()
      ensures View() == old(View())[sem := Empty]
      ensures sch.Model() == WaitQueueSpec.UnblockAll(old(sch.Model()), old(semaphores[sem].waiting))
    {
      var s := semaphores[sem];
      sch.UnblockQueue(s.waiting);
      s.Unlock();
      semaphores[sem] := null;
      forall j | 0 <= j < MAX_SEMAPHORES && j != sem
        ensures SlotAt(j) == old(SlotAt(j))
      {
      }
    }

    /** sem_close: one link fewer; the last one frees the slot and wakes whoever still waits. */
    method Close(sem: int) returns (r: int)
      requires Valid()
      modifies this`bigLocked, semaphores, Infos(), sch, sch.processesStates
      ensures Valid()
      ensures View() == Closed(old(View()), sem)
      ensures !old(ValidSem(sem)) ==> r == -1 && sch.Model() == old(sch.Model())
      ensures old(ValidSem(sem)) ==>
                var slot := old(View())[sem];
                && r == 0
                && sch.Model() == if slot.linked == 1
                                  then WaitQueueSpec.UnblockAll(old(sch.Model()), slot.sem.queue)
                                  else old(sch.Model())
    {
      hide WaitQueueSpec.UnblockAll;
      LockBig();
      if !ValidSem(sem) {
        UnlockBig();
        return -1;
      }
      semaphores[sem].Lock();
      UnlockBig();
      OneSlot(sem);
      assert View() == old(View());
      r := 0;
      Unlink(sem);
    }

    /** The end of sem_close, with the semaphore's lock held. */
    method Unlink(sem: int)
      requires TableOk() && ValidSem(sem) && sch.Valid()
      requires forall s :: s in Infos() && s != semaphores[sem] ==> !s.locked
      modifies semaphores, Infos(), sch, sch.processesStates
      ensures TableOk() && LocksFree() && sch.Valid()
      ensures var slot := old(View())[sem];
        && View() == old(View())[sem := if slot.linked == 1 then Empty
                                        else slot.(linked := (slot.linked + 255) % 256)]
        && sch.Model() == if slot.linked == 1
                          then WaitQueueSpec.UnblockAll(old(sch.Model()), slot.sem.queue)
                          else old(sch.Model())
    {
      hide WaitQueueSpec.UnblockAll;
      if semaphores[sem].linked == 1 {
        semaphores[sem].linked := 0;
        OneSlot(sem);
        FreeSlot(sem);
        return;
      }
      semaphores[sem].linked := (semaphores[sem].linked + 255) % 256;
      semaphores[sem].Unlock();
      OneSlot(sem);
    }
  }
}
