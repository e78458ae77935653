/** The sync test on the kernel's semaphore table: each step of a worker is what its call does to the
    table, and the handle it was given stays good while it holds it. */
module SyncOnTable {
  import opened SemaphoreSlots
  import Semaphore = SemaphoreSpec
  import opened SyncWorkers

  /** The table shows the workers' semaphore: its slot while in use, and no slot otherwise. */
  ghost predicate Shows(table: seq<Slot>, name: string, t: Sync) {
    && SlotsOk(table) && Shaped(t)
    && var i := FirstNamed(table, name);
       if t.used then i >= 0 && table[i] == Used(name, t.world.sems[0], t.linked) else i == -1
  }

  /** What the system call of worker p does to the table; its accesses to the counter do nothing. */
  function TableCall(table: seq<Slot>, name: string, w: Worker, p: nat, memory: bool): Op {
    var i := FirstNamed(table, name);
    if w.pc.Opening? then Open(name, 1, memory)
    else if w.pc.Closing? then Close(i)
    else if i >= 0 && w.pc.Waiting? then Use(i, Semaphore.Take(table[i].sem, p, true))
    else if i >= 0 && w.pc.Posting? then Use(i, Semaphore.Give(table[i].sem))
    else Use(-1, Semaphore.Sem(0, []))
  }

  lemma {:induction false} OpenOnTable(t: Sync, table: seq<Slot>, name: string, p: nat, memory: bool)
    requires SyncInv(t) && CanStep(t, p) && ModeOk(t, p) && Shows(table, name, t) && t.workers[p].pc == Opening
    ensures var r, u := SemaphoreSlots.Opened(table, name, 1, memory), NextSync(t, p, memory && FirstEmpty(table) >= 0);
      && Shows(r.0, name, u) && (u.workers[p].pc == Refused <==> r.1 == -1)
      && (u.workers[p].pc == Waiting <==> r.1 >= 0 && r.1 == FirstNamed(r.0, name))
  {
    Bounded(Members(t.workers), |t.workers|);
    StepOk(table, Open(name, 1, memory));
    var r := SemaphoreSlots.Opened(table, name, 1, memory);
    if r.1 != -1 {
      NamedOnce(r.0, name, r.1);
    }
  }

  lemma {:induction false} CloseOnTable(t: Sync, table: seq<Slot>, name: string, p: nat)
    requires SyncInv(t) && CanStep(t, p) && ModeOk(t, p) && Shows(table, name, t) && t.workers[p].pc == Closing
    ensures var i := FirstNamed(table, name);
      && i >= 0 && Shows(SemaphoreSlots.Closed(table, i), name, NextSync(t, p, true))
  {
    AMember(t, p);
    var i := FirstNamed(table, name);
    StepOk(table, Close(i));
    if t.linked == 1 {
      NameGone(table, name, i);
    } else {
      NamedOnce(SemaphoreSlots.Closed(table, i), name, i);
    }
  }

  /** Each step of a worker is its call on the table. No other semaphore changes, the slot of the name
      stays where it is while in use, and an open is refused exactly when the table refuses it. */
  lemma {:induction false} StepOnTable(t: Sync, table: seq<Slot>, name: string, p: nat, memory: bool)
    requires SyncInv(t) && CanStep(t, p) && ModeOk(t, p) && Shows(table, name, t)
    ensures var u, now := NextSync(t, p, memory && FirstEmpty(table) >= 0),
                          Call(table, TableCall(table, name, t.workers[p], p, memory));
      && Shows(now, name, u)
      && (t.used && u.used ==> FirstNamed(now, name) == FirstNamed(table, name))
      && (t.workers[p].pc == Opening ==>
            var answer := SemaphoreSlots.Opened(table, name, 1, memory).1;
            if u.workers[p].pc == Refused then answer == -1 else answer == FirstNamed(now, name) >= 0)
      && (forall i :: InUse(table, i) && table[i].name != name ==> now[i] == table[i])
  {
    var op := TableCall(table, name, t.workers[p], p, memory);
    var now := Call(table, op);
    StepOk(table, op);
    var i := FirstNamed(table, name);
    if t.workers[p].pc == Opening {
      OpenOnTable(t, table, name, p, memory);
    } else if t.workers[p].pc == Closing {
      CloseOnTable(t, table, name, p);
    } else {
      AMember(t, p);
      NamedOnce(now, name, i);
    }
  }
}
