/** The semaphore table on values: what opening and closing do to its slots, and how the links of a
    name count those who hold it. */
module SemaphoreSlots {
  import opened SemaphoreSpec

  const LINKS := 256   // linked_processes is a uint8_t

  /** A slot of the table as a value. */
  datatype Slot = Empty | Used(name: string, sem: Sem, linked: nat)

  /** The first slot of that name, or -1. */
  function FirstNamed(table: seq<Slot>, name: string): (r: int)
    ensures -1 <= r < |table|
    ensures r >= 0 ==> table[r].Used? && table[r].name == name
    ensures forall i :: 0 <= i < (if r >= 0 then r else |table|) ==> table[i].Used? ==> table[i].name != name
  {
    if table == [] then -1
    else if table[0].Used? && table[0].name == name then 0
    else
      var r := FirstNamed(table[1..], name);
      if r < 0 then -1 else r + 1
  }

  /** The first empty slot, or -1. */
  function FirstEmpty(table: seq<Slot>): (r: int)
    ensures -1 <= r < |table|
    ensures r >= 0 ==> table[r].Empty?
    ensures forall i :: 0 <= i < (if r >= 0 then r else |table|) ==> table[i].Used?
  {
    if table == [] then -1
    else if table[0].Empty? then 0
    else
      var r := FirstEmpty(table[1..]);
      if r < 0 then -1 else r + 1
  }

  /** sem_open: the table after it, and the answer. */
  function Opened(table: seq<Slot>, name: string, initialValue: nat, granted: bool): (seq<Slot>, int) {
    var named, empty := FirstNamed(table, name), FirstEmpty(table);
    if named >= 0 then (table[named := table[named].(linked := (table[named].linked + 1) % LINKS)], named)
    else if granted && empty >= 0 then (table[empty := Used(name, Sem(initialValue, []), 1)], empty)
    else (table, -1)
  }

  predicate InUse(table: seq<Slot>, sem: int) {
    0 <= sem < |table| && table[sem].Used?
  }

  /** sem_close: the table after it. */
  function Closed(table: seq<Slot>, sem: int): seq<Slot> {
    if !InUse(table, sem) then table
    else table[sem := if table[sem].linked == 1 then Empty
                      else table[sem].(linked := (table[sem].linked + LINKS - 1) % LINKS)]
  }

  // ----- one call -----

  /** No two slots have the same name, and the links fit their byte. */
  ghost predicate SlotsOk(table: seq<Slot>) {
    && (forall i, j :: 0 <= i < j < |table| && table[i].Used? && table[j].Used? ==> table[i].name != table[j].name)
    && (forall i :: 0 <= i < |table| && table[i].Used? ==> table[i].linked < LINKS)
  }

  /** An open that succeeds answers a slot of that name. It keeps the value and the queue of a
      semaphore that was there, makes one with the value asked for otherwise, and touches no other
      slot; it fails only when it would have to make one and cannot, and changes nothing. */
  lemma {:induction false} OpenJoinsOrMakes(table: seq<Slot>, name: string, initialValue: nat, granted: bool)
    ensures var u, r := Opened(table, name, initialValue, granted).0, Opened(table, name, initialValue, granted).1;
      && |u| == |table|
      && (r == -1 ==> u == table && (forall i :: InUse(table, i) ==> table[i].name != name)
                      && (!granted || forall i :: 0 <= i < |table| ==> table[i].Used?))
      && (r != -1 ==> InUse(u, r) && u[r].name == name
                      && (forall i :: 0 <= i < |table| && i != r ==> u[i] == table[i])
                      && if InUse(table, r)
                         then table[r].name == name && u[r].sem == table[r].sem
                              && u[r].linked == (table[r].linked + 1) % 256
                         else granted && u[r].sem == Sem(initialValue, []) && u[r].linked == 1)
  {
  }

  /** A slot is freed exactly by the close that finds its last link, and filled only by an open. */
  lemma {:induction false} FreedByLastClose(table: seq<Slot>, op: Op, i: nat)
    requires i < |table|
    ensures |Call(table, op)| == |table|
    ensures table[i].Used? && Call(table, op)[i].Empty? <==> op == Close(i) && table[i].Used? && table[i].linked == 1
    ensures table[i].Empty? && Call(table, op)[i].Used? ==> op.Open? && Call(table, op)[i].name == op.name
    ensures table[i].Used? && Call(table, op)[i].Used? ==> Call(table, op)[i].name == table[i].name
    ensures table[i].Used? && !op.Use? && Call(table, op)[i].Used? ==> Call(table, op)[i].sem == table[i].sem
  {
  }

  // ----- any calls -----

  /** An open, a close, or any wait or post on a slot. */
  datatype Op = Open(name: string, initialValue: nat, granted: bool) | Close(sem: int) | Use(slot: int, now: Sem)

  function Call(table: seq<Slot>, op: Op): seq<Slot> {
    match op
    case Open(name, initialValue, granted) => Opened(table, name, initialValue, granted).0
    case Close(sem) => Closed(table, sem)
    case Use(slot, now) => if InUse(table, slot) then table[slot := table[slot].(sem := now)] else table
  }

  function CallAll(table: seq<Slot>, ops: seq<Op>): seq<Slot>
    decreases |ops|
  {
    if ops == [] then table else CallAll(Call(table, ops[0]), ops[1..])
  }

  /** The links of a name, 0 when no slot has it. */
  function Links(table: seq<Slot>, name: string): nat {
    var r := FirstNamed(table, name);
    if r < 0 then 0 else table[r].linked
  }

  /** An open of the name that succeeds. */
  predicate GetsIn(table: seq<Slot>, op: Op, name: string) {
    op.Open? && op.name == name && Opened(table, name, op.initialValue, op.granted).1 != -1
  }

  /** A close of the slot that has the name. */
  predicate GetsOut(table: seq<Slot>, op: Op, name: string) {
    op.Close? && InUse(table, op.sem) && table[op.sem].name == name
  }

  /** What one call adds to the holders of a name. */
  function Change(table: seq<Slot>, op: Op, name: string): int {
    if GetsIn(table, op, name) then 1 else if GetsOut(table, op, name) then -1 else 0
  }

  /** The successful opens of a name minus its closes. */
  function Holders(table: seq<Slot>, ops: seq<Op>, name: string): int
    decreases |ops|
  {
    if ops == [] then 0 else Change(table, ops[0], name) + Holders(Call(table, ops[0]), ops[1..], name)
  }

  /** Opens that find the byte at its top, minus closes that find it at 0. */
  function Overflows(table: seq<Slot>, ops: seq<Op>, name: string): int
    decreases |ops|
  {
    if ops == [] then 0 else Overflow(table, ops[0], name) + Overflows(Call(table, ops[0]), ops[1..], name)
  }

  function Overflow(table: seq<Slot>, op: Op, name: string): int {
    if FirstNamed(table, name) < 0 then 0
    else if GetsIn(table, op, name) && Links(table, name) == LINKS - 1 then 1
    else if GetsOut(table, op, name) && Links(table, name) == 0 then -1
    else 0
  }

  lemma {:induction false} NamedOnce(table: seq<Slot>, name: string, i: nat)
    requires SlotsOk(table) && InUse(table, i) && table[i].name == name
    ensures FirstNamed(table, name) == i
  {
  }

  lemma {:induction false} StepOk(table: seq<Slot>, op: Op)
    requires SlotsOk(table)
    ensures SlotsOk(Call(table, op)) && |Call(table, op)| == |table|
  {
  }

  /** A name whose slot is not touched keeps its links. */
  lemma {:induction false} SameLinks(table: seq<Slot>, now: seq<Slot>, name: string)
    requires SlotsOk(table) && SlotsOk(now) && |now| == |table|
    requires forall i :: 0 <= i < |table| ==>
               (InUse(now, i) && now[i].name == name <==> InUse(table, i) && table[i].name == name)
    requires forall i :: InUse(now, i) && now[i].name == name && InUse(table, i) ==> now[i].linked == table[i].linked
    ensures FirstNamed(now, name) == FirstNamed(table, name) && Links(now, name) == Links(table, name)
  {
    var r := FirstNamed(table, name);
    if r >= 0 {
      NamedOnce(now, name, r);
    }
  }

  lemma {:induction false} LinksStep(table: seq<Slot>, op: Op, name: string)
    requires SlotsOk(table)
    ensures SlotsOk(Call(table, op))
    ensures Links(Call(table, op), name)
         == Links(table, name) + Change(table, op, name) - LINKS * Overflow(table, op, name)
    ensures FirstNamed(Call(table, op), name) >= 0
       <==> GetsIn(table, op, name)
            || (FirstNamed(table, name) >= 0 && !(GetsOut(table, op, name) && Links(table, name) == 1))
  {
    StepOk(table, op);
    var now := Call(table, op);
    hide SlotsOk;
    if GetsIn(table, op, name) {
      NamedOnce(now, name, Opened(table, name, op.initialValue, op.granted).1);
    } else if GetsOut(table, op, name) {
      NamedOnce(table, name, op.sem);
      if table[op.sem].linked != 1 {
        NamedOnce(now, name, op.sem);
      } else {
        NameGone(table, name, op.sem);
      }
    } else {
      SameLinks(table, now, name);
    }
  }

  lemma {:induction false} NameGone(table: seq<Slot>, name: string, i: nat)
    requires SlotsOk(table) && InUse(table, i) && table[i].name == name
    ensures FirstNamed(table[i := Empty], name) == -1
  {
  }

  /** Over any sequence of opens, closes, waits and posts, the links of a name are what they were,
      plus its successful opens, minus its closes, minus 256 for each time the byte wrapped. */
  lemma {:induction false} LinksConserved(table: seq<Slot>, ops: seq<Op>, name: string)
    requires SlotsOk(table)
    ensures SlotsOk(CallAll(table, ops))
    ensures Links(CallAll(table, ops), name)
         == Links(table, name) + Holders(table, ops, name) - LINKS * Overflows(table, ops, name)
    decreases |ops|
  {
    hide Call, Change, Overflow, SlotsOk, Links;
    if ops != [] {
      LinksStep(table, ops[0], name);
      LinksConserved(Call(table, ops[0]), ops[1..], name);
    }
  }

  /** So they are right modulo 256, and right if and only if the byte wrapped as often up as down. */
  lemma {:induction false} LinksModulo(table: seq<Slot>, ops: seq<Op>, name: string)
    requires SlotsOk(table)
    ensures Links(CallAll(table, ops), name) == (Links(table, name) + Holders(table, ops, name)) % LINKS
    ensures Links(CallAll(table, ops), name) == Links(table, name) + Holders(table, ops, name)
       <==> Overflows(table, ops, name) == 0
  {
    LinksConserved(table, ops, name);
    assert Links(CallAll(table, ops), name) < LINKS;
  }

  /** No open of the name finds the byte at its top. */
  predicate NeverAtTop(table: seq<Slot>, ops: seq<Op>, name: string)
    decreases |ops|
  {
    ops == []
    || (!(GetsIn(table, ops[0], name) && Links(table, name) == LINKS - 1)
        && NeverAtTop(Call(table, ops[0]), ops[1..], name))
  }

  /** A slot in use for the name has a link. */
  predicate Linked(table: seq<Slot>, name: string) {
    FirstNamed(table, name) >= 0 <==> Links(table, name) > 0
  }

  /** As long as no open finds 255 links, the name is in the table exactly while somebody holds it:
      no close frees it under another holder, and the last one frees it. */
  lemma {:induction false} KeptWhileHeld(table: seq<Slot>, ops: seq<Op>, name: string)
    requires SlotsOk(table) && Linked(table, name) && NeverAtTop(table, ops, name)
    ensures var u, held := CallAll(table, ops), Links(table, name) + Holders(table, ops, name);
      && Links(u, name) == held && (FirstNamed(u, name) >= 0 <==> held > 0)
    decreases |ops|
  {
    hide Call, Change, SlotsOk, Links, GetsIn, GetsOut;
    if ops != [] {
      LinksStep(table, ops[0], name);
      LinkedStep(table, ops[0], name);
      KeptWhileHeld(Call(table, ops[0]), ops[1..], name);
    }
  }

  lemma {:induction false} LinkedStep(table: seq<Slot>, op: Op, name: string)
    requires SlotsOk(table) && Linked(table, name)
    requires !(GetsIn(table, op, name) && Links(table, name) == LINKS - 1)
    ensures Linked(Call(table, op), name) && Overflow(table, op, name) == 0
  {
    LinksStep(table, op, name);
    hide Call, SlotsOk;
    if GetsOut(table, op, name) {
      NamedOnce(table, name, op.sem);
    }
  }

  function OpensOf(name: string, n: nat): seq<Op> {
    if n == 0 then [] else [Open(name, 1, true)] + OpensOf(name, n - 1)
  }

  lemma {:induction false} ManyOpens(name: string, sem: Sem, linked: nat, n: nat)
    requires linked < LINKS
    ensures CallAll([Used(name, sem, linked)], OpensOf(name, n)) == [Used(name, sem, (linked + n) % LINKS)]
    ensures Holders([Used(name, sem, linked)], OpensOf(name, n), name) == n
    decreases n
  {
    if n > 0 {
      var ops := OpensOf(name, n);
      assert ops[1..] == OpensOf(name, n - 1);
      assert Call([Used(name, sem, linked)], ops[0]) == [Used(name, sem, (linked + 1) % LINKS)];
      ManyOpens(name, sem, (linked + 1) % LINKS, n - 1);
    }
  }

  /** At 255 links it goes wrong: with 256 more opens than closes, one more close frees the slot. */
  lemma {:induction false} FreedUnderHolders(name: string, sem: Sem)
    ensures var t := [Used(name, sem, 1)];
      var u := CallAll(t, OpensOf(name, 256));
      Links(t, name) + Holders(t, OpensOf(name, 256), name) == 257 && Call(u, Close(0)) == [Empty]
  {
    ManyOpens(name, sem, 1, 256);
  }
}
