/** Pipes on values: what one pass of a read or a write does, and runs of blocking readers and
    writers on one pipe. */
module PipeSpec {
  import opened Sums

  const BUFFER_MAX_SIZE := 4096

  newtype byte = b: int | 0 <= b < 256

  type Bytes = seq<byte>

  /** The bytes held, oldest first, and the two wait queues. */
  datatype PipeState = PipeState(held: Bytes, rdQ: seq<int>, wrQ: seq<int>)

  function Min(a: nat, b: nat): nat {
    if a < b then a else b
  }

  /** read_pipe_buffer: a pipe that held anything has its writers woken, whatever was asked for. */
  function ReadPipe(s: PipeState, count: nat): (r: (PipeState, Bytes))
    ensures r.1 + r.0.held == s.held
  {
    var n := Min(count, |s.held|);
    if s.held == [] then (s, [])
    else (s.(held := s.held[n..], wrQ := []), s.held[..n])
  }

  /** write_pipe_buffer, for a buffer that can always grow: how much is taken, and the state after. */
  function WritePipe(s: PipeState, data: Bytes): (r: (PipeState, nat))
    requires |s.held| <= BUFFER_MAX_SIZE
    ensures r.1 <= |data| && r.0.held == s.held + data[..r.1] && |r.0.held| <= BUFFER_MAX_SIZE
  {
    var n := Min(|data|, BUFFER_MAX_SIZE - |s.held|);
    if n == 0 then (s, 0) else (s.(held := s.held + data[..n], rdQ := []), n)
  }

  /** A read is answered with the longest prefix it asks for: short only when the pipe is empty after. */
  lemma {:induction false} ReadsLongestPrefix(s: PipeState, count: nat)
    ensures var r := ReadPipe(s, count);
      && |r.1| <= count && (|r.1| == count || r.0.held == []) && r.1 + r.0.held == s.held
      && r.0.rdQ == s.rdQ && r.0.wrQ == (if s.held == [] then s.wrQ else [])
  {
  }

  /** Two reads in a row give the bytes of one read of as many, and leave the same pipe. */
  lemma {:induction false} ReadSplits(s: PipeState, a: nat, b: nat)
    ensures var r := ReadPipe(s, a);
      var q := ReadPipe(r.0, b);
      ReadPipe(s, a + b) == (q.0, r.1 + q.1)
  {
    var n, m := Min(a, |s.held|), Min(a + b, |s.held|);
    assert s.held[..n] + s.held[n..][..m - n] == s.held[..m];
    assert s.held[n..][m - n..] == s.held[m..];
  }

  /** A write takes the longest prefix that fits: short only when the pipe is full after. */
  lemma {:induction false} WritesLongestPrefix(s: PipeState, data: Bytes)
    requires |s.held| <= BUFFER_MAX_SIZE
    ensures var r := WritePipe(s, data);
      && r.1 <= |data| && (r.1 == |data| || |r.0.held| == 4096) && r.0.held == s.held + data[..r.1]
      && r.0.wrQ == s.wrQ && r.0.rdQ == (if r.1 == 0 then s.rdQ else [])
  {
  }

  /** Two writes in a row store what one write of both would, and leave the same pipe. */
  lemma {:induction false} WriteSplits(s: PipeState, a: Bytes, b: Bytes)
    requires |s.held| <= BUFFER_MAX_SIZE
    ensures var r := WritePipe(s, a);
      var q := WritePipe(r.0, b);
      WritePipe(s, a + b) == (q.0, r.1 + q.1)
  {
    var n := Min(|a|, BUFFER_MAX_SIZE - |s.held|);
    var m := Min(|a + b|, BUFFER_MAX_SIZE - |s.held|);
    if n == |a| {
      assert (a + b)[..m] == a + b[..m - n] && a[..n] == a;
    } else {
      assert m == n && (a + b)[..m] == a[..n];
    }
    assert s.held + a[..n] + b[..m - n] == s.held + (a[..n] + b[..m - n]);
  }

  /** What is read comes out as it went in, whatever the reads and however the writes were cut. */
  lemma {:induction false} WriteThenRead(s: PipeState, data: Bytes, count: nat)
    requires s.held == [] && |data| <= BUFFER_MAX_SIZE && count >= |data|
    ensures ReadPipe(WritePipe(s, data).0, count).1 == data
  {
  }

  // ----- blocking readers and writers -----

  /** Where a process stands: outside the pipe, about to make a pass (again), or blocked. */
  datatype Call =
    | Idle
    | Reads(count: nat)
    | Writes(rest: Bytes)
    | AsleepReading(count: nat)
    | AsleepWriting(rest: Bytes)

  /** One pipe, its processes, and every byte ever accepted and delivered. */
  datatype System = System(pipe: PipeState, calls: seq<Call>, written: Bytes, read: Bytes)

  /** granted says whether there is memory for the queue's node, should the pass block. */
  datatype Step =
    | BeginRead(pid: nat, count: nat, granted: bool)
    | BeginWrite(pid: nat, data: Bytes, granted: bool)
    | Continue(pid: nat, granted: bool)

  /** Requests are for at least one byte. */
  predicate Enabled(s: System, e: Step) {
    && e.pid < |s.calls| && |s.pipe.held| <= BUFFER_MAX_SIZE
    && match e
       case BeginRead(p, count, _) => s.calls[p].Idle? && count > 0
       case BeginWrite(p, data, _) => s.calls[p].Idle? && data != []
       case Continue(p, _) => s.calls[p].Reads? || s.calls[p].Writes?
  }

  predicate IsAsleep(c: Call) {
    c.AsleepReading? || c.AsleepWriting?
  }

  /** A sleeper that has been woken is ready for another pass. */
  function Wake(c: Call): Call {
    match c
    case AsleepReading(count) => Reads(count)
    case AsleepWriting(rest) => Writes(rest)
    case _ => c
  }

  function WakeAll(cs: seq<Call>, q: seq<int>): (ds: seq<Call>)
    ensures |ds| == |cs| && forall p :: 0 <= p < |cs| ==> ds[p] == if p in q then Wake(cs[p]) else cs[p]
  {
    seq(|cs|, p requires 0 <= p < |cs| => if p in q then Wake(cs[p]) else cs[p])
  }

  /** The code does not look whether queue_add got its node. */
  function Enqueue(q: seq<int>, pid: nat, granted: bool): seq<int> {
    if granted then q + [pid] else q
  }

  /** read_callback up to its return or its next yield. */
  function ReadPass(s: System, pid: nat, count: nat, granted: bool): System
    requires pid < |s.calls|
  {
    var r := ReadPipe(s.pipe, count);
    if r.1 == [] then
      s.(pipe := r.0.(rdQ := Enqueue(r.0.rdQ, pid, granted)), calls := s.calls[pid := AsleepReading(count)])
    else
      s.(pipe := r.0, calls := WakeAll(s.calls, s.pipe.wrQ)[pid := Idle], read := s.read + r.1)
  }

  /** write_callback up to its return or its next yield: after a partial write the pipe is full,
      so the loop's next attempt takes nothing. */
  function WritePass(s: System, pid: nat, data: Bytes, granted: bool): System
    requires pid < |s.calls| && |s.pipe.held| <= BUFFER_MAX_SIZE
  {
    var r := WritePipe(s.pipe, data);
    var woken := if r.1 == 0 then s.calls else WakeAll(s.calls, s.pipe.rdQ);
    if r.1 == |data| then
      s.(pipe := r.0, calls := woken[pid := Idle], written := s.written + data)
    else
      s.(pipe := r.0.(wrQ := Enqueue(r.0.wrQ, pid, granted)), calls := woken[pid := AsleepWriting(data[r.1..])],
         written := s.written + data[..r.1])
  }

  function Next(s: System, e: Step): System
    requires Enabled(s, e)
  {
    match e
    case BeginRead(p, count, g) => ReadPass(s, p, count, g)
    case BeginWrite(p, data, g) => WritePass(s, p, data, g)
    case Continue(p, g) =>
      if s.calls[p].Reads? then ReadPass(s, p, s.calls[p].count, g) else WritePass(s, p, s.calls[p].rest, g)
  }

  predicate RequestOk(c: Call) {
    match c
    case Reads(count) => count > 0
    case AsleepReading(count) => count > 0
    case Writes(rest) => rest != []
    case AsleepWriting(rest) => rest != []
    case Idle => true
  }

  /** Requests stay non-empty, and the queues hold sleepers. */
  ghost predicate QueuesOk(s: System) {
    && (forall p :: 0 <= p < |s.calls| ==> RequestOk(s.calls[p]))
    && (forall p: int :: p in s.pipe.rdQ ==> 0 <= p < |s.calls| && s.calls[p].AsleepReading?)
    && (forall p: int :: p in s.pipe.wrQ ==> 0 <= p < |s.calls| && s.calls[p].AsleepWriting?)
  }

  /** First in, first out; readers are queued only on an empty pipe and writers only on a full one. */
  ghost predicate Inv(s: System) {
    && QueuesOk(s)
    && |s.pipe.held| <= BUFFER_MAX_SIZE
    && s.written == s.read + s.pipe.held
    && (s.pipe.rdQ != [] ==> s.pipe.held == [])
    && (s.pipe.wrQ != [] ==> |s.pipe.held| == BUFFER_MAX_SIZE)
  }

  /** Asleep, but in neither queue. */
  predicate Stranded(s: System, p: int) {
    && 0 <= p < |s.calls|
    && match s.calls[p]
       case AsleepReading(_) => p !in s.pipe.rdQ
       case AsleepWriting(_) => p !in s.pipe.wrQ
       case _ => false
  }

  ghost predicate NoneStranded(s: System) {
    forall p :: !Stranded(s, p)
  }

  lemma {:induction false} ReadPassInv(s: System, pid: nat, count: nat, granted: bool)
    requires Inv(s) && pid < |s.calls| && count > 0 && (s.calls[pid].Idle? || s.calls[pid].Reads?)
    ensures Inv(ReadPass(s, pid, count, granted))
    ensures forall p :: Stranded(ReadPass(s, pid, count, granted), p)
                   <==> Stranded(s, p) || (p == pid && s.pipe.held == [] && !granted)
  {
    var r := ReadPipe(s.pipe, count);
    if r.1 != [] {
      assert s.read + r.1 + r.0.held == s.read + s.pipe.held;
      assert forall p: int :: p !in s.pipe.rdQ;
    } else {
      assert forall p: int :: p !in s.pipe.wrQ;
    }
  }

  lemma {:induction false} WritePassInv(s: System, pid: nat, data: Bytes, granted: bool)
    requires Inv(s) && pid < |s.calls| && data != [] && (s.calls[pid].Idle? || s.calls[pid].Writes?)
    ensures Inv(WritePass(s, pid, data, granted))
    ensures forall p :: Stranded(WritePass(s, pid, data, granted), p)
                   <==> Stranded(s, p) || (p == pid && |s.pipe.held| + |data| > BUFFER_MAX_SIZE && !granted)
  {
    var r := WritePipe(s.pipe, data);
    assert s.written + data[..r.1] == s.read + r.0.held;
    if r.1 == |data| {
      assert data[..r.1] == data;
    }
    if r.1 > 0 {
      assert forall p: int :: p !in s.pipe.wrQ;
    } else {
      assert forall p: int :: p !in s.pipe.rdQ;
    }
  }

  /** A pass that blocks its caller without a queue node. */
  predicate Strands(s: System, e: Step)
    requires Enabled(s, e)
  {
    !e.granted && IsAsleep(Next(s, e).calls[e.pid])
  }

  /** Every step keeps the invariant, and strands its caller exactly when it blocks without a node. */
  lemma {:induction false} NextInv(s: System, e: Step)
    requires Inv(s) && Enabled(s, e)
    ensures Inv(Next(s, e)) && |Next(s, e).calls| == |s.calls|
    ensures forall p :: Stranded(Next(s, e), p) <==> Stranded(s, p) || (p == e.pid && Strands(s, e))
  {
    assert RequestOk(s.calls[e.pid]);
    match e
    case BeginRead(p, count, g) => ReadPassInv(s, p, count, g);
    case BeginWrite(p, data, g) => WritePassInv(s, p, data, g);
    case Continue(p, g) =>
      if s.calls[p].Reads? {
        ReadPassInv(s, p, s.calls[p].count, g);
      } else {
        WritePassInv(s, p, s.calls[p].rest, g);
      }
  }

  // ----- runs -----

  ghost predicate Runs(s: System, es: seq<Step>)
    decreases |es|
  {
    es == [] || (Enabled(s, es[0]) && Runs(Next(s, es[0]), es[1..]))
  }

  ghost function After(s: System, es: seq<Step>): System
    requires Runs(s, es)
    decreases |es|
  {
    if es == [] then s else After(Next(s, es[0]), es[1..])
  }

  /** Every pass that blocked got its queue node. */
  ghost predicate AllGranted(s: System, es: seq<Step>)
    requires Runs(s, es)
    decreases |es|
  {
    es == [] || (!Strands(s, es[0]) && AllGranted(Next(s, es[0]), es[1..]))
  }

  predicate IsStart(s: System) {
    s.pipe == PipeState([], [], []) && s.written == [] && s.read == []
    && forall p :: 0 <= p < |s.calls| ==> s.calls[p] == Idle
  }

  lemma {:induction false} RunInv(s: System, es: seq<Step>)
    requires Inv(s) && Runs(s, es)
    ensures Inv(After(s, es)) && |After(s, es).calls| == |s.calls|
    decreases |es|
  {
    if es != [] {
      NextInv(s, es[0]);
      RunInv(Next(s, es[0]), es[1..]);
    }
  }

  /** On every run from an empty pipe, the bytes come out in the order they went in, none lost and
      none made up. */
  lemma {:induction false} FirstInFirstOut(s: System, es: seq<Step>)
    requires IsStart(s) && Runs(s, es)
    ensures var t := After(s, es); t.written == t.read + t.pipe.held && |t.pipe.held| <= BUFFER_MAX_SIZE
  {
    assert Inv(s);
    RunInv(s, es);
  }

  /** No continuation wakes a stranded process. */
  lemma {:induction false} StrandedForever(s: System, es: seq<Step>, p: nat)
    requires Inv(s) && Runs(s, es) && Stranded(s, p)
    ensures Stranded(After(s, es), p)
    decreases |es|
  {
    if es != [] {
      NextInv(s, es[0]);
      StrandedForever(Next(s, es[0]), es[1..], p);
    }
  }

  /** The exact condition: a run leaves nobody stranded if and only if every pass that blocked got its
      queue node. */
  lemma {:induction false} NoneStrandedIff(s: System, es: seq<Step>)
    requires Inv(s) && Runs(s, es) && NoneStranded(s)
    ensures NoneStranded(After(s, es)) <==> AllGranted(s, es)
    decreases |es|
  {
    hide Next, Strands, Stranded, Inv;
    if es != [] {
      var t := Next(s, es[0]);
      NextInv(s, es[0]);
      if Strands(s, es[0]) {
        assert Stranded(t, es[0].pid);
        StrandedForever(t, es[1..], es[0].pid);
      } else {
        NoneStrandedIff(t, es[1..]);
      }
    }
  }

  /** A reader asleep means an empty pipe and a writer asleep a full one, unless they are stranded, so
      they never sleep together: whoever waits, the other side can still move. */
  lemma {:induction false} NeverBothAsleep(s: System, es: seq<Step>, p: nat, q: nat)
    requires IsStart(s) && Runs(s, es)
    requires p < |After(s, es).calls| && q < |After(s, es).calls|
    ensures var t := After(s, es);
      && (t.calls[p].AsleepReading? && !Stranded(t, p) ==> t.pipe.held == [])
      && (t.calls[q].AsleepWriting? && !Stranded(t, q) ==> |t.pipe.held| == BUFFER_MAX_SIZE)
      && (AllGranted(s, es) ==> !(t.calls[p].AsleepReading? && t.calls[q].AsleepWriting?))
  {
    assert Inv(s);
    RunInv(s, es);
    NoneStrandedIff(s, es);
  }

  // ----- what each call gets -----

  /** The pass is one of a read, and for how many bytes. */
  function ReadCount(s: System, e: Step): nat
    requires Enabled(s, e)
  {
    match e
    case BeginRead(_, count, _) => count
    case BeginWrite(_, _, _) => 0
    case Continue(p, _) => if s.calls[p].Reads? then s.calls[p].count else 0
  }

  /** A read that has returned: what it asked for, what it got, and what it left in the pipe. */
  datatype Answer = Answer(pid: nat, asked: nat, got: Bytes, left: nat)

  /** The reads that return during a run. */
  ghost function Answers(s: System, es: seq<Step>): seq<Answer>
    requires Runs(s, es)
    decreases |es|
  {
    if es == [] then [] else
      var t := Next(s, es[0]);
      var rest := Answers(t, es[1..]);
      if ReadCount(s, es[0]) > 0 && t.calls[es[0].pid].Idle? && |s.read| <= |t.read|
      then [Answer(es[0].pid, ReadCount(s, es[0]), t.read[|s.read|..], |t.pipe.held|)] + rest
      else rest
  }

  function Delivered(rs: seq<Answer>): Bytes {
    if rs == [] then [] else rs[0].got + Delivered(rs[1..])
  }

  predicate InFull(r: Answer) {
    0 < |r.got| <= r.asked && (|r.got| == r.asked || r.left == 0)
  }

  lemma {:induction false} ReadStep(s: System, e: Step)
    requires Inv(s) && Enabled(s, e)
    ensures var t := Next(s, e);
      if ReadCount(s, e) > 0 && t.calls[e.pid].Idle? then
        && |s.read| <= |t.read| && s.read == t.read[..|s.read|]
        && InFull(Answer(e.pid, ReadCount(s, e), t.read[|s.read|..], |t.pipe.held|))
      else t.read == s.read
  {
    assert RequestOk(s.calls[e.pid]);
    var count := ReadCount(s, e);
    if count > 0 {
      ReadsLongestPrefix(s.pipe, count);
      var r := ReadPipe(s.pipe, count);
      assert (s.read + r.1)[|s.read|..] == r.1 && (s.read + r.1)[..|s.read|] == s.read;
    }
  }

  /** On every run a read returns something, and less than it asked for only if it left the pipe
      empty; and the answers, one after the other, are exactly what was read. */
  lemma {:induction false} EveryReadInFull(s: System, es: seq<Step>)
    requires Inv(s) && Runs(s, es)
    ensures forall r :: r in Answers(s, es) ==> InFull(r)
    ensures After(s, es).read == s.read + Delivered(Answers(s, es))
    decreases |es|
  {
    hide Next, Enabled, Inv, ReadCount, InFull;
    if es != [] {
      NextInv(s, es[0]);
      ReadStep(s, es[0]);
      var t := Next(s, es[0]);
      EveryReadInFull(t, es[1..]);
    }
  }

  /** What p has still to write. */
  function Pending(c: Call): Bytes {
    match c
    case Writes(rest) => rest
    case AsleepWriting(rest) => rest
    case _ => []
  }

  /** All that p asks to write during a run. */
  function Requested(es: seq<Step>, p: nat): Bytes {
    if es == [] then []
    else (if es[0].BeginWrite? && es[0].pid == p then es[0].data else []) + Requested(es[1..], p)
  }

  /** All that is written by passes of p. */
  ghost function Accepted(s: System, es: seq<Step>, p: nat): Bytes
    requires Runs(s, es)
    decreases |es|
  {
    if es == [] then [] else
      var t := Next(s, es[0]);
      (if es[0].pid == p && |s.written| <= |t.written| then t.written[|s.written|..] else [])
      + Accepted(t, es[1..], p)
  }

  lemma {:induction false} WritePassTakes(s: System, pid: nat, data: Bytes, granted: bool)
    requires pid < |s.calls| && |s.pipe.held| <= BUFFER_MAX_SIZE
    ensures var t := WritePass(s, pid, data, granted);
      && |t.calls| == |s.calls| && |s.written| <= |t.written|
      && data == t.written[|s.written|..] + Pending(t.calls[pid])
      && forall q :: 0 <= q < |s.calls| && q != pid ==> Pending(t.calls[q]) == Pending(s.calls[q])
  {
    var r := WritePipe(s.pipe, data);
    assert (s.written + data[..r.1])[|s.written|..] == data[..r.1];
    assert r.1 == |data| ==> data[..r.1] == data;
  }

  lemma {:induction false} ReadPassTakes(s: System, pid: nat, count: nat, granted: bool)
    requires pid < |s.calls| && Pending(s.calls[pid]) == []
    ensures var t := ReadPass(s, pid, count, granted);
      && |t.calls| == |s.calls| && t.written == s.written
      && forall q :: 0 <= q < |s.calls| ==> Pending(t.calls[q]) == Pending(s.calls[q])
  {
  }

  lemma {:induction false} WriteStep(s: System, e: Step, p: nat)
    requires Enabled(s, e) && p < |s.calls|
    ensures var t := Next(s, e);
      && p < |t.calls| && |s.written| <= |t.written|
      && Pending(s.calls[p]) + (if e.BeginWrite? && e.pid == p then e.data else [])
      == (if e.pid == p then t.written[|s.written|..] else []) + Pending(t.calls[p])
  {
    hide ReadPass, WritePass;
    match e
    case BeginRead(pid, count, g) => ReadPassTakes(s, pid, count, g);
    case BeginWrite(pid, data, g) => WritePassTakes(s, pid, data, g);
    case Continue(pid, g) =>
      if s.calls[pid].Reads? {
        ReadPassTakes(s, pid, s.calls[pid].count, g);
      } else {
        WritePassTakes(s, pid, s.calls[pid].rest, g);
      }
  }

  /** On every run the bytes a process has written are those it asked to write, in order, none lost
      and none twice, up to what it is still waiting to write. */
  lemma {:induction false} EveryWriteInOrder(s: System, es: seq<Step>, p: nat)
    requires Inv(s) && Runs(s, es) && p < |s.calls|
    ensures var t := After(s, es);
      && p < |t.calls|
      && Pending(s.calls[p]) + Requested(es, p) == Accepted(s, es, p) + Pending(t.calls[p])
    decreases |es|
  {
    hide Next, Enabled, Inv, Pending;
    if es != [] {
      NextInv(s, es[0]);
      WriteStep(s, es[0], p);
      var t := Next(s, es[0]);
      EveryWriteInOrder(t, es[1..], p);
      Telescope(Pending(s.calls[p]), if es[0].BeginWrite? && es[0].pid == p then es[0].data else [],
                if es[0].pid == p then t.written[|s.written|..] else [], Pending(t.calls[p]),
                Requested(es[1..], p), Accepted(t, es[1..], p), Pending(After(t, es[1..]).calls[p]));
    }
  }

  // ----- the order of the queues -----

  function QueueOf(s: System, reading: bool): seq<int> {
    if reading then s.pipe.rdQ else s.pipe.wrQ
  }

  /** The processes that queued up to read, or to write, in the order they did. */
  ghost function QueuedUp(s: System, es: seq<Step>, reading: bool): seq<int>
    requires Runs(s, es)
    decreases |es|
  {
    if es == [] then [] else
      var c := Next(s, es[0]).calls[es[0].pid];
      (if es[0].granted && (if reading then c.AsleepReading? else c.AsleepWriting?) then [es[0].pid as int] else [])
      + QueuedUp(Next(s, es[0]), es[1..], reading)
  }

  /** Those that left the queue: all of it at once, whenever it does not just grow. */
  ghost function LeftQueue(s: System, es: seq<Step>, reading: bool): seq<int>
    requires Runs(s, es)
    decreases |es|
  {
    if es == [] then [] else
      var t := Next(s, es[0]);
      (if QueueOf(s, reading) <= QueueOf(t, reading) then [] else QueueOf(s, reading))
      + LeftQueue(t, es[1..], reading)
  }

  lemma {:induction false} QueueStep(s: System, e: Step, reading: bool)
    requires Inv(s) && Enabled(s, e)
    ensures e.pid < |Next(s, e).calls|
    ensures var t, q := Next(s, e), QueueOf(s, reading);
      var c := t.calls[e.pid];
      q + (if e.granted && (if reading then c.AsleepReading? else c.AsleepWriting?) then [e.pid as int] else [])
      == (if q <= QueueOf(t, reading) then [] else q) + QueueOf(t, reading)
  {
    assert RequestOk(s.calls[e.pid]);
  }

  /** First come, first woken: on every run, whoever queued up leaves in the order he came, and the
      rest is the queue. */
  lemma {:induction false} QueuesInOrder(s: System, es: seq<Step>, reading: bool)
    requires Inv(s) && Runs(s, es)
    ensures QueueOf(s, reading) + QueuedUp(s, es, reading)
         == LeftQueue(s, es, reading) + QueueOf(After(s, es), reading)
    decreases |es|
  {
    hide Next, Enabled, Inv, QueueOf;
    if es != [] {
      NextInv(s, es[0]);
      QueueStep(s, es[0], reading);
      var t := Next(s, es[0]);
      QueuesInOrder(t, es[1..], reading);
      var c := t.calls[es[0].pid];
      var q, u := QueueOf(s, reading), QueueOf(t, reading);
      Telescope(q, if es[0].granted && (if reading then c.AsleepReading? else c.AsleepWriting?)
                   then [es[0].pid as int] else [],
                if q <= u then [] else q, u,
                QueuedUp(t, es[1..], reading), LeftQueue(t, es[1..], reading), QueueOf(After(t, es[1..]), reading));
    }
  }

  // ----- progress -----

  /** What a call may still cost: a read one delivery, a write one delivery a byte. */
  function Demand(c: Call): int {
    match c
    case Idle => 0
    case Reads(_) => 1
    case AsleepReading(_) => 1
    case Writes(rest) => |rest|
    case AsleepWriting(rest) => |rest|
  }

  function Demands(s: System): (ds: seq<int>)
    ensures |ds| == |s.calls| && forall p :: 0 <= p < |ds| ==> ds[p] == Demand(s.calls[p])
  {
    seq(|s.calls|, p requires 0 <= p < |s.calls| => Demand(s.calls[p]))
  }

  /** Whether a call is ready for a pass. */
  function Awake(c: Call): int {
    if c.Reads? || c.Writes? then 1 else 0
  }

  function Awakes(s: System): (ds: seq<int>)
    ensures |ds| == |s.calls| && forall p :: 0 <= p < |ds| ==> ds[p] == Awake(s.calls[p])
  {
    seq(|s.calls|, p requires 0 <= p < |s.calls| => Awake(s.calls[p]))
  }

  /** A pass that delivers something pays for all those it wakes; one that does not puts its caller
      to sleep. */
  function Work(s: System): int {
    (|s.calls| + 1) * Sum(Demands(s)) + Sum(Awakes(s))
  }

  function NewDemand(e: Step): nat {
    match e
    case BeginRead(_, _, _) => 1
    case BeginWrite(_, data, _) => |data|
    case Continue(_, _) => 0
  }

  /** The demand of a run's calls, and its later passes. */
  function TotalDemand(es: seq<Step>): nat {
    if es == [] then 0 else NewDemand(es[0]) + TotalDemand(es[1..])
  }

  function Continues(es: seq<Step>): nat {
    if es == [] then 0 else (if es[0].Continue? then 1 else 0) + Continues(es[1..])
  }

  lemma {:induction false} Distribute(k: nat, x: int, y: int)
    ensures k * (x + y) == k * x + k * y
  {
  }

  lemma {:induction false} ScaleOrder(k: nat, x: int, y: int)
    requires x <= y
    ensures k * x <= k * y
  {
  }

  lemma {:induction false} AwakesBounded(s: System)
    ensures 0 <= Sum(Awakes(s)) <= |s.calls|
  {
    SumNonNegative(Awakes(s));
    SumAtMost(Awakes(s));
  }

  lemma {:induction false} SumAtMost(ws: seq<int>)
    requires forall i :: 0 <= i < |ws| ==> ws[i] <= 1
    ensures Sum(ws) <= |ws|
  {
    if ws != [] {
      SumAtMost(ws[..|ws| - 1]);
    }
  }

  /** The caller's demand is the only one to change. */
  lemma {:induction false} DemandMoves(s: System, e: Step)
    requires Inv(s) && Enabled(s, e)
    ensures var t, p := Next(s, e), e.pid;
      && |t.calls| == |s.calls|
      && Sum(Demands(t)) == Sum(Demands(s)) - Demand(s.calls[p]) + Demand(t.calls[p])
  {
    NextInv(s, e);
    var t, p := Next(s, e), e.pid;
    SumUpdate(Demands(s), p, Demand(t.calls[p]));
    assert Demands(t) == Demands(s)[p := Demand(t.calls[p])];
  }

  /** A pass that delivers nothing puts its caller to sleep and wakes nobody; any other pass lowers
      what the calls may still cost. */
  lemma {:induction false} PassCosts(s: System, e: Step)
    requires Inv(s) && Enabled(s, e)
    ensures var t, p := Next(s, e), e.pid;
      var cost := Demand(s.calls[p]) + NewDemand(e);
      && |t.calls| == |s.calls|
      && (Demand(t.calls[p]) < cost
          || (Demand(t.calls[p]) == cost
              && Sum(Awakes(t)) == Sum(Awakes(s)) - if e.Continue? then 1 else 0))
  {
    NextInv(s, e);
    assert RequestOk(s.calls[e.pid]);
    var t, p := Next(s, e), e.pid;
    if Demand(t.calls[p]) >= Demand(s.calls[p]) + NewDemand(e) {
      SumUpdate(Awakes(s), p, 0);
      assert Awakes(t) == Awakes(s)[p := 0];
    }
  }

  lemma {:induction false} StepWorks(s: System, e: Step)
    requires Inv(s) && Enabled(s, e)
    ensures Work(Next(s, e)) + (if e.Continue? then 1 else 0) <= Work(s) + (|s.calls| + 1) * NewDemand(e)
  {
    hide Next, Inv, Enabled, Demand, Sum;
    var t, k := Next(s, e), |s.calls| + 1;
    DemandMoves(s, e);
    PassCosts(s, e);
    AwakesBounded(s);
    AwakesBounded(t);
    var d, n := Sum(Demands(s)), NewDemand(e);
    Distribute(k, d, n);
    Distribute(k, d + n, -1);
    if Sum(Demands(t)) < d + n {
      ScaleOrder(k, Sum(Demands(t)), d + n - 1);
    }
  }

  lemma {:induction false} RunWorks(s: System, es: seq<Step>)
    requires Inv(s) && Runs(s, es)
    ensures Continues(es) + Work(After(s, es)) <= Work(s) + (|s.calls| + 1) * TotalDemand(es)
    decreases |es|
  {
    hide Next, Inv, Enabled, Work, NewDemand;
    if es != [] {
      NextInv(s, es[0]);
      StepWorks(s, es[0]);
      RunWorks(Next(s, es[0]), es[1..]);
      Distribute(|s.calls| + 1, NewDemand(es[0]), TotalDemand(es[1..]));
    }
  }

  lemma {:induction false} WorkIsPositive(s: System)
    requires Inv(s)
    ensures Work(s) >= 0
    ensures IsStart(s) ==> Work(s) == 0
  {
    AwakesBounded(s);
    forall p | 0 <= p < |s.calls|
      ensures Demands(s)[p] >= 0
    {
      assert RequestOk(s.calls[p]);
    }
    SumNonNegative(Demands(s));
    ScaleOrder(|s.calls| + 1, 0, Sum(Demands(s)));
    if IsStart(s) {
      SumConstant(Demands(s), 0);
      SumConstant(Awakes(s), 0);
    }
  }

  /** Only reads of an empty pipe, or only writes to a full one, are unfinished, if any call is. */
  predicate IsStuck(s: System) {
    || (forall p :: 0 <= p < |s.calls| ==> s.calls[p] == Idle)
    || (s.pipe.held == [] && forall p :: 0 <= p < |s.calls| ==> s.calls[p] == Idle || s.calls[p].AsleepReading?)
    || (|s.pipe.held| == BUFFER_MAX_SIZE
        && forall p :: 0 <= p < |s.calls| ==> s.calls[p] == Idle || s.calls[p].AsleepWriting?)
  }

  lemma {:induction false} NobodyReadyIffStuck(s: System)
    requires Inv(s) && NoneStranded(s)
    ensures (forall p :: 0 <= p < |s.calls| ==> Awake(s.calls[p]) == 0) <==> IsStuck(s)
  {
    if (forall p :: 0 <= p < |s.calls| ==> Awake(s.calls[p]) == 0) && !IsStuck(s) {
      forall p | 0 <= p < |s.calls|
        ensures s.calls[p] == Idle || s.calls[p].AsleepReading? || s.calls[p].AsleepWriting?
        ensures s.calls[p].AsleepReading? ==> s.pipe.held == []
        ensures s.calls[p].AsleepWriting? ==> |s.pipe.held| == BUFFER_MAX_SIZE
      {
        assert !Stranded(s, p) && Awake(s.calls[p]) == 0;
      }
    }
  }

  /** Nobody keeps being woken in vain: on every run of n processes the passes after a wake-up are at
      most n + 1 for each read and for each byte to be written. And, every queue node granted, nobody
      is ready for a pass exactly when no call is unfinished, or the unfinished ones are all reads of
      an empty pipe, or all writes to a full one. */
  lemma {:induction false} EveryRunProgresses(s: System, es: seq<Step>)
    requires IsStart(s) && Runs(s, es)
    ensures Continues(es) <= (|s.calls| + 1) * TotalDemand(es)
    ensures var t := After(s, es);
      AllGranted(s, es) ==>
        ((forall p :: 0 <= p < |t.calls| ==> Awake(t.calls[p]) == 0) <==> IsStuck(t))
  {
    StartInv(s);
    hide Work, IsStart, Inv, Runs, After, AllGranted, IsStuck, Awake, Stranded, Continues, TotalDemand;
    RunWorks(s, es);
    RunInv(s, es);
    var t := After(s, es);
    WorkIsPositive(s);
    WorkIsPositive(t);
    NoneStrandedIff(s, es);
    if AllGranted(s, es) {
      NobodyReadyIffStuck(t);
    }
  }

  lemma {:induction false} StartInv(s: System)
    requires IsStart(s)
    ensures Inv(s) && NoneStranded(s)
  {
  }
}
