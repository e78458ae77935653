/** The kernel's pipe: a circular buffer that grows in place, and the two blocking callbacks. */
module Pipe {
  import opened Powers
  import opened Bits
  import opened Memory
  import opened Scheduler
  import SchedulerSpec
  import WaitQueueSpec
  import opened PipeSpec

  /** The n bytes of a circular buffer from index r on. */
  function Ring(buf: Bytes, r: nat, n: nat): (s: Bytes)
    requires n <= |buf| && r <= |buf|
    ensures |s| == n
  {
    if r + n <= |buf| then buf[r..r + n] else buf[r..] + buf[..r + n - |buf|]
  }

  /** An index at most once past the end of a circular buffer of m bytes: the kernel's % size. */
  function Wrap(x: nat, m: nat): (w: nat)
    requires x < 2 * m
    ensures w < m
  {
    if x < m then x else x - m
  }

  lemma {:induction false} WrapIsModulo(x: nat, m: nat)
    requires 0 < m && x < 2 * m
    ensures x % m == Wrap(x, m)
  {
    DivUnique(x, m, if x < m then 0 else 1, Wrap(x, m));
  }

  /** Where byte k of the ring lies. */
  lemma {:induction false} RingAt(buf: Bytes, r: nat, n: nat, k: nat)
    requires n <= |buf| && r < |buf| && k < n
    ensures Ring(buf, r, n)[k] == buf[Wrap(r + k, |buf|)]
  {
  }

  /** Reading: the front of the ring, and what is left of it. */
  lemma {:induction false} RingDrop(buf: Bytes, r: nat, n: nat, k: nat)
    requires n <= |buf| && r < |buf| && k <= n
    ensures Ring(buf, Wrap(r + k, |buf|), n - k) == Ring(buf, r, n)[k..]
    ensures Ring(buf, r, n)[..k] == Ring(buf, r, k)
  {
    hide Ring;
    var w := Wrap(r + k, |buf|);
    forall i: nat | i < n - k
      ensures Ring(buf, w, n - k)[i] == Ring(buf, r, n)[k..][i]
    {
      RingAt(buf, w, n - k, i);
      RingAt(buf, r, n, k + i);
    }
    forall i: nat | i < k
      ensures Ring(buf, r, n)[..k][i] == Ring(buf, r, k)[i]
    {
      RingAt(buf, r, n, i);
      RingAt(buf, r, k, i);
    }
  }

  /** The front of the ring, as the one or two pieces it lies in. */
  lemma {:induction false} FrontParts(buf: Bytes, r: nat, n: nat, k: nat)
    requires n <= |buf| && k <= n && (if buf == [] then r == 0 else r < |buf|)
    ensures r + k <= |buf| ==> Ring(buf, r, n)[..k] == buf[r..r + k]
    ensures r + k > |buf| ==> Ring(buf, r, n)[..k] == buf[r..] + buf[..r + k - |buf|]
  {
    if buf != [] {
      RingDrop(buf, r, n, k);
    }
  }

  /** The buffer after data is copied in at w, in one part or two. */
  function Stored(buf: Bytes, w: nat, data: Bytes): (s: Bytes)
    requires w < |buf| && |data| <= |buf|
    ensures |s| == |buf|
  {
    if w + |data| <= |buf| then Splice(buf, w, data)
    else Splice(Splice(buf, w, data[..|buf| - w]), 0, data[|buf| - w..])
  }

  lemma {:induction false} StoredAt(buf: Bytes, w: nat, data: Bytes, k: nat)
    requires w < |buf| && |data| <= |buf| && k < |buf|
    ensures Stored(buf, w, data)[Wrap(w + k, |buf|)] == if k < |data| then data[k] else buf[Wrap(w + k, |buf|)]
  {
    hide Splice;
    var m := |buf|;
    var at := Wrap(w + k, m);
    if w + |data| <= m {
      SpliceAt(buf, w, data, at);
    } else {
      var once := Splice(buf, w, data[..m - w]);
      SpliceAt(buf, w, data[..m - w], at);
      SpliceAt(once, 0, data[m - w..], at);
    }
  }

  /** Writing: the ring is longer by the data. */
  lemma {:induction false} RingAppend(buf: Bytes, r: nat, n: nat, data: Bytes)
    requires r < |buf| && n + |data| <= |buf|
    ensures Ring(Stored(buf, Wrap(r + n, |buf|), data), r, n + |data|) == Ring(buf, r, n) + data
  {
    hide Ring, Stored;
    var m := |buf|;
    var w := Wrap(r + n, m);
    var after := Stored(buf, w, data);
    forall k: nat | k < n + |data|
      ensures Ring(after, r, n + |data|)[k] == (Ring(buf, r, n) + data)[k]
    {
      RingAt(after, r, n + |data|, k);
      if k < n {
        RingAt(buf, r, n, k);
        StoredAt(buf, w, data, k + m - n);
        assert Wrap(w + (k + m - n), m) == Wrap(r + k, m);
      } else {
        StoredAt(buf, w, data, k - n);
        assert Wrap(w + (k - n), m) == Wrap(r + k, m);
      }
    }
  }

  /** The size of a grown buffer: the least power of two that fits what is required, or the top. */
  method GrownSize(required: nat) returns (newSize: nat)
    requires required > 0
    ensures Min(required, BUFFER_MAX_SIZE) <= newSize <= BUFFER_MAX_SIZE
    ensures exists k: nat :: newSize == Pow2(k) && k <= 32
    ensures forall j: nat :: Min(required, BUFFER_MAX_SIZE) <= Pow2(j) ==> newSize <= Pow2(j)
  {
    assert Pow2(12) == BUFFER_MAX_SIZE;
    Pow2Grows(12, 32);
    newSize := if required < BUFFER_MAX_SIZE then required else BUFFER_MAX_SIZE;
    newSize := RoundUpBufferSize(newSize);
  }

  class PipeObject {
    var buffer: array<byte>     // of length 0 for the initial NULL
    var size: nat
    var readIdx: nat
    var bytesToRead: nat
    var rdQ: seq<int>
    var wrQ: seq<int>
    const sch: SchedulerState

    ghost predicate Valid()
      reads this, buffer, sch, sch.processesStates
    {
      BufferOk() && sch.Valid()
    }

    ghost predicate BufferOk()
      reads this, buffer
    {
      && size == buffer.Length <= BUFFER_MAX_SIZE && bytesToRead <= size
      && (if size == 0 then readIdx == 0 else readIdx < size)
    }

    ghost function Held(): Bytes
      requires BufferOk()
      reads this, buffer
    {
      Ring(buffer[..], readIdx, bytesToRead)
    }

    /** The pipe as a value. */
    ghost function Model(): PipeState
      requires BufferOk()
      reads this, buffer
    {
      PipeState(Held(), rdQ, wrQ)
    }

    constructor (sch: SchedulerState)
      requires sch.Valid()
      ensures Valid() && this.sch == sch && fresh(buffer) && Model() == PipeState([], [], [])
    {
      buffer := new byte[0];
      size, readIdx, bytesToRead := 0, 0, 0;
      rdQ, wrQ := [], [];
      this.sch := sch;
    }

    /** The count oldest bytes, copied out in one part or two. */
    method CopyOut(dst: array<byte>, off: nat, count: nat)
      requires BufferOk() && count <= bytesToRead && off + count <= dst.Length && dst != buffer
      modifies dst
      ensures dst[..] == Splice(old(dst[..]), off, Held()[..count])
    {
      hide Splice, Ring, Wrap;
      ghost var before, front := dst[..], Held()[..count];
      FrontParts(buffer[..], readIdx, bytesToRead, count);
      if readIdx + count <= size {
        assert buffer[readIdx..readIdx + count] == front;
        Memcpy(dst, off, buffer, readIdx, count);
      } else {
        var firstPart := size - readIdx;
        ghost var a, b := buffer[readIdx..size], buffer[0..count - firstPart];
        assert a + b == front;
        SpliceTwice(before, off, a, b);
        Memcpy(dst, off, buffer, readIdx, firstPart);
        Memcpy(dst, off + firstPart, buffer, 0, count - firstPart);
      }
    }

    /** read_pipe_buffer. */
    method ReadBuffer(dst: array<byte>, off: nat, count: nat) returns (n: nat)
      requires Valid() && off + count <= dst.Length && dst != buffer
      modifies this`readIdx, this`bytesToRead, this`wrQ, dst, sch, sch.processesStates
      ensures Valid()
      ensures var r := ReadPipe(old(Model()), count);
        n == |r.1| && Model() == r.0 && dst[..] == Splice(old(dst[..]), off, r.1)
      ensures n == Min(count, old(bytesToRead)) && bytesToRead == old(bytesToRead) - n
      ensures sch.Model() == if old(bytesToRead) == 0 then old(sch.Model())
                             else WaitQueueSpec.UnblockAll(old(sch.Model()), old(wrQ))
    {
      hide Ring, Wrap;
      if bytesToRead == 0 {
        SpliceNone(dst[..], off);
        return 0;
      }
      n := if count < bytesToRead then count else bytesToRead;
      CopyOut(dst, off, n);
      Advance(n);
      sch.UnblockQueue(wrQ);
      wrQ := [];
    }

    method Advance(n: nat)
      requires BufferOk() && n <= bytesToRead && size > 0
      modifies this`readIdx, this`bytesToRead
      ensures BufferOk() && Held() == old(Held())[n..]
      ensures bytesToRead == old(bytesToRead) - n
    {
      RingDrop(buffer[..], readIdx, bytesToRead, n);
      WrapIsModulo(readIdx + n, size);
      hide Ring, Wrap;
      readIdx := (readIdx + n) % size;
      bytesToRead := bytesToRead - n;
    }

    /** The buffer is replaced by a larger one that starts with what is held. */
    method Grow(required: nat)
      requires BufferOk() && size < required && size < BUFFER_MAX_SIZE
      modifies this`buffer, this`size, this`readIdx
      ensures BufferOk() && fresh(buffer) && Held() == old(Held())
      ensures size >= Min(required, BUFFER_MAX_SIZE) && size > 0
    {
      ghost var held := Held();
      var newSize := GrownSize(required);
      var newBuf := new byte[newSize];
      CopyOut(newBuf, 0, bytesToRead);
      assert newBuf[..][..bytesToRead] == held;
      readIdx := 0;
      buffer, size := newBuf, newSize;
    }

    /** The data goes behind the bytes held, in one part or two. */
    method CopyIn(src: array<byte>, off: nat, count: nat)
      requires BufferOk() && size > 0 && bytesToRead + count <= size && off + count <= src.Length && src != buffer
      modifies buffer, this`bytesToRead
      ensures BufferOk() && Held() == old(Held()) + src[off..off + count]
      ensures bytesToRead == old(bytesToRead) + count
    {
      hide Ring, Wrap, Splice;
      ghost var before, data := buffer[..], src[off..off + count];
      RingAppend(before, readIdx, bytesToRead, data);
      WrapIsModulo(readIdx + bytesToRead, size);
      var writeIdx := (readIdx + bytesToRead) % size;
      if writeIdx + count <= size {
        Memcpy(buffer, writeIdx, src, off, count);
      } else {
        var firstPart := size - writeIdx;
        assert src[off..off + firstPart] == data[..firstPart];
        assert src[off + firstPart..off + count] == data[firstPart..];
        Memcpy(buffer, writeIdx, src, off, firstPart);
        Memcpy(buffer, 0, src, off + firstPart, count - firstPart);
      }
      assert buffer[..] == Stored(before, writeIdx, data);
      bytesToRead := bytesToRead + count;
    }

    /** write_pipe_buffer; granted says whether memory for a larger buffer can be had. Asking for
        nothing of a pipe without a buffer would divide by zero. */
    method WriteBuffer(src: array<byte>, off: nat, count: nat, granted: bool) returns (n: int)
      requires Valid() && off + count <= src.Length && src != buffer && (count > 0 || size > 0)
      modifies this, buffer, sch, sch.processesStates
      ensures Valid() && (buffer == old(buffer) || fresh(buffer)) && src[..] == old(src[..])
      ensures !granted && old(size) < Min(old(bytesToRead) + count, BUFFER_MAX_SIZE) ==>
                n == -1 && Model() == old(Model()) && sch.Model() == old(sch.Model())
      ensures granted || old(size) >= Min(old(bytesToRead) + count, BUFFER_MAX_SIZE) ==>
                var r := WritePipe(old(Model()), src[off..off + count]);
                && n == r.1 && Model() == r.0 && size > 0
                && sch.Model() == if n == 0 then old(sch.Model())
                                  else WaitQueueSpec.UnblockAll(old(sch.Model()), old(rdQ))
    {
      hide Ring, Wrap;
      var required := bytesToRead + count;
      if size < required && size < BUFFER_MAX_SIZE {
        if !granted {
          return -1;
        }
        Grow(required);
      }
      var availSpace := size - bytesToRead;
      n := if count < availSpace then count else availSpace;
      if n == 0 {
        return;
      }
      CopyIn(src, off, n);
      assert src[off..off + count][..n] == src[off..off + n];
      sch.UnblockQueue(rdQ);
      rdQ := [];
    }

    /** read_callback up to its return or its next yield; open says whether the pipe still has a
        name or a writer, and nodeGranted whether there is memory for the queue's node. */
    method ReadCallback(pid: nat, dst: array<byte>, off: nat, count: nat, open: bool, nodeGranted: bool)
      returns (n: nat, asleep: bool)
      requires Valid() && off + count <= dst.Length && dst != buffer
      modifies this`readIdx, this`bytesToRead, this`rdQ, this`wrQ, dst, sch, sch.processesStates
      ensures Valid()
      ensures var r := ReadPipe(old(Model()), count);
        && n == |r.1| && (asleep <==> n == 0 && open)
        && Model() == (if asleep then r.0.(rdQ := Enqueue(r.0.rdQ, pid, nodeGranted)) else r.0)
        && dst[..] == Splice(old(dst[..]), off, r.1)
      ensures var woken := if old(bytesToRead) == 0 then old(sch.Model())
                           else WaitQueueSpec.UnblockAll(old(sch.Model()), old(wrQ));
        sch.Model() == if asleep then SchedulerSpec.Block(woken, pid) else woken
    {
      hide Ring, ReadPipe, Splice;
      n := ReadBuffer(dst, off, count);
      asleep := n == 0 && open;
      if asleep {
        if nodeGranted {
          rdQ := rdQ + [pid];
        }
        var _ := sch.BlockPid(pid);
      }
    }

    /** write_callback up to its return or its next yield, from the start-th byte on. A call resumed
        half-way slept on a full pipe, whose buffer is as large as it gets. Only a first attempt can
        lack memory: its -1 is added to an unsigned count of 0, which ends the loop. */
    method WriteCallback(pid: nat, src: array<byte>, start: nat, count: nat, granted: bool, nodeGranted: bool)
      returns (written: int, asleep: bool)
      requires Valid() && start <= count <= src.Length && src != buffer
      requires start > 0 ==> size == BUFFER_MAX_SIZE
      modifies this, buffer, sch, sch.processesStates
      ensures Valid() && (buffer == old(buffer) || fresh(buffer)) && src[..] == old(src[..])
      ensures !granted && old(size) < Min(old(bytesToRead) + (count - start), BUFFER_MAX_SIZE) ==>
                written == -1 && !asleep && Model() == old(Model()) && sch.Model() == old(sch.Model())
      ensures granted || old(size) >= Min(old(bytesToRead) + (count - start), BUFFER_MAX_SIZE) ==>
                var r := WritePipe(old(Model()), src[start..count]);
                var woken := if r.1 == 0 then old(sch.Model())
                             else WaitQueueSpec.UnblockAll(old(sch.Model()), old(rdQ));
                && written == start + r.1 && (asleep <==> written < count)
                && Model() == (if asleep then r.0.(wrQ := Enqueue(r.0.wrQ, pid, nodeGranted)) else r.0)
                && sch.Model() == if asleep then SchedulerSpec.Block(woken, pid) else woken
    {
      hide Ring, WaitQueueSpec.UnblockAll;
      ghost var s, data, k := Model(), src[start..count], sch.Model();
      ghost var r := WritePipe(s, data);
      ghost var woken := if r.1 == 0 then k else WaitQueueSpec.UnblockAll(k, s.rdQ);
      written, asleep := start, false;
      while 0 <= written < count && !asleep
        invariant Valid() && (buffer == old(buffer) || fresh(buffer)) && src[..] == old(src[..])
        invariant written < 0 ==> written == -1 && !granted && !asleep
                                  && old(size) < Min(old(bytesToRead) + (count - start), BUFFER_MAX_SIZE)
                                  && Model() == s && sch.Model() == k
        invariant written >= 0 ==> start <= written <= count && (asleep ==> written < count)
        invariant written >= 0 && written == start && !asleep ==>
                    Model() == s && sch.Model() == k && size == old(size) && bytesToRead == old(bytesToRead)
        invariant written > start || asleep ==>
                    && written == start + r.1
                    && (granted || old(size) >= Min(old(bytesToRead) + (count - start), BUFFER_MAX_SIZE))
                    && Model() == (if asleep then r.0.(wrQ := Enqueue(r.0.wrQ, pid, nodeGranted)) else r.0)
                    && sch.Model() == (if asleep then SchedulerSpec.Block(woken, pid) else woken)
        invariant start < written < count ==> size == BUFFER_MAX_SIZE
        decreases if written < 0 then 0 else 1, count - written, !asleep
      {
        var n := WriteBuffer(src, written, count - written, granted);
        if n == 0 {
          if nodeGranted {
            wrQ := wrQ + [pid];
          }
          var _ := sch.BlockPid(pid);
          asleep := true;
        } else {
          written := written + n;
        }
      }
    }
  }
}
