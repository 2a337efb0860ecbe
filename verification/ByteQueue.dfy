/** ByteQueue.java: a circular byte buffer between one producer and one consumer thread. The monitor's lock is held
    from entering `read` or `write` until the thread waits or returns, so each method below is such a section. */
module ByteQueues {
  import opened Common
  import opened Bytes

  /** A queue as a value. */
  datatype Queue = Queue(capacity: nat, bytes: seq<Byte>, open: bool)

  predicate Fits(q: Queue) {
    |q.bytes| <= q.capacity
  }

  /** How a section of `read` ends: in wait(), or by returning a count and what was copied. */
  datatype ReadEnd = ReadWaits | ReadReturns(count: int, data: seq<Byte>)

  /** How a section of `write` ends: in wait() with bytes left to write, or by returning whether all was written. */
  datatype WriteEnd = WriteWaits(left: seq<Byte>) | WriteReturns(complete: bool)

  /** A section of `read` into a buffer of `length` bytes, and whether it calls notify(). */
  function ReadSection(q: Queue, length: nat, block: bool): (r: (Queue, ReadEnd, bool))
  {
    if q.bytes == [] && q.open then (q, if block then ReadWaits else ReadReturns(0, []), false)
    else if !q.open then (q, ReadReturns(-1, []), false)
    else
      var n := Min(length, |q.bytes|);
      (q.(bytes := q.bytes[n..]), ReadReturns(n, q.bytes[..n]), |q.bytes| == q.capacity)
  }

  /** A section of `write`, and whether it calls notify(). */
  function WriteSection(q: Queue, data: seq<Byte>): (r: (Queue, WriteEnd, bool))
    requires Fits(q) && data != []
    ensures Fits(r.0)
  {
    if !q.open then (q, WriteReturns(false), false)
    else if |q.bytes| == q.capacity then (q, WriteWaits(data), false)
    else
      var n := Min(|data|, q.capacity - |q.bytes|);
      (q.(bytes := q.bytes + data[..n]),
       if n == |data| then WriteReturns(true) else WriteWaits(data[n..]),
       q.bytes == [])
  }

  /** Appending the next piece of `data`, which is a piece of an array. */
  lemma NextPiece(a: array<Byte>, offset: nat, data: seq<Byte>, k: nat, len: nat, all: seq<Byte>)
    requires offset + |data| <= a.Length && data == a[offset..offset + |data|] && k + len <= |data|
    ensures (all + data[..k]) + a[offset + k..offset + k + len] == all + data[..k + len]
  {
    var piece := a[offset + k..offset + k + len];
    assert forall i :: 0 <= i < len ==> piece[i] == a[offset + k + i] == data[k + i];
    assert data[..k] + piece == data[..k + len];
  }

  class ByteQueue {
    const buffer: array<Byte>
    var head: nat
    var storedBytes: nat
    var open: bool

    ghost predicate Valid()
      reads this
    {
      storedBytes <= buffer.Length && (head < buffer.Length || (head == 0 && buffer.Length == 0))
    }

    /** The stored bytes, oldest first. */
    ghost function Contents(): (s: seq<Byte>)
      requires Valid()
      reads this, buffer
      ensures |s| == storedBytes
      ensures forall i :: 0 <= i < storedBytes ==>
        s[i] == buffer[if head + i < buffer.Length then head + i else head + i - buffer.Length]
    {
      if head + storedBytes <= buffer.Length then buffer[head..head + storedBytes]
      else buffer[head..] + buffer[..head + storedBytes - buffer.Length]
    }

    ghost function State(): Queue
      requires Valid()
      reads this, buffer
    {
      Queue(buffer.Length, Contents(), open)
    }

    constructor (size: nat)
      ensures Valid() && fresh(buffer) && State() == Queue(size, [], true)
    {
      buffer := new Byte[size](_ => 0);
      head, storedBytes, open := 0, 0, true;
    }

    /** Always notifies. */
    method Close()
      requires Valid()
      modifies this`open
      ensures Valid() && State() == old(State()).(open := false)
    {
      open := false;
    }

    /** A section of `read`. */
    method Read(dst: array<Byte>, block: bool) returns (end: ReadEnd, notify: bool)
      requires Valid() && dst != buffer
      modifies this`head, this`storedBytes, dst
      ensures Valid() && (State(), end, notify) == ReadSection(old(State()), dst.Length, block)
      ensures end.ReadReturns? ==> |end.data| <= dst.Length && dst[..|end.data|] == end.data
    {
      if storedBytes == 0 && open {
        return if block then ReadWaits else ReadReturns(0, []), false;
      }
      if !open {
        return ReadReturns(-1, []), false;
      }
      notify := buffer.Length == storedBytes;
      var totalRead := TakeOut(dst);
      end := ReadReturns(totalRead, dst[..totalRead]);
    }

    /** The copy loop of `read`: at most two runs. */
    method TakeOut(dst: array<Byte>) returns (totalRead: nat)
      requires Valid() && dst != buffer
      modifies this`head, this`storedBytes, dst
      ensures Valid() && totalRead == Min(dst.Length, old(storedBytes)) && totalRead <= dst.Length
      ensures dst[..totalRead] == old(Contents())[..totalRead]
      ensures Contents() == old(Contents())[totalRead..]
    {
      hide Contents;
      ghost var all := Contents();
      var length, offset := dst.Length, 0;
      totalRead := 0;
      while length > 0 && storedBytes > 0
        invariant Valid() && totalRead == offset <= dst.Length && length == dst.Length - offset
        invariant offset + storedBytes == |all|
        invariant dst[..offset] == all[..offset] && Contents() == all[offset..]
        decreases length
      {
        var oneRun := Min(buffer.Length - head, storedBytes);
        var bytesToCopy := Min(length, oneRun);
        ghost var before := Contents();
        TakeRun(dst, offset, bytesToCopy);
        assert all[..offset] + before[..bytesToCopy] == all[..offset + bytesToCopy];
        assert before[bytesToCopy..] == all[offset + bytesToCopy..];
        length := length - bytesToCopy;
        offset := offset + bytesToCopy;
        totalRead := totalRead + bytesToCopy;
      }
    }

    /** One run: copies bytes that lie in one piece and takes them off the ring. */
    method TakeRun(dst: array<Byte>, offset: nat, n: nat)
      requires Valid() && dst != buffer && n <= storedBytes && head + n <= buffer.Length && offset + n <= dst.Length
      modifies this`head, this`storedBytes, dst
      ensures Valid() && storedBytes == old(storedBytes) - n
      ensures dst[..offset + n] == old(dst[..offset]) + old(Contents())[..n] && Contents() == old(Contents())[n..]
    {
      hide Contents;
      FirstRun(n);
      CopyOut(dst, offset, n);
      Drop(n);
    }

    /** Up to the end of the buffer the contents lie in one piece. */
    lemma FirstRun(n: nat)
      requires Valid() && n <= storedBytes && head + n <= buffer.Length
      ensures buffer[head..head + n] == Contents()[..n]
    {
    }

    /** The first `n` bytes are taken off the ring. */
    method Drop(n: nat)
      requires Valid() && n <= storedBytes && head + n <= buffer.Length
      modifies this`head, this`storedBytes
      ensures Valid() && storedBytes == old(storedBytes) - n && Contents() == old(Contents())[n..]
    {
      hide Contents;
      ghost var left := Contents()[n..];
      head := head + n;
      if head >= buffer.Length {
        head := 0;
      }
      storedBytes := storedBytes - n;
      forall i | 0 <= i < storedBytes ensures Contents()[i] == left[i] {
      }
    }

    /** System.arraycopy from the ring. */
    method CopyOut(dst: array<Byte>, offset: nat, n: nat)
      requires dst != buffer && head + n <= buffer.Length && offset + n <= dst.Length
      modifies dst
      ensures dst[..offset] == old(dst[..offset]) && dst[offset..offset + n] == buffer[head..head + n]
      ensures dst[..offset + n] == old(dst[..offset]) + buffer[head..head + n]
    {
      ghost var run := buffer[head..head + n];
      forall i | 0 <= i < n {
        dst[offset + i] := buffer[head + i];
      }
      ghost var copied := dst[offset..offset + n];
      assert forall i :: 0 <= i < n ==> copied[i] == dst[offset + i] == run[i];
      assert dst[..offset + n] == dst[..offset] + copied;
    }

    /** A section of `write` of the bytes src[offset..offset + length]. */
    method Write(src: array<Byte>, offset: nat, length: nat) returns (end: WriteEnd, notify: bool)
      requires Valid() && src != buffer && 0 < length && offset + length <= src.Length
      modifies this`storedBytes, buffer
      ensures Valid() && Fits(old(State()))
      ensures (State(), end, notify) == WriteSection(old(State()), old(src[offset..offset + length]))
    {
      if buffer.Length == storedBytes && open {
        return WriteWaits(src[offset..offset + length]), false;
      }
      if !open {
        return WriteReturns(false), false;
      }
      notify := storedBytes == 0;
      var bytesToWriteBeforeWaiting := Min(length, buffer.Length - storedBytes);
      PutIn(src, offset, bytesToWriteBeforeWaiting);
      var left := length - bytesToWriteBeforeWaiting;
      assert src[offset..offset + length][..bytesToWriteBeforeWaiting] ==
        src[offset..offset + bytesToWriteBeforeWaiting];
      assert src[offset..offset + length][bytesToWriteBeforeWaiting..] ==
        src[offset + bytesToWriteBeforeWaiting..offset + length];
      end := if left == 0 then WriteReturns(true)
        else WriteWaits(src[offset + bytesToWriteBeforeWaiting..offset + length]);
    }

    /** The copy loop of `write`: at most two runs. */
    method PutIn(src: array<Byte>, offset: nat, n: nat)
      requires Valid() && src != buffer && offset + n <= src.Length && storedBytes + n <= buffer.Length
      modifies this`storedBytes, buffer
      ensures Valid() && Contents() == old(Contents()) + src[offset..offset + n]
    {
      hide Contents;
      ghost var all, data := Contents(), src[offset..offset + n];
      var bufferLength, from, left := buffer.Length, offset, n;
      while left > 0
        invariant offset <= from <= offset + n && from + left == offset + n
        invariant Valid() && storedBytes + left <= buffer.Length
        invariant data == src[offset..offset + n] && Contents() == all + data[..from - offset]
        decreases left
      {
        var tail := head + storedBytes;
        var oneRun;
        if tail >= bufferLength {
          tail := tail - bufferLength;
          oneRun := head - tail;
        } else {
          oneRun := bufferLength - tail;
        }
        var bytesToCopy := Min(oneRun, left);
        Append(src, from, bytesToCopy, tail);
        NextPiece(src, offset, data, from - offset, bytesToCopy, all);
        from := from + bytesToCopy;
        left := left - bytesToCopy;
      }
      assert data[..n] == data;
    }

    /** System.arraycopy into the ring behind the stored bytes. */
    method Append(src: array<Byte>, from: nat, n: nat, tail: nat)
      requires Valid() && src != buffer && from + n <= src.Length && 0 < n && storedBytes + n <= buffer.Length
      requires var end := head + storedBytes; tail == if end >= buffer.Length then end - buffer.Length else end
      requires tail + n <= if head + storedBytes >= buffer.Length then head else buffer.Length
      modifies this`storedBytes, buffer
      ensures Valid() && storedBytes == old(storedBytes) + n
      ensures Contents() == old(Contents()) + src[from..from + n]
    {
      ghost var before := Contents();
      forall i | 0 <= i < n {
        buffer[tail + i] := src[from + i];
      }
      storedBytes := storedBytes + n;
      hide Contents;
      ghost var run := src[from..from + n];
      forall i | 0 <= i < storedBytes ensures Contents()[i] == (before + run)[i] {
        var slot := if head + i < buffer.Length then head + i else head + i - buffer.Length;
        if i < |before| {
          assert before[i] == old(buffer[slot]);
        } else {
          assert slot == tail + (i - |before|);
        }
      }
    }
  }
}
