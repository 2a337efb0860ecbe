/** TerminalSession.java: the hand-off of process output from the reader thread to the main thread's handler, through a
    ByteQueue and a counter of pending messages, in every interleaving. */
module Session {
  import opened Common
  import opened Bytes
  import opened ByteQueues

  /** What one read from the process may return at most, the queue's size, and the handler's buffer. */
  datatype Sizes = Sizes(chunk: nat, capacity: nat, receive: nat)

  const SOURCE_SIZES := Sizes(4096, 4096, 4096)

  /** The reader thread: reading from the process, about to take the queue's lock, waiting for room un-notified,
      about to send a message, or ended. */
  datatype Reader = Reads | EntersWrite(left: seq<Byte>) | WaitsToWrite(left: seq<Byte>) | Sends | Ended

  /** `written` counts the stored bytes of the chunk that no message has been sent for yet. As history, the bytes the
      process produced and those appended to the emulator. */
  datatype State = State(queue: Queue, reader: Reader, pending: nat, written: nat, produced: seq<Byte>,
      appended: seq<Byte>)

  datatype Step =
    | Produce(data: seq<Byte>)   // a read from the process returns
    | ReaderRuns                 // the reader takes the lock and runs until it waits or has written
    | ReaderWakes                // wait() ends without a notification
    | Send
    | Handle                     // the handler takes a message and reads what it can
    | Exit                       // the handler takes the exit message: it reads once more, then closes the queue

  function Init(z: Sizes): State {
    State(Queue(z.capacity, [], true), Reads, 0, 0, [], [])
  }

  function Wake(r: Reader): Reader {
    if r.WaitsToWrite? then EntersWrite(r.left) else r
  }

  function RunReader(s: State): State
    requires s.reader.EntersWrite? && s.reader.left != [] && Fits(s.queue)
  {
    var (q, end, notify) := WriteSection(s.queue, s.reader.left);
    s.(queue := q,
       written := s.written + (|q.bytes| - |s.queue.bytes|),
       reader := match end
         case WriteWaits(left) => WaitsToWrite(left)
         case WriteReturns(complete) => if complete then Sends else Ended)
  }

  /** The handler's read, which does not block. */
  function Receive(s: State, z: Sizes): State {
    var (q, end, notify) := ReadSection(s.queue, z.receive, false);
    var data := if end.ReadReturns? && end.count > 0 then end.data else [];
    s.(queue := q, appended := s.appended + data, reader := if notify then Wake(s.reader) else s.reader)
  }

  function Next(z: Sizes, s: State, step: Step): State {
    match step
    case Produce(data) =>
      if s.reader.Reads? && 0 < |data| <= z.chunk then
        s.(reader := EntersWrite(data), written := 0, produced := s.produced + data)
      else s
    case ReaderRuns =>
      if s.reader.EntersWrite? && s.reader.left != [] && Fits(s.queue) then RunReader(s) else s
    case ReaderWakes => s.(reader := Wake(s.reader))
    case Send => if s.reader.Sends? then s.(reader := Reads, pending := s.pending + 1, written := 0) else s
    case Handle => if s.pending > 0 then Receive(s.(pending := s.pending - 1), z) else s
    case Exit =>
      var s' := Receive(s, z);
      s'.(queue := s'.queue.(open := false), reader := Wake(s'.reader))
  }

  function Run(z: Sizes, steps: seq<Step>): State {
    if steps == [] then Init(z) else Next(z, Run(z, steps[..|steps| - 1]), steps[|steps| - 1])
  }

  /** While the queue is open, a blocked reader has a message pending, and bytes wait for an idle reader only if
      a message does. */
  predicate Safe(s: State) {
    s.queue.open ==>
      && (s.reader.WaitsToWrite? ==> s.pending > 0)
      && (s.reader.Reads? && s.pending == 0 ==> s.queue.bytes == [])
  }

  function Left(r: Reader): seq<Byte> {
    if r.EntersWrite? || r.WaitsToWrite? then r.left else []
  }

  /** No byte is lost, repeated or reordered while the queue is open. */
  predicate Conserved(s: State) {
    s.queue.open ==> s.appended + s.queue.bytes + Left(s.reader) == s.produced
  }

  /** Every stored byte belongs to a pending message or to the chunk under way. */
  predicate Covered(z: Sizes, s: State) {
    |s.queue.bytes| <= s.pending * z.receive + s.written
  }

  predicate Inv(z: Sizes, s: State) {
    && s.queue.capacity == z.capacity && Fits(s.queue)
    && (s.reader.EntersWrite? || s.reader.WaitsToWrite? ==> s.reader.left != [])
    && (s.queue.open ==>
          && !s.reader.Ended?
          && s.written + |Left(s.reader)| <= z.chunk
          && (s.reader.Reads? ==> s.written == 0)
          && Covered(z, s)
          && (s.reader.WaitsToWrite? ==> |s.queue.bytes| == z.capacity))
    && Conserved(s)
  }

  predicate Suitable(z: Sizes) {
    0 < z.chunk && z.chunk <= z.capacity && z.chunk <= z.receive
  }

  lemma ReaderKeeps(z: Sizes, s: State)
    requires Suitable(z) && Inv(z, s) && s.reader.EntersWrite?
    ensures Inv(z, RunReader(s))
  {
    var q, left := s.queue, s.reader.left;
    if q.open && |q.bytes| < q.capacity {
      var n := Min(|left|, q.capacity - |q.bytes|);
      assert left == left[..n] + left[n..];
      assert s.appended + (q.bytes + left[..n]) + left[n..] == s.appended + q.bytes + left;
      assert n == |left| ==> left[n..] == [];
    }
  }

  lemma Times(pending: nat, receive: nat)
    ensures (pending + 1) * receive == pending * receive + receive
    ensures 0 * receive == 0
  {
  }

  lemma ReceiveKeeps(z: Sizes, s: State)
    requires Suitable(z) && Inv(z, s.(pending := s.pending + 1))
    ensures Inv(z, Receive(s, z))
  {
    var q := s.queue;
    Times(s.pending, z.receive);
    if q.open && q.bytes != [] {
      var n := Min(z.receive, |q.bytes|);
      assert s.appended + q.bytes == (s.appended + q.bytes[..n]) + q.bytes[n..];
    }
  }

  lemma ExitKeeps(z: Sizes, s: State)
    requires Suitable(z) && Inv(z, s)
    ensures Inv(z, Next(z, s, Exit))
  {
  }

  lemma NextKeeps(z: Sizes, s: State, step: Step)
    requires Suitable(z) && Inv(z, s)
    ensures Inv(z, Next(z, s, step))
  {
    hide Receive, RunReader;
    match step
    case Produce(data) =>
      if s.reader.Reads? {
        assert s.appended + s.queue.bytes + [] == s.appended + s.queue.bytes;
      }
    case ReaderRuns =>
      if s.reader.EntersWrite? {
        ReaderKeeps(z, s);
      }
    case Send => Times(s.pending, z.receive);
    case Handle =>
      if s.pending > 0 {
        ReceiveKeeps(z, s.(pending := s.pending - 1));
      }
    case Exit => ExitKeeps(z, s);
    case ReaderWakes =>
  }

  lemma InvIsSafe(z: Sizes, s: State)
    requires Suitable(z) && Inv(z, s)
    ensures Safe(s)
  {
    Times(s.pending, z.receive);
  }

  lemma {:induction false} EveryRun(z: Sizes, steps: seq<Step>)
    requires Suitable(z)
    ensures Inv(z, Run(z, steps)) && Safe(Run(z, steps))
  {
    hide Next, Inv, Safe;
    if steps == [] {
      InitKeeps(z);
    } else {
      EveryRun(z, steps[..|steps| - 1]);
      NextKeeps(z, Run(z, steps[..|steps| - 1]), steps[|steps| - 1]);
    }
    InvIsSafe(z, Run(z, steps));
  }

  lemma InitKeeps(z: Sizes)
    ensures Inv(z, Init(z))
  {
  }

  // ----- The sizes in the source -----

  /** With a receive buffer as large as the queue, no message pending means an empty queue, unless the reader is
      between writing and sending. */
  predicate Drained(s: State) {
    s.queue.open && s.pending == 0 && !s.reader.Sends? ==> s.queue.bytes == []
  }

  lemma NextDrains(z: Sizes, s: State, step: Step)
    requires Suitable(z) && z.capacity <= z.receive && Inv(z, s) && Drained(s)
    ensures Drained(Next(z, s, step))
  {
    InvIsSafe(z, s);
  }

  /** Never a deadlock and no stranded bytes, with all sizes as in the source, in every interleaving. */
  lemma {:induction false} SourceIsSafe(steps: seq<Step>)
    ensures var s := Run(SOURCE_SIZES, steps); Safe(s) && Drained(s) && Conserved(s)
  {
    var z := SOURCE_SIZES;
    EveryRun(z, steps);
    if steps != [] {
      var s := Run(z, steps[..|steps| - 1]);
      SourceIsSafe(steps[..|steps| - 1]);
      EveryRun(z, steps[..|steps| - 1]);
      NextDrains(z, s, steps[|steps| - 1]);
    }
  }

  // ----- Other sizes -----

  function Zeros(n: nat): (s: seq<Byte>)
    ensures |s| == n
  {
    seq(n, _ => 0)
  }

  lemma Extend(z: Sizes, steps: seq<Step>, step: Step)
    ensures Run(z, steps + [step]) == Next(z, Run(z, steps), step)
  {
    assert (steps + [step])[..|steps|] == steps;
  }

  /** A chunk that does not fit into the queue blocks the reader before any message is sent. */
  lemma LargeChunkBlocks(z: Sizes)
    requires z.capacity < z.chunk
    ensures !Safe(Run(z, [] + [Produce(Zeros(z.capacity + 1))] + [ReaderRuns]))
  {
    var produce := Produce(Zeros(z.capacity + 1));
    Extend(z, [], produce);
    Extend(z, [] + [produce], ReaderRuns);
    if z.capacity > 0 {
      assert Min(z.capacity + 1, z.capacity) == z.capacity;
    }
  }

  /** A chunk larger than the receive buffer leaves bytes in the queue that no message is pending for. */
  lemma LargeChunkStrands(z: Sizes)
    requires z.receive < z.chunk <= z.capacity
    ensures !Safe(Run(z, [] + [Produce(Zeros(z.receive + 1))] + [ReaderRuns] + [Send] + [Handle]))
  {
    var produce := Produce(Zeros(z.receive + 1));
    Extend(z, [], produce);
    Extend(z, [] + [produce], ReaderRuns);
    Extend(z, [] + [produce] + [ReaderRuns], Send);
    Extend(z, [] + [produce] + [ReaderRuns] + [Send], Handle);
    var s := Run(z, [] + [produce] + [ReaderRuns]);
    assert s.reader == Sends && s.queue.bytes == Zeros(z.receive + 1);
  }

  predicate SafeRun(z: Sizes, steps: seq<Step>) {
    Safe(Run(z, steps))
  }

  /** The hand-off is safe in every interleaving exactly when a chunk fits both into the queue and into the
      receive buffer. */
  lemma SafeExactlyWhenChunksFit(z: Sizes)
    requires 0 < z.chunk
    ensures (forall steps :: SafeRun(z, steps)) <==> z.chunk <= z.capacity && z.chunk <= z.receive
  {
    hide Run, Safe;
    if z.capacity < z.chunk {
      LargeChunkBlocks(z);
      assert !SafeRun(z, [] + [Produce(Zeros(z.capacity + 1))] + [ReaderRuns]);
    } else if z.receive < z.chunk {
      LargeChunkStrands(z);
      assert !SafeRun(z, [] + [Produce(Zeros(z.receive + 1))] + [ReaderRuns] + [Send] + [Handle]);
    } else {
      forall steps ensures SafeRun(z, steps) {
        EveryRun(z, steps);
      }
    }
  }
}
