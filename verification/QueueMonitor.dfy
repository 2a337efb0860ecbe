/** Two threads on a ByteQueue: every interleaving of the sections of one producer and one consumer. */
module QueueMonitor {
  import opened Common
  import opened Bytes
  import opened ByteQueues

  /** A thread is outside the queue, about to take its lock (after a call, or woken up), or waiting un-notified. */
  datatype Producer = NotWriting | EntersWrite(left: seq<Byte>) | WaitsToWrite(left: seq<Byte>)

  datatype Consumer = NotReading | EntersRead(length: nat, block: bool) | WaitsToRead(length: nat)

  /** The queue, its threads, and as history the bytes offered to `write`, stored, and handed out by `read`. */
  datatype State = State(queue: Queue, producer: Producer, consumer: Consumer,
                         offered: seq<Byte>, stored: seq<Byte>, delivered: seq<Byte>)

  datatype Step =
    | Offer(data: seq<Byte>)             // the producer calls write
    | ProducerRuns                       // the producer takes the lock and runs until it waits or returns
    | Ask(length: nat, block: bool)      // the consumer calls read
    | ConsumerRuns
    | Close(consumerFirst: bool)         // notify() may wake either thread
    | ProducerWakes                      // wait() ends without a notification
    | ConsumerWakes

  function Init(capacity: nat): State {
    State(Queue(capacity, [], true), NotWriting, NotReading, [], [], [])
  }

  function WakeProducer(p: Producer): Producer {
    if p.WaitsToWrite? then EntersWrite(p.left) else p
  }

  function WakeConsumer(c: Consumer): Consumer {
    if c.WaitsToRead? then EntersRead(c.length, true) else c
  }

  function RunProducer(s: State): State
    requires s.producer.EntersWrite? && s.producer.left != [] && Fits(s.queue)
  {
    var (q, end, notify) := WriteSection(s.queue, s.producer.left);
    s.(queue := q,
       producer := match end
         case WriteWaits(left) => WaitsToWrite(left)
         case WriteReturns(_) => NotWriting,
       consumer := if notify then WakeConsumer(s.consumer) else s.consumer,
       stored := s.stored + q.bytes[|s.queue.bytes|..])
  }

  function RunConsumer(s: State): State
    requires s.consumer.EntersRead?
  {
    var (q, end, notify) := ReadSection(s.queue, s.consumer.length, s.consumer.block);
    s.(queue := q,
       consumer := if end.ReadWaits? then WaitsToRead(s.consumer.length) else NotReading,
       producer := if notify then WakeProducer(s.producer) else s.producer,
       delivered := s.delivered + if end.ReadWaits? then [] else end.data)
  }

  /** What a step does; a step that is not possible does nothing. */
  function Next(s: State, step: Step): State {
    match step
    case Offer(data) =>
      if s.producer.NotWriting? && data != [] then s.(producer := EntersWrite(data), offered := s.offered + data) else s
    case ProducerRuns =>
      if s.producer.EntersWrite? && s.producer.left != [] && Fits(s.queue) then RunProducer(s) else s
    case Ask(length, block) =>
      if s.consumer.NotReading? then s.(consumer := EntersRead(length, block)) else s
    case ConsumerRuns =>
      if s.consumer.EntersRead? then RunConsumer(s) else s
    case Close(consumerFirst) =>
      var closed := s.(queue := s.queue.(open := false));
      if s.consumer.WaitsToRead? && (consumerFirst || !s.producer.WaitsToWrite?) then
        closed.(consumer := WakeConsumer(s.consumer))
      else closed.(producer := WakeProducer(s.producer))
    case ProducerWakes => s.(producer := WakeProducer(s.producer))
    case ConsumerWakes => s.(consumer := WakeConsumer(s.consumer))
  }

  function Run(s: State, steps: seq<Step>): State {
    if steps == [] then s else Next(Run(s, steps[..|steps| - 1]), steps[|steps| - 1])
  }

  function Left(p: Producer): seq<Byte> {
    if p.NotWriting? then [] else p.left
  }

  /** No lost wakeup: a thread waits un-notified only while it has to. */
  predicate NoLostWakeup(s: State) {
    && (s.consumer.WaitsToRead? ==> s.queue.bytes == [] && s.queue.open)
    && (s.producer.WaitsToWrite? ==> |s.queue.bytes| == s.queue.capacity && s.queue.open)
  }

  /** First in, first out, and nothing lost while the queue is open. */
  predicate Fifo(s: State) {
    && s.delivered + s.queue.bytes == s.stored
    && s.stored <= s.offered
    && (s.queue.open ==> s.stored + Left(s.producer) == s.offered)
  }

  predicate BothWait(s: State) {
    s.consumer.WaitsToRead? && s.producer.WaitsToWrite?
  }

  predicate Sound(s: State) {
    && Fits(s.queue) && Fifo(s)
    && (s.producer.NotWriting? || s.producer.left != [])
  }

  /** A queue without capacity loses wakeups: `close` wakes only one of two waiting threads. */
  predicate Inv(s: State) {
    Sound(s) && (0 < s.queue.capacity ==> NoLostWakeup(s))
  }

  lemma ProducerKeeps(s: State)
    requires Inv(s) && s.producer.EntersWrite?
    ensures Inv(RunProducer(s))
  {
    var q := s.queue;
    var left := s.producer.left;
    if q.open && |q.bytes| < q.capacity {
      var n := Min(|left|, q.capacity - |q.bytes|);
      Regroup(s.delivered, q.bytes, s.stored, left, n);
    }
  }

  /** Storing the first `n` bytes of `left` behind `bytes`. */
  lemma Regroup(delivered: seq<Byte>, bytes: seq<Byte>, stored: seq<Byte>, left: seq<Byte>, n: nat)
    requires delivered + bytes == stored && n <= |left|
    ensures var more := (bytes + left[..n])[|bytes|..];
      && delivered + (bytes + left[..n]) == stored + more
      && (stored + more) + left[n..] == stored + left
      && stored + more <= stored + left && (n == |left| ==> left[n..] == [])
  {
    assert (bytes + left[..n])[|bytes|..] == left[..n];
    assert left == left[..n] + left[n..];
  }

  lemma ConsumerKeeps(s: State)
    requires Inv(s) && s.consumer.EntersRead?
    ensures Inv(RunConsumer(s))
  {
    var q := s.queue;
    if q.open && q.bytes != [] {
      var n := Min(s.consumer.length, |q.bytes|);
      assert (s.delivered + q.bytes[..n]) + q.bytes[n..] == s.delivered + q.bytes;
    }
  }

  lemma NextKeeps(s: State, step: Step)
    requires Inv(s)
    ensures Inv(Next(s, step)) && Next(s, step).queue.capacity == s.queue.capacity
  {
    match step
    case Offer(data) => assert s.stored + data == s.offered + data || s.producer != NotWriting || !s.queue.open;
    case ProducerRuns =>
      if s.producer.EntersWrite? {
        ProducerKeeps(s);
      }
    case ConsumerRuns =>
      if s.consumer.EntersRead? {
        ConsumerKeeps(s);
      }
    case _ =>
  }

  /** In every interleaving: a waiting reader means an empty open queue, a waiting writer a full open one, so never
      both wait, if the queue has any capacity; and the bytes read so far, followed by those in the queue, are a prefix
      of those offered. */
  lemma {:induction false} EveryRun(capacity: nat, steps: seq<Step>)
    ensures var s := Run(Init(capacity), steps);
      Inv(s) && (0 < capacity ==> !BothWait(s)) && s.queue.capacity == capacity
  {
    hide Inv, Next;
    if steps == [] {
      InitKeeps(capacity);
    } else {
      EveryRun(capacity, steps[..|steps| - 1]);
      NextKeeps(Run(Init(capacity), steps[..|steps| - 1]), steps[|steps| - 1]);
      if 0 < capacity {
        NeverBoth(Run(Init(capacity), steps));
      }
    }
  }

  lemma InitKeeps(capacity: nat)
    ensures Inv(Init(capacity))
  {
  }

  lemma NeverBoth(s: State)
    requires Inv(s) && 0 < s.queue.capacity
    ensures !BothWait(s)
  {
  }

  /** The run in which both threads of a queue without capacity end up waiting for each other. */
  const STUCK := [Ask(1, true), ConsumerRuns, Offer([0]), ProducerRuns]

  lemma StuckWithoutCapacity()
    ensures BothWait(Run(Init(0), STUCK))
  {
    var s0, one: seq<Byte> := Init(0), [0];
    var s1 := Next(s0, Ask(1, true));
    var s2 := Next(s1, ConsumerRuns);
    var s3 := Next(s2, Offer(one));
    var s4 := Next(s3, ProducerRuns);
    assert s2.consumer == WaitsToRead(1);
    assert s4.producer == WaitsToWrite(one);
    RunUnfold(s0, STUCK);
    RunUnfold(s0, STUCK[..3]);
    RunUnfold(s0, STUCK[..2]);
    RunUnfold(s0, STUCK[..1]);
    assert STUCK[..3][..2] == STUCK[..2] && STUCK[..2][..1] == STUCK[..1] && STUCK[..1][..0] == [];
  }

  lemma RunUnfold(s: State, steps: seq<Step>)
    requires steps != []
    ensures Run(s, steps) == Next(Run(s, steps[..|steps| - 1]), steps[|steps| - 1])
  {
  }

  predicate Deadlocks(capacity: nat, steps: seq<Step>) {
    BothWait(Run(Init(capacity), steps))
  }

  /** The two threads can wait for each other exactly when the queue has no capacity. */
  lemma DeadlockExactlyWithoutCapacity(capacity: nat)
    ensures (exists steps :: Deadlocks(capacity, steps)) <==> capacity == 0
  {
    if capacity == 0 {
      StuckWithoutCapacity();
      assert Deadlocks(0, STUCK);
    } else {
      forall steps ensures !Deadlocks(capacity, steps) {
        EveryRun(capacity, steps);
      }
    }
  }

  /** When one thread waits the other can proceed: a waiting writer leaves something to read, and a waiting reader
      leaves room to write. */
  lemma SomeoneProceeds(s: State, b: Byte)
    requires Inv(s) && 0 < s.queue.capacity
    ensures s.producer.WaitsToWrite? ==> ReadSection(s.queue, 1, true).1 == ReadReturns(1, s.queue.bytes[..1])
    ensures s.consumer.WaitsToRead? ==> WriteSection(s.queue, [b]).1 == WriteReturns(true)
  {
    var q := s.queue;
    if s.producer.WaitsToWrite? {
      assert Min(1, |q.bytes|) == 1;
    }
    if s.consumer.WaitsToRead? {
      assert Min(|[b]|, q.capacity - |q.bytes|) == 1;
    }
  }

  // ----- A closed queue -----

  lemma {:induction false} ClosedStays(s: State, steps: seq<Step>)
    requires !s.queue.open
    ensures var s' := Run(s, steps); s'.queue == s.queue && s'.stored == s.stored && s'.delivered == s.delivered
  {
    if steps != [] {
      ClosedStays(s, steps[..|steps| - 1]);
      StaysClosed(Run(s, steps[..|steps| - 1]), steps[|steps| - 1]);
    }
  }

  lemma StaysClosed(s: State, step: Step)
    requires !s.queue.open
    ensures var s' := Next(s, step); s'.queue == s.queue && s'.stored == s.stored && s'.delivered == s.delivered
  {
  }

  lemma {:induction false} RunFurther(s: State, steps: seq<Step>, more: seq<Step>)
    ensures Run(s, steps + more) == Run(Run(s, steps), more)
  {
    hide Next;
    if more == [] {
      assert steps + more == steps;
    } else {
      RunFurther(s, steps, more[..|more| - 1]);
      assert (steps + more)[..|steps + more| - 1] == steps + more[..|more| - 1];
    }
  }

  /** Once the queue is closed, nothing that the threads do reads or writes a byte any more, so the bytes stored are all
      delivered exactly when the queue was empty by then. */
  lemma ClosedDeliversExactly(capacity: nat, steps: seq<Step>, more: seq<Step>)
    requires !Run(Init(capacity), steps).queue.open
    ensures var s, s' := Run(Init(capacity), steps), Run(Init(capacity), steps + more);
      && s'.queue == s.queue && s'.stored == s.stored && s'.delivered == s.delivered
      && (s'.delivered == s'.stored <==> s.queue.bytes == [])
  {
    hide Run, Next;
    EveryRun(capacity, steps);
    RunFurther(Init(capacity), steps, more);
    ClosedStays(Run(Init(capacity), steps), more);
  }

  /** A byte is written, and the queue closed before anyone has read it. */
  const UNREAD := [Offer([7]), ProducerRuns, Close(true)]

  /** However often it is asked for then, the byte is not delivered. */
  lemma ClosedLosesBytes(capacity: nat, more: seq<Step>)
    requires 0 < capacity
    ensures var s := Run(Init(capacity), UNREAD + more); s.stored == [7] && s.delivered == []
  {
    var s0, one: seq<Byte> := Init(capacity), [7];
    var s1 := Next(s0, Offer(one));
    var s2 := Next(s1, ProducerRuns);
    assert s2.stored == [7] && s2.queue.bytes == [7] && s2.delivered == [];
    RunUnfold(s0, UNREAD);
    RunUnfold(s0, UNREAD[..2]);
    RunUnfold(s0, UNREAD[..1]);
    assert UNREAD[..2][..1] == UNREAD[..1] && UNREAD[..1][..0] == [];
    hide Next, Run;
    ClosedDeliversExactly(capacity, UNREAD, more);
  }
}
