/**
 The bounded readers `_descriptor_blocks` and `_download_blocks` of isopropyl/bootloaders.py: a daemon thread reads
 blocks into a queue of two messages while the consuming generator watches cancellation and the deadline.
 */
module BlockQueue {
  import opened Bytes

  const QUEUE_SIZE: nat := 2

  datatype Message = Data(block: seq<Byte>) | Eof | Failed

  /** `DescriptorReader(total)` stops by itself after `total` bytes; `DownloadReader` reads until the end. */
  datatype Mode = DescriptorReader(total: nat) | DownloadReader

  datatype ProducerPc =
    | TestingLoop                 // about to evaluate the while condition
    | Reading                     // in os.read or response.read
    | TestingStop(message: Message)   // in publish, about to read `stopped`
    | Putting(message: Message)   // in publish, in messages.put with a timeout
    | ProducerStopped

  datatype ConsumerPc =
    | Polling                     // about to read the cancel event
    | CheckingDeadline            // about to read the clock
    | Getting                     // in messages.get with a timeout
    | Examining(got: Message)     // a message was taken; the deadline is read once more
    | Suspended                   // a block was yielded; the caller decides whether to go on
    | Leaving(ended: bool)        // in the finally clause, about to set `stopped`
    | Left(ended: bool)

  /** `failed` notes a read that raised, `closed` a caller that closed the generator. */
  datatype State = State(
    producer: ProducerPc, consumer: ConsumerPc, queue: seq<Message>, stopped: bool,
    cancelled: bool, expired: bool, closed: bool,
    blocksRead: seq<seq<Byte>>, sawEnd: bool, failed: bool, yielded: seq<seq<Byte>>, late: nat)

  ghost predicate Init(s: State) {
    s == State(TestingLoop, Polling, [], false, s.cancelled, s.expired, false, [], false, false, [], 0)
  }

  function Join(blocks: seq<seq<Byte>>): seq<Byte> {
    if blocks == [] then [] else Join(blocks[..|blocks| - 1]) + blocks[|blocks| - 1]
  }

  function Remaining(mode: Mode, s: State): int
    requires mode.DescriptorReader?
  {
    mode.total - |Join(s.blocksRead)|
  }

  datatype ReadResult = ReadRaises | ReadEnds | ReadBlock(block: seq<Byte>)

  /** A read yields a nonempty block within the bound, the end of the data, or an exception. */
  predicate CanRead(mode: Mode, s: State, r: ReadResult) {
    r.ReadBlock? ==> r.block != [] && (mode.DescriptorReader? ==> |r.block| <= Remaining(mode, s))
  }

  function MessageFor(r: ReadResult): Message {
    match r
    case ReadRaises => Failed
    case ReadEnds => Eof
    case ReadBlock(block) => Data(block)
  }

  function NextProducer(mode: Mode, s: State, r: ReadResult): ProducerPc {
    match s.producer
    case TestingLoop =>
      if mode.DescriptorReader? then
        if Remaining(mode, s) != 0 && !s.stopped then Reading else TestingStop(Eof)
      else
        if !s.stopped then Reading else ProducerStopped
    case Reading => TestingStop(MessageFor(r))
    case TestingStop(message) => if s.stopped then ProducerStopped else Putting(message)
    case Putting(message) =>
      if |s.queue| >= QUEUE_SIZE then TestingStop(message)    // the put timed out
      else if message.Data? then TestingLoop else ProducerStopped
    case ProducerStopped => ProducerStopped
  }

  /** The queue has room for the message about to be put. */
  predicate Puts(s: State) {
    s.producer.Putting? && |s.queue| < QUEUE_SIZE
  }

  function AfterProducer(mode: Mode, s: State, r: ReadResult): State {
    s.(producer := NextProducer(mode, s, r),
       queue := if Puts(s) then s.queue + [s.producer.message] else s.queue,
       late := s.late + if Puts(s) && s.stopped then 1 else 0,
       blocksRead := if s.producer.Reading? && r.ReadBlock? then s.blocksRead + [r.block] else s.blocksRead,
       sawEnd := s.sawEnd || (s.producer.Reading? && r.ReadEnds?),
       failed := s.failed || (s.producer.Reading? && r.ReadRaises?))
  }

  ghost predicate ProducerStep(mode: Mode, s: State, t: State) {
    !s.producer.ProducerStopped? && exists r: ReadResult :: CanRead(mode, s, r) && t == AfterProducer(mode, s, r)
  }

  /** `closes`: the caller closes the generator instead of asking for the next block. */
  function NextConsumer(s: State, closes: bool): ConsumerPc {
    match s.consumer
    case Polling => if s.cancelled then Leaving(false) else CheckingDeadline
    case CheckingDeadline => if s.expired then Leaving(false) else Getting
    case Getting => if s.queue == [] then Polling else Examining(s.queue[0])    // or the get timed out
    case Examining(message) =>
      if s.expired then Leaving(false) else if message.Data? then Suspended else Leaving(message.Eof?)
    case Suspended => if closes then Leaving(false) else Polling
    case Leaving(ended) => Left(ended)
    case Left(ended) => Left(ended)
  }

  function AfterConsumer(s: State, closes: bool): State {
    s.(consumer := NextConsumer(s, closes),
       queue := if s.consumer.Getting? && s.queue != [] then s.queue[1..] else s.queue,
       yielded := if s.consumer.Examining? && s.consumer.got.Data? && !s.expired
                  then s.yielded + [s.consumer.got.block] else s.yielded,
       closed := s.closed || (s.consumer.Suspended? && closes),
       stopped := s.stopped || s.consumer.Leaving?)
  }

  ghost predicate ConsumerStep(s: State, t: State) {
    !s.consumer.Left? && exists closes: bool :: t == AfterConsumer(s, closes)
  }

  /** Cancellation and the deadline: events that, once true, stay true. */
  ghost predicate EnvironmentStep(s: State, t: State) {
    t == s.(cancelled := true) || t == s.(expired := true)
  }

  ghost predicate Next(mode: Mode, s: State, t: State) {
    ProducerStep(mode, s, t) || ConsumerStep(s, t) || EnvironmentStep(s, t)
  }

  ghost predicate Run(mode: Mode, run: seq<State>) {
    && run != [] && Init(run[0])
    && forall i :: 0 < i < |run| ==> Next(mode, run[i - 1], run[i])
  }

  // ----- the invariant

  /** The blocks among queued messages. */
  function Blocks(queue: seq<Message>): seq<seq<Byte>> {
    if queue == [] then []
    else
      var last := queue[|queue| - 1];
      Blocks(queue[..|queue| - 1]) + if last.Data? then [last.block] else []
  }

  function Held(message: Message): seq<seq<Byte>> {
    if message.Data? then [message.block] else []
  }

  function InHand(s: State): seq<seq<Byte>> {
    match s.consumer
    case Examining(message) => Held(message)
    case _ => []
  }

  function Pending(s: State): seq<seq<Byte>> {
    match s.producer
    case TestingStop(message) => Held(message)
    case Putting(message) => Held(message)
    case _ => []
  }

  predicate Active(s: State) {
    s.consumer.Polling? || s.consumer.CheckingDeadline? || s.consumer.Getting? || s.consumer.Examining?
    || s.consumer.Suspended?
  }

  /** The data has come to its end: the descriptor's bound was reached or a read returned nothing. */
  predicate AtEnd(mode: Mode, s: State) {
    s.sawEnd || (mode.DescriptorReader? && Remaining(mode, s) == 0)
  }

  /** Until the consumer leaves, every block read is yielded, in hand, queued or about to be queued. */
  predicate Flow(s: State) {
    && s.yielded <= s.blocksRead
    && (Active(s) ==> s.yielded + InHand(s) + Blocks(s.queue) + Pending(s) == s.blocksRead)
    && (s.consumer in {Leaving(true), Left(true)} ==> s.yielded == s.blocksRead)
    && (s.stopped <==> s.consumer.Left?)
  }

  /** A message that is not data is the producer's last. */
  predicate LastMessage(s: State) {
    && (forall i :: 0 <= i < |s.queue| && !s.queue[i].Data? ==> i == |s.queue| - 1 && s.producer.ProducerStopped?)
    && (s.consumer.Examining? && !s.consumer.got.Data? ==> s.producer.ProducerStopped? && s.queue == [])
    && (s.consumer in {Leaving(true), Left(true)} ==> s.producer.ProducerStopped?)
  }

  /** An end-of-data message tells the truth, unless the consumer had already left. */
  predicate TrueEnd(mode: Mode, s: State) {
    && (s.producer in {TestingStop(Eof), Putting(Eof)} || Eof in s.queue ==> AtEnd(mode, s) || s.stopped)
    && (s.consumer in {Examining(Eof), Leaving(true), Left(true)} ==> AtEnd(mode, s))
  }

  /** At most one message slips in after `stopped`. */
  predicate LateOnce(s: State) {
    s.late > 0 ==> s.stopped && s.late == 1 && s.producer in {TestingLoop, TestingStop(Eof), ProducerStopped}
  }

  /** Why a consumer leaves early. */
  predicate Reasons(s: State) {
    && (s.producer in {TestingStop(Failed), Putting(Failed)} || Failed in s.queue || s.consumer == Examining(Failed) ==>
          s.failed)
    && (s.consumer in {Leaving(false), Left(false)} ==> s.cancelled || s.expired || s.failed || s.closed)
  }

  predicate Inv(mode: Mode, s: State) {
    && |s.queue| <= QUEUE_SIZE
    && (mode.DescriptorReader? ==> Remaining(mode, s) >= 0)
    && Flow(s) && LastMessage(s) && TrueEnd(mode, s) && LateOnce(s) && Reasons(s)
  }

  lemma BlocksPut(queue: seq<Message>, message: Message)
    ensures Blocks(queue + [message]) == Blocks(queue) + Held(message)
  {
    assert (queue + [message])[..|queue|] == queue;
  }

  lemma {:induction false} BlocksTaken(queue: seq<Message>)
    requires queue != []
    ensures Blocks(queue) == Held(queue[0]) + Blocks(queue[1..])
  {
    var front := queue[..|queue| - 1];
    if front == [] {
      assert queue[1..] == [];
    } else {
      BlocksTaken(front);
      assert front[1..] == queue[1..][..|queue[1..]| - 1];
    }
  }

  lemma ReadKeepsInv(mode: Mode, s: State, t: State)
    requires Inv(mode, s) && s.producer.Reading? && ProducerStep(mode, s, t)
    ensures Inv(mode, t)
  {
    hide Blocks, Join, Inv;
    var r :| CanRead(mode, s, r) && t == AfterProducer(mode, s, r);
    if r.ReadBlock? {
      ReadBlockKeepsInv(mode, s, t, r.block);
    } else {
      ReadNothingKeepsInv(mode, s, t);
    }
  }

  lemma ReadNothingKeepsInv(mode: Mode, s: State, t: State)
    requires Inv(mode, s) && s.producer.Reading?
    requires || t == s.(producer := TestingStop(Failed), failed := true)
             || t == s.(producer := TestingStop(Eof), sawEnd := true)
    ensures Inv(mode, t)
  {
    hide Blocks, Join;
    ReadNothingFlow(s, t);
  }

  lemma ReadBlockKeepsInv(mode: Mode, s: State, t: State, block: seq<Byte>)
    requires Inv(mode, s) && s.producer.Reading?
    requires t == s.(producer := TestingStop(Data(block)), blocksRead := s.blocksRead + [block])
    requires block != [] && (mode.DescriptorReader? ==> |block| <= Remaining(mode, s))
    ensures Inv(mode, t)
  {
    hide Blocks, Join;
    JoinOne(s.blocksRead, block);
    ReadFlow(s, t, block);
  }

  lemma JoinOne(blocks: seq<seq<Byte>>, block: seq<Byte>)
    ensures Join(blocks + [block]) == Join(blocks) + block
  {
    assert (blocks + [block])[..|blocks|] == blocks;
  }

  lemma ReadNothingFlow(s: State, t: State)
    requires Flow(s) && s.producer.Reading? && t == s.(producer := t.producer, sawEnd := t.sawEnd, failed := t.failed)
    requires t.producer in {TestingStop(Failed), TestingStop(Eof)}
    ensures Flow(t)
  {
    hide Blocks;
  }

  lemma ReadFlow(s: State, t: State, block: seq<Byte>)
    requires Flow(s) && s.producer.Reading?
    requires t == s.(producer := TestingStop(Data(block)), blocksRead := s.blocksRead + [block])
    requires s.consumer !in {Leaving(true), Left(true)}
    ensures Flow(t)
  {
    hide Blocks;
    assert t.blocksRead[..|s.blocksRead|] == s.blocksRead;
    if Active(s) {
      assert s.blocksRead == s.yielded + InHand(s) + Blocks(s.queue);
    }
  }

  lemma TestingKeepsInv(mode: Mode, s: State, t: State)
    requires Inv(mode, s) && ProducerStep(mode, s, t) && (s.producer.TestingLoop? || s.producer.TestingStop?)
    ensures Inv(mode, t)
  {
    hide Join, Blocks;
  }

  lemma PutKeepsInv(mode: Mode, s: State, t: State, message: Message)
    requires Inv(mode, s) && s.producer == Putting(message) && ProducerStep(mode, s, t)
    ensures Inv(mode, t)
  {
    hide Join, Blocks;
    if |s.queue| < QUEUE_SIZE {
      BlocksPut(s.queue, message);
      assert t.queue == s.queue + [message];
      PutFlow(s, t, message);
    }
  }

  lemma PutFlow(s: State, t: State, message: Message)
    requires Flow(s) && s.producer == Putting(message)
    requires t == s.(queue := s.queue + [message], late := t.late,
                     producer := if message.Data? then TestingLoop else ProducerStopped)
    ensures Flow(t)
  {
    hide Blocks;
    BlocksPut(s.queue, message);
    assert s.yielded + InHand(s) + Blocks(s.queue) + Held(message)
        == s.yielded + InHand(s) + (Blocks(s.queue) + Held(message)) + [];
  }

  lemma ProducerKeepsInv(mode: Mode, s: State, t: State)
    requires Inv(mode, s) && ProducerStep(mode, s, t)
    ensures Inv(mode, t)
  {
    hide Inv, Join, Blocks;
    match s.producer
    case TestingLoop => TestingKeepsInv(mode, s, t);
    case Reading => ReadKeepsInv(mode, s, t);
    case TestingStop(message) => TestingKeepsInv(mode, s, t);
    case Putting(message) => PutKeepsInv(mode, s, t, message);
    case ProducerStopped =>
  }

  lemma TakeFlow(s: State, t: State)
    requires Flow(s) && s.consumer.Getting? && s.queue != []
    requires t == s.(consumer := Examining(s.queue[0]), queue := s.queue[1..])
    ensures Flow(t)
  {
    hide Blocks;
    BlocksTaken(s.queue);
    var first, rest := Held(s.queue[0]), Blocks(s.queue[1..]);
    assert s.yielded + [] + (first + rest) + Pending(s) == s.yielded + first + rest + Pending(s);
  }

  lemma YieldFlow(s: State, t: State, block: seq<Byte>)
    requires Flow(s) && s.consumer == Examining(Data(block))
    requires t == s.(consumer := Suspended, yielded := s.yielded + [block])
    ensures Flow(t)
  {
    hide Blocks;
    var rest := Blocks(s.queue) + Pending(s);
    assert s.blocksRead == s.yielded + [block] + Blocks(s.queue) + Pending(s);
    assert s.blocksRead == t.yielded + rest;
    assert t.yielded + [] + Blocks(t.queue) + Pending(t) == t.yielded + rest;
  }

  lemma ConsumerKeepsInv(mode: Mode, s: State, t: State)
    requires Inv(mode, s) && ConsumerStep(s, t)
    ensures Inv(mode, t)
  {
    hide ConsumerStep, Flow, LastMessage, TrueEnd, Reasons, LateOnce;
    ConsumerKeepsFlow(s, t);
    ConsumerKeepsMessages(s, t);
    ConsumerKeepsEnd(mode, s, t);
    ConsumerKeepsReasons(s, t);
    ConsumerKeepsReads(mode, s, t);
  }

  lemma ConsumerKeepsReads(mode: Mode, s: State, t: State)
    requires ConsumerStep(s, t)
    ensures t.blocksRead == s.blocksRead && |t.queue| <= |s.queue|
    ensures LateOnce(s) ==> LateOnce(t)
  {
  }

  lemma ConsumerKeepsMessages(s: State, t: State)
    requires LastMessage(s) && ConsumerStep(s, t)
    ensures LastMessage(t)
  {
  }

  lemma ConsumerKeepsEnd(mode: Mode, s: State, t: State)
    requires TrueEnd(mode, s) && (s.stopped ==> s.consumer.Left?) && ConsumerStep(s, t)
    ensures TrueEnd(mode, t)
  {
    hide Join;
  }

  lemma ConsumerKeepsReasons(s: State, t: State)
    requires Reasons(s) && ConsumerStep(s, t)
    ensures Reasons(t)
  {
  }

  lemma ConsumerKeepsFlow(s: State, t: State)
    requires Flow(s) && LastMessage(s) && ConsumerStep(s, t)
    ensures Flow(t) && (s.stopped ==> s.consumer.Left?)
  {
    hide Blocks, LastMessage;
    if t.consumer.Examining? {
      TakeFlow(s, t);
    } else if t.consumer.Suspended? {
      YieldFlow(s, t, s.consumer.got.block);
    } else if t.consumer == Leaving(true) {
      EndFlow(s, t);
    }
  }

  lemma EndFlow(s: State, t: State)
    requires Flow(s) && LastMessage(s) && s.consumer == Examining(Eof) && t == s.(consumer := Leaving(true))
    ensures Flow(t)
  {
    assert s.yielded + [] + Blocks([]) + [] == s.yielded;
  }

  lemma EnvironmentKeepsInv(mode: Mode, s: State, t: State)
    requires Inv(mode, s) && EnvironmentStep(s, t)
    ensures Inv(mode, t)
  {
    hide Join, Blocks;
  }

  lemma ProducerLeavesConsumer(mode: Mode, s: State, t: State)
    requires ProducerStep(mode, s, t)
    ensures t.consumer == s.consumer && t.yielded == s.yielded
  {
  }

  lemma {:induction false} RunKeepsInv(mode: Mode, run: seq<State>, i: nat)
    requires Run(mode, run) && i < |run|
    ensures Inv(mode, run[i])
  {
    hide Inv, ProducerStep, ConsumerStep, EnvironmentStep;
    if i == 0 {
      InitHolds(mode, run[0]);
    } else {
      RunKeepsInv(mode, run, i - 1);
      assert Next(mode, run[i - 1], run[i]);
      if ProducerStep(mode, run[i - 1], run[i]) {
        ProducerKeepsInv(mode, run[i - 1], run[i]);
      } else if ConsumerStep(run[i - 1], run[i]) {
        ConsumerKeepsInv(mode, run[i - 1], run[i]);
      } else {
        EnvironmentKeepsInv(mode, run[i - 1], run[i]);
      }
    }
  }

  lemma InitHolds(mode: Mode, s: State)
    requires Init(s)
    ensures Inv(mode, s)
  {
  }

  lemma {:induction false} JoinPrefix(a: seq<seq<Byte>>, b: seq<seq<Byte>>)
    requires a <= b
    ensures Join(a) <= Join(b)
  {
    if |a| < |b| {
      JoinPrefix(a, b[..|b| - 1]);
    } else {
      assert a == b;
    }
  }

  // ----- what every schedule keeps

  /** The bytes handed to the caller are those read first, in order, and the queue never outgrows its size. */
  lemma YieldedIsPrefixOfRead(mode: Mode, run: seq<State>, i: nat)
    requires Run(mode, run) && i < |run|
    ensures run[i].yielded <= run[i].blocksRead
    ensures Join(run[i].yielded) <= Join(run[i].blocksRead)
    ensures mode.DescriptorReader? ==> |Join(run[i].blocksRead)| <= mode.total
    ensures |run[i].queue| <= QUEUE_SIZE
  {
    RunKeepsInv(mode, run, i);
    JoinPrefix(run[i].yielded, run[i].blocksRead);
  }

  /** A generator that ends without raising has yielded everything there was to read. */
  lemma NormalEndIsComplete(mode: Mode, run: seq<State>, i: nat)
    requires Run(mode, run) && i < |run| && run[i].consumer == Left(true)
    ensures run[i].yielded == run[i].blocksRead
    ensures run[i].sawEnd || (mode.DescriptorReader? && |Join(run[i].yielded)| == mode.total)
  {
    RunKeepsInv(mode, run, i);
  }

  /**
   A generator raises, or is closed, for a reason: cancellation, the deadline, a read that raised, or its caller.  So
   without any of those it ends normally, having yielded everything.
   */
  lemma LeavingEarlyHasAReason(mode: Mode, run: seq<State>, i: nat)
    requires Run(mode, run) && i < |run| && run[i].consumer.Left?
    requires !run[i].cancelled && !run[i].expired && !run[i].failed && !run[i].closed
    ensures run[i].consumer == Left(true) && run[i].yielded == run[i].blocksRead
  {
    RunKeepsInv(mode, run, i);
  }

  /** A block taken from the queue is the next one yielded, unless the deadline has passed by then. */
  lemma TakenBlocksAreYielded(mode: Mode, run: seq<State>, i: nat)
    requires Run(mode, run) && 0 < i < |run|
    requires run[i - 1].consumer.Examining? && run[i - 1].consumer.got.Data? && !run[i].consumer.Examining?
    ensures run[i].yielded ==
      run[i - 1].yielded + if run[i - 1].expired then [] else [run[i - 1].consumer.got.block]
    ensures run[i].yielded <= run[i].blocksRead
  {
    hide Inv, ProducerStep;
    YieldedIsPrefixOfRead(mode, run, i);
    assert Next(mode, run[i - 1], run[i]);
    if ProducerStep(mode, run[i - 1], run[i]) {
      ProducerLeavesConsumer(mode, run[i - 1], run[i]);
    }
  }

  /** After the consumer has left, at most one more message is published. */
  lemma AtMostOneLateMessage(mode: Mode, run: seq<State>, i: nat)
    requires Run(mode, run) && i < |run|
    ensures run[i].late <= 1
  {
    RunKeepsInv(mode, run, i);
  }

  /** How far the consumer is from leaving once cancelled, or past the deadline. */
  function ConsumerSteps(s: State, cancelled: bool): nat {
    match s.consumer
    case CheckingDeadline => if cancelled then 7 else 2
    case Getting => 6
    case Examining(_) => 5
    case Suspended => 4
    case Polling => 3
    case Leaving(_) => 1
    case Left(_) => 0
  }

  /** Once cancelled or past the deadline every step of the consumer brings it nearer to its end. */
  lemma ConsumerWindsDown(s: State, t: State)
    requires ConsumerStep(s, t)
    ensures s.cancelled ==> ConsumerSteps(t, true) < ConsumerSteps(s, true)
    ensures s.expired ==> ConsumerSteps(t, false) < ConsumerSteps(s, false)
  {
  }

  /** How many more steps the producer can take once `stopped` is set. */
  function ProducerSteps(s: State): nat {
    match s.producer
    case Reading => 5
    case Putting(message) => 4
    case TestingLoop => 2
    case TestingStop(_) => 1
    case ProducerStopped => 0
  }

  /** After the consumer has left, every step of the producer brings it nearer to its end. */
  lemma ProducerWindsDown(mode: Mode, s: State, t: State)
    requires s.stopped && ProducerStep(mode, s, t)
    ensures ProducerSteps(t) < ProducerSteps(s) && t.stopped
  {
  }

  // ----- a run to the normal end

  ghost predicate Reachable(mode: Mode, s: State) {
    exists run :: Run(mode, run) && run[|run| - 1] == s
  }

  lemma Starts(mode: Mode, s: State)
    requires Init(s)
    ensures Reachable(mode, s)
  {
    assert Run(mode, [s]);
  }

  lemma Moves(mode: Mode, s: State, t: State)
    requires Reachable(mode, s) && Next(mode, s, t)
    ensures Reachable(mode, t)
  {
    hide Next;
    var run :| Run(mode, run) && run[|run| - 1] == s;
    var longer := run + [t];
    forall i | 0 < i < |longer| ensures Next(mode, longer[i - 1], longer[i]) {
      if i < |run| {
        assert longer[i] == run[i] && longer[i - 1] == run[i - 1];
      }
    }
    assert Run(mode, longer);
  }

  lemma Consumes(mode: Mode, s: State) returns (t: State)
    requires Reachable(mode, s) && !s.consumer.Left?
    ensures t == AfterConsumer(s, false) && Reachable(mode, t)
  {
    hide Reachable, AfterConsumer;
    t := AfterConsumer(s, false);
    assert ConsumerStep(s, t);
    Moves(mode, s, t);
  }

  lemma Produces(mode: Mode, s: State, r: ReadResult) returns (t: State)
    requires Reachable(mode, s) && !s.producer.ProducerStopped? && CanRead(mode, s, r)
    ensures t == AfterProducer(mode, s, r) && Reachable(mode, t)
  {
    hide Reachable, AfterProducer;
    t := AfterProducer(mode, s, r);
    assert ProducerStep(mode, s, t);
    Moves(mode, s, t);
  }

  /** The producer of a download has read one block and put it into the queue. */
  function OneBlock(block: seq<Byte>): State {
    State(TestingLoop, Polling, [Data(block)], false, false, false, false, [block], false, false, [], 0)
  }

  /** A download, or the reading of a descriptor that holds just this block. */
  predicate Reads(mode: Mode, block: seq<Byte>) {
    block != [] && (mode.DescriptorReader? ==> mode.total == |block|)
  }

  lemma OneBlockReaches(mode: Mode, block: seq<Byte>)
    requires Reads(mode, block)
    ensures Reachable(mode, OneBlock(block))
  {
    hide Reachable;
    var s := OneBlock(block).(queue := [], blocksRead := []);
    Starts(mode, s);
    s := Produces(mode, s, ReadBlock(block));
    s := Produces(mode, s, ReadBlock(block));
    s := Produces(mode, s, ReadEnds);
    s := Produces(mode, s, ReadEnds);
    assert s == OneBlock(block);
  }

  lemma YieldingReaches(mode: Mode, block: seq<Byte>)
    requires Reads(mode, block)
    ensures Reachable(mode, OneBlock(block).(consumer := Polling, queue := [], yielded := [block]))
  {
    hide Reachable;
    OneBlockReaches(mode, block);
    var s := OneBlock(block);
    s := Consumes(mode, s);
    s := Consumes(mode, s);
    s := Consumes(mode, s);
    assert s == OneBlock(block).(consumer := Examining(Data(block)), queue := []);
    s := Consumes(mode, s);
    s := Consumes(mode, s);
    assert s == OneBlock(block).(consumer := Polling, queue := [], yielded := [block]);
  }

  /** A block that was taken in time but looked at after the deadline is not yielded. */
  lemma LateBlockIsDropped(block: seq<Byte>) returns (s: State)
    requires block != []
    ensures Reachable(DownloadReader, s) && s.consumer == Left(false) && s.yielded == [] && s.blocksRead == [block]
  {
    hide Reachable;
    OneBlockReaches(DownloadReader, block);
    s := OneBlock(block);
    s := Consumes(DownloadReader, s);
    s := Consumes(DownloadReader, s);
    s := Consumes(DownloadReader, s);
    assert EnvironmentStep(s, s.(expired := true));
    Moves(DownloadReader, s, s.(expired := true));
    s := Consumes(DownloadReader, s.(expired := true));
    s := Consumes(DownloadReader, s);
  }

  /** The end of the data is in the queue; a descriptor's reader knows it without another read. */
  function Ended(mode: Mode, block: seq<Byte>): State {
    OneBlock(block).(producer := ProducerStopped, queue := [Eof], sawEnd := mode.DownloadReader?, yielded := [block])
  }

  lemma EndingReaches(mode: Mode, block: seq<Byte>)
    requires Reads(mode, block)
    ensures Reachable(mode, Ended(mode, block))
  {
    hide Reachable;
    YieldingReaches(mode, block);
    var s := OneBlock(block).(consumer := Polling, queue := [], yielded := [block]);
    JoinOne([], block);
    s := Produces(mode, s, ReadEnds);
    if mode.DownloadReader? {
      s := Produces(mode, s, ReadEnds);
    }
    assert s.producer == TestingStop(Eof);
    s := Produces(mode, s, ReadEnds);
    s := Produces(mode, s, ReadEnds);
    assert s == Ended(mode, block);
  }

  /** A reader of one block that is not disturbed yields the block and ends normally. */
  lemma UndisturbedReadEnds(mode: Mode, block: seq<Byte>) returns (s: State)
    requires Reads(mode, block)
    ensures Reachable(mode, s) && s.consumer == Left(true) && s.yielded == [block] && s.stopped
    ensures s.sawEnd == mode.DownloadReader?
  {
    hide Reachable;
    EndingReaches(mode, block);
    s := Ended(mode, block);
    s := Consumes(mode, s);
    s := Consumes(mode, s);
    s := Consumes(mode, s);
    assert s.consumer == Examining(Eof);
    s := Consumes(mode, s);
    s := Consumes(mode, s);
  }
}
