/**
 Batched logging over a WebSocket, from internal/wslogging/handler.go: messages are
 accepted into a bounded buffer, a writer moves them to a batch, and flushes send the
 batch and keep what could not be sent.

 One handler and its writer are a state machine. A step is one critical section or one
 operation on the connection, so its runs are the interleavings of producers, the
 writer, its timer, the network and Close. Failures of the network are steps like any
 other.
 */
module WsLog {

  const BUFFER_SIZE: nat := 1000
  const MAX_BATCH_SIZE: nat := 50

  type Message = nat

  /** Where the writer is; last says that it stops after the flush. */
  datatype Writer =
    | Selecting
    | Received(message: Message)
    | Flushing(last: bool)
    | Connecting(last: bool)
    | Sending(local: seq<Message>, count: nat, last: bool)
    | WritingBack(local: seq<Message>, count: nat, last: bool)
    | Stopped

  /** accepted and sent are the messages accepted and sent so far, in order. */
  datatype State = State(
    buffer: seq<Message>,
    bufferClosed: bool,
    closed: bool,
    batch: seq<Message>,
    writer: Writer,
    accepted: seq<Message>,
    sent: seq<Message>)

  function Initial(): State {
    State([], false, false, [], Selecting, [], [])
  }

  datatype Step =
    | Send(message: Message)   // sendToWebSocket
    | CloseHandler             // Close marks the handler
    | CloseBuffer              // and then closes its buffer
    | Receive
    | ReceiveClosed
    | Cancel                   // the writer's context is done
    | Tick
    | Append
    | CheckBatch
    | Connect(ok: bool)
    | Write(ok: bool)
    | FinishSending
    | WriteBack

  predicate Enabled(s: State, step: Step) {
    match step
    case Send(_) => true
    case CloseHandler => !s.closed
    case CloseBuffer => s.closed && !s.bufferClosed
    case Receive => s.writer.Selecting? && s.buffer != []
    case ReceiveClosed => s.writer.Selecting? && s.buffer == [] && s.bufferClosed
    case Cancel => s.writer.Selecting?
    case Tick => s.writer.Selecting?
    case Append => s.writer.Received?
    case CheckBatch => s.writer.Flushing?
    case Connect(_) => s.writer.Connecting?
    case Write(_) => s.writer.Sending? && s.writer.count < |s.writer.local|
    case FinishSending => s.writer.Sending? && s.writer.count == |s.writer.local|
    case WriteBack => s.writer.WritingBack?
  }

  /** Whether a message is taken into the buffer: the handler is open and there is room. */
  predicate Accepts(s: State) {
    !s.closed && |s.buffer| < BUFFER_SIZE
  }

  function AfterFlush(last: bool): Writer {
    if last then Stopped else Selecting
  }

  /** The batch without its first count messages. */
  function Unsent(batch: seq<Message>, count: nat): seq<Message> {
    if count <= |batch| then batch[count..] else []
  }

  function Next(s: State, step: Step): State
    requires Enabled(s, step)
  {
    match step
    case Send(m) => if Accepts(s) then s.(buffer := s.buffer + [m], accepted := s.accepted + [m]) else s
    case CloseHandler => s.(closed := true)
    case CloseBuffer => s.(bufferClosed := true)
    case Receive => s.(buffer := s.buffer[1..], writer := Received(s.buffer[0]))
    case ReceiveClosed => s.(writer := Flushing(true))
    case Cancel => s.(writer := Flushing(true))
    case Tick => s.(writer := Flushing(false))
    case Append =>
      var batch := s.batch + [s.writer.message];
      s.(batch := batch, writer := if |batch| >= MAX_BATCH_SIZE then Flushing(false) else Selecting)
    case CheckBatch =>
      s.(writer := if s.batch == [] || s.closed then AfterFlush(s.writer.last) else Connecting(s.writer.last))
    case Connect(ok) =>
      s.(writer := if ok then Sending(s.batch, 0, s.writer.last) else AfterFlush(s.writer.last))
    case Write(ok) =>
      if ok
      then s.(sent := s.sent + [s.writer.local[s.writer.count]], writer := Sending(s.writer.local, s.writer.count + 1, s.writer.last))
      else s.(writer := WritingBack(s.writer.local, s.writer.count, s.writer.last))
    case FinishSending => s.(writer := WritingBack(s.writer.local, s.writer.count, s.writer.last))
    case WriteBack =>
      s.(batch := if |s.writer.local| - s.writer.count > 0 then Unsent(s.batch, s.writer.count) else [],
         writer := AfterFlush(s.writer.last))
  }

  ghost predicate Legal(s: State, steps: seq<Step>)
    decreases |steps|
  {
    steps == [] || (Enabled(s, steps[0]) && Legal(Next(s, steps[0]), steps[1..]))
  }

  function Run(s: State, steps: seq<Step>): State
    requires Legal(s, steps)
    decreases |steps|
  {
    if steps == [] then s else Run(Next(s, steps[0]), steps[1..])
  }

  // ------------------------------------------------------------------
  // Conservation
  // ------------------------------------------------------------------

  /** How much of the batch a flush under way has sent. */
  function SentOfBatch(w: Writer): nat {
    if w.Sending? || w.WritingBack? then w.count else 0
  }

  /** The message between the buffer and the batch. */
  function InHand(w: Writer): seq<Message> {
    if w.Received? then [w.message] else []
  }

  /** Every accepted message is sent, in the batch, in hand or in the buffer: once, and
      in the order of acceptance. */
  ghost predicate Conserved(s: State) {
    s.accepted == Chain(s.sent, s.batch, SentOfBatch(s.writer), InHand(s.writer), s.buffer)
  }

  function Chain(sent: seq<Message>, batch: seq<Message>, count: nat, hand: seq<Message>, buffer: seq<Message>): seq<Message> {
    sent + Unsent(batch, count) + hand + buffer
  }

  ghost predicate Inv(s: State) {
    Conserved(s) && Shaped(s)
  }

  ghost predicate Shaped(s: State) {
    && (s.writer.Sending? || s.writer.WritingBack? ==> s.writer.local == s.batch && s.writer.count <= |s.batch|)
    && (StillSending(s.writer) ==> s.batch != [])
    && (s.bufferClosed ==> s.closed)
    && |s.buffer| <= BUFFER_SIZE
  }

  /** Whether a flush has passed its check that the handler is open, and has not failed. */
  predicate StillSending(w: Writer) {
    w.Connecting? || w.Sending?
  }

  lemma ChainSend(sent: seq<Message>, batch: seq<Message>, count: nat, hand: seq<Message>, buffer: seq<Message>, m: Message)
    ensures Chain(sent, batch, count, hand, buffer + [m]) == Chain(sent, batch, count, hand, buffer) + [m]
  {
  }

  lemma ChainReceive(sent: seq<Message>, batch: seq<Message>, buffer: seq<Message>)
    requires buffer != []
    ensures Chain(sent, batch, 0, [buffer[0]], buffer[1..]) == Chain(sent, batch, 0, [], buffer)
  {
  }

  lemma ChainAppend(sent: seq<Message>, batch: seq<Message>, m: Message, buffer: seq<Message>)
    ensures Chain(sent, batch + [m], 0, [], buffer) == Chain(sent, batch, 0, [m], buffer)
  {
    assert Unsent(batch + [m], 0) == Unsent(batch, 0) + [m];
    assert Unsent(batch, 0) + [m] + [] == Unsent(batch, 0) + [m];
  }

  lemma ChainWrite(sent: seq<Message>, batch: seq<Message>, count: nat, buffer: seq<Message>)
    requires count < |batch|
    ensures Chain(sent + [batch[count]], batch, count + 1, [], buffer) == Chain(sent, batch, count, [], buffer)
  {
    assert Unsent(batch, count) == [batch[count]] + Unsent(batch, count + 1);
  }

  lemma ChainBack(sent: seq<Message>, batch: seq<Message>, count: nat, buffer: seq<Message>)
    requires count <= |batch|
    ensures Chain(sent, Unsent(batch, count), 0, [], buffer) == Chain(sent, batch, count, [], buffer)
    ensures count == |batch| ==> Unsent(batch, count) == []
  {
  }

  /** Steps of the handlers, and of the writer between the buffer and the batch. */
  lemma QueueStepConserves(s: State, step: Step)
    requires Inv(s) && Enabled(s, step) && (step.Send? || step.Receive? || step.Append?)
    ensures Conserved(Next(s, step))
  {
    if step.Send? {
      ChainSend(s.sent, s.batch, SentOfBatch(s.writer), InHand(s.writer), s.buffer, step.message);
    } else if step.Receive? {
      ChainReceive(s.sent, s.batch, s.buffer);
    } else {
      ChainAppend(s.sent, s.batch, s.writer.message, s.buffer);
    }
  }

  /** Steps of a flush that move messages out of the batch. */
  lemma FlushStepConserves(s: State, step: Step)
    requires Inv(s) && Enabled(s, step) && (step.Write? || step.WriteBack?)
    ensures Conserved(Next(s, step))
  {
    if step.Write? {
      ChainWrite(s.sent, s.batch, s.writer.count, s.buffer);
    } else {
      ChainBack(s.sent, s.batch, s.writer.count, s.buffer);
    }
  }

  lemma StepConserves(s: State, step: Step)
    requires Inv(s) && Enabled(s, step)
    ensures Conserved(Next(s, step))
  {
    if step.Send? || step.Receive? || step.Append? {
      QueueStepConserves(s, step);
    } else if step.Write? || step.WriteBack? {
      FlushStepConserves(s, step);
    } else {
      QuietStep(s, step);
    }
  }

  /** The other steps move no message. */
  lemma QuietStep(s: State, step: Step)
    requires Inv(s) && Enabled(s, step)
    requires !step.Send? && !step.Receive? && !step.Append? && !step.Write? && !step.WriteBack?
    ensures
      var next := Next(s, step);
      && next.accepted == s.accepted && next.sent == s.sent && next.batch == s.batch && next.buffer == s.buffer
      && SentOfBatch(next.writer) == SentOfBatch(s.writer) && InHand(next.writer) == InHand(s.writer)
  {
  }

  lemma StepKeepsShape(s: State, step: Step)
    requires Shaped(s) && Enabled(s, step)
    ensures Shaped(Next(s, step))
  {
  }

  lemma StepKeepsInv(s: State, step: Step)
    requires Inv(s) && Enabled(s, step)
    ensures Inv(Next(s, step))
  {
    StepConserves(s, step);
    StepKeepsShape(s, step);
  }

  lemma {:induction false} RunKeepsInv(s: State, steps: seq<Step>)
    requires Inv(s) && Legal(s, steps)
    ensures Inv(Run(s, steps))
    decreases |steps|
  {
    if steps != [] {
      StepKeepsInv(s, steps[0]);
      RunKeepsInv(Next(s, steps[0]), steps[1..]);
    }
  }

  ghost predicate Reaches(steps: seq<Step>, s: State) {
    Legal(Initial(), steps) && Run(Initial(), steps) == s
  }

  ghost predicate Reachable(s: State) {
    exists steps :: Reaches(steps, s)
  }

  /** In every reachable state the accepted messages are those sent, those of the batch
      not yet sent, the one in hand and those in the buffer, in order; and what was sent
      is the first part of what was accepted. */
  lemma ReachableConserves(s: State)
    requires Reachable(s)
    ensures s.accepted == s.sent + Unsent(s.batch, SentOfBatch(s.writer)) + InHand(s.writer) + s.buffer
    ensures s.sent <= s.accepted
    ensures Inv(s)
  {
    var steps :| Reaches(steps, s);
    RunKeepsInv(Initial(), steps);
    SentComesFirst(s);
  }

  lemma SentComesFirst(s: State)
    requires Conserved(s)
    ensures s.sent <= s.accepted
  {
    assert s.accepted == s.sent + (Unsent(s.batch, SentOfBatch(s.writer)) + InHand(s.writer) + s.buffer);
  }

  // ------------------------------------------------------------------
  // Closing
  // ------------------------------------------------------------------

  /** No message is put into the buffer once it is closed. */
  lemma NoSendOnClosedBuffer(s: State, message: Message)
    requires Reachable(s) && s.bufferClosed
    ensures Next(s, Send(message)) == s
  {
    ReachableConserves(s);
  }

  /** The most that can be sent once the handler is closed: what was sent, and the rest
      of the batch if a flush is still sending it. */
  function Ceiling(s: State): seq<Message> {
    s.sent + (if StillSending(s.writer) then Unsent(s.batch, SentOfBatch(s.writer)) else [])
  }

  lemma CeilingFalls(s: State, step: Step)
    requires Shaped(s) && s.closed && Enabled(s, step)
    ensures Next(s, step).closed && Next(s, step).accepted == s.accepted
    ensures s.sent <= Next(s, step).sent && Ceiling(Next(s, step)) <= Ceiling(s)
  {
    if step.Write? {
      WriteKeepsCeiling(s.sent, s.batch, s.writer.count);
    }
  }

  lemma WriteKeepsCeiling(sent: seq<Message>, batch: seq<Message>, count: nat)
    requires count < |batch|
    ensures sent + [batch[count]] + Unsent(batch, count + 1) == sent + Unsent(batch, count)
  {
  }

  /** Once the handler is closed, nothing is sent but the rest of a batch whose flush was
      past its check by then; and nothing at all without such a flush. */
  lemma {:induction false} SentAfterClose(s: State, steps: seq<Step>)
    requires Inv(s) && s.closed && Legal(s, steps)
    ensures s.sent <= Run(s, steps).sent <= Ceiling(s) && Run(s, steps).accepted == s.accepted
    ensures !StillSending(s.writer) ==> Run(s, steps).sent == s.sent
    decreases |steps|
  {
    if steps != [] {
      var next := Next(s, steps[0]);
      CeilingFalls(s, steps[0]);
      StepKeepsInv(s, steps[0]);
      SentAfterClose(next, steps[1..]);
    }
  }

  /** Some continuation sends all that was accepted. */
  ghost predicate CanDeliver(s: State) {
    exists steps :: Delivers(s, steps)
  }

  ghost predicate Delivers(s: State, steps: seq<Step>) {
    Legal(s, steps) && Run(s, steps).sent == Run(s, steps).accepted
  }

  /** Nothing is queued or in hand, and the batch is empty or still being sent. */
  predicate NothingBehind(s: State) {
    && s.buffer == [] && InHand(s.writer) == []
    && (StillSending(s.writer) || Unsent(s.batch, SentOfBatch(s.writer)) == [])
  }

  /** The messages that remain when the handler is closed can still all be sent exactly if
      they are the rest of a batch that a flush is sending: Close itself flushes nothing. */
  lemma ClosedDeliversIff(s: State)
    requires Reachable(s) && s.closed
    ensures CanDeliver(s) <==> NothingBehind(s)
  {
    ReachableConserves(s);
    CeilingOfAccepted(s);
    if NothingBehind(s) {
      var steps := FinishFlush(s);
      assert Delivers(s, steps);
    }
    if CanDeliver(s) {
      var steps :| Delivers(s, steps);
      SentAfterClose(s, steps);
    }
  }

  lemma CeilingOfAccepted(s: State)
    requires Inv(s)
    ensures |Ceiling(s)| <= |s.accepted|
    ensures |Ceiling(s)| == |s.accepted| <==> NothingBehind(s)
    ensures NothingBehind(s) ==> Ceiling(s) == s.accepted
  {
  }

  /** A flush that fails no more sends the whole batch. */
  lemma FinishFlush(s: State) returns (steps: seq<Step>)
    requires Inv(s) && s.closed
    ensures Legal(s, steps) && Run(s, steps).sent == Ceiling(s) && Run(s, steps).accepted == s.accepted
  {
    if s.writer.Sending? {
      steps := SendingSteps(|s.batch|, s.writer.count, |s.batch|);
      SendingRuns(s, |s.batch|);
    } else if s.writer.Connecting? {
      var rest := SendingSteps(|s.batch|, 0, |s.batch|);
      steps := [Connect(true)] + rest;
      SendingRuns(Next(s, Connect(true)), |s.batch|);
      RunPrepend(s, Connect(true), rest);
    } else {
      steps := [];
    }
  }

  /** So Close loses messages: one that is accepted, and never sent however the run goes on. */
  lemma CloseLosesMessages(more: seq<Step>)
    ensures
      var steps := [Send(7), CloseHandler, CloseBuffer];
      && Legal(Initial(), steps) && Run(Initial(), steps).accepted == [7]
      && (Legal(Run(Initial(), steps), more) ==> Run(Run(Initial(), steps), more).sent == [])
  {
    var s1 := Next(Initial(), Send(7));
    var s2 := Next(s1, CloseHandler);
    var s3 := Next(s2, CloseBuffer);
    RunOne(s2, CloseBuffer);
    RunPrepend(s1, CloseHandler, [CloseBuffer]);
    RunPrepend(Initial(), Send(7), [CloseHandler] + [CloseBuffer]);
    assert [Send(7)] + ([CloseHandler] + [CloseBuffer]) == [Send(7), CloseHandler, CloseBuffer];
    if Legal(s3, more) {
      RunKeepsInv(Initial(), [Send(7), CloseHandler, CloseBuffer]);
      SentAfterClose(s3, more);
    }
  }

  // ------------------------------------------------------------------
  // Delivery while the handler is open
  // ------------------------------------------------------------------

  /** An open handler with fewer than 1000 messages queued takes the message, behind all
      others; any other handler drops it. */
  lemma TakenIff(s: State, message: Message)
    ensures
      var next := Next(s, Send(message));
      && (next.accepted == s.accepted + [message] <==> !s.closed && |s.buffer| < 1000)
      && (next.buffer == s.buffer + [message] <==> !s.closed && |s.buffer| < 1000)
      && (next == s <==> s.closed || |s.buffer| >= 1000)
  {
  }

  /** The oldest queued message becomes the last of the batch, and the fiftieth of a batch
      has it flushed at once, without waiting for the timer. */
  lemma FiftiethFlushes(s: State)
    requires s.writer.Selecting? && s.buffer != []
    ensures
      var steps := [Receive, Append];
      && Legal(s, steps)
      && Run(s, steps).batch + Run(s, steps).buffer == s.batch + s.buffer
      && |Run(s, steps).batch| == |s.batch| + 1
      && (Run(s, steps).writer == Flushing(false) <==> |s.batch| >= 49)
      && (Run(s, steps).writer == Selecting <==> |s.batch| < 49)
  {
    RunOne(Next(s, Receive), Append);
    RunPrepend(s, Receive, [Append]);
    assert [Receive] + [Append] == [Receive, Append];
  }

  /** Whether the writer stops after what it is doing, or has stopped. */
  predicate Ending(w: Writer) {
    match w
    case Selecting => false
    case Received(_) => false
    case Flushing(last) => last
    case Connecting(last) => last
    case Sending(_, _, last) => last
    case WritingBack(_, _, last) => last
    case Stopped => true
  }

  /** Whether a flush is still going to send what is left of the batch. */
  predicate WillSend(w: Writer) {
    w.Flushing? || StillSending(w)
  }

  /** The writer goes on, or its last flush can still send all there is. */
  predicate Deliverable(s: State) {
    || !Ending(s.writer)
    || (s.buffer == [] && (WillSend(s.writer) || Unsent(s.batch, SentOfBatch(s.writer)) == []))
  }

  /** What the writer does next when nothing fails. */
  function Onward(s: State): Step {
    match s.writer
    case Selecting => if s.buffer != [] then Receive else Tick
    case Received(_) => Append
    case Flushing(_) => CheckBatch
    case Connecting(_) => Connect(true)
    case Sending(local, count, _) => if count < |local| then Write(true) else FinishSending
    case WritingBack(_, _, _) => WriteBack
    case Stopped => Tick
  }

  /** How far the writer is from an empty batch, once nothing is queued. */
  function Distance(s: State): nat
    requires Shaped(s)
  {
    match s.writer
    case Selecting => if s.batch == [] then 0 else 5 + |s.batch|
    case Received(_) => 0
    case Flushing(_) => 4 + |s.batch|
    case Connecting(_) => 3 + |s.batch|
    case Sending(_, count, _) => 2 + |s.batch| - count
    case WritingBack(_, count, _) => if count == |s.batch| then 1 else 6 + |s.batch|
    case Stopped => 0
  }

  lemma OnwardIsNearer(s: State)
    requires Inv(s) && !s.closed && Deliverable(s) && s.sent != s.accepted
    ensures Enabled(s, Onward(s))
    ensures
      var next := Next(s, Onward(s));
      && Inv(next) && !next.closed && Deliverable(next) && next.accepted == s.accepted
      && (|| |next.buffer| < |s.buffer|
          || (|next.buffer| == |s.buffer| && |InHand(next.writer)| < |InHand(s.writer)|)
          || (|next.buffer| == |s.buffer| && |InHand(next.writer)| == |InHand(s.writer)| && Distance(next) < Distance(s)))
  {
    StepKeepsInv(s, Onward(s));
  }

  lemma {:induction false} DeliverOn(s: State) returns (steps: seq<Step>)
    requires Inv(s) && !s.closed && Deliverable(s)
    ensures Delivers(s, steps)
    decreases |s.buffer|, |InHand(s.writer)|, Distance(s)
  {
    if s.sent == s.accepted {
      steps := [];
    } else {
      OnwardIsNearer(s);
      var rest := DeliverOn(Next(s, Onward(s)));
      RunPrepend(s, Onward(s), rest);
      steps := [Onward(s)] + rest;
    }
  }

  /** How many messages a writer that is about to stop sends at most. */
  function LastCeiling(s: State): nat
    requires Shaped(s)
  {
    |s.sent| + if WillSend(s.writer) then |Unsent(s.batch, SentOfBatch(s.writer))| else 0
  }

  lemma LastCeilingFalls(s: State, step: Step)
    requires Shaped(s) && Ending(s.writer) && Enabled(s, step)
    ensures
      var next := Next(s, step);
      Shaped(next) && Ending(next.writer) && LastCeiling(next) <= LastCeiling(s) && |s.accepted| <= |next.accepted|
  {
  }

  lemma {:induction false} SentAtTheEnd(s: State, steps: seq<Step>)
    requires Shaped(s) && Ending(s.writer) && Legal(s, steps)
    ensures |Run(s, steps).sent| <= LastCeiling(s) && |s.accepted| <= |Run(s, steps).accepted|
    decreases |steps|
  {
    if steps != [] {
      LastCeilingFalls(s, steps[0]);
      SentAtTheEnd(Next(s, steps[0]), steps[1..]);
    }
  }

  lemma LastCeilingIsShort(s: State)
    requires Inv(s) && Ending(s.writer) && !Deliverable(s)
    ensures LastCeiling(s) < |s.accepted|
  {
  }

  /** While the handler is open, all that was accepted can still be sent, whatever failed
      before, if and only if the writer goes on, or nothing is queued and its last flush
      has sent the batch or is still to send it. */
  lemma OpenDeliversIff(s: State)
    requires Reachable(s) && !s.closed
    ensures CanDeliver(s) <==> Deliverable(s)
  {
    ReachableConserves(s);
    if Deliverable(s) {
      var steps := DeliverOn(s);
      assert Delivers(s, steps);
    } else {
      LastCeilingIsShort(s);
      forall steps | Legal(s, steps)
        ensures !Delivers(s, steps)
      {
        SentAtTheEnd(s, steps);
      }
    }
  }

  // ------------------------------------------------------------------
  // The handler
  // ------------------------------------------------------------------

  class Handler {
    var wsBuffer: seq<Message>
    var bufferClosed: bool
    var closed: bool
    var batch: seq<Message>
    ghost var accepted: seq<Message>
    ghost var sent: seq<Message>

    /** The state that the machine has when the writer is at a given point. */
    ghost function View(w: Writer): State
      reads this
    {
      State(wsBuffer, bufferClosed, closed, batch, w, accepted, sent)
    }

    constructor ()
      ensures View(Selecting) == Initial()
    {
      wsBuffer, bufferClosed, closed, batch := [], false, false, [];
      accepted, sent := [], [];
    }

    method SendToWebSocket(message: Message, ghost w: Writer)
      modifies this
      ensures View(w) == Next(old(View(w)), Send(message))
    {
      if closed {
        return;
      }
      if |wsBuffer| < BUFFER_SIZE {
        wsBuffer := wsBuffer + [message];
        accepted := accepted + [message];
      }
    }

    /** Marks the handler closed and then closes its buffer, once. */
    method Close(ghost w: Writer)
      requires Inv(View(w)) && (closed ==> bufferClosed)
      modifies this
      ensures closed && bufferClosed
      ensures View(w) == old(View(w)).(closed := true, bufferClosed := true)
    {
      if !closed {
        closed := true;
        bufferClosed := true;
      }
    }

    /** Connects and sends the batch until a write fails; the connection takes the first
        writes messages. Nothing else touches the batch meanwhile. */
    method FlushBatch(connects: bool, writes: nat)
      modifies this`batch, this`sent
      ensures View(Selecting) == AfterFlushBatch(old(View(Selecting)), connects, writes)
    {
      if |batch| == 0 {
        return;
      }
      var localBatch := batch;
      if closed || !connects {
        return;
      }
      var sentCount := 0;
      while sentCount < |localBatch| && sentCount < writes
        invariant sentCount <= |localBatch| && sentCount <= writes
        invariant batch == old(batch) && sent == old(sent) + localBatch[..sentCount]
      {
        sent := sent + [localBatch[sentCount]];
        sentCount := sentCount + 1;
      }
      var remainingCount := |localBatch| - sentCount;
      if remainingCount > 0 {
        batch := batch[sentCount..];
      } else {
        batch := [];
      }
    }

    /** The writer's turn when it gets a message from the buffer. */
    method ReceiveMessage(connects: bool, writes: nat)
      requires wsBuffer != []
      modifies this`wsBuffer, this`batch, this`sent
      ensures
        var s := old(View(Selecting));
        var appended := s.(buffer := s.buffer[1..], batch := s.batch + [s.buffer[0]]);
        View(Selecting) == if |appended.batch| >= MAX_BATCH_SIZE then AfterFlushBatch(appended, connects, writes) else appended
    {
      var data := wsBuffer[0];
      wsBuffer := wsBuffer[1..];
      batch := batch + [data];
      if |batch| >= MAX_BATCH_SIZE {
        FlushBatch(connects, writes);
      }
    }
  }

  /** What a whole flush does when the connection takes the first writes messages. */
  function AfterFlushBatch(s: State, connects: bool, writes: nat): State {
    if s.closed || !connects then s
    else
      var count := if writes < |s.batch| then writes else |s.batch|;
      s.(batch := s.batch[count..], sent := s.sent + s.batch[..count])
  }

  // ------------------------------------------------------------------
  // A flush, step by step
  // ------------------------------------------------------------------

  /** The steps of sending from a given message on. */
  function SendingSteps(length: nat, count: nat, writes: nat): seq<Step>
    requires count <= length
    decreases length - count
  {
    if count == length then [FinishSending, WriteBack]
    else if count >= writes then [Write(false), WriteBack]
    else [Write(true)] + SendingSteps(length, count + 1, writes)
  }

  function FlushSteps(s: State, connects: bool, writes: nat): seq<Step> {
    if s.batch == [] || s.closed then [CheckBatch]
    else if !connects then [CheckBatch, Connect(false)]
    else [CheckBatch, Connect(true)] + SendingSteps(|s.batch|, 0, writes)
  }

  /** What sending the rest of the batch leads to. */
  function AfterSending(s: State, writes: nat): State
    requires s.writer.Sending? && s.writer.count <= |s.batch| && s.writer.count <= writes
  {
    var count := if writes < |s.batch| then writes else |s.batch|;
    s.(batch := s.batch[count..], sent := s.sent + s.batch[s.writer.count..count], writer := AfterFlush(s.writer.last))
  }

  lemma SendingEnds(s: State, writes: nat)
    requires s.writer.Sending? && s.writer.local == s.batch != [] && s.writer.count <= |s.batch|
    requires s.writer.count <= writes && (s.writer.count == |s.batch| || s.writer.count == writes)
    ensures
      var steps := SendingSteps(|s.batch|, s.writer.count, writes);
      Legal(s, steps) && Run(s, steps) == AfterSending(s, writes)
  {
    var first := if s.writer.count == |s.batch| then FinishSending else Write(false);
    var next := Next(s, first);
    RunOne(next, WriteBack);
    assert [first, WriteBack][1..] == [WriteBack];
    assert s.batch[s.writer.count..s.writer.count] == [];
  }

  lemma {:induction false} SendingRuns(s: State, writes: nat)
    requires s.writer.Sending? && s.writer.local == s.batch != [] && s.writer.count <= |s.batch|
    requires s.writer.count <= writes
    ensures
      var steps := SendingSteps(|s.batch|, s.writer.count, writes);
      Legal(s, steps) && Run(s, steps) == AfterSending(s, writes)
    decreases |s.batch| - s.writer.count
  {
    if s.writer.count == |s.batch| || s.writer.count == writes {
      SendingEnds(s, writes);
    } else {
      var next := Next(s, Write(true));
      SendingRuns(next, writes);
      SliceOne(s.sent, s.batch, s.writer.count, if writes < |s.batch| then writes else |s.batch|);
      RunPrepend(s, Write(true), SendingSteps(|s.batch|, s.writer.count + 1, writes));
    }
  }

  lemma RunPrepend(s: State, step: Step, steps: seq<Step>)
    requires Enabled(s, step) && Legal(Next(s, step), steps)
    ensures Legal(s, [step] + steps) && Run(s, [step] + steps) == Run(Next(s, step), steps)
  {
    assert ([step] + steps)[1..] == steps;
  }

  lemma SliceOne(sent: seq<Message>, batch: seq<Message>, from: nat, to: nat)
    requires from < to <= |batch|
    ensures sent + [batch[from]] + batch[from + 1..to] == sent + batch[from..to]
  {
  }

  lemma RunOne(s: State, step: Step)
    requires Enabled(s, step)
    ensures Legal(s, [step]) && Run(s, [step]) == Next(s, step)
  {
    assert [step][1..] == [];
  }

  /** The handler's flush is one of the machine's runs, in which the writer is not
      interrupted. */
  lemma FlushRuns(s: State, connects: bool, writes: nat)
    requires s.writer == Flushing(false)
    ensures
      var steps := FlushSteps(s, connects, writes);
      Legal(s, steps) && Run(s, steps) == AfterFlushBatch(s, connects, writes).(writer := Selecting)
  {
    if s.batch == [] || s.closed {
      RunOne(s, CheckBatch);
    } else {
      var checked := Next(s, CheckBatch);
      if !connects {
        RunOne(checked, Connect(false));
        RunPrepend(s, CheckBatch, [Connect(false)]);
      } else {
        var rest := SendingSteps(|s.batch|, 0, writes);
        SendingRuns(Next(checked, Connect(true)), writes);
        RunPrepend(checked, Connect(true), rest);
        RunPrepend(s, CheckBatch, [Connect(true)] + rest);
        assert [CheckBatch, Connect(true)] + rest == [CheckBatch] + ([Connect(true)] + rest);
      }
    }
  }
}
