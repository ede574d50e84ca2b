/**
 * The belt conveyor system of src/bcs.c: the rendezvous semaphores and handoff
 * queues shared with the arm tasks, the status-polling loop bcs_await_block, the
 * decoding of the packed status_t reply, and one cycle of bcs_task per belt.
 */
module Bcs {
  import opened Types
  import opened Ucan

  // ---------------------------------------------------------------- stations

  /** enum belt_select */
  datatype Belt = Left | Mid | Right

  /** The two side belts: the only arguments for which bcs_grab yields a value. */
  type Side = b: Belt | b != Mid witness Left

  /** The CAN base address of a belt (src/bcs.h:8-10). */
  function Base(belt: Belt): Uint16
  {
    match belt
    case Left => 0x110
    case Mid => 0x120
    case Right => 0x130
  }

  /** MAX_BLOCK_COUNT: length of the mid belt's start-up grace period. */
  const MAX_BLOCK_COUNT: nat := 4
  /** The retry ceiling of bcs_await_block. */
  const WAIT_CEILING: nat := 100
  /** The detection value that means "block fully detected". */
  const DETECTED: Byte := 3

  // ---------------------------------------------------------------- messages

  /** message_t: a sub-id inside the station's id block, a length and the payload. */
  datatype Message = Message(subid: Uint16, length: Byte, data: seq<Byte>)

  predicate WellFormed(m: Message)
  {
    Min(m.length, 8) <= |m.data|
  }

  const StatusRequest := Message(0, 1, [1])
  const STATUS_RESPONSE_ID: Uint16 := 1
  const CmdStart := Message(2, 3, [1, 0, 0])
  const CmdStopPos := Message(2, 3, [3, 0x00, 0xB6])
  const CmdDone := Message(2, 3, [4, 0, 0])
  const CmdReset := Message(0xF, 0, [])

  const DispInitialPos := Message(0x142, 3, [1, 0, 100])
  const DispStartRight := Message(0x142, 3, [1, 0xE4, 100])
  const DispMoveRight := Message(0x142, 3, [1, 0x32, 50])
  const DispStartLeft := Message(0x142, 3, [1, 0x1C, 100])
  const DispMoveLeft := Message(0x142, 3, [1, 0xCE, 50])

  /** The dispatcher commands are sent with base address 0. */
  const DISPATCHER_BASE: Uint16 := 0

  /** The frame bcs_send_msg(msg, base) queues: id = base + subid as a uint16_t parameter. */
  function MsgFrame(msg: Message, base: Uint16): Frame
    requires WellFormed(msg)
  {
    QueuedFrame(msg.length, WrapUint16(base + msg.subid), msg.data)
  }

  /** The id of a belt's status answer. */
  function ResponseId(belt: Belt): Uint16
  {
    Base(belt) + STATUS_RESPONSE_ID
  }

  /** Every belt message is addressed to base + subid and carries exactly its payload bytes. */
  lemma BeltMessageAddressing(belt: Belt, msg: Message)
    requires msg in [StatusRequest, CmdStart, CmdStopPos, CmdDone, CmdReset]
    ensures WellFormed(msg)
    ensures MsgFrame(msg, Base(belt)).id == Base(belt) + msg.subid
    ensures MsgFrame(msg, Base(belt)).dlc == msg.length == |msg.data|
    ensures MsgFrame(msg, Base(belt)).data == msg.data
  {
  }

  /** Dispatcher commands go to 0x142 whichever belt task sends them. */
  lemma DispatcherAddressing(msg: Message)
    requires msg in [DispInitialPos, DispStartLeft, DispStartRight, DispMoveLeft, DispMoveRight]
    ensures WellFormed(msg)
    ensures MsgFrame(msg, DISPATCHER_BASE).id == 0x142
    ensures MsgFrame(msg, DISPATCHER_BASE).dlc == 3 && MsgFrame(msg, DISPATCHER_BASE).data == msg.data
  {
  }

  /** The status answer ids the transport layer names are the ones bcs_await_block waits for. */
  lemma StatusAnswerIdsAgree()
    ensures ResponseId(Left) == CAN_ID_CONVL_STAT_ANSW
    ensures ResponseId(Mid) == CAN_ID_CONVM_STAT_ANSW
    ensures ResponseId(Right) == CAN_ID_CONVR_STAT_ANSW
  {
  }

  // ---------------------------------------------------------------- status_t

  /** status_t, the packed 7-byte status answer. */
  datatype Status = Status(error: Byte, engine: Byte, lightBarrier: Byte, detection: Byte,
                           position: Uint16, location: Int8)

  /** Reads the packed struct from the first seven data bytes (little-endian uint16, two's complement int8). */
  function DecodeStatus(data: seq<Byte>): Status
    requires |data| >= 7
  {
    Status(data[0], data[1], data[2], data[3],
           data[4] as int + 0x100 * data[5] as int,
           if data[6] < 0x80 then data[6] as int else data[6] as int - 0x100)
  }

  /** The byte image of a status_t: the inverse of DecodeStatus. */
  function EncodeStatus(s: Status): (data: seq<Byte>)
    ensures |data| == 7
  {
    [s.error, s.engine, s.lightBarrier, s.detection,
     s.position % 0x100, s.position / 0x100,
     if s.location >= 0 then s.location else s.location + 0x100]
  }

  lemma DecodeEncode(s: Status)
    ensures DecodeStatus(EncodeStatus(s)) == s
  {
  }

  lemma EncodeDecode(data: seq<Byte>)
    requires |data| >= 7
    ensures EncodeStatus(DecodeStatus(data)) == data[..7]
  {
    var e := EncodeStatus(DecodeStatus(data));
    assert e[4] == data[4] && e[5] == data[5];
    assert e[6] == data[6];
  }

  /** The detection field is payload byte 3. */
  lemma DetectionIsByteThree(data: seq<Byte>)
    requires |data| >= 7
    ensures DecodeStatus(data).detection == data[3]
    ensures (DecodeStatus(data).detection == DETECTED) == (data[3] == 3)
  {
  }

  // ---------------------------------------------------------------- rendezvous state

  /** The six binary semaphores of bcs.c. */
  datatype Semaphore = StartSem(belt: Belt) | FreeSem(belt: Belt)

  /** A value snapshot of the rendezvous state. */
  datatype Signals = Signals(available: set<Semaphore>, leftEnd: Option<Int8>, rightEnd: Option<Int8>)

  function EndOf(s: Signals, side: Side): Option<Int8>
  {
    if side == Left then s.leftEnd else s.rightEnd
  }

  function WithEnd(s: Signals, side: Side, v: Option<Int8>): Signals
  {
    if side == Left then s.(leftEnd := v) else s.(rightEnd := v)
  }

  /** The state bcs_init leaves behind (src/bcs.c:283-295). */
  function InitialSignals(): Signals
  {
    Signals({FreeSem(Left), FreeSem(Right)}, None, None)
  }

  lemma InitialSignalsAre()
    ensures FreeSem(Left) in InitialSignals().available && FreeSem(Right) in InitialSignals().available
    ensures FreeSem(Mid) !in InitialSignals().available
    ensures forall b: Belt :: StartSem(b) !in InitialSignals().available
    ensures EndOf(InitialSignals(), Left) == None && EndOf(InitialSignals(), Right) == None
  {
  }

  /**
   * The semaphores and the two one-slot handoff queues of bcs.c. A binary
   * semaphore is "given" exactly when it is in `available`; a second give is a no-op.
   */
  class Rendezvous {
    var available: set<Semaphore>
    /** bcs_left_end_queue: holds at most one location. */
    var leftEnd: Option<Int8>
    /** bcs_right_end_queue */
    var rightEnd: Option<Int8>
    /**
     * Every operation performed on the rendezvous state or the transport by the tasks
     * sharing it, oldest first: each primitive below, and SendMsg, appends its own event.
     */
    ghost var log: seq<Event>

    function Snapshot(): Signals
      reads this`available, this`leftEnd, this`rightEnd
    {
      Signals(available, leftEnd, rightEnd)
    }

    /** bcs_init */
    constructor Init()
      ensures Snapshot() == InitialSignals()
      ensures log == []
    {
      available := {FreeSem(Left), FreeSem(Right)};
      leftEnd := None;
      rightEnd := None;
      log := [];
    }

    /** xSemaphoreTake(sem, portMAX_DELAY): blocks until the semaphore was given. */
    method Take(sem: Semaphore)
      requires sem in available
      modifies this
      ensures Snapshot() == old(Snapshot()).(available := old(available) - {sem})
      ensures log == old(log) + [Took(sem)]
    {
      available := available - {sem};
      log := log + [Took(sem)];
    }

    /**
     * xSemaphoreTake with a bounded wait: takes the semaphore if given, otherwise times
     * out. Either way the attempt is logged as Took, whose effect on an ungiven
     * semaphore is nil.
     */
    method TryTake(sem: Semaphore) returns (taken: bool)
      modifies this
      ensures taken == (sem in old(available))
      ensures Snapshot() == old(Snapshot()).(available := old(available) - {sem})
      ensures log == old(log) + [Took(sem)]
    {
      taken := sem in available;
      available := available - {sem};
      log := log + [Took(sem)];
    }

    /** xSemaphoreGive */
    method Give(sem: Semaphore)
      modifies this
      ensures Snapshot() == old(Snapshot()).(available := old(available) + {sem})
      ensures log == old(log) + [Gave(sem)]
    {
      available := available + {sem};
      log := log + [Gave(sem)];
    }

    /** bcs_prepare_drop: wait until the band is free. */
    method PrepareDrop(belt: Belt)
      requires FreeSem(belt) in available
      modifies this
      ensures Snapshot() == Effect(old(Snapshot()), Took(FreeSem(belt)))
      ensures log == old(log) + [Took(FreeSem(belt))]
    {
      Take(FreeSem(belt));
    }

    /** bcs_signal_dropped: a block was put on the band. */
    method SignalDropped(belt: Belt)
      modifies this
      ensures Snapshot() == Effect(old(Snapshot()), Gave(StartSem(belt)))
      ensures log == old(log) + [Gave(StartSem(belt))]
    {
      Give(StartSem(belt));
    }

    /** bcs_signal_band_free: the band's block was taken away. */
    method SignalBandFree(belt: Belt)
      modifies this
      ensures Snapshot() == Effect(old(Snapshot()), Gave(FreeSem(belt)))
      ensures log == old(log) + [Gave(FreeSem(belt))]
    {
      Give(FreeSem(belt));
    }

    /** bcs_grab for a side belt: blocks until the belt handed over a location, then empties the slot. */
    method Grab(side: Side) returns (location: Int8)
      requires EndOf(Snapshot(), side).Some?
      modifies this
      ensures location == EndOf(old(Snapshot()), side).value
      ensures Snapshot() == Effect(old(Snapshot()), Grabbed(side, location))
      ensures log == old(log) + [Grabbed(side, location)]
    {
      if side == Left {
        location := leftEnd.value;
        leftEnd := None;
      } else {
        location := rightEnd.value;
        rightEnd := None;
      }
      log := log + [Grabbed(side, location)];
    }

    /** xQueueSend(end_queue, location, portMAX_DELAY): blocks while the slot is full. */
    method Handoff(side: Side, location: Int8)
      requires EndOf(Snapshot(), side).None?
      modifies this
      ensures Snapshot() == Effect(old(Snapshot()), Handed(side, location))
      ensures log == old(log) + [Handed(side, location)]
    {
      if side == Left {
        leftEnd := Some(location);
      } else {
        rightEnd := Some(location);
      }
      log := log + [Handed(side, location)];
    }
  }

  // ---------------------------------------------------------------- event traces

  /** One observable operation of a task on the transport or the rendezvous state. */
  datatype Event =
    | Sent(frame: Frame)
    | Took(sem: Semaphore)
    | Gave(sem: Semaphore)
    | Handed(side: Side, location: Int8)
    | Grabbed(side: Side, location: Int8)

  /** What an event does to the rendezvous state. */
  function Effect(s: Signals, e: Event): Signals
  {
    match e
    case Sent(_) => s
    case Took(sem) => s.(available := s.available - {sem})
    case Gave(sem) => s.(available := s.available + {sem})
    case Handed(side, location) => WithEnd(s, side, Some(location))
    case Grabbed(side, _) => WithEnd(s, side, None)
  }

  /** The rendezvous state after a trace of events, oldest first. */
  function Apply(s: Signals, events: seq<Event>): Signals
  {
    if events == [] then s else Effect(Apply(s, events[..|events| - 1]), events[|events| - 1])
  }

  /** The frames a trace queues, in order. */
  function SentFrames(events: seq<Event>): seq<Frame>
  {
    if events == [] then []
    else SentFrames(events[..|events| - 1]) + (if events[|events| - 1].Sent? then [events[|events| - 1].frame] else [])
  }

  lemma {:induction false} ApplyAppend(s: Signals, events: seq<Event>, e: Event)
    ensures Apply(s, events + [e]) == Effect(Apply(s, events), e)
    ensures SentFrames(events + [e]) == SentFrames(events) + (if e.Sent? then [e.frame] else [])
  {
    assert (events + [e])[..|events|] == events;
  }

  /** A trace run in two pieces. */
  lemma {:induction false} ApplyConcat(s: Signals, a: seq<Event>, b: seq<Event>)
    ensures Apply(s, a + b) == Apply(Apply(s, a), b)
    ensures SentFrames(a + b) == SentFrames(a) + SentFrames(b)
    decreases |b|
  {
    if b == [] {
      assert a + b == a;
    } else {
      var n := |b| - 1;
      assert a + b == (a + b[..n]) + [b[n]];
      assert b == b[..n] + [b[n]];
      ApplyAppend(s, a + b[..n], b[n]);
      ApplyAppend(Apply(s, a), b[..n], b[n]);
      ApplyConcat(s, a, b[..n]);
    }
  }

  // ---------------------------------------------------------------- bcs_send_msg

  /**
   * bcs_send_msg: queue the message at base + subid (the 5-tick delay is not
   * modelled), and log the send on the shared rendezvous log.
   */
  method SendMsg(msg: Message, base: Uint16, tx: Transport, rv: Rendezvous)
    requires tx.Valid() && WellFormed(msg)
    modifies tx, rv`log
    ensures tx.Valid()
    ensures tx.txQueue == old(tx.txQueue) + [MsgFrame(msg, base)]
    ensures rv.log == old(rv.log) + [Sent(MsgFrame(msg, base))]
    ensures tx.bus == old(tx.bus) && tx.messageMap == old(tx.messageMap) && tx.nMessageMap == old(tx.nMessageMap) && tx.rxMsg == old(tx.rxMsg)
  {
    var _ := tx.SendData(msg.length, WrapUint16(base + msg.subid), msg.data);
    rv.log := rv.log + [Sent(MsgFrame(msg, base))];
  }

  // ---------------------------------------------------------------- bcs_await_block

  /** The outcome of one xQueueReceive with a 4000-tick timeout. */
  datatype Reply = Timeout | Delivered(frame: Frame)

  predicate AllCanMessages(replies: seq<Reply>)
  {
    forall i :: 0 <= i < |replies| ==> replies[i].Delivered? ==> IsCanMessage(replies[i].frame)
  }

  /** Where the inner do-while of bcs_await_block stops: `found` is false when the replies ran out. */
  datatype InnerResult = InnerResult(found: bool, waitCount: Uint16, buffer: Frame, rest: seq<Reply>)

  /**
   * The inner wait (src/bcs.c:92-97): receive until the buffer holds a frame with the
   * belt's status answer id. A timeout bumps the 16-bit wait counter and leaves the
   * buffer as it was, so the previous contents are examined again.
   */
  function InnerWait(belt: Belt, waitCount: Uint16, buffer: Frame, replies: seq<Reply>): (r: InnerResult)
    ensures r.found ==> r.buffer.id == ResponseId(belt)
    ensures r.found ==> |r.rest| < |replies|
    ensures !r.found ==> r.rest == []
    ensures IsCanMessage(buffer) && AllCanMessages(replies) ==> IsCanMessage(r.buffer) && AllCanMessages(r.rest)
    ensures |r.rest| <= |replies|
    ensures waitCount + |replies| < 0x1_0000 ==> waitCount <= r.waitCount <= waitCount + |replies| - |r.rest|
    decreases |replies|
  {
    if replies == [] then InnerResult(false, waitCount, buffer, [])
    else
      var waitCount' := if replies[0].Timeout? then WrapUint16(waitCount + 1) else waitCount;
      var buffer' := if replies[0].Timeout? then buffer else replies[0].frame;
      if buffer'.id == ResponseId(belt) then InnerResult(true, waitCount', buffer', replies[1..])
      else InnerWait(belt, waitCount', buffer', replies[1..])
  }

  /** How bcs_await_block ends: a detected status, the NULL of the retry ceiling, or replies exhausted. */
  datatype AwaitOutcome = Found(status: Status) | Aborted | OutOfReplies

  datatype AwaitResult = AwaitResult(outcome: AwaitOutcome, requests: nat, waitCount: Uint16,
                                     buffer: Frame, rest: seq<Reply>)

  /**
   * The outer loop of bcs_await_block from a given wait counter, buffer and number
   * of requests already sent: send a status request, wait for the answer, bump the
   * counter, return on detection == 3, abort once the counter reached 100.
   */
  function AwaitFrom(belt: Belt, waitCount: Uint16, buffer: Frame, replies: seq<Reply>, requests: nat): AwaitResult
    requires IsCanMessage(buffer) && AllCanMessages(replies)
    decreases |replies|
  {
    var inner := InnerWait(belt, waitCount, buffer, replies);
    if !inner.found then AwaitResult(OutOfReplies, requests + 1, inner.waitCount, inner.buffer, [])
    else
      var waitCount' := WrapUint16(inner.waitCount + 1);
      var status := DecodeStatus(inner.buffer.data);
      if status.detection == DETECTED then AwaitResult(Found(status), requests + 1, waitCount', inner.buffer, inner.rest)
      else if waitCount' >= WAIT_CEILING then AwaitResult(Aborted, requests + 1, waitCount', inner.buffer, inner.rest)
      else AwaitFrom(belt, waitCount', inner.buffer, inner.rest, requests + 1)
  }

  /** bcs_await_block from its start: counter 0, no request sent, `buffer` the caller's message buffer. */
  function Await(belt: Belt, buffer: Frame, replies: seq<Reply>): AwaitResult
    requires IsCanMessage(buffer) && AllCanMessages(replies)
  {
    AwaitFrom(belt, 0, buffer, replies, 0)
  }

  /** The frames bcs_await_block queues: its status requests, then the done command if it aborted. */
  function AwaitFrames(belt: Belt, outcome: AwaitOutcome, requests: nat): seq<Frame>
  {
    Repeat(MsgFrame(StatusRequest, Base(belt)), requests) + (if outcome.Aborted? then [MsgFrame(CmdDone, Base(belt))] else [])
  }

  /** The log of bcs_await_block: one Sent per frame of AwaitFrames. */
  function AwaitEvents(belt: Belt, outcome: AwaitOutcome, requests: nat): seq<Event>
  {
    Repeat(Sent(MsgFrame(StatusRequest, Base(belt))), requests)
    + (if outcome.Aborted? then [Sent(MsgFrame(CmdDone, Base(belt)))] else [])
  }

  /** Sending the same frame k times queues it k times and leaves the rendezvous state alone. */
  lemma {:induction false} RepeatSent(s: Signals, f: Frame, k: nat)
    ensures SentFrames(Repeat(Sent(f), k)) == Repeat(f, k)
    ensures Apply(s, Repeat(Sent(f), k)) == s
  {
    if k > 0 {
      RepeatSent(s, f, k - 1);
      ApplyAppend(s, Repeat(Sent(f), k - 1), Sent(f));
    }
  }

  /** The log of bcs_await_block queues exactly its frames and changes no semaphore or slot. */
  lemma {:induction false} AwaitEventsAgree(s: Signals, belt: Belt, outcome: AwaitOutcome, requests: nat)
    ensures SentFrames(AwaitEvents(belt, outcome, requests)) == AwaitFrames(belt, outcome, requests)
    ensures Apply(s, AwaitEvents(belt, outcome, requests)) == s
  {
    var polls := Repeat(Sent(MsgFrame(StatusRequest, Base(belt))), requests);
    RepeatSent(s, MsgFrame(StatusRequest, Base(belt)), requests);
    if outcome.Aborted? {
      ApplyAppend(s, polls, Sent(MsgFrame(CmdDone, Base(belt))));
    } else {
      assert AwaitEvents(belt, outcome, requests) == polls;
    }
  }

  /**
   * What each outcome means: a status is returned only from a matching answer whose
   * detection byte is 3; the abort happens only with the counter at 100 or more and
   * a matching answer that was not detected; running out of replies consumes them all.
   */
  lemma {:induction false} AwaitFromOutcome(belt: Belt, waitCount: Uint16, buffer: Frame, replies: seq<Reply>, requests: nat)
    requires IsCanMessage(buffer) && AllCanMessages(replies)
    ensures var r := AwaitFrom(belt, waitCount, buffer, replies, requests);
      && r.requests > requests
      && |r.rest| <= |replies|
      && IsCanMessage(r.buffer)
      && (r.outcome.Found? ==>
            r.buffer.id == ResponseId(belt) && r.outcome.status == DecodeStatus(r.buffer.data)
            && r.outcome.status.detection == DETECTED)
      && (r.outcome.Aborted? ==>
            r.buffer.id == ResponseId(belt) && r.waitCount >= WAIT_CEILING
            && DecodeStatus(r.buffer.data).detection != DETECTED)
      && (r.outcome.OutOfReplies? ==> r.rest == [])
    decreases |replies|
  {
    var inner := InnerWait(belt, waitCount, buffer, replies);
    if inner.found {
      var waitCount' := WrapUint16(inner.waitCount + 1);
      var status := DecodeStatus(inner.buffer.data);
      if status.detection != DETECTED && waitCount' < WAIT_CEILING {
        AwaitFromOutcome(belt, waitCount', inner.buffer, inner.rest, requests + 1);
      }
    }
  }

  /**
   * The retry bound: while the 16-bit wait counter cannot wrap, at most 100 status
   * requests are sent, because the counter grows by at least one per request.
   */
  lemma {:induction false} AwaitFromBound(belt: Belt, waitCount: Uint16, buffer: Frame, replies: seq<Reply>, requests: nat)
    requires IsCanMessage(buffer) && AllCanMessages(replies)
    requires requests <= waitCount < WAIT_CEILING
    requires waitCount + |replies| + WAIT_CEILING - requests < 0x1_0000
    ensures AwaitFrom(belt, waitCount, buffer, replies, requests).requests <= WAIT_CEILING
    decreases |replies|
  {
    var inner := InnerWait(belt, waitCount, buffer, replies);
    var waitCount' := WrapUint16(inner.waitCount + 1);
    AwaitFromStep(belt, waitCount, buffer, replies, requests);
    if inner.found && DecodeStatus(inner.buffer.data).detection != DETECTED && waitCount' < WAIT_CEILING {
      assert waitCount <= inner.waitCount <= waitCount + |replies| - |inner.rest|;
      assert waitCount' == inner.waitCount + 1;
      AwaitFromBound(belt, waitCount', inner.buffer, inner.rest, requests + 1);
    } else {
      assert AwaitFrom(belt, waitCount, buffer, replies, requests).requests == requests + 1;
    }
  }

  /** One round of the outer loop: it ends the call with one more request, or continues from the answer found. */
  lemma {:induction false} AwaitFromStep(belt: Belt, waitCount: Uint16, buffer: Frame, replies: seq<Reply>, requests: nat)
    requires IsCanMessage(buffer) && AllCanMessages(replies)
    ensures var inner := InnerWait(belt, waitCount, buffer, replies);
      var waitCount' := WrapUint16(inner.waitCount + 1);
      if inner.found && DecodeStatus(inner.buffer.data).detection != DETECTED && waitCount' < WAIT_CEILING
      then AwaitFrom(belt, waitCount, buffer, replies, requests) == AwaitFrom(belt, waitCount', inner.buffer, inner.rest, requests + 1)
      else AwaitFrom(belt, waitCount, buffer, replies, requests).requests == requests + 1
  {
  }

  lemma {:induction false} AwaitProperties(belt: Belt, buffer: Frame, replies: seq<Reply>)
    requires IsCanMessage(buffer) && AllCanMessages(replies)
    ensures var r := Await(belt, buffer, replies);
      && 1 <= r.requests
      && IsCanMessage(r.buffer)
      && (r.outcome.Found? ==> r.buffer.id == ResponseId(belt) && r.outcome.status.detection == DETECTED
                               && r.outcome.status == DecodeStatus(r.buffer.data))
      && (r.outcome.Aborted? ==> r.waitCount >= WAIT_CEILING && DecodeStatus(r.buffer.data).detection != DETECTED)
      && (|replies| + WAIT_CEILING < 0x1_0000 ==> r.requests <= WAIT_CEILING)
  {
    AwaitFromOutcome(belt, 0, buffer, replies, 0);
    if |replies| + WAIT_CEILING < 0x1_0000 {
      AwaitFromBound(belt, 0, buffer, replies, 0);
    }
  }

  /** A timeout with an answer already in the buffer leaves the inner wait at once, on the stale answer. */
  lemma {:induction false} TimeoutReexaminesBuffer(belt: Belt, waitCount: Uint16, buffer: Frame, rest: seq<Reply>)
    requires buffer.id == ResponseId(belt)
    ensures InnerWait(belt, waitCount, buffer, [Timeout] + rest)
         == InnerResult(true, WrapUint16(waitCount + 1), buffer, rest)
  {
    assert ([Timeout] + rest)[1..] == rest;
  }

  /** A frame with another id never ends the inner wait; it only replaces the buffer. */
  lemma {:induction false} OtherIdKeepsWaiting(belt: Belt, waitCount: Uint16, buffer: Frame, f: Frame, rest: seq<Reply>)
    requires f.id != ResponseId(belt)
    ensures InnerWait(belt, waitCount, buffer, [Delivered(f)] + rest) == InnerWait(belt, waitCount, f, rest)
  {
    assert ([Delivered(f)] + rest)[1..] == rest;
  }

  /**
   * The inner do-while of bcs_await_block (src/bcs.c:92-97): receive until the
   * buffer holds an answer with the belt's status answer id.
   */
  method WaitForAnswer(belt: Belt, waitCount: Uint16, message: Frame, replies: seq<Reply>)
    returns (found: bool, waitCount': Uint16, message': Frame, rest: seq<Reply>)
    requires IsCanMessage(message) && AllCanMessages(replies)
    ensures InnerResult(found, waitCount', message', rest) == InnerWait(belt, waitCount, message, replies)
  {
    waitCount', message', rest := waitCount, message, replies;
    while true
      invariant IsCanMessage(message') && AllCanMessages(rest)
      invariant InnerWait(belt, waitCount, message, replies) == InnerWait(belt, waitCount', message', rest)
      decreases |rest|
    {
      if rest == [] {
        return false, waitCount', message', rest;
      }
      var reply := rest[0];
      rest := rest[1..];
      match reply {
        case Timeout =>
          waitCount' := WrapUint16(waitCount' + 1);
        case Delivered(f) =>
          message' := f;
      }
      if message'.id == ResponseId(belt) {
        return true, waitCount', message', rest;
      }
    }
  }

  /**
   * bcs_await_block: the status-polling loop, driven by a script of receive outcomes.
   * `buffer` is the caller's message buffer (uninitialised on entry in the source).
   */
  method AwaitBlock(belt: Belt, tx: Transport, rv: Rendezvous, replies: seq<Reply>, buffer: Frame)
    returns (outcome: AwaitOutcome, requests: nat, rest: seq<Reply>)
    requires tx.Valid()
    requires IsCanMessage(buffer) && AllCanMessages(replies)
    modifies tx, rv`log
    ensures tx.Valid()
    ensures outcome == Await(belt, buffer, replies).outcome
    ensures requests == Await(belt, buffer, replies).requests
    ensures rest == Await(belt, buffer, replies).rest
    ensures tx.txQueue == old(tx.txQueue) + AwaitFrames(belt, outcome, requests)
    ensures rv.log == old(rv.log) + AwaitEvents(belt, outcome, requests)
    ensures tx.bus == old(tx.bus) && tx.messageMap == old(tx.messageMap) && tx.nMessageMap == old(tx.nMessageMap) && tx.rxMsg == old(tx.rxMsg)
  {
    ghost var spec := Await(belt, buffer, replies);
    ghost var q0, bus0, map0, count0 := tx.txQueue, tx.bus, tx.messageMap, tx.nMessageMap;
    ghost var l0 := rv.log;
    ghost var request := MsgFrame(StatusRequest, Base(belt));
    var waitCount: Uint16 := 0;
    var message := buffer;
    rest := replies;
    requests := 0;
    outcome := OutOfReplies;
    var done := false;
    while !done
      invariant tx.Valid() && IsCanMessage(message) && AllCanMessages(rest)
      invariant !done ==> spec == AwaitFrom(belt, waitCount, message, rest, requests)
      invariant !done ==> tx.txQueue == q0 + Repeat(MsgFrame(StatusRequest, Base(belt)), requests)
      invariant done ==> outcome == spec.outcome && requests == spec.requests && rest == spec.rest
      invariant done ==> tx.txQueue == q0 + AwaitFrames(belt, outcome, requests)
      invariant !done ==> outcome == OutOfReplies
      invariant rv.log == l0 + AwaitEvents(belt, outcome, requests)
      invariant tx.bus == bus0 && tx.messageMap == map0 && tx.nMessageMap == count0 && tx.rxMsg == old(tx.rxMsg)
      decreases !done, |rest|
    {
      ghost var requests0 := requests;
      done, outcome, waitCount, message, rest, requests := AwaitRound(belt, tx, rv, waitCount, message, rest, requests);
      AwaitStep(q0, request, if outcome.Aborted? then [MsgFrame(CmdDone, Base(belt))] else [], requests0);
      AwaitEventsStep(l0, belt, requests0, outcome);
    }
  }

  /**
   * One more round of bcs_await_block, on its frames or on its log: a status request,
   * and the done command if it aborted.
   */
  lemma {:induction false} AwaitStep<T>(q0: seq<T>, request: T, tail: seq<T>, requests: nat)
    ensures q0 + Repeat(request, requests) + [request] + tail == q0 + (Repeat(request, requests + 1) + tail)
    ensures q0 + Repeat(request, requests) + [request] == q0 + Repeat(request, requests + 1)
  {
    assert Repeat(request, requests + 1) == Repeat(request, requests) + [request];
    AppendAssoc(q0, Repeat(request, requests), [request]);
    AppendAssoc(q0, Repeat(request, requests + 1), tail);
  }

  /** The log of one round: the status request, and the done command if it aborted. */
  function RoundEvents(belt: Belt, outcome: AwaitOutcome): seq<Event>
  {
    [Sent(MsgFrame(StatusRequest, Base(belt)))] + (if outcome.Aborted? then [Sent(MsgFrame(CmdDone, Base(belt)))] else [])
  }

  lemma {:induction false} AwaitEventsStep(l0: seq<Event>, belt: Belt, requests: nat, outcome: AwaitOutcome)
    ensures l0 + AwaitEvents(belt, OutOfReplies, requests) + RoundEvents(belt, outcome)
         == l0 + AwaitEvents(belt, outcome, requests + 1)
  {
    var request := Sent(MsgFrame(StatusRequest, Base(belt)));
    var tail := if outcome.Aborted? then [Sent(MsgFrame(CmdDone, Base(belt)))] else [];
    assert AwaitEvents(belt, OutOfReplies, requests) == Repeat(request, requests);
    AwaitStep(l0, request, tail, requests);
    AppendAssoc(l0 + Repeat(request, requests), [request], tail);
  }

  /**
   * One round of bcs_await_block's outer loop: send a status request, wait for the
   * answer, bump the counter, and decide. `done` when the round ended the call.
   */
  method AwaitRound(belt: Belt, tx: Transport, rv: Rendezvous, waitCount: Uint16, message: Frame, rest: seq<Reply>, requests: nat)
    returns (done: bool, outcome: AwaitOutcome, waitCount': Uint16, message': Frame, rest': seq<Reply>, requests': nat)
    requires tx.Valid() && IsCanMessage(message) && AllCanMessages(rest)
    modifies tx, rv`log
    ensures tx.Valid() && IsCanMessage(message') && AllCanMessages(rest') && requests' == requests + 1
    ensures done ==> var r := AwaitFrom(belt, waitCount, message, rest, requests);
      outcome == r.outcome && requests' == r.requests && rest' == r.rest
    ensures !done ==> |rest'| < |rest|
    ensures !done ==> AwaitFrom(belt, waitCount, message, rest, requests) == AwaitFrom(belt, waitCount', message', rest', requests')
    ensures done ==> tx.txQueue == old(tx.txQueue) + [MsgFrame(StatusRequest, Base(belt))] + (if outcome.Aborted? then [MsgFrame(CmdDone, Base(belt))] else [])
    ensures !done ==> tx.txQueue == old(tx.txQueue) + [MsgFrame(StatusRequest, Base(belt))]
    ensures !done ==> outcome == OutOfReplies
    ensures rv.log == old(rv.log) + RoundEvents(belt, outcome)
    ensures tx.bus == old(tx.bus) && tx.messageMap == old(tx.messageMap) && tx.nMessageMap == old(tx.nMessageMap) && tx.rxMsg == old(tx.rxMsg)
  {
    SendMsg(StatusRequest, Base(belt), tx, rv);
    ghost var q1, l1 := tx.txQueue, rv.log;
    requests' := requests + 1;
    var found;
    found, waitCount', message', rest' := WaitForAnswer(belt, waitCount, message, rest);
    if !found {
      done, outcome := true, OutOfReplies;
    } else {
      waitCount' := WrapUint16(waitCount' + 1);
      var status := DecodeStatus(message'.data);
      if status.detection == DETECTED {
        done, outcome := true, Found(status);
      } else if waitCount' >= WAIT_CEILING {
        SendMsg(CmdDone, Base(belt), tx, rv);
        done, outcome := true, Aborted;
      } else {
        done, outcome := false, OutOfReplies;
      }
    }
    assert !outcome.Aborted? ==> tx.txQueue == q1 + [];
  }

  // ---------------------------------------------------------------- bcs_task

  /** Where a belt task stands between the two halves of one bcs_task cycle. */
  datatype Phase =
    | Idle                       // at the top of the bcs_task loop
    | Detected(location: Int8)   // bcs_await_block returned a status with this location
    | Halted                     // bcs_await_block returned NULL: the terminal `while(true);`
    | Stalled                    // the scripted replies ran out inside bcs_await_block

  function PhaseAfter(outcome: AwaitOutcome): Phase
  {
    match outcome
    case Found(status) => Detected(status.location)
    case Aborted => Halted
    case OutOfReplies => Stalled
  }

  /** The side the dispatcher pushes the next block to. */
  function Target(moveLeft: bool): Side
  {
    if moveLeft then Left else Right
  }

  function DispStart(moveLeft: bool): Message
  {
    if moveLeft then DispStartLeft else DispStartRight
  }

  function DispMove(moveLeft: bool): Message
  {
    if moveLeft then DispMoveLeft else DispMoveRight
  }

  /** Steps 0-2 before the polling loop: reset, (mid) dispatcher to its initial position, start, stop position. */
  function StartFrames(belt: Belt): seq<Frame>
  {
    TriggerFrames(belt) + [MsgFrame(CmdStart, Base(belt)), MsgFrame(CmdStopPos, Base(belt))]
  }

  /** The frames of steps 0-1: the reset, and for the mid belt the dispatcher's initial position. */
  function TriggerFrames(belt: Belt): seq<Frame>
  {
    [MsgFrame(CmdReset, Base(belt))] + (if belt == Mid then [MsgFrame(DispInitialPos, DISPATCHER_BASE)] else [])
  }

  /** Steps 0-1 as logged: the reset, (mid) the dispatcher's initial position, then the start semaphore. */
  function TriggerEvents(belt: Belt): seq<Event>
  {
    [Sent(MsgFrame(CmdReset, Base(belt)))]
    + (if belt == Mid then [Sent(MsgFrame(DispInitialPos, DISPATCHER_BASE))] else [])
    + [Took(StartSem(belt))]
  }

  /** Steps 0-2 as logged, before the polling loop. */
  function StartEvents(belt: Belt): seq<Event>
  {
    TriggerEvents(belt) + [Sent(MsgFrame(CmdStart, Base(belt))), Sent(MsgFrame(CmdStopPos, Base(belt)))]
  }

  /**
   * The logged start of a cycle queues exactly StartFrames and, of the rendezvous
   * state, takes only the start semaphore.
   */
  lemma {:induction false} StartEventsAgree(s: Signals, belt: Belt)
    ensures SentFrames(StartEvents(belt)) == StartFrames(belt)
    ensures Apply(s, StartEvents(belt)) == Effect(s, Took(StartSem(belt)))
  {
    var reset := MsgFrame(CmdReset, Base(belt));
    var trigger := [Sent(reset)] + (if belt == Mid then [Sent(MsgFrame(DispInitialPos, DISPATCHER_BASE))] else []);
    var took := Took(StartSem(belt));
    var s1 := Effect(s, took);
    var start, stop := MsgFrame(CmdStart, Base(belt)), MsgFrame(CmdStopPos, Base(belt));
    if belt == Mid {
      TwoSends(s, reset, MsgFrame(DispInitialPos, DISPATCHER_BASE));
    } else {
      assert trigger == [] + [Sent(reset)];
      ApplyAppend(s, [], Sent(reset));
    }
    assert SentFrames(trigger) == TriggerFrames(belt);
    ApplyAppend(s, trigger, took);
    TwoSends(s1, start, stop);
    assert StartEvents(belt) == (trigger + [took]) + [Sent(start), Sent(stop)];
    ApplyConcat(s, trigger + [took], [Sent(start), Sent(stop)]);
  }

  /** Two sends in a row queue both frames and change nothing else. */
  lemma {:induction false} TwoSends(s: Signals, f: Frame, g: Frame)
    ensures Apply(s, [Sent(f), Sent(g)]) == s
    ensures SentFrames([Sent(f), Sent(g)]) == [f, g]
  {
    assert [Sent(f)] == [] + [Sent(f)];
    ApplyAppend(s, [], Sent(f));
    assert [Sent(f), Sent(g)] == [Sent(f)] + [Sent(g)];
    ApplyAppend(s, [Sent(f)], Sent(g));
  }

  /** Steps 3-5 of a cycle once the block was detected, in the order they happen. */
  function FinishEvents(belt: Belt, moveLeft: bool, location: Int8): seq<Event>
  {
    if belt == Mid then
      [Sent(MsgFrame(DispStart(moveLeft), DISPATCHER_BASE)),
       Took(FreeSem(Target(moveLeft))),
       Sent(MsgFrame(DispMove(moveLeft), DISPATCHER_BASE)),
       Gave(StartSem(Target(moveLeft))),
       Sent(MsgFrame(CmdDone, Base(Mid))),
       Gave(FreeSem(Mid))]
    else
      [Handed(belt, location), Sent(MsgFrame(CmdDone, Base(belt)))]
  }

  /**
   * In a mid cycle the target band's free semaphore is taken before the push command
   * is sent and its start semaphore is given after it; the mid free semaphore is given
   * only after the done command.
   */
  lemma {:induction false} MidFinishOrder(moveLeft: bool, location: Int8)
    ensures var e := FinishEvents(Mid, moveLeft, location);
      && |e| == 6
      && e[0] == Sent(MsgFrame(DispStart(moveLeft), DISPATCHER_BASE))
      && e[1] == Took(FreeSem(Target(moveLeft)))
      && e[2] == Sent(MsgFrame(DispMove(moveLeft), DISPATCHER_BASE))
      && e[3] == Gave(StartSem(Target(moveLeft)))
      && e[4] == Sent(MsgFrame(CmdDone, Base(Mid)))
      && e[5] == Gave(FreeSem(Mid))
  {
  }

  /** What a finished mid cycle does to the rendezvous state and which frames it queues. */
  lemma {:induction false} MidFinishEffect(s: Signals, moveLeft: bool, location: Int8)
    ensures Apply(s, FinishEvents(Mid, moveLeft, location))
         == s.(available := s.available - {FreeSem(Target(moveLeft))} + {StartSem(Target(moveLeft)), FreeSem(Mid)})
    ensures SentFrames(FinishEvents(Mid, moveLeft, location))
         == [MsgFrame(DispStart(moveLeft), DISPATCHER_BASE), MsgFrame(DispMove(moveLeft), DISPATCHER_BASE),
             MsgFrame(CmdDone, Base(Mid))]
  {
    var e := FinishEvents(Mid, moveLeft, location);
    assert e[..1] == [] + [e[0]];
    ApplyAppend(s, [], e[0]);
    assert e[..2] == e[..1] + [e[1]];
    ApplyAppend(s, e[..1], e[1]);
    assert e[..3] == e[..2] + [e[2]];
    ApplyAppend(s, e[..2], e[2]);
    assert e[..4] == e[..3] + [e[3]];
    ApplyAppend(s, e[..3], e[3]);
    assert e[..5] == e[..4] + [e[4]];
    ApplyAppend(s, e[..4], e[4]);
    assert e == e[..5] + [e[5]];
    ApplyAppend(s, e[..5], e[5]);
  }

  /** A finished side cycle hands the detected location to the arm through a now-full slot. */
  lemma {:induction false} SideFinishEffect(s: Signals, side: Side, moveLeft: bool, location: Int8)
    ensures Apply(s, FinishEvents(side, moveLeft, location)) == WithEnd(s, side, Some(location))
    ensures SentFrames(FinishEvents(side, moveLeft, location)) == [MsgFrame(CmdDone, Base(side))]
  {
    var e := FinishEvents(side, moveLeft, location);
    assert e[..1] == [] + [e[0]];
    ApplyAppend(s, [], e[0]);
    assert e == e[..1] + [e[1]];
    ApplyAppend(s, e[..1], e[1]);
  }

  /** Steps 0-1 of a cycle: reset the band and wait for the start trigger; returns the new grace count. */
  method AwaitTrigger(belt: Belt, count: Byte, rv: Rendezvous, tx: Transport) returns (count': Byte)
    requires tx.Valid() && count <= MAX_BLOCK_COUNT
    requires belt != Mid ==> StartSem(belt) in rv.available
    requires belt == Mid && count >= MAX_BLOCK_COUNT ==> StartSem(Mid) in rv.available
    modifies rv, tx
    ensures tx.Valid()
    ensures rv.Snapshot() == Effect(old(rv.Snapshot()), Took(StartSem(belt)))
    ensures count' == if belt == Mid && count < MAX_BLOCK_COUNT then count + 1 else count
    ensures tx.txQueue == old(tx.txQueue) + TriggerFrames(belt)
    ensures rv.log == old(rv.log) + TriggerEvents(belt)
    ensures tx.bus == old(tx.bus) && tx.messageMap == old(tx.messageMap) && tx.nMessageMap == old(tx.nMessageMap) && tx.rxMsg == old(tx.rxMsg)
  {
    count' := count;
    SendMsg(CmdReset, Base(belt), tx, rv);
    if belt == Mid {
      SendMsg(DispInitialPos, DISPATCHER_BASE, tx, rv);
      if count < MAX_BLOCK_COUNT {
        count' := count + 1;
        var _ := rv.TryTake(StartSem(Mid));
      } else {
        rv.Take(StartSem(Mid));
      }
    } else {
      rv.Take(StartSem(belt));
    }
  }

  /** Steps 3-5 of a mid cycle: dispatcher start, wait for the target band, push, signal, done, band free. */
  method FinishMid(moveLeft: bool, rv: Rendezvous, tx: Transport)
    requires tx.Valid() && FreeSem(Target(moveLeft)) in rv.available
    modifies rv, tx
    ensures tx.Valid()
    ensures rv.Snapshot() == old(rv.Snapshot()).(available := old(rv.available) - {FreeSem(Target(moveLeft))}
                                                              + {StartSem(Target(moveLeft)), FreeSem(Mid)})
    ensures tx.txQueue == old(tx.txQueue) + [MsgFrame(DispStart(moveLeft), DISPATCHER_BASE),
                                             MsgFrame(DispMove(moveLeft), DISPATCHER_BASE),
                                             MsgFrame(CmdDone, Base(Mid))]
    ensures rv.log == old(rv.log) + [Sent(MsgFrame(DispStart(moveLeft), DISPATCHER_BASE)),
                                     Took(FreeSem(Target(moveLeft))),
                                     Sent(MsgFrame(DispMove(moveLeft), DISPATCHER_BASE)),
                                     Gave(StartSem(Target(moveLeft))),
                                     Sent(MsgFrame(CmdDone, Base(Mid))),
                                     Gave(FreeSem(Mid))]
    ensures tx.bus == old(tx.bus) && tx.messageMap == old(tx.messageMap) && tx.nMessageMap == old(tx.nMessageMap) && tx.rxMsg == old(tx.rxMsg)
  {
    var target := Target(moveLeft);
    SendMsg(DispStart(moveLeft), DISPATCHER_BASE, tx, rv);
    rv.PrepareDrop(target);
    SendMsg(DispMove(moveLeft), DISPATCHER_BASE, tx, rv);
    rv.SignalDropped(target);
    SendMsg(CmdDone, Base(Mid), tx, rv);
    rv.SignalBandFree(Mid);
  }

  /** Steps 4-5 of a side cycle: hand the location to the arm, then done. */
  method FinishSide(side: Side, location: Int8, rv: Rendezvous, tx: Transport)
    requires tx.Valid() && EndOf(rv.Snapshot(), side).None?
    modifies rv, tx
    ensures tx.Valid()
    ensures rv.Snapshot() == WithEnd(old(rv.Snapshot()), side, Some(location))
    ensures tx.txQueue == old(tx.txQueue) + [MsgFrame(CmdDone, Base(side))]
    ensures rv.log == old(rv.log) + [Handed(side, location), Sent(MsgFrame(CmdDone, Base(side)))]
    ensures tx.bus == old(tx.bus) && tx.messageMap == old(tx.messageMap) && tx.nMessageMap == old(tx.nMessageMap) && tx.rxMsg == old(tx.rxMsg)
  {
    rv.Handoff(side, location);
    SendMsg(CmdDone, Base(side), tx, rv);
  }

  /** One bcs_task instance: the task parameter and the two mid-only locals. */
  class BeltTask {
    const belt: Belt
    /** whether the dispatcher moves the next block left */
    var moveLeft: bool
    /** mid starts taken without waiting for the start semaphore */
    var midStartWithoutMutexCount: Byte
    var phase: Phase

    ghost predicate Valid()
      reads this
    {
      midStartWithoutMutexCount <= MAX_BLOCK_COUNT
    }

    constructor (belt: Belt)
      ensures this.belt == belt && Valid()
      ensures moveLeft && midStartWithoutMutexCount == 0 && phase == Idle
    {
      this.belt := belt;
      moveLeft := true;
      midStartWithoutMutexCount := 0;
      phase := Idle;
    }

    /**
     * Steps 0-2 of a cycle: reset the band, wait for the start trigger, start the band
     * and poll until the block is detected. A side belt waits without bound; the mid
     * belt waits with a timeout during its first MAX_BLOCK_COUNT cycles and proceeds
     * either way.
     */
    method StartCycle(rv: Rendezvous, tx: Transport, replies: seq<Reply>, buffer: Frame)
      returns (outcome: AwaitOutcome, requests: nat, rest: seq<Reply>)
      requires Valid() && tx.Valid() && phase == Idle
      requires IsCanMessage(buffer) && AllCanMessages(replies)
      requires belt != Mid ==> StartSem(belt) in rv.available
      requires belt == Mid && midStartWithoutMutexCount >= MAX_BLOCK_COUNT ==> StartSem(Mid) in rv.available
      modifies this, rv, tx
      ensures Valid() && tx.Valid()
      ensures rv.Snapshot() == Effect(old(rv.Snapshot()), Took(StartSem(belt)))
      ensures midStartWithoutMutexCount
           == if belt == Mid && old(midStartWithoutMutexCount) < MAX_BLOCK_COUNT
              then old(midStartWithoutMutexCount) + 1 else old(midStartWithoutMutexCount)
      ensures moveLeft == old(moveLeft)
      ensures outcome == Await(belt, buffer, replies).outcome
      ensures requests == Await(belt, buffer, replies).requests
      ensures rest == Await(belt, buffer, replies).rest
      ensures tx.txQueue == old(tx.txQueue) + StartFrames(belt) + AwaitFrames(belt, outcome, requests)
      ensures rv.log == old(rv.log) + StartEvents(belt) + AwaitEvents(belt, outcome, requests)
      ensures tx.bus == old(tx.bus) && tx.messageMap == old(tx.messageMap) && tx.nMessageMap == old(tx.nMessageMap) && tx.rxMsg == old(tx.rxMsg)
      ensures phase == PhaseAfter(outcome)
    {
      ghost var q0, l0 := tx.txQueue, rv.log;
      midStartWithoutMutexCount := AwaitTrigger(belt, midStartWithoutMutexCount, rv, tx);
      SendMsg(CmdStart, Base(belt), tx, rv);
      SendMsg(CmdStopPos, Base(belt), tx, rv);
      assert tx.txQueue == q0 + StartFrames(belt) by {
        AppendAssoc(q0, TriggerFrames(belt), [MsgFrame(CmdStart, Base(belt))]);
        AppendAssoc(q0, TriggerFrames(belt) + [MsgFrame(CmdStart, Base(belt))], [MsgFrame(CmdStopPos, Base(belt))]);
        assert StartFrames(belt) == TriggerFrames(belt) + [MsgFrame(CmdStart, Base(belt))] + [MsgFrame(CmdStopPos, Base(belt))];
      }
      assert rv.log == l0 + StartEvents(belt) by {
        AppendAssoc(l0, TriggerEvents(belt), [Sent(MsgFrame(CmdStart, Base(belt)))]);
        AppendAssoc(l0, TriggerEvents(belt) + [Sent(MsgFrame(CmdStart, Base(belt)))], [Sent(MsgFrame(CmdStopPos, Base(belt)))]);
        assert StartEvents(belt) == TriggerEvents(belt) + [Sent(MsgFrame(CmdStart, Base(belt)))] + [Sent(MsgFrame(CmdStopPos, Base(belt)))];
      }
      outcome, requests, rest := AwaitBlock(belt, tx, rv, replies, buffer);
      phase := PhaseAfter(outcome);
    }

    /**
     * Steps 3-5 of a cycle after the block was detected. A side belt hands the
     * location to its arm; the mid belt readies the dispatcher, waits until the target
     * band is free, pushes the block there, signals that band and flips the direction.
     * Every belt then sends done; the mid belt also signals its own band free.
     */
    method FinishCycle(rv: Rendezvous, tx: Transport) returns (events: seq<Event>)
      requires Valid() && tx.Valid() && phase.Detected?
      requires belt != Mid ==> EndOf(rv.Snapshot(), belt).None?
      requires belt == Mid ==> FreeSem(Target(moveLeft)) in rv.available
      modifies this, rv, tx
      ensures Valid() && tx.Valid()
      ensures events == FinishEvents(belt, old(moveLeft), old(phase).location)
      ensures rv.Snapshot() == Apply(old(rv.Snapshot()), events)
      ensures tx.txQueue == old(tx.txQueue) + SentFrames(events)
      ensures rv.log == old(rv.log) + events
      ensures tx.bus == old(tx.bus) && tx.messageMap == old(tx.messageMap) && tx.nMessageMap == old(tx.nMessageMap) && tx.rxMsg == old(tx.rxMsg)
      ensures moveLeft == if belt == Mid then !old(moveLeft) else old(moveLeft)
      ensures midStartWithoutMutexCount == old(midStartWithoutMutexCount)
      ensures phase == Idle
    {
      ghost var s0 := rv.Snapshot();
      var location := phase.location;
      events := FinishEvents(belt, moveLeft, location);
      if belt == Mid {
        FinishMid(moveLeft, rv, tx);
        MidFinishEffect(s0, moveLeft, location);
        moveLeft := !moveLeft;
      } else {
        FinishSide(belt, location, rv, tx);
        SideFinishEffect(s0, belt, moveLeft, location);
      }
      phase := Idle;
    }
  }

  /**
   * The first two mid cycles after bcs_init, each answered at once with a detected
   * block: the grace period lets the mid belt start without its start semaphore, the
   * first block goes left and the second right, and each cycle releases the arm that
   * waits to drop onto mid.
   */
  method MidPrimingScenario() returns (first: Side, second: Side, midFreeAfterFirst: bool, leftStartAfterFirst: bool)
    ensures first == Left && second == Right
    ensures midFreeAfterFirst && leftStartAfterFirst
  {
    var rv := new Rendezvous.Init();
    var tx := new Transport.Init();
    var mid := new BeltTask(Mid);
    var answer := Frame(ResponseId(Mid), 0, 0, 7, [0, 1, 0, 3, 0x10, 0, 5, 0]);
    assert ([] + [Delivered(answer)])[1..] == [];
    var outcome, requests, rest := mid.StartCycle(rv, tx, [Delivered(answer)], answer);
    assert outcome == Found(DecodeStatus(answer.data));
    first := Target(mid.moveLeft);
    ghost var s1 := rv.Snapshot();
    var events := mid.FinishCycle(rv, tx);
    MidFinishEffect(s1, true, 5);
    midFreeAfterFirst := FreeSem(Mid) in rv.available;
    leftStartAfterFirst := StartSem(Left) in rv.available;
    outcome, requests, rest := mid.StartCycle(rv, tx, [Delivered(answer)], answer);
    assert outcome == Found(DecodeStatus(answer.data));
    second := Target(mid.moveLeft);
  }
}
