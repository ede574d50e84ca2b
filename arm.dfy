/**
 * The robot arms of src/arm.c: the eleven-step pick-and-place walk of move_roboter
 * with its rendezvous hooks into the belts and the mid airspace mutex, the
 * "close enough" polling of wait_until_pos, and the manual jog of manual_arm_movement.
 */
module Arm {
  import opened Types
  import opened Ucan
  import opened Bcs

  // ---------------------------------------------------------------- CAN ids and tables

  const ROBOT_L_STATUS_REQUEST_ID: Uint16 := 0x150
  const ROBOT_L_COMAND_REQUEST_ID: Uint16 := 0x152
  const ROBOT_R_STATUS_REQUEST_ID: Uint16 := 0x160
  const ROBOT_R_COMAND_REQUEST_ID: Uint16 := 0x162
  const COMAND_DLC: Byte := 6
  const STATUS_REQEST_DLC: Byte := 2
  const STATUS_REQUEST: seq<Byte> := [0x02, 0x00]

  /** Number of positions in one cycle. */
  const STEPS: nat := 11

  /** The six bytes of one arm position: arm, base, shoulder, elbow, hand, gripper. */
  type Position = p: seq<Byte> | |p| == 6 witness [0, 0, 0, 0, 0, 0]

  /** pos_arm_left[11][6]: row n is position n. */
  const POS_ARM_LEFT: seq<Position> := [
    [0x02, 0x00, 0x19, 0x1A, 0x21, 0x01],
    [0x02, 0x00, 0x1F, 0x1A, 0x21, 0x01],
    [0x02, 0x00, 0x1F, 0x1A, 0x21, 0x00],
    [0x02, 0x00, 0x19, 0x1A, 0x21, 0x00],
    [0x02, 0x12, 0x00, 0x40, 0x21, 0x00],
    [0x02, 0x2D, 0x00, 0x2b, 0x21, 0x00],
    [0x02, 0x2D, 0x1c, 0x1d, 0x21, 0x00],
    [0x02, 0x2D, 0x1c, 0x1d, 0x21, 0x01],
    [0x02, 0x2D, 0x13, 0x1d, 0x21, 0x01],
    [0x02, 0x2D, 0x00, 0x36, 0x21, 0x01],
    [0x02, 0x12, 0x00, 0x36, 0x21, 0x01]]

  /** pos_arm_right */
  const POS_ARM_RIGHT: seq<Position> := [
    [0x02, 0x00, 0x19, 0x1A, 0x21, 0x01],
    [0x02, 0x00, 0x1F, 0x1A, 0x21, 0x01],
    [0x02, 0x00, 0x1F, 0x1A, 0x21, 0x00],
    [0x02, 0x00, 0x19, 0x1A, 0x21, 0x00],
    [0x02, 0xee, 0x00, 0x40, 0x21, 0x00],
    [0x02, 0xD2, 0x00, 0x2b, 0x21, 0x00],
    [0x02, 0xD2, 0x1c, 0x1d, 0x21, 0x00],
    [0x02, 0xD2, 0x1c, 0x1d, 0x21, 0x01],
    [0x02, 0xD2, 0x13, 0x1d, 0x21, 0x01],
    [0x02, 0xD2, 0x00, 0x36, 0x21, 0x01],
    [0x02, 0xEE, 0x00, 0x36, 0x21, 0x01]]

  /** The position table a task walks: pos_arm_left or pos_arm_right. */
  function Table(side: Side): (t: seq<Position>)
    ensures |t| == STEPS
  {
    if side == Left then POS_ARM_LEFT else POS_ARM_RIGHT
  }

  predicate IsTable(table: seq<Position>)
  {
    |table| == STEPS
  }

  /** &pos_arm[n*6], which the task reaches through a flat pointer: row n of the table. */
  function Row(table: seq<Position>, n: nat): (row: Position)
    requires IsTable(table) && n < STEPS
  {
    table[n]
  }

  function CommandId(side: Side): Uint16
  {
    if side == Left then ROBOT_L_COMAND_REQUEST_ID else ROBOT_R_COMAND_REQUEST_ID
  }

  function StatusRequestId(side: Side): Uint16
  {
    if side == Left then ROBOT_L_STATUS_REQUEST_ID else ROBOT_R_STATUS_REQUEST_ID
  }

  /** The frame that moves the arm to position n. */
  function CommandFrame(side: Side, table: seq<Position>, n: nat): Frame
    requires IsTable(table) && n < STEPS
  {
    QueuedFrame(COMAND_DLC, CommandId(side), Row(table, n))
  }

  /** The frame of one status poll. */
  function StatusRequestFrame(side: Side): Frame
  {
    QueuedFrame(STATUS_REQEST_DLC, StatusRequestId(side), STATUS_REQUEST)
  }

  /** Step n sends all six bytes of row n with DLC 6 to the arm's command id; a poll sends two bytes. */
  lemma StepFrames(side: Side, table: seq<Position>, n: nat)
    requires IsTable(table) && n < STEPS
    ensures CommandFrame(side, table, n).id == CommandId(side) && CommandFrame(side, table, n).dlc == 6
    ensures CommandFrame(side, table, n).data == table[n]
    ensures StatusRequestFrame(side).id == StatusRequestId(side)
    ensures StatusRequestFrame(side).dlc == 2 && StatusRequestFrame(side).data == [0x02, 0x00]
  {
  }

  // ---------------------------------------------------------------- wait_until_pos

  /** The arm reports a position within one unit of the target on each of bytes 1-5. */
  predicate CloseEnough(target: seq<Byte>, reported: seq<Byte>)
    requires |target| >= 6 && |reported| >= 6
  {
    forall i :: 1 <= i < 6 ==> -1 <= target[i] as int - reported[i] as int <= 1
  }

  /** The tolerance loop of wait_until_pos: a failing joint ends the scan early. */
  method IsCloseEnough(target: seq<Byte>, reported: seq<Byte>) returns (closeEnough: bool)
    requires |target| >= 6 && |reported| >= 6
    ensures closeEnough <==> CloseEnough(target, reported)
  {
    closeEnough := true;
    var i := 1;
    while i < 6
      invariant 1 <= i <= 6
      invariant closeEnough ==> forall j :: 1 <= j < i ==> -1 <= target[j] as int - reported[j] as int <= 1
      invariant !closeEnough ==> !CloseEnough(target, reported)
      invariant closeEnough || i < 6
      decreases 6 - i, closeEnough
    {
      var diff := target[i] as int - reported[i] as int;
      if diff > 1 || diff < -1 {
        closeEnough := false;
        break;
      }
      i := i + 1;
    }
  }

  /** Byte 0 (the arm selector) never matters, and an exact report is always close enough. */
  lemma CloseEnoughIgnoresArmByte(target: seq<Byte>, reported: seq<Byte>, b: Byte)
    requires |target| >= 6 && |reported| >= 6
    ensures CloseEnough(target, reported) <==> CloseEnough(target, [b] + reported[1..])
    ensures CloseEnough(target, target)
  {
    assert forall i :: 1 <= i < 6 ==> ([b] + reported[1..])[i] == reported[i];
  }

  /** The index of the first reply at or after `from` that is close enough to `target`, or |replies| if none is. */
  function FirstCloseFrom(target: seq<Byte>, replies: seq<CanMessage>, from: nat): (k: nat)
    requires |target| == 6 && from <= |replies|
    ensures from <= k <= |replies|
    decreases |replies| - from
  {
    if from == |replies| then from
    else if CloseEnough(target, replies[from].data) then from
    else FirstCloseFrom(target, replies, from + 1)
  }

  /** FirstCloseFrom finds a close reply, and none between `from` and it is close. */
  lemma {:induction false} FirstCloseFromIsFirst(target: seq<Byte>, replies: seq<CanMessage>, from: nat)
    requires |target| == 6 && from <= |replies|
    ensures var k := FirstCloseFrom(target, replies, from);
      && (k < |replies| ==> CloseEnough(target, replies[k].data))
      && (forall j :: from <= j < k ==> !CloseEnough(target, replies[j].data))
    decreases |replies| - from
  {
    if from < |replies| && !CloseEnough(target, replies[from].data) {
      FirstCloseFromIsFirst(target, replies, from + 1);
    }
  }

  /**
   * wait_until_pos: poll (one status request, then one reply from the arm's queue)
   * until a reply is close enough, reading the replies from `at` on; `next` is the
   * first reply left unread. `reached` is false when the scripted replies run out:
   * the task then blocks for ever in xQueueReceive after its last request.
   */
  method WaitUntilPos(target: seq<Byte>, side: Side, tx: Transport, replies: seq<CanMessage>, at: nat)
    returns (reached: bool, polls: nat, next: nat)
    requires |target| == 6 && tx.Valid() && at <= |replies|
    modifies tx
    ensures tx.Valid()
    ensures reached <==> FirstCloseFrom(target, replies, at) < |replies|
    ensures polls == FirstCloseFrom(target, replies, at) + 1 - at
    ensures next == if reached then at + polls else |replies|
    ensures tx.txQueue == old(tx.txQueue) + Repeat(StatusRequestFrame(side), polls)
    ensures tx.bus == old(tx.bus) && tx.messageMap == old(tx.messageMap) && tx.nMessageMap == old(tx.nMessageMap) && tx.rxMsg == old(tx.rxMsg)
  {
    ghost var q0, bus0, map0, count0 := tx.txQueue, tx.bus, tx.messageMap, tx.nMessageMap;
    ghost var request := StatusRequestFrame(side);
    FirstCloseFromIsFirst(target, replies, at);
    var closeEnough := false;
    polls := 0;
    next := at;
    while !closeEnough
      invariant tx.Valid() && next == at + polls && next <= |replies|
      invariant !closeEnough ==> next <= FirstCloseFrom(target, replies, at)
      invariant closeEnough ==> next == FirstCloseFrom(target, replies, at) + 1
      invariant tx.txQueue == q0 + Repeat(request, polls)
      invariant tx.bus == bus0 && tx.messageMap == map0 && tx.nMessageMap == count0 && tx.rxMsg == old(tx.rxMsg)
      decreases |replies| - next, if closeEnough then 0 else 1
    {
      var _ := tx.SendData(STATUS_REQEST_DLC, StatusRequestId(side), STATUS_REQUEST);
      assert Repeat(request, polls + 1) == Repeat(request, polls) + [request];
      polls := polls + 1;
      if next == |replies| {
        reached := false;
        return;
      }
      var message := replies[next];
      next := next + 1;
      closeEnough := IsCloseEnough(target, message.data);
    }
    reached := true;
  }

  // ---------------------------------------------------------------- airspace

  /** arm_mid_air_mutex: a binary semaphore, given once when it is created. */
  class Airspace {
    var available: bool
    /**
     * The operations of the arm tasks sharing this mutex, oldest first: Enter and
     * Leave append their own events, the step loop its rendezvous hooks, its
     * commands and its arrivals.
     */
    ghost var log: seq<ArmEvent>

    constructor ()
      ensures available && log == []
    {
      available := true;
      log := [];
    }

    /** arm_enter_critical_air_space: takes the mutex, blocking while the other arm holds it. */
    method Enter()
      requires available
      modifies this
      ensures !available
      ensures log == old(log) + [TookAirspace]
    {
      available := false;
      log := log + [TookAirspace];
    }

    /** arm_leave_critical_air_space */
    method Leave()
      modifies this
      ensures available
      ensures log == old(log) + [GaveAirspace]
    {
      available := true;
      log := log + [GaveAirspace];
    }
  }

  // ---------------------------------------------------------------- move_roboter

  /** One observable operation of an arm task. */
  datatype ArmEvent =
    | Hook(event: Event)     // an operation on the belt rendezvous state
    | TookAirspace
    | GaveAirspace
    | Commanded(step: nat)   // the command for position `step` was queued
    | Reached(step: nat)     // wait_until_pos returned for position `step`

  /** The state an arm task shares with the others: the belt rendezvous and the airspace mutex. */
  datatype World = World(signals: Signals, airFree: bool)

  function EventEffect(w: World, e: ArmEvent): World
  {
    match e
    case Hook(h) => w.(signals := Effect(w.signals, h))
    case TookAirspace => w.(airFree := false)
    case GaveAirspace => w.(airFree := true)
    case Commanded(_) => w
    case Reached(_) => w
  }

  /** The shared state after a trace, oldest event first. */
  function Run(w: World, events: seq<ArmEvent>): World
  {
    if events == [] then w else EventEffect(Run(w, events[..|events| - 1]), events[|events| - 1])
  }

  lemma {:induction false} RunAppend(w: World, events: seq<ArmEvent>, e: ArmEvent)
    ensures Run(w, events + [e]) == EventEffect(Run(w, events), e)
  {
    assert (events + [e])[..|events|] == events;
  }

  /** The operations of a trace on the belt rendezvous state, in order. */
  function Hooks(events: seq<ArmEvent>): seq<Event>
  {
    if events == [] then []
    else Hooks(events[..|events| - 1]) + (if events[|events| - 1].Hook? then [events[|events| - 1].event] else [])
  }

  lemma {:induction false} HooksConcat(a: seq<ArmEvent>, b: seq<ArmEvent>)
    ensures Hooks(a + b) == Hooks(a) + Hooks(b)
    decreases |b|
  {
    if b == [] {
      assert a + b == a;
    } else {
      var b' := b[..|b| - 1];
      assert b == b' + [b[|b| - 1]];
      assert (a + b)[..|a + b| - 1] == a + b';
      HooksConcat(a, b');
    }
  }

  lemma {:induction false} RunConcat(w: World, a: seq<ArmEvent>, b: seq<ArmEvent>)
    ensures Run(w, a + b) == Run(Run(w, a), b)
    decreases |b|
  {
    if b == [] {
      assert a + b == a;
    } else {
      var b' := b[..|b| - 1];
      var e := b[|b| - 1];
      assert b == b' + [e];
      assert a + b == (a + b') + [e];
      RunAppend(w, a + b', e);
      RunConcat(w, a, b');
      RunAppend(Run(w, a), b', e);
    }
  }

  /** The hooks that run before step n's command (src/arm.c:220-232). */
  function Pre(side: Side, n: nat, location: Int8): seq<ArmEvent>
  {
    if n == 1 then [Hook(Grabbed(side, location))]
    else if n == 6 then [TookAirspace]
    else if n == 7 then [Hook(Took(FreeSem(Mid)))]
    else []
  }

  /** The hooks that run once position n was reached (src/arm.c:239-249). */
  function Post(side: Side, n: nat): seq<ArmEvent>
  {
    if n == 3 then [Hook(Gave(FreeSem(side)))]
    else if n == 8 then [Hook(Gave(StartSem(Mid)))]
    else if n == 9 then [GaveAirspace]
    else []
  }

  /** One iteration of the step loop. */
  function StepEvents(side: Side, n: nat, location: Int8): seq<ArmEvent>
  {
    Pre(side, n, location) + [Commanded(n), Reached(n)] + Post(side, n)
  }

  /** The trace of steps 0 .. k-1. */
  function EventsUpTo(side: Side, location: Int8, k: nat): seq<ArmEvent>
  {
    if k == 0 then [] else EventsUpTo(side, location, k - 1) + StepEvents(side, k - 1, location)
  }

  /** One full pass of the step loop. */
  function CycleEvents(side: Side, location: Int8): seq<ArmEvent>
  {
    EventsUpTo(side, location, STEPS)
  }

  /**
   * The trace of a cycle that reached `steps` positions: all of them, or the
   * first `steps` and then the hooks and command of the step it stalled in.
   */
  function PartialCycle(side: Side, location: Int8, steps: nat): seq<ArmEvent>
  {
    EventsUpTo(side, location, steps) + (if steps < STEPS then Pre(side, steps, location) + [Commanded(steps)] else [])
  }

  /** The frames of a cycle: per step its command, then as many status requests as it polled. */
  function CycleFrames(side: Side, table: seq<Position>, polls: seq<nat>): seq<Frame>
    requires IsTable(table) && |polls| <= STEPS
  {
    if polls == [] then []
    else CycleFrames(side, table, polls[..|polls| - 1]) + PositionFrames(side, table, |polls| - 1, polls[|polls| - 1])
  }

  /** The frames of step n: its command, then `polls` status requests. */
  function PositionFrames(side: Side, table: seq<Position>, n: nat, polls: nat): seq<Frame>
    requires IsTable(table) && n < STEPS
  {
    [CommandFrame(side, table, n)] + Repeat(StatusRequestFrame(side), polls)
  }

  lemma {:induction false} CycleFramesAppend(side: Side, table: seq<Position>, polls: seq<nat>, k: nat)
    requires IsTable(table) && |polls| < STEPS
    ensures CycleFrames(side, table, polls + [k]) == CycleFrames(side, table, polls) + PositionFrames(side, table, |polls|, k)
  {
    var p := polls + [k];
    assert p[..|p| - 1] == polls;
  }

  /**
   * An event respects the airspace: it is taken only when free and given only when
   * held, and the commands of steps 6-9 (the positions over the mid belt) are sent
   * while this arm holds it, every other command while it does not.
   */
  predicate SafeEvent(free: bool, e: ArmEvent)
  {
    && (e.TookAirspace? ==> free)
    && (e.GaveAirspace? ==> !free)
    && (e.Commanded? ==> (free <==> !(6 <= e.step <= 9)))
  }

  predicate AirspaceSafe(w: World, events: seq<ArmEvent>)
  {
    if events == [] then true
    else AirspaceSafe(w, events[..|events| - 1])
         && SafeEvent(Run(w, events[..|events| - 1]).airFree, events[|events| - 1])
  }

  lemma {:induction false} AirspaceSafeConcat(w: World, a: seq<ArmEvent>, b: seq<ArmEvent>)
    ensures AirspaceSafe(w, a + b) <==> AirspaceSafe(w, a) && AirspaceSafe(Run(w, a), b)
    decreases |b|
  {
    if b == [] {
      assert a + b == a;
    } else {
      var b' := b[..|b| - 1];
      var e := b[|b| - 1];
      assert b == b' + [e];
      assert a + b == (a + b') + [e];
      assert (a + b)[..|a + b| - 1] == a + b';
      AirspaceSafeConcat(w, a, b');
      RunConcat(w, a, b');
    }
  }

  lemma {:induction false} Single(w: World, e: ArmEvent)
    ensures Run(w, [e]) == EventEffect(w, e)
    ensures AirspaceSafe(w, [e]) <==> SafeEvent(w.airFree, e)
    ensures Hooks([e]) == if e.Hook? then [e.event] else []
  {
    assert [e][..0] == [];
  }

  /** The shared state after steps 0 .. k-1, in closed form. */
  function AfterSteps(w: World, side: Side, k: nat): World
  {
    World(
      Signals(
        w.signals.available
          - (if k >= 8 then {FreeSem(Mid)} else {})
          + (if k >= 4 then {FreeSem(side)} else {})
          + (if k >= 9 then {StartSem(Mid)} else {}),
        if side == Left && k >= 2 then None else w.signals.leftEnd,
        if side == Right && k >= 2 then None else w.signals.rightEnd),
      if k <= 6 then w.airFree else k >= 10)
  }

  lemma {:induction false} StepEffect(w: World, side: Side, n: nat, location: Int8)
    requires n < STEPS && w.airFree
    ensures var before := AfterSteps(w, side, n);
      && Run(before, StepEvents(side, n, location)) == AfterSteps(w, side, n + 1)
      && AirspaceSafe(before, StepEvents(side, n, location))
  {
    var before := AfterSteps(w, side, n);
    var pre := Pre(side, n, location);
    var post := Post(side, n);
    if pre != [] {
      assert StepEvents(side, n, location) == [pre[0], Commanded(n), Reached(n)];
      Pair(before, pre[0], Commanded(n));
      Triple(before, pre[0], Commanded(n), Reached(n));
    } else if post != [] {
      assert StepEvents(side, n, location) == [Commanded(n), Reached(n), post[0]];
      Pair(before, Commanded(n), Reached(n));
      Triple(before, Commanded(n), Reached(n), post[0]);
    } else {
      assert StepEvents(side, n, location) == [Commanded(n), Reached(n)];
      Pair(before, Commanded(n), Reached(n));
    }
  }

  lemma {:induction false} Pair(w: World, a: ArmEvent, b: ArmEvent)
    ensures Run(w, [a, b]) == EventEffect(EventEffect(w, a), b)
    ensures AirspaceSafe(w, [a, b]) <==> SafeEvent(w.airFree, a) && SafeEvent(EventEffect(w, a).airFree, b)
  {
    assert [a, b][..1] == [a];
    Single(w, a);
  }

  lemma {:induction false} Triple(w: World, a: ArmEvent, b: ArmEvent, c: ArmEvent)
    ensures Run(w, [a, b, c]) == EventEffect(Run(w, [a, b]), c)
    ensures AirspaceSafe(w, [a, b, c]) <==> AirspaceSafe(w, [a, b]) && SafeEvent(Run(w, [a, b]).airFree, c)
  {
    assert [a, b, c][..2] == [a, b];
  }

  /** The trace of the first k steps takes the shared state to AfterSteps and respects the airspace. */
  lemma {:induction false} UpToEffect(w: World, side: Side, location: Int8, k: nat)
    requires k <= STEPS && w.airFree
    ensures Run(w, EventsUpTo(side, location, k)) == AfterSteps(w, side, k)
    ensures AirspaceSafe(w, EventsUpTo(side, location, k))
  {
    UpToRun(w, side, location, k);
    UpToSafe(w, side, location, k);
  }

  lemma {:induction false} UpToRun(w: World, side: Side, location: Int8, k: nat)
    requires k <= STEPS && w.airFree
    ensures Run(w, EventsUpTo(side, location, k)) == AfterSteps(w, side, k)
  {
    if k > 0 {
      var a := EventsUpTo(side, location, k - 1);
      var b := StepEvents(side, k - 1, location);
      UpToRun(w, side, location, k - 1);
      StepEffect(w, side, k - 1, location);
      RunConcat(w, a, b);
    }
  }

  lemma {:induction false} UpToSafe(w: World, side: Side, location: Int8, k: nat)
    requires k <= STEPS && w.airFree
    ensures AirspaceSafe(w, EventsUpTo(side, location, k))
  {
    if k > 0 {
      var a := EventsUpTo(side, location, k - 1);
      var b := StepEvents(side, k - 1, location);
      UpToSafe(w, side, location, k - 1);
      UpToRun(w, side, location, k - 1);
      StepEffect(w, side, k - 1, location);
      AirspaceSafeConcat(w, a, b);
    }
  }

  /**
   * A full cycle leaves the airspace free again, never takes it twice or gives it
   * without holding it, holds it exactly over the commands of steps 6-9, and on the
   * belts empties the arm's own slot, frees its own band, takes the mid band and
   * signals the mid belt to start.
   */
  lemma {:induction false} CycleEffect(w: World, side: Side, location: Int8)
    requires w.airFree
    ensures AirspaceSafe(w, CycleEvents(side, location))
    ensures Run(w, CycleEvents(side, location)).airFree
    ensures Run(w, CycleEvents(side, location)).signals.available
         == w.signals.available - {FreeSem(Mid)} + {FreeSem(side), StartSem(Mid)}
    ensures EndOf(Run(w, CycleEvents(side, location)).signals, side).None?
  {
    UpToEffect(w, side, location, STEPS);
  }

  /** Only step 6 takes the airspace and only step 9 gives it. */
  lemma {:induction false} StepAirspaceCounts(side: Side, n: nat, location: Int8)
    ensures multiset(StepEvents(side, n, location))[TookAirspace] == if n == 6 then 1 else 0
    ensures multiset(StepEvents(side, n, location))[GaveAirspace] == if n == 9 then 1 else 0
  {
    var pre := Pre(side, n, location);
    var body := [Commanded(n), Reached(n)];
    var post := Post(side, n);
    assert multiset(body)[TookAirspace] == 0 && multiset(body)[GaveAirspace] == 0;
    assert multiset(pre)[TookAirspace] == (if n == 6 then 1 else 0) && multiset(pre)[GaveAirspace] == 0 by {
      if n == 1 {} else if n == 6 {} else if n == 7 {} else {}
    }
    assert multiset(post)[TookAirspace] == 0 && multiset(post)[GaveAirspace] == (if n == 9 then 1 else 0) by {
      if n == 3 {} else if n == 8 {} else if n == 9 {} else {}
    }
    assert multiset(pre + body + post) == multiset(pre) + multiset(body) + multiset(post);
  }

  /** Over the first k steps the airspace was taken once if step 6 was among them, and given once if step 9 was. */
  lemma {:induction false} UpToAirspaceCounts(side: Side, location: Int8, k: nat)
    ensures multiset(EventsUpTo(side, location, k))[TookAirspace] == if k > 6 then 1 else 0
    ensures multiset(EventsUpTo(side, location, k))[GaveAirspace] == if k > 9 then 1 else 0
  {
    if k > 0 {
      var a := EventsUpTo(side, location, k - 1);
      var b := StepEvents(side, k - 1, location);
      UpToAirspaceCounts(side, location, k - 1);
      StepAirspaceCounts(side, k - 1, location);
      assert EventsUpTo(side, location, k) == a + b;
      assert multiset(a + b) == multiset(a) + multiset(b);
    }
  }

  /** The airspace is taken exactly once and given exactly once per cycle. */
  lemma {:induction false} AirspaceOncePerCycle(side: Side, location: Int8)
    ensures multiset(CycleEvents(side, location))[TookAirspace] == 1
    ensures multiset(CycleEvents(side, location))[GaveAirspace] == 1
  {
    UpToAirspaceCounts(side, location, STEPS);
  }

  /** The trace of the first k steps is a prefix of the trace of the first m. */
  lemma {:induction false} UpToPrefix(side: Side, location: Int8, k: nat, m: nat)
    requires k <= m
    ensures |EventsUpTo(side, location, k)| <= |EventsUpTo(side, location, m)|
    ensures EventsUpTo(side, location, k) == EventsUpTo(side, location, m)[..|EventsUpTo(side, location, k)|]
    decreases m
  {
    if k < m {
      UpToPrefix(side, location, k, m - 1);
      var a := EventsUpTo(side, location, m - 1);
      assert EventsUpTo(side, location, m) == a + StepEvents(side, m - 1, location);
      assert (a + StepEvents(side, m - 1, location))[..|a|] == a;
    }
  }

  /**
   * A cycle opens with the move to position 0; once it is reached the location is
   * grabbed from the arm's own slot, and only then is the step-1 command sent.
   */
  lemma {:induction false} GrabPrecedesStepOneCommand(side: Side, location: Int8)
    ensures var e := CycleEvents(side, location);
      && |e| > 3 && e[0] == Commanded(0) && e[1] == Reached(0)
      && e[2] == Hook(Grabbed(side, location)) && e[3] == Commanded(1)
  {
    assert StepEvents(side, 0, location) == [Commanded(0), Reached(0)];
    assert StepEvents(side, 1, location) == [Hook(Grabbed(side, location)), Commanded(1), Reached(1)];
    assert EventsUpTo(side, location, 1) == [Commanded(0), Reached(0)];
    var two := EventsUpTo(side, location, 2);
    assert two == [Commanded(0), Reached(0)] + [Hook(Grabbed(side, location)), Commanded(1), Reached(1)];
    UpToPrefix(side, location, 2, STEPS);
    assert two[..4] == CycleEvents(side, location)[..4];
  }

  /** The rendezvous operation of step n, if any. */
  lemma {:induction false} StepHooks(side: Side, n: nat, location: Int8)
    ensures Hooks(StepEvents(side, n, location))
         == if n == 1 then [Grabbed(side, location)]
            else if n == 3 then [Gave(FreeSem(side))]
            else if n == 7 then [Took(FreeSem(Mid))]
            else if n == 8 then [Gave(StartSem(Mid))]
            else []
  {
    HooksMove(Pre(side, n, location), n, Post(side, n));
    var w := World(InitialSignals(), true);
    if Pre(side, n, location) != [] {
      Single(w, Pre(side, n, location)[0]);
    }
    if Post(side, n) != [] {
      Single(w, Post(side, n)[0]);
    }
  }

  /** The rendezvous operations of a full cycle, in order. */
  function CycleHookList(side: Side, location: Int8): seq<Event>
  {
    [Grabbed(side, location), Gave(FreeSem(side)), Took(FreeSem(Mid)), Gave(StartSem(Mid))]
  }

  /** How many of them steps 0 .. k-1 perform: those of steps 1, 3, 7 and 8. */
  function HookCount(k: nat): nat
  {
    if k >= 9 then 4 else if k >= 8 then 3 else if k >= 4 then 2 else if k >= 2 then 1 else 0
  }

  /** Step n adds the next operation of the list exactly when it performs one. */
  lemma {:induction false} HookCountStep(side: Side, location: Int8, n: nat)
    ensures CycleHookList(side, location)[..HookCount(n)] + Hooks(StepEvents(side, n, location))
         == CycleHookList(side, location)[..HookCount(n + 1)]
  {
    var list := CycleHookList(side, location);
    StepHooks(side, n, location);
    if n == 1 {
      assert list[..1] == [] + [list[0]];
    } else if n == 3 {
      assert list[..2] == list[..1] + [list[1]];
    } else if n == 7 {
      assert list[..3] == list[..2] + [list[2]];
    } else if n == 8 {
      assert list[..4] == list[..3] + [list[3]];
    } else {
      assert list[..HookCount(n)] + [] == list[..HookCount(n + 1)];
    }
  }

  /** The rendezvous operations of steps 0 .. k-1 are the first HookCount(k) of a full cycle. */
  lemma {:induction false} UpToHooks(side: Side, location: Int8, k: nat)
    ensures Hooks(EventsUpTo(side, location, k)) == CycleHookList(side, location)[..HookCount(k)]
  {
    if k > 0 {
      UpToHooks(side, location, k - 1);
      UpToHooksStep(side, location, k - 1);
    }
  }

  /** Step n extends the operations of the steps before it along the cycle's list. */
  lemma UpToHooksStep(side: Side, location: Int8, n: nat)
    requires Hooks(EventsUpTo(side, location, n)) == CycleHookList(side, location)[..HookCount(n)]
    ensures Hooks(EventsUpTo(side, location, n + 1)) == CycleHookList(side, location)[..HookCount(n + 1)]
  {
    var before, step := EventsUpTo(side, location, n), StepEvents(side, n, location);
    assert EventsUpTo(side, location, n + 1) == before + step;
    HooksConcat(before, step);
    HookCountStep(side, location, n);
  }

  /**
   * What one cycle does to the belt rendezvous, in execution order: grab the
   * location, signal the side band free, wait for the mid band, signal the block
   * dropped onto mid.
   */
  lemma CycleHooks(side: Side, location: Int8)
    ensures Hooks(CycleEvents(side, location))
         == [Grabbed(side, location), Gave(FreeSem(side)), Took(FreeSem(Mid)), Gave(StartSem(Mid))]
  {
    UpToHooks(side, location, STEPS);
    assert CycleHookList(side, location)[..4] == CycleHookList(side, location);
  }

  /** The hooks before the command of step n: grab at 1, enter the airspace at 6, prepare the drop at 7. */
  method PreHooks(side: Side, n: nat, location: Int8, rv: Rendezvous, air: Airspace) returns (location': Int8)
    requires n == 1 ==> EndOf(rv.Snapshot(), side).Some?
    requires n == 6 ==> air.available
    requires n == 7 ==> FreeSem(Mid) in rv.available
    modifies rv, air
    ensures location' == if n == 1 then EndOf(old(rv.Snapshot()), side).value else location
    ensures World(rv.Snapshot(), air.available) == Run(World(old(rv.Snapshot()), old(air.available)), Pre(side, n, location'))
    ensures air.log == old(air.log) + Pre(side, n, location')
    ensures rv.log == old(rv.log) + Hooks(Pre(side, n, location'))
  {
    ghost var w0 := World(rv.Snapshot(), air.available);
    location' := location;
    if n == 1 {
      location' := rv.Grab(side);
      air.log := air.log + [Hook(Grabbed(side, location'))];
    } else if n == 6 {
      air.Enter();
    } else if n == 7 {
      rv.PrepareDrop(Mid);
      air.log := air.log + [Hook(Took(FreeSem(Mid)))];
    }
    if Pre(side, n, location') != [] {
      Single(w0, Pre(side, n, location')[0]);
    } else {
      assert air.log == old(air.log) + [];
    }
  }

  /** The hooks once position n is reached: band free at 3, dropped at 8, leave the airspace at 9. */
  method PostHooks(side: Side, n: nat, rv: Rendezvous, air: Airspace)
    modifies rv, air
    ensures World(rv.Snapshot(), air.available) == Run(World(old(rv.Snapshot()), old(air.available)), Post(side, n))
    ensures air.log == old(air.log) + Post(side, n)
    ensures rv.log == old(rv.log) + Hooks(Post(side, n))
  {
    ghost var w0 := World(rv.Snapshot(), air.available);
    if n == 3 {
      rv.SignalBandFree(side);
      air.log := air.log + [Hook(Gave(FreeSem(side)))];
    } else if n == 8 {
      rv.SignalDropped(Mid);
      air.log := air.log + [Hook(Gave(StartSem(Mid)))];
    } else if n == 9 {
      air.Leave();
    }
    if Post(side, n) != [] {
      Single(w0, Post(side, n)[0]);
    } else {
      assert air.log == old(air.log) + [];
    }
  }

  /** Commands and arrivals are no rendezvous operations. */
  lemma {:induction false} HooksMove(pre: seq<ArmEvent>, n: nat, post: seq<ArmEvent>)
    ensures Hooks(pre + [Commanded(n)]) == Hooks(pre)
    ensures Hooks(pre + [Commanded(n), Reached(n)] + post) == Hooks(pre) + Hooks(post)
  {
    HooksConcat(pre, [Commanded(n)]);
    HooksConcat(pre, [Commanded(n), Reached(n)]);
    HooksConcat(pre + [Commanded(n), Reached(n)], post);
    assert [Commanded(n), Reached(n)][..1] == [Commanded(n)];
    Single(World(InitialSignals(), true), Commanded(n));
  }

  /** Commands and arrivals leave the shared state alone. */
  lemma {:induction false} RunMove(w: World, pre: seq<ArmEvent>, n: nat)
    ensures Run(w, pre + [Commanded(n)]) == Run(w, pre)
    ensures Run(w, pre + [Commanded(n), Reached(n)]) == Run(w, pre)
  {
    RunAppend(w, pre, Commanded(n));
    RunAppend(w, pre + [Commanded(n)], Reached(n));
    assert pre + [Commanded(n)] + [Reached(n)] == pre + [Commanded(n), Reached(n)];
  }

  /**
   * The command for position n and wait_until_pos, logged as the command and, once
   * the position is reached, the arrival.
   */
  method MoveTo(side: Side, table: seq<Position>, n: nat, tx: Transport, air: Airspace, replies: seq<CanMessage>, at: nat)
    returns (reached: bool, polls: nat, next: nat)
    requires IsTable(table) && n < STEPS && tx.Valid() && at <= |replies|
    modifies tx, air`log
    ensures tx.Valid()
    ensures reached <==> FirstCloseFrom(Row(table, n), replies, at) < |replies|
    ensures polls == FirstCloseFrom(Row(table, n), replies, at) + 1 - at
    ensures next == if reached then at + polls else |replies|
    ensures air.log == old(air.log) + if reached then [Commanded(n), Reached(n)] else [Commanded(n)]
    ensures tx.txQueue == old(tx.txQueue) + PositionFrames(side, table, n, polls)
    ensures tx.bus == old(tx.bus) && tx.messageMap == old(tx.messageMap) && tx.nMessageMap == old(tx.nMessageMap) && tx.rxMsg == old(tx.rxMsg)
  {
    ghost var q0 := tx.txQueue;
    var _ := tx.SendData(COMAND_DLC, CommandId(side), Row(table, n));
    air.log := air.log + [Commanded(n)];
    reached, polls, next := WaitUntilPos(Row(table, n), side, tx, replies, at);
    AppendAssoc(q0, [CommandFrame(side, table, n)], Repeat(StatusRequestFrame(side), polls));
    if reached {
      air.log := air.log + [Reached(n)];
    }
  }

  /**
   * One iteration of the step loop for position n: the hooks before the command,
   * the command, wait_until_pos, and the hooks after it. `location` is the value
   * grabbed at step 1 (it is only logged). When the replies run out inside
   * wait_until_pos the trace ends with the command.
   */
  method Step(side: Side, table: seq<Position>, n: nat, location: Int8, rv: Rendezvous, air: Airspace, tx: Transport,
              replies: seq<CanMessage>, at: nat)
    returns (location': Int8, events: seq<ArmEvent>, reached: bool, polls: nat, next: nat)
    requires IsTable(table) && n < STEPS && tx.Valid() && at <= |replies|
    requires n == 1 ==> EndOf(rv.Snapshot(), side).Some?
    requires n == 6 ==> air.available
    requires n == 7 ==> FreeSem(Mid) in rv.available
    modifies rv, air, tx
    ensures tx.Valid()
    ensures location' == if n == 1 then EndOf(old(rv.Snapshot()), side).value else location
    ensures reached <==> FirstCloseFrom(Row(table, n), replies, at) < |replies|
    ensures polls == FirstCloseFrom(Row(table, n), replies, at) + 1 - at
    ensures next == if reached then at + polls else |replies|
    ensures events == if reached then StepEvents(side, n, location') else Pre(side, n, location') + [Commanded(n)]
    ensures World(rv.Snapshot(), air.available) == Run(World(old(rv.Snapshot()), old(air.available)), events)
    ensures air.log == old(air.log) + events
    ensures rv.log == old(rv.log) + Hooks(events)
    ensures tx.txQueue == old(tx.txQueue) + PositionFrames(side, table, n, polls)
    ensures tx.bus == old(tx.bus) && tx.messageMap == old(tx.messageMap) && tx.nMessageMap == old(tx.nMessageMap) && tx.rxMsg == old(tx.rxMsg)
  {
    ghost var w0 := World(rv.Snapshot(), air.available);
    ghost var a0, r0 := air.log, rv.log;
    location' := PreHooks(side, n, location, rv, air);
    var pre := Pre(side, n, location');
    reached, polls, next := MoveTo(side, table, n, tx, air, replies, at);
    RunMove(w0, pre, n);
    HooksMove(pre, n, Post(side, n));
    if !reached {
      events := pre + [Commanded(n)];
      AppendAssoc(a0, pre, [Commanded(n)]);
      return;
    }
    AppendAssoc(a0, pre, [Commanded(n), Reached(n)]);
    PostHooks(side, n, rv, air);
    AppendAssoc(r0, Hooks(pre), Hooks(Post(side, n)));
    events := StepEvents(side, n, location');
    AppendAssoc(a0, pre + [Commanded(n), Reached(n)], Post(side, n));
    RunConcat(w0, pre + [Commanded(n), Reached(n)], Post(side, n));
  }

  /** The step-n trace names the grabbed location only at step 1. */
  lemma StepEventsLocation(side: Side, n: nat, a: Int8, b: Int8)
    requires n != 1
    ensures StepEvents(side, n, a) == StepEvents(side, n, b)
    ensures Pre(side, n, a) == Pre(side, n, b)
  {
  }

  /** What the shared state allows at the start of step n of a cycle that began with everything available. */
  lemma StepEnabled(w: World, side: Side, n: nat)
    requires w.airFree && FreeSem(Mid) in w.signals.available
    ensures n <= 1 ==> EndOf(AfterSteps(w, side, n).signals, side) == EndOf(w.signals, side)
    ensures n <= 6 ==> AfterSteps(w, side, n).airFree
    ensures n <= 7 ==> FreeSem(Mid) in AfterSteps(w, side, n).signals.available
  {
  }

  /** The shared state, the transmit queue and both logs at one moment of a cycle. */
  datatype Moment = Moment(world: World, queue: seq<Frame>, airLog: seq<ArmEvent>, rvLog: seq<Event>)

  ghost function Now(rv: Rendezvous, air: Airspace, tx: Transport): Moment
    reads rv, air, tx
  {
    Moment(World(rv.Snapshot(), air.available), tx.txQueue, air.log, rv.log)
  }

  /** Where a cycle began: the moment, and the location its belt slot holds. */
  datatype CycleStart = CycleStart(at: Moment, location: Int8)

  /** Since the cycle began at `s` the arm ran `events`: the moment `m` is theirs. */
  ghost predicate Traced(side: Side, table: seq<Position>, s: CycleStart, m: Moment, events: seq<ArmEvent>, polls: seq<nat>)
    requires IsTable(table) && |polls| <= STEPS
  {
    m == Moment(Run(s.at.world, events), s.at.queue + CycleFrames(side, table, polls), s.at.airLog + events, s.at.rvLog + Hooks(events))
  }

  /**
   * The step loop of a cycle begun at `s`, before position n: n positions reached,
   * the replies from `at` on still to come, on course for the outcome `goal`.
   */
  ghost predicate OnCourse(side: Side, table: seq<Position>, s: CycleStart, goal: Progress, n: nat, location: Int8,
                           events: seq<ArmEvent>, polls: seq<nat>, replies: seq<CanMessage>, at: nat)
    requires IsTable(table) && Began(side, s)
  {
    && n <= STEPS && at <= |replies|
    && (n >= 2 ==> location == s.location)
    && events == EventsUpTo(side, s.location, n) && |polls| == n
    && goal == Then(polls, OutcomeFrom(table, replies, n, at))
  }

  /** A cycle begun at `s` starts with the airspace free, the mid band free and its belt slot full. */
  ghost predicate Began(side: Side, s: CycleStart)
  {
    && s.at.world.airFree && FreeSem(Mid) in s.at.world.signals.available && EndOf(s.at.world.signals, side) == Some(s.location)
  }

  /** On course before position n, the cycle holds what step n blocks on. */
  lemma StepReady(side: Side, table: seq<Position>, s: CycleStart, goal: Progress, n: nat, location: Int8,
                  events: seq<ArmEvent>, polls: seq<nat>, replies: seq<CanMessage>, at: nat, m: Moment)
    requires IsTable(table) && n < STEPS && Began(side, s)
    requires OnCourse(side, table, s, goal, n, location, events, polls, replies, at)
    requires Traced(side, table, s, m, events, polls)
    ensures n == 1 ==> EndOf(m.world.signals, side) == Some(s.location)
    ensures n == 6 ==> m.world.airFree
    ensures n == 7 ==> FreeSem(Mid) in m.world.signals.available
  {
    UpToEffect(s.at.world, side, s.location, n);
    StepEnabled(s.at.world, side, n);
  }

  /**
   * Step n, run from moment m to m' on course, extends the trace: the loop is on
   * course for position n + 1, or it stalls where the outcome `goal` does.
   */
  lemma StepOnCourse(side: Side, table: seq<Position>, s: CycleStart, goal: Progress, n: nat, location: Int8,
                     events: seq<ArmEvent>, polls: seq<nat>, replies: seq<CanMessage>, at: nat, m: Moment, m': Moment,
                     location': Int8, stepEvents: seq<ArmEvent>, reached: bool, k: nat, next: nat)
    requires IsTable(table) && n < STEPS && Began(side, s)
    requires OnCourse(side, table, s, goal, n, location, events, polls, replies, at)
    requires Traced(side, table, s, m, events, polls)
    requires location' == if n == 1 then s.location else location
    requires reached <==> FirstCloseFrom(Row(table, n), replies, at) < |replies|
    requires k == FirstCloseFrom(Row(table, n), replies, at) + 1 - at
    requires next == if reached then at + k else |replies|
    requires stepEvents == if reached then StepEvents(side, n, location') else Pre(side, n, location') + [Commanded(n)]
    requires m'.world == Run(m.world, stepEvents) && m'.queue == m.queue + PositionFrames(side, table, n, k)
    requires m'.airLog == m.airLog + stepEvents && m'.rvLog == m.rvLog + Hooks(stepEvents)
    ensures Traced(side, table, s, m', events + stepEvents, polls + [k])
    ensures reached ==> OnCourse(side, table, s, goal, n + 1, location', events + stepEvents, polls + [k], replies, next)
    ensures !reached ==> events + stepEvents == PartialCycle(side, s.location, n) && goal == Progress(n, polls + [k], [])
  {
    ghost var w0, loc := s.at.world, s.location;
    UpToEffect(w0, side, loc, n);
    StepEnabled(w0, side, n);
    QueueAppend(s.at.queue, side, table, polls, k);
    AppendAssoc(s.at.airLog, events, stepEvents);
    HooksConcat(events, stepEvents);
    AppendAssoc(s.at.rvLog, Hooks(events), Hooks(stepEvents));
    CycleStepTrace(w0, side, loc, n, location', reached, stepEvents);
    RunConcat(w0, events, stepEvents);
    if reached {
      UpToEffect(w0, side, loc, n + 1);
    }
    OutcomeAdvance(table, goal, polls, n, replies, at, reached, k, next);
  }

  /** The wait of position n on the replies from `at` on advances the loop along the outcome `goal`. */
  lemma OutcomeAdvance(table: seq<Position>, goal: Progress, polls: seq<nat>, n: nat,
                       replies: seq<CanMessage>, at: nat, reached: bool, k: nat, next: nat)
    requires IsTable(table) && n < STEPS && at <= |replies|
    requires goal == Then(polls, OutcomeFrom(table, replies, n, at))
    requires reached <==> FirstCloseFrom(Row(table, n), replies, at) < |replies|
    requires k == FirstCloseFrom(Row(table, n), replies, at) + 1 - at
    requires next == if reached then at + k else |replies|
    ensures reached ==> next <= |replies| && goal == Then(polls + [k], OutcomeFrom(table, replies, n + 1, next))
    ensures !reached ==> goal == Progress(n, polls + [k], [])
  {
    if reached {
      AppendAssoc(polls, [k], OutcomeFrom(table, replies, n + 1, next).polls);
    }
  }

  /**
   * One pass of the step loop's body inside a cycle begun at `s`: position n takes
   * as many status requests as the replies decide, and either the loop goes on
   * course to position n + 1 or it stalls where the outcome says.
   */
  method CycleStep(side: Side, table: seq<Position>, n: nat, location: Int8, rv: Rendezvous, air: Airspace, tx: Transport,
                   replies: seq<CanMessage>, at: nat, events: seq<ArmEvent>, polls: seq<nat>, ghost s: CycleStart, ghost goal: Progress)
    returns (n': nat, location': Int8, events': seq<ArmEvent>, polls': seq<nat>, reached: bool, next: nat)
    requires IsTable(table) && n < STEPS && tx.Valid() && Began(side, s)
    requires OnCourse(side, table, s, goal, n, location, events, polls, replies, at)
    requires Traced(side, table, s, Now(rv, air, tx), events, polls)
    modifies rv, air, tx
    ensures tx.Valid()
    ensures reached <==> FirstCloseFrom(Row(table, n), replies, at) < |replies|
    ensures polls' == polls + [FirstCloseFrom(Row(table, n), replies, at) + 1 - at]
    ensures next == if reached then FirstCloseFrom(Row(table, n), replies, at) + 1 else |replies|
    ensures n' == if reached then n + 1 else n
    ensures LoopState(side, table, s, goal, n', reached, location', events', polls', replies, next, Now(rv, air, tx))
    ensures tx.bus == old(tx.bus) && tx.messageMap == old(tx.messageMap) && tx.nMessageMap == old(tx.nMessageMap) && tx.rxMsg == old(tx.rxMsg)
  {
    ghost var m := Now(rv, air, tx);
    StepReady(side, table, s, goal, n, location, events, polls, replies, at, m);
    var stepEvents, k;
    location', stepEvents, reached, k, next := Step(side, table, n, location, rv, air, tx, replies, at);
    StepOnCourse(side, table, s, goal, n, location, events, polls, replies, at, m, Now(rv, air, tx),
                 location', stepEvents, reached, k, next);
    polls' := polls + [k];
    events' := events + stepEvents;
    n' := if reached then n + 1 else n;
  }

  /**
   * The step loop at moment m of a cycle begun at `s`: on course before position n
   * while positions are reached, or stalled at n with every reply read.
   */
  ghost predicate LoopState(side: Side, table: seq<Position>, s: CycleStart, goal: Progress, n: nat, reached: bool,
                            location: Int8, events: seq<ArmEvent>, polls: seq<nat>, replies: seq<CanMessage>, at: nat, m: Moment)
    requires IsTable(table) && Began(side, s)
  {
    && |polls| <= STEPS && Traced(side, table, s, m, events, polls)
    && (reached ==> OnCourse(side, table, s, goal, n, location, events, polls, replies, at))
    && (!reached ==> n < STEPS && events == PartialCycle(side, s.location, n) && goal == Progress(n, polls, []) && at == |replies|)
  }

  /** The trace of step n, taken with the grabbed location, extends the cycle's trace and state. */
  lemma {:induction false} CycleStepTrace(w0: World, side: Side, loc: Int8, n: nat, location: Int8, reached: bool, stepEvents: seq<ArmEvent>)
    requires n < STEPS && w0.airFree && (n >= 1 ==> location == loc)
    requires reached ==> stepEvents == StepEvents(side, n, location)
    requires !reached ==> stepEvents == Pre(side, n, location) + [Commanded(n)]
    ensures reached ==> EventsUpTo(side, loc, n) + stepEvents == EventsUpTo(side, loc, n + 1)
    ensures reached ==> Run(AfterSteps(w0, side, n), stepEvents) == AfterSteps(w0, side, n + 1)
    ensures !reached ==> EventsUpTo(side, loc, n) + stepEvents == PartialCycle(side, loc, n)
    ensures !reached ==> Run(AfterSteps(w0, side, n), stepEvents) == Run(w0, PartialCycle(side, loc, n))
  {
    if n != 1 {
      StepEventsLocation(side, n, location, loc);
    }
    if reached {
      StepEffect(w0, side, n, loc);
    } else {
      StalledCycle(w0, side, loc, n);
    }
  }

  /** What the step loop makes of a reply script: the positions reached, the status requests of each step, the replies left. */
  datatype Progress = Progress(steps: nat, polls: seq<nat>, rest: seq<CanMessage>)

  /** The outcome `p` of a later start, after the steps that made `polls`. */
  function Then(polls: seq<nat>, p: Progress): Progress
  {
    Progress(p.steps, polls + p.polls, p.rest)
  }

  /** The status requests a list of per-step poll counts adds up to. */
  function Total(polls: seq<nat>): nat
  {
    if polls == [] then 0 else polls[0] + Total(polls[1..])
  }

  /**
   * The step loop from position n on, as the replies from `at` on decide it:
   * position n takes the status requests up to and including the first close reply;
   * with no close reply left the task blocks after its last request, otherwise the
   * next position starts on the replies after the close one.
   */
  function OutcomeFrom(table: seq<Position>, replies: seq<CanMessage>, n: nat, at: nat): (p: Progress)
    requires IsTable(table) && n <= STEPS && at <= |replies|
    decreases STEPS - n
  {
    if n == STEPS then
      Progress(STEPS, [], replies[at..])
    else
      var k := FirstCloseFrom(Row(table, n), replies, at);
      if k == |replies| then
        Progress(n, [k + 1 - at], [])
      else
        Then([k + 1 - at], OutcomeFrom(table, replies, n + 1, k + 1))
  }

  /** What one cycle's step loop makes of the reply script `replies`. */
  function CycleOutcome(table: seq<Position>, replies: seq<CanMessage>): Progress
    requires IsTable(table)
  {
    OutcomeFrom(table, replies, 0, 0)
  }

  /**
   * Every reply is examined once, in order: an outcome that reached all positions
   * asked for the replies up to Total(polls) and leaves the others; a stalled one
   * asked for one reply more than the script holds, so it stalls only once the
   * replies have run out. Each position reached, and the one that stalled, made
   * one entry of `polls`.
   */
  predicate Consumed(replies: seq<CanMessage>, at: nat, p: Progress)
  {
    && (p.steps == STEPS ==> at + Total(p.polls) <= |replies| && p.rest == replies[at + Total(p.polls)..])
    && (p.steps < STEPS ==> at + Total(p.polls) == |replies| + 1 && p.rest == [])
  }

  lemma {:induction false} OutcomeConsumes(table: seq<Position>, replies: seq<CanMessage>, n: nat, at: nat)
    requires IsTable(table) && n <= STEPS && at <= |replies|
    ensures var p := OutcomeFrom(table, replies, n, at);
      && n <= p.steps <= STEPS
      && |p.polls| == (if p.steps < STEPS then p.steps + 1 else STEPS) - n
      && Consumed(replies, at, p)
    decreases STEPS - n
  {
    if n == STEPS {
      assert Total([]) == 0;
    } else {
      var k := FirstCloseFrom(Row(table, n), replies, at);
      if k == |replies| {
        TotalCons(k + 1 - at, []);
      } else {
        var p := OutcomeFrom(table, replies, n + 1, k + 1);
        OutcomeConsumes(table, replies, n + 1, k + 1);
        TotalCons(k + 1 - at, p.polls);
      }
    }
  }

  /** A cycle's outcome examines every reply once: what Consumed says, from the first reply on. */
  lemma CycleConsumes(table: seq<Position>, replies: seq<CanMessage>)
    requires IsTable(table)
    ensures var p := CycleOutcome(table, replies);
      && p.steps <= STEPS
      && |p.polls| == (if p.steps < STEPS then p.steps + 1 else STEPS)
      && Consumed(replies, 0, p)
  {
    OutcomeConsumes(table, replies, 0, 0);
  }

  lemma TotalCons(k: nat, polls: seq<nat>)
    ensures Total([k] + polls) == k + Total(polls)
  {
    assert ([k] + polls)[1..] == polls;
  }

  /** Replies from `at` on that each carry the very position due complete the cycle, one request per step. */
  lemma {:induction false} PromptFrom(table: seq<Position>, replies: seq<CanMessage>, n: nat, at: nat)
    requires IsTable(table) && n <= STEPS && at <= |replies| && |replies| - at == STEPS - n
    requires forall i :: at <= i < |replies| ==> replies[i].data[..6] == Row(table, n + i - at)
    ensures OutcomeFrom(table, replies, n, at) == Progress(STEPS, Repeat(1, STEPS - n), [])
    decreases STEPS - n
  {
    if n < STEPS {
      PromptFirstFrom(Row(table, n), replies, at);
      PromptFrom(table, replies, n + 1, at + 1);
      RepeatCons(1, STEPS - (n + 1));
    } else {
      assert replies[at..] == [];
    }
  }

  /** A script that answers each position with that very position completes the cycle, one request per step. */
  lemma PromptRepliesComplete(table: seq<Position>, replies: seq<CanMessage>)
    requires IsTable(table) && |replies| == STEPS
    requires forall i :: 0 <= i < |replies| ==> replies[i].data[..6] == Row(table, i)
    ensures CycleOutcome(table, replies) == Progress(STEPS, Repeat(1, STEPS), [])
  {
    PromptFrom(table, replies, 0, 0);
  }

  /** A reply at `at` carrying exactly the target position is close enough, so the wait ends at it. */
  lemma PromptFirstFrom(target: seq<Byte>, replies: seq<CanMessage>, at: nat)
    requires |target| == 6 && at < |replies| && replies[at].data[..6] == target
    ensures FirstCloseFrom(target, replies, at) == at
  {
    var d := replies[at].data;
    assert forall i :: 1 <= i < 6 ==> d[i] == d[..6][i];
    assert CloseEnough(target, d);
  }

  lemma RepeatCons<T>(x: T, m: nat)
    ensures [x] + Repeat(x, m) == Repeat(x, m + 1)
  {
  }

  /**
   * One pass of move_roboter's step loop over positions 0-10 along `table`, the
   * arm's position table. The belt slot, the airspace and the mid band are what the
   * steps block on; here they are required at the start of the cycle. `steps` is the
   * number of positions reached: fewer than eleven when the replies ran out.
   */
  method Cycle(side: Side, table: seq<Position>, rv: Rendezvous, air: Airspace, tx: Transport, replies: seq<CanMessage>)
    returns (steps: nat, events: seq<ArmEvent>, polls: seq<nat>, rest: seq<CanMessage>)
    requires IsTable(table) && tx.Valid()
    requires EndOf(rv.Snapshot(), side).Some? && air.available && FreeSem(Mid) in rv.available
    modifies rv, air, tx
    ensures tx.Valid()
    ensures steps <= STEPS && |polls| <= STEPS
    ensures events == PartialCycle(side, EndOf(old(rv.Snapshot()), side).value, steps)
    ensures steps == STEPS ==> events == CycleEvents(side, EndOf(old(rv.Snapshot()), side).value)
    ensures air.log == old(air.log) + events
    ensures rv.log == old(rv.log) + Hooks(events)
    ensures Progress(steps, polls, rest) == CycleOutcome(table, replies)
    ensures World(rv.Snapshot(), air.available) == Run(World(old(rv.Snapshot()), old(air.available)), events)
    ensures tx.txQueue == old(tx.txQueue) + CycleFrames(side, table, polls)
    ensures tx.bus == old(tx.bus) && tx.messageMap == old(tx.messageMap) && tx.nMessageMap == old(tx.nMessageMap) && tx.rxMsg == old(tx.rxMsg)
  {
    ghost var s := CycleStart(Now(rv, air, tx), EndOf(rv.Snapshot(), side).value);
    ghost var goal := CycleOutcome(table, replies);
    CycleBegins(side, table, replies, s, goal, 0);
    var location, next;
    steps, events, polls, next, location := StepLoop(side, table, rv, air, tx, replies, s, goal);
    rest := replies[next..];
    CycleEnds(side, table, s, goal, steps, location, events, polls, replies, next, rest);
  }

  /**
   * move_roboter's step loop over positions 0-10 inside a cycle begun at `s`: it
   * runs until the last position is reached, or until a position is not reached
   * because the replies ran out (the task blocks there).
   */
  method StepLoop(side: Side, table: seq<Position>, rv: Rendezvous, air: Airspace, tx: Transport, replies: seq<CanMessage>,
                  ghost s: CycleStart, ghost goal: Progress)
    returns (steps: nat, events: seq<ArmEvent>, polls: seq<nat>, next: nat, location: Int8)
    requires IsTable(table) && tx.Valid() && Began(side, s)
    requires OnCourse(side, table, s, goal, 0, 0, [], [], replies, 0)
    requires Traced(side, table, s, Now(rv, air, tx), [], [])
    modifies rv, air, tx
    ensures steps <= STEPS && tx.Valid() && |polls| <= STEPS
    ensures Traced(side, table, s, Now(rv, air, tx), events, polls)
    ensures steps == STEPS ==> OnCourse(side, table, s, goal, steps, location, events, polls, replies, next)
    ensures steps < STEPS ==> events == PartialCycle(side, s.location, steps) && goal == Progress(steps, polls, []) && next == |replies|
    ensures tx.bus == old(tx.bus) && tx.messageMap == old(tx.messageMap) && tx.nMessageMap == old(tx.nMessageMap) && tx.rxMsg == old(tx.rxMsg)
  {
    location := 0;
    events, polls, next := [], [], 0;
    var n, reached := 0, true;
    while reached && n < STEPS
      invariant tx.Valid() && LoopState(side, table, s, goal, n, reached, location, events, polls, replies, next, Now(rv, air, tx))
      invariant tx.bus == old(tx.bus) && tx.messageMap == old(tx.messageMap) && tx.nMessageMap == old(tx.nMessageMap) && tx.rxMsg == old(tx.rxMsg)
      decreases STEPS - n, if reached then 1 else 0
    {
      n, location, events, polls, reached, next := CycleStep(side, table, n, location, rv, air, tx, replies, next, events, polls, s, goal);
    }
    steps := n;
  }

  /** A cycle begins on course for its outcome, with nothing run yet. */
  lemma CycleBegins(side: Side, table: seq<Position>, replies: seq<CanMessage>, s: CycleStart, goal: Progress, location: Int8)
    requires IsTable(table) && goal == CycleOutcome(table, replies)
    requires s.at.world.airFree && FreeSem(Mid) in s.at.world.signals.available && EndOf(s.at.world.signals, side) == Some(s.location)
    ensures Began(side, s)
    ensures OnCourse(side, table, s, goal, 0, location, [], [], replies, 0)
    ensures Traced(side, table, s, s.at, [], [])
  {
    assert [] + goal.polls == goal.polls;
    assert s.at.queue + [] == s.at.queue && s.at.airLog + [] == s.at.airLog && s.at.rvLog + [] == s.at.rvLog;
  }

  /** The step loop, left after all positions or where it stalled, ends at the outcome `goal`. */
  lemma CycleEnds(side: Side, table: seq<Position>, s: CycleStart, goal: Progress, n: nat, location: Int8,
                  events: seq<ArmEvent>, polls: seq<nat>, replies: seq<CanMessage>, next: nat, rest: seq<CanMessage>)
    requires IsTable(table) && n <= STEPS && Began(side, s) && next <= |replies| && rest == replies[next..]
    requires n == STEPS ==> OnCourse(side, table, s, goal, n, location, events, polls, replies, next)
    requires n < STEPS ==> events == PartialCycle(side, s.location, n) && goal == Progress(n, polls, []) && next == |replies|
    ensures events == PartialCycle(side, s.location, n)
    ensures n == STEPS ==> events == CycleEvents(side, s.location)
    ensures Progress(n, polls, rest) == goal
  {
    if n == STEPS {
      FullCycle(s.at.world, side, s.location);
      assert polls + [] == polls;
    }
  }

  lemma AfterNoSteps(w: World, side: Side)
    ensures AfterSteps(w, side, 0) == w
  {
    assert w.signals.available - {} + {} + {} == w.signals.available;
  }

  lemma {:induction false} QueueAppend(q0: seq<Frame>, side: Side, table: seq<Position>, polls: seq<nat>, k: nat)
    requires IsTable(table) && |polls| < STEPS
    ensures q0 + CycleFrames(side, table, polls) + PositionFrames(side, table, |polls|, k)
         == q0 + CycleFrames(side, table, polls + [k])
  {
    CycleFramesAppend(side, table, polls, k);
    AppendAssoc(q0, CycleFrames(side, table, polls), PositionFrames(side, table, |polls|, k));
  }

  /** The trace of a cycle that stalled in step n, and the state it leaves. */
  lemma {:induction false} StalledCycle(w0: World, side: Side, loc: Int8, n: nat)
    requires n < STEPS && w0.airFree
    ensures EventsUpTo(side, loc, n) + (Pre(side, n, loc) + [Commanded(n)]) == PartialCycle(side, loc, n)
    ensures Run(w0, PartialCycle(side, loc, n)) == Run(AfterSteps(w0, side, n), Pre(side, n, loc) + [Commanded(n)])
  {
    UpToEffect(w0, side, loc, n);
    RunConcat(w0, EventsUpTo(side, loc, n), Pre(side, n, loc) + [Commanded(n)]);
  }

  lemma {:induction false} FullCycle(w0: World, side: Side, loc: Int8)
    requires w0.airFree
    ensures EventsUpTo(side, loc, STEPS) == PartialCycle(side, loc, STEPS)
    ensures Run(w0, PartialCycle(side, loc, STEPS)) == AfterSteps(w0, side, STEPS)
  {
    UpToEffect(w0, side, loc, STEPS);
    assert PartialCycle(side, loc, STEPS) == EventsUpTo(side, loc, STEPS) + [];
  }

  /** A cycle's trace so far is a prefix of the full one, and all of it once every position was reached. */
  lemma {:induction false} PartialCycleIsPrefix(side: Side, location: Int8, steps: nat)
    requires steps <= STEPS
    ensures |PartialCycle(side, location, steps)| <= |CycleEvents(side, location)|
    ensures PartialCycle(side, location, steps) == CycleEvents(side, location)[..|PartialCycle(side, location, steps)|]
    ensures steps < STEPS ==> |PartialCycle(side, location, steps)| < |CycleEvents(side, location)|
    ensures steps == STEPS ==> PartialCycle(side, location, steps) == CycleEvents(side, location)
  {
    var e := PartialCycle(side, location, steps);
    if steps < STEPS {
      var b := EventsUpTo(side, location, steps + 1);
      StalledPrefix(side, location, steps);
      UpToPrefix(side, location, steps + 1, STEPS);
      PrefixOfPrefix(e, b, CycleEvents(side, location));
    } else {
      assert e == EventsUpTo(side, location, steps) + [];
    }
  }

  /** A cycle stalled in step n has traced a proper prefix of the first n + 1 steps. */
  lemma {:induction false} StalledPrefix(side: Side, location: Int8, n: nat)
    requires n < STEPS
    ensures |PartialCycle(side, location, n)| < |EventsUpTo(side, location, n + 1)|
    ensures PartialCycle(side, location, n) == EventsUpTo(side, location, n + 1)[..|PartialCycle(side, location, n)|]
  {
    var e := PartialCycle(side, location, n);
    var b := EventsUpTo(side, location, n + 1);
    assert b == e + ([Reached(n)] + Post(side, n));
  }

  lemma {:induction false} PrefixOfPrefix<T>(a: seq<T>, b: seq<T>, c: seq<T>)
    requires |a| <= |b| <= |c| && a == b[..|a|] && b == c[..|b|]
    ensures a == c[..|a|]
  {
  }

  // ---------------------------------------------------------------- manual_arm_movement

  const BUTTON_T0: Byte := 0x01
  const BUTTON_T1: Byte := 0x02
  const BUTTON_T2: Byte := 0x04
  const BUTTON_T3: Byte := 0x08
  const GRIPPER_MAX: Byte := 1
  const GRIPPER_MIN: Byte := 0

  /** pos_manuel before the first iteration. */
  const INITIAL_POS_MANUEL: seq<Byte> := [0x02, 0x00, 0x00, 0x00, 0x00, 0x00]

  predicate SwitchOn(switches: Byte, mask: bv8)
  {
    (switches as bv8) & mask != 0
  }

  /** Switch 0 selects the left arm. */
  predicate LeftSelected(switches: Byte) { SwitchOn(switches, 0x01) }

  /** Switch 1 selects increment. */
  predicate Increment(switches: Byte) { SwitchOn(switches, 0x02) }

  /** The joint (1-4) a button value moves, or 0 when it matches no single button. */
  function JointOf(buttons: Byte): nat
  {
    if buttons == BUTTON_T0 then 1
    else if buttons == BUTTON_T1 then 2
    else if buttons == BUTTON_T2 then 3
    else if buttons == BUTTON_T3 then 4
    else 0
  }

  /** The value of pos_manuel after one pass of the manual task's loop. */
  function Jogged(pos: seq<Byte>, switches: Byte, buttons: Byte): seq<Byte>
    requires |pos| == 6
  {
    var gripped := pos[5 := if SwitchOn(switches, 0x04) then GRIPPER_MAX else GRIPPER_MIN];
    var j := JointOf(buttons);
    if j == 0 then gripped
    else gripped[j := WrapByte(if Increment(switches) then pos[j] as int + 1 else pos[j] as int - 1)]
  }

  /**
   * One pass of manual_arm_movement's loop on the pos_manuel array with the
   * switch and button readings as inputs; it sends the position and a status
   * request to the selected arm. The reply it then waits for is not modelled.
   */
  method ManualStep(pos: array<Byte>, switches: Byte, buttons: Byte, tx: Transport) returns (leftSelect: bool)
    requires pos.Length == 6 && tx.Valid()
    modifies pos, tx
    ensures tx.Valid()
    ensures pos[..] == Jogged(old(pos[..]), switches, buttons)
    ensures leftSelect == LeftSelected(switches)
    ensures var side: Side := if leftSelect then Left else Right;
      tx.txQueue == old(tx.txQueue) + [QueuedFrame(COMAND_DLC, CommandId(side), pos[..]), StatusRequestFrame(side)]
    ensures tx.bus == old(tx.bus) && tx.messageMap == old(tx.messageMap) && tx.nMessageMap == old(tx.nMessageMap) && tx.rxMsg == old(tx.rxMsg)
  {
    leftSelect := SwitchOn(switches, 0x01);
    var increment := SwitchOn(switches, 0x02);
    if SwitchOn(switches, 0x04) {
      pos[5] := GRIPPER_MAX;
    } else {
      pos[5] := GRIPPER_MIN;
    }
    var joint := JointOf(buttons);
    if joint != 0 {
      if increment {
        pos[joint] := WrapByte(pos[joint] as int + 1);
      } else {
        pos[joint] := WrapByte(pos[joint] as int - 1);
      }
    }
    var side: Side := if leftSelect then Left else Right;
    var _ := tx.SendData(COMAND_DLC, CommandId(side), pos[..]);
    var _ := tx.SendData(STATUS_REQEST_DLC, StatusRequestId(side), STATUS_REQUEST);
  }

  /** Switch 2 alone decides the gripper byte; byte 0 is never touched. */
  lemma JogGripperAndArmByte(pos: seq<Byte>, switches: Byte, buttons: Byte)
    requires |pos| == 6
    ensures |Jogged(pos, switches, buttons)| == 6
    ensures Jogged(pos, switches, buttons)[5] == if SwitchOn(switches, 0x04) then 1 else 0
    ensures Jogged(pos, switches, buttons)[0] == pos[0]
  {
  }

  /** A single button moves exactly its own joint by one step modulo 256 and no other. */
  lemma JogMovesOneJoint(pos: seq<Byte>, switches: Byte, buttons: Byte)
    requires |pos| == 6
    requires buttons in {BUTTON_T0, BUTTON_T1, BUTTON_T2, BUTTON_T3}
    ensures var q := Jogged(pos, switches, buttons);
      && var j := JointOf(buttons);
      && 1 <= j <= 4
      && (q[j] as int - pos[j] as int) % 0x100 == (if Increment(switches) then 1 else 0xFF)
      && forall i :: 1 <= i <= 4 && i != j ==> q[i] == pos[i]
  {
  }

  /** Any other button value, several buttons included, leaves every joint alone. */
  lemma JogOtherButtonsHold(pos: seq<Byte>, switches: Byte, buttons: Byte)
    requires |pos| == 6
    requires buttons !in {BUTTON_T0, BUTTON_T1, BUTTON_T2, BUTTON_T3}
    ensures Jogged(pos, switches, buttons)[..5] == pos[..5]
  {
  }

  /** Incrementing and then decrementing the same joint restores it, across the 0/255 wrap too. */
  lemma JogUndo(pos: seq<Byte>, up: Byte, down: Byte, buttons: Byte)
    requires |pos| == 6 && Increment(up) && !Increment(down)
    ensures Jogged(Jogged(pos, up, buttons), down, buttons)[..5] == pos[..5]
  {
    var j := JointOf(buttons);
    var q := Jogged(Jogged(pos, up, buttons), down, buttons);
    if j != 0 {
      assert q[j] == WrapByte(WrapByte(pos[j] as int + 1) as int - 1);
    }
  }

  /** A reading of the switches and buttons for one pass of the manual loop. */
  datatype Reading = Reading(switches: Byte, buttons: Byte)

  function JogRun(pos: seq<Byte>, readings: seq<Reading>): (q: seq<Byte>)
    requires |pos| == 6
    ensures |q| == 6
    decreases |readings|
  {
    if readings == [] then pos
    else
      JogGripperAndArmByte(pos, readings[0].switches, readings[0].buttons);
      JogRun(Jogged(pos, readings[0].switches, readings[0].buttons), readings[1..])
  }

  /** However long the manual task runs, byte 0 of the command stays 0x02. */
  lemma {:induction false} ManualKeepsArmByte(pos: seq<Byte>, readings: seq<Reading>)
    requires |pos| == 6 && pos[0] == INITIAL_POS_MANUEL[0]
    ensures JogRun(pos, readings)[0] == 0x02
    decreases |readings|
  {
    if readings != [] {
      JogGripperAndArmByte(pos, readings[0].switches, readings[0].buttons);
      ManualKeepsArmByte(Jogged(pos, readings[0].switches, readings[0].buttons), readings[1..]);
    }
  }
}
