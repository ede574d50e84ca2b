# ubor conveyor and robot-arm control, modelled in Dafny

The firmware runs a small production line on an STM32F4 board under FreeRTOS:

- Three conveyor belts (left, mid, right) move blocks.
- A dispatcher shuttle on the mid belt pushes each block towards the left or the right.
- Two robot arms carry blocks from the end of their side belt back onto the mid belt.

Every device is driven by CAN frames. This project models the control core:

- `Ucan` (`ucan.dfy`, src/ucan.c): the CAN layer. It has the FIFO transmit queue and
  its drain onto the bus, the 100-entry `message_map` that routes message ids to
  receive queues, and the receive hook.
- `Bcs` (`bcs.dfy`, src/bcs.c): the belt control system. It has the belt and
  dispatcher messages and their addressing, the decoding of the 7-byte `status_t`
  answer, the wait for a detected block with its retry ceiling, the six steps of a
  belt task cycle, and the semaphore and one-slot-queue rendezvous between the belts
  and the arms.
- `Arm` (`arm.dfy`, src/arm.c): the arm tasks. It has the per-step position tables,
  the closed-loop position wait with its ±1 tolerance on joints 1-5, the eleven-step
  move cycle with its hooks into the belt rendezvous, the mutex that protects the
  airspace above the mid belt, and the manual jog task.
- `Display` (`display.dfy`, src/display.c): the log display. It has the line-id
  allocator of `display_log` and the 30-line ring buffer of `display_task`.
- `Types` (`types.dfy`): the C integer widths (`uint8_t`, `uint16_t`, `int8_t`) and
  their explicit wrap-around.

How the model treats the RTOS:

- RTOS objects whose state the code changes are classes with fields:
  - `Ucan.Transport`: the transmit queue, the bus trace and the `message_map` array.
  - `Bcs.Rendezvous`: the binary semaphores that are given, and the two one-slot
    end queues.
  - `Arm.Airspace`: the mid air mutex.
  - `Display.Display`: the counter, the queue and the ring buffer.
- A call that blocks without a timeout becomes a precondition: the resource is
  available when the model calls it.
- What a task receives is a scripted sequence of replies, where a timeout is an
  explicit reply. A finite script can run out, and that case has its own outcome:
  `OutOfReplies`, a cycle that stalls at a step, or `reached == false`. A reply is a
  `Ucan.CanMessage`, a frame with eight data bytes, as the controller delivers it.
  The arm methods read the script by index: each returns the index of the first
  reply it left unread, and `Arm.CycleOutcome` states, as a function of the script
  alone, how far an arm cycle gets, how many status requests each position takes
  and which replies remain.
- The belt and arm cycles are also described as traces of events over the
  rendezvous state (`Bcs.Event` with `Bcs.Apply`, `Arm.ArmEvent` with `Arm.Run`).
  Each shared object keeps a ghost log of what was done to it:
  - `Bcs.Rendezvous.log`: every semaphore and slot primitive of the rendezvous
    appends its own event, and `Bcs.SendMsg` appends the frame it queues.
  - `Arm.Airspace.log`: `Enter` and `Leave` append the mutex events. The arm step
    appends each hook next to the rendezvous call it makes, its command next to the
    send, and the arrival when the wait succeeds.
- The methods' contracts state that the logs grow by exactly the trace functions
  (`Bcs.StartEvents`, `Bcs.AwaitEvents`, `Bcs.FinishEvents`, `Arm.StepEvents`,
  `Arm.CycleEvents`, and `Arm.Hooks` projected onto the rendezvous log). The
  ordering and effect lemmas about those functions therefore speak about what the
  methods execute.

## Model

| member | source | states |
|---|---|---|
| Types.WrapByte | src/arm.c:409-436 | `uint8_t` increment and decrement, as used in the manual jog, wrap modulo 256: 255+1 is 0 and 0-1 is 255 |
| Ucan.QueuedFrame | src/ucan.c:183-198 | the frame ucan_send_data builds; `Ucan.QueuedFrameShape` states its fields |
| Ucan.QueuedFrameShape | src/ucan.c:183-198 | a frame queued by ucan_send_data has the given id, rtr and ext 0, dlc n, and carries exactly min(n, 8) data bytes |
| Ucan.Transport.Init | src/ucan.c:84-89 | the transport starts with empty queues, no links and all 100 map slots zero |
| Ucan.Transport.SendData | src/ucan.c:183-198 | appends exactly one frame to the transmit queue and to the record of sent frames, and changes nothing else |
| Ucan.Transport.WriteData | src/ucan.c:94-100 | draining `count` frames moves exactly the first `count` queued frames, in order, onto the bus, so the bus stays a prefix of what was sent |
| Ucan.BusIsPrefixOfSent | src/ucan.c:94-100 | frames reach the bus in the order they were sent (FIFO) |
| Ucan.Transport.ReceiveData | src/ucan.c:201-208 | a received frame replaces the receive buffer; no frame leaves it unchanged; nothing else changes |
| Ucan.Transport.LinkMessageToQueue | src/ucan.c:132-143 | *corrected* (see Findings): succeeds exactly when the table is not full; on success slot n holds the pair (queue, id) and the count grows by one; when full nothing changes |
| Ucan.TableFull | src/ucan.c:135 | the capacity guard: the link is refused exactly when n is above SIZE_MAP - 1; `Ucan.AsWrittenGuardAdmitsOverflow` states what it admits |
| Ucan.StoreLink | src/ucan.c:139-140 | *corrected* (see Findings): the store as intended, both fields into slot n; `Ucan.StoreLinkPairs` states its properties |
| Ucan.StoreLinkAsWritten | src/ucan.c:139-140 | the store as written, the id into slot n and the queue into slot n+1; `Ucan.StoreLinkAsWrittenSplitsLink` states its properties |
| Ucan.StoreLinkPairs | src/ucan.c:132-143 | the corrected store writes both fields into the same slot and leaves every other slot alone |
| Ucan.Transport.LinkMessageToQueueAsWritten | src/ucan.c:132-143 | the code as written: the id goes into slot n, the queue into slot n+1 |
| Ucan.StoreLinkAsWrittenSplitsLink | src/ucan.c:139-140 | as written, slot n never holds the intended pair unless it already had that queue; the queue lands in slot n+1 |
| Ucan.FirstRegistrationAsWrittenLosesQueue | src/ucan.c:139-140 | the first registration of id 0x151 for queue 1 leaves slot 0 routed to queue 0 as written, and to queue 1 when corrected |
| Ucan.AsWrittenGuardAdmitsOverflow | src/ucan.c:135-140 | for a table of 100 links, the guard keeps slot n inside it, yet with n at 99 it lets the call through although slot n + 1 = 100, where the as-written queue store writes, is past the end; so `StoreLinkAsWritten`'s requirement that n + 1 be below the table's length excludes a call the guard admits |
| Bcs.BeltMessageAddressing | src/bcs.c:38-44 | every belt message is sent to the belt's base address plus its sub-id, with dlc equal to its length and its data bytes |
| Bcs.DispatcherAddressing | src/bcs.c:46-51 | every dispatcher message goes to id 0x142 with three data bytes |
| Bcs.MsgFrame | src/bcs.c:72-76 | the frame bcs_send_msg queues: id base + subid as a `uint16_t`, dlc the message length, its data; `Bcs.BeltMessageAddressing` and `Bcs.DispatcherAddressing` state it for every message |
| Bcs.StatusAnswerIdsAgree | src/bcs.c:39 | the answer id a belt task waits for (base + 1) equals the one the CAN layer names for that belt (0x111, 0x121, 0x131) |
| Bcs.DecodeStatus | src/bcs.c:26-35 | reads the `status_t` fields from the answer bytes; `Bcs.DecodeEncode`, `Bcs.EncodeDecode` and `Bcs.DetectionIsByteThree` state its properties |
| Bcs.DecodeEncode | src/bcs.c:26-35 | decoding an encoded status gives it back: the position is little-endian and the location is a two's complement byte |
| Bcs.EncodeDecode | src/bcs.c:26-35 | encoding a decoded status gives back the first seven data bytes |
| Bcs.DetectionIsByteThree | src/bcs.c:26-35 | the detection field is data byte 3, and the block counts as detected exactly when that byte is 3 |
| Bcs.InitialSignalsAre | src/bcs.c:281-296 | after bcs_init only the left and right free semaphores are given; the mid free and all start semaphores are taken, and both end slots are empty |
| Bcs.Rendezvous.Init | src/bcs.c:281-296 | the rendezvous starts in the bcs_init state, with an empty log |
| Bcs.Rendezvous.Take | src/bcs.c:210-214 | a blocking take requires the semaphore given, removes it, and logs the take |
| Bcs.Rendezvous.TryTake | src/bcs.c:221 | a bounded take reports whether the semaphore was given, and the semaphore is taken afterwards either way; the attempt is logged as a take |
| Bcs.Rendezvous.Give | src/bcs.c:137-165 | a give makes the semaphore available, however it stood, changes no slot and logs the give |
| Bcs.Rendezvous.PrepareDrop | src/bcs.c:121-135 | takes the belt's free semaphore and logs the take |
| Bcs.Rendezvous.SignalDropped | src/bcs.c:137-150 | gives the belt's start semaphore and logs the give |
| Bcs.Rendezvous.SignalBandFree | src/bcs.c:152-165 | gives the belt's free semaphore and logs the give |
| Bcs.Rendezvous.Grab | src/bcs.c:167-175 | returns the location in the side's end slot, empties the slot and logs the grab with that location |
| Bcs.Rendezvous.Handoff | src/bcs.c:253-258 | puts the detected location into the empty end slot of the side belt and logs the handoff |
| Bcs.ApplyAppend | src/bcs.c:177-279 | the effect of a trace and the frames it sends extend one event at a time |
| Bcs.ApplyConcat | src/bcs.c:177-279 | the effect of a concatenated trace is that of its parts in sequence, and its frames are theirs in order |
| Bcs.SendMsg | src/bcs.c:72-76 | queues exactly the message's frame and logs it as sent on the rendezvous log |
| Bcs.InnerWait | src/bcs.c:92-97 | the inner wait ends only on a frame with the belt's answer id, having consumed at least that reply; a run-out script ends it unfound with no replies left; while the 16-bit counter cannot wrap it grows by at most one per reply consumed |
| Bcs.WaitForAnswer | src/bcs.c:92-97 | the receive loop computes exactly the inner wait: found flag, counter, buffer and the replies left |
| Bcs.TimeoutReexaminesBuffer | src/bcs.c:92-97 | a timeout while the buffer already holds an answer ends the wait at once, on the stale answer, and counts the timeout |
| Bcs.OtherIdKeepsWaiting | src/bcs.c:92-97 | a frame with another id never ends the wait; it only replaces the buffer |
| Bcs.AwaitFrom | src/bcs.c:86-117 | the retry loop from a given counter, buffer and request count; `Bcs.AwaitFromOutcome` and `Bcs.AwaitFromBound` state its properties |
| Bcs.Await | src/bcs.c:79-118 | the block wait from a fresh call; `Bcs.AwaitProperties` states its properties |
| Bcs.AwaitEventsAgree | src/bcs.c:79-118 | the log of the block wait queues exactly its frames (`AwaitFrames`) and changes no semaphore or slot |
| Bcs.RepeatSent | src/bcs.c:100-103 | sending one frame k times queues it k times and changes no semaphore or slot |
| Bcs.AwaitRound | src/bcs.c:86-117 | one round of the retry loop: one status request, then the wait; a finished round returns what `AwaitFrom` returns, an unfinished one leaves `AwaitFrom` unchanged on fewer replies; its log is `RoundEvents` |
| Bcs.AwaitBlock | src/bcs.c:79-118 | the loop computes the outcome, the number of requests and the leftover replies of `Await`, queues exactly one status request per round plus a done command after an abort, and its log grows by exactly `AwaitEvents` |
| Bcs.AwaitFromOutcome | src/bcs.c:86-117 | a status is returned only from an answer with the belt's id and detection 3; an abort happens only with the counter at 100 or more on an undetected answer; a run-out script has used every reply |
| Bcs.AwaitFromBound | src/bcs.c:100-116 | while the 16-bit counter cannot wrap, at most 100 status requests are sent, because the counter grows by at least one per request |
| Bcs.AwaitProperties | src/bcs.c:79-118 | from a fresh call: at least one request; a found status is a detected answer for this belt; an abort is undetected at a counter of at least 100; at most 100 requests when the counter cannot wrap |
| Bcs.AwaitTrigger | src/bcs.c:203-229 | resets the belt, and the mid belt also resets the dispatcher; the start semaphore is taken (a bounded take during the first 4 mid cycles, `MAX_BLOCK_COUNT`); the grace count grows only in those cycles; the log grows by `TriggerEvents` |
| Bcs.BeltTask.constructor | src/bcs.c:197-199 | a belt task starts moving left with a grace count of 0 |
| Bcs.StartFrames | src/bcs.c:202-233 | the frames steps 0-2 queue before the block wait; `Bcs.StartEventsAgree` relates them to the log |
| Bcs.StartEventsAgree | src/bcs.c:202-233 | the log of steps 0-2 before the block wait queues exactly `StartFrames` and only takes the belt's start semaphore |
| Bcs.BeltTask.StartCycle | src/bcs.c:202-241 | steps 0-2 queue reset, optional dispatcher reset, start and stop-position, then exactly the frames of the block wait; the log grows by `StartEvents` then `AwaitEvents`; the phase becomes Detected, Halted (abort) or Stalled (script ran out) |
| Bcs.FinishEvents | src/bcs.c:243-277 | the trace of steps 3-5; `Bcs.MidFinishOrder`, `Bcs.MidFinishEffect` and `Bcs.SideFinishEffect` state its properties |
| Bcs.BeltTask.FinishCycle | src/bcs.c:243-277 | steps 3-5 append exactly `FinishEvents` to the rendezvous log, change the rendezvous as that trace says, queue exactly its frames, and flip the mid belt's direction |
| Bcs.MidFinishOrder | src/bcs.c:243-277 | the mid belt first sends the dispatcher start, takes the target's free semaphore before moving the dispatcher, and gives the target's start and its own free semaphore only after the move and the done command |
| Bcs.MidFinishEffect | src/bcs.c:243-277 | a finished mid cycle takes the target's free semaphore, gives the target's start and the mid free semaphore, and queues the dispatcher start, the dispatcher move and the done command |
| Bcs.SideFinishEffect | src/bcs.c:251-274 | a finished side cycle fills the side's end slot with the detected location and queues only the done command |
| Bcs.FinishMid | src/bcs.c:243-268 | the mid part of steps 3-5: its log is dispatcher start, the target's free semaphore taken, dispatcher move, the target's start semaphore given, the done command, the mid free semaphore given, in that order |
| Bcs.FinishSide | src/bcs.c:251-258 | the side part of step 4 plus step 5: its log is the handoff of the location to the arm, then the done command |
| Bcs.MidPrimingScenario | src/bcs.c:219-225 | from bcs_init the mid belt starts twice without anyone giving its start semaphore; the first block goes left, the second right, and the first cycle gives the mid free and the left start semaphores |
| Arm.StepFrames | src/arm.c:236-237 | the step-n command carries row n of the table (six bytes) to the arm's command id; a status request is `{0x02, 0x00}` to the status request id |
| Arm.IsCloseEnough | src/arm.c:282-287 | the comparison loop answers true exactly when joints 1-5 each differ from the target by at most 1; byte 0 is not compared |
| Arm.CloseEnoughIgnoresArmByte | src/arm.c:282-287 | changing byte 0 of the reply never changes the verdict, and a reply equal to the target is close enough |
| Arm.Table | src/arm.c:160-203 | each arm's position table holds eleven positions of six bytes, `pos_arm_right` and `pos_arm_left` |
| Arm.FirstCloseFrom | src/arm.c:275-289 | the index of the first close reply at or after `from`, or the length of the script if none; `Arm.FirstCloseFromIsFirst` states its properties |
| Arm.FirstCloseFromIsFirst | src/arm.c:275-289 | the index found holds a close reply unless the script ran out, and no reply between `from` and it is close |
| Arm.WaitUntilPos | src/arm.c:267-312 | reading the script from index `at`, sends one status request per reply examined, up to and including the first close one; `reached` holds exactly when the script has a close reply from `at` on; `next` is the reply after it, or the end of the script when none was close |
| Arm.CloseEnough | src/arm.c:282-287 | the position test; `Arm.IsCloseEnough` and `Arm.CloseEnoughIgnoresArmByte` state its properties |
| Arm.Airspace.constructor | src/arm.c:175-176 | the mid air mutex is created and given once: it starts free, with an empty log |
| Arm.Airspace.Enter | src/arm.c:118-122 | taking the mid air mutex requires it free, leaves it taken and logs the take |
| Arm.Airspace.Leave | src/arm.c:135-139 | giving the mutex leaves it free and logs the give |
| Arm.HooksConcat | src/arm.c:216-253 | the rendezvous calls of a concatenated arm trace are those of its parts in order |
| Arm.RunConcat | src/arm.c:216-253 | the effect of a concatenated trace is the effect of its parts in sequence |
| Arm.AirspaceSafeConcat | src/arm.c:216-253 | a concatenated trace is airspace-safe exactly when both parts are safe, the second from the state after the first |
| Arm.SafeEvent | src/arm.c:226-249 | the airspace rule for one event: take the mutex only while it is free, give it only while held, and command positions 6-9 exactly while this arm holds it; `Arm.StepEffect` and `Arm.CycleEffect` state that the cycle keeps it |
| Arm.AirspaceSafe | src/arm.c:216-253 | every event of a trace keeps `SafeEvent` in the state the events before it leave; `Arm.AirspaceSafeConcat` states how it splits |
| Arm.Pre | src/arm.c:220-232 | the trace before a step's command: the grab before step 1, the airspace before step 6, the mid free semaphore before step 7 |
| Arm.Post | src/arm.c:239-249 | the trace after a step's arrival: the side free semaphore after step 3, the mid start semaphore after step 8, the airspace after step 9 |
| Arm.PreHooks | src/arm.c:220-232 | performs exactly `Pre`: before step 1 the location is grabbed; before step 6 the airspace is taken; before step 7 the mid free semaphore is taken; no other step has a hook; the airspace log grows by `Pre` and the rendezvous log by its hooks |
| Arm.PostHooks | src/arm.c:239-249 | performs exactly `Post`: after step 3 the side free semaphore is given, after step 8 the mid start semaphore, after step 9 the airspace; both logs grow accordingly |
| Arm.MoveTo | src/arm.c:236-237 | sends the step's command then waits for row n of the table; `reached`, the number of polls and the next reply are those of the wait from index `at`; the log grows by the command, then by the arrival exactly when a close reply was found; it queues the command and one request per poll |
| Arm.StepEvents | src/arm.c:217-252 | the trace of one step: pre hooks, command, arrival, post hooks |
| Arm.Step | src/arm.c:217-252 | one step runs its pre hooks, the command and the position wait, then its post hooks if the position was reached; `reached`, the polls and the next reply are those of the wait for row n; the airspace log grows by exactly `StepEvents` (cut after the command when the replies run out) and the rendezvous log by its hooks; it queues the command and one request per poll |
| Arm.CycleEvents | src/arm.c:216-253 | the trace of the eleven steps; the lemmas below state its properties |
| Arm.StepEffect | src/arm.c:216-253 | each step is airspace-safe from the state the earlier steps leave, and moves the state to that of the next step |
| Arm.UpToEffect | src/arm.c:216-253 | the first k steps are airspace-safe and lead to `AfterSteps(k)` |
| Arm.Cycle | src/arm.c:216-253 | the positions reached, the status requests of each position and the replies left are exactly `CycleOutcome(table, replies)`; the airspace log grows by exactly the first `steps` steps of the cycle trace, and by `CycleEvents` when all eleven ran; the rendezvous log grows by its hooks; it queues each step's command and requests in order |
| Arm.StepLoop | src/arm.c:216-253 | the loop runs position by position until all eleven are reached, or until a position is not reached because the replies ran out; it then stands where the outcome the cycle is on course for says, with every reply read; the shared state, the queue and both logs are those of the steps run |
| Arm.LoopState | src/arm.c:216-253 | the step loop's state: the shared state, queue and logs are those of the steps run, and the loop is on course before position n, or stalled at n with every reply read where the outcome stalls |
| Arm.CycleStep | src/arm.c:217-252 | one pass of the loop body at position n: whether it is reached, its poll count and the next reply are those of the wait for row n from the current reply; the position counter advances exactly when it is reached; the loop is then in `LoopState`, on course for position n + 1 or stalled at n exactly where the outcome is |
| Arm.StepReady | src/arm.c:220-232 | on course before step n, the shared state holds what step n blocks on: the belt slot full at step 1, the airspace free at step 6, the mid free semaphore at step 7 |
| Arm.StepOnCourse | src/arm.c:217-252 | a step run on course extends the trace by its events and requests, and leaves the loop on course for position n + 1 or stalled where the outcome is |
| Arm.OutcomeAdvance | src/arm.c:236-237 | the wait at position n moves along the outcome: when reached, what is left of it is the outcome from position n + 1 at the next reply; when not, the outcome stalls at n after these polls |
| Arm.CycleBegins | src/arm.c:214-216 | a cycle that starts with the slot full, the airspace free and the mid band free is on course for its outcome with nothing run |
| Arm.CycleEnds | src/arm.c:216-253 | a loop left after all positions or where it stalled has run `PartialCycle`, `CycleEvents` when complete, and ends at the outcome with the replies after the last one read |
| Arm.OutcomeFrom | src/arm.c:216-289 | the outcome from position n and reply index `at`; `Arm.OutcomeConsumes` and `Arm.PromptFrom` state its properties |
| Arm.CycleOutcome | src/arm.c:216-289 | what one cycle's step loop makes of the reply script, from the first position and the first reply; `Arm.Cycle` is stated against it, and `Arm.CycleConsumes` and `Arm.PromptRepliesComplete` state its properties |
| Arm.OutcomeConsumes | src/arm.c:216-289 | from position n the outcome reaches between n and eleven positions, has one poll count per position tried, and reads every reply once and in order: when complete the counts add up to the replies read and the rest is what follows; when stalled they add up to one more than were left, the request the task blocks after |
| Arm.CycleConsumes | src/arm.c:216-289 | the same for a whole cycle: at most eleven positions, one poll count per position tried, every reply read once |
| Arm.PromptFrom | src/arm.c:216-289 | from position n, replies that each report exactly the position due complete the cycle with one status request per position and no reply left |
| Arm.PromptRepliesComplete | src/arm.c:216-289 | eleven replies that each report the position due complete the cycle with one status request per position and no reply left |
| Arm.PromptFirstFrom | src/arm.c:281-287 | a reply that carries exactly the target position ends the wait at once |
| Arm.CycleEffect | src/arm.c:216-253 | a full cycle never takes the airspace while it is held; it ends with the airspace free and the side's end slot empty, having taken the mid free semaphore and given the side's free and the mid start semaphores |
| Arm.AirspaceOncePerCycle | src/arm.c:226-249 | a cycle takes the mid air mutex exactly once and gives it exactly once |
| Arm.UpToAirspaceCounts | src/arm.c:226-249 | after k steps the mutex was taken once if k > 6 and given once if k > 9, and never otherwise |
| Arm.GrabPrecedesStepOneCommand | src/arm.c:220-236 | a cycle starts with the step-0 command and arrival, then the grab, then the step-1 command |
| Arm.StepHooks | src/arm.c:220-249 | the rendezvous calls of each step: the grab at step 1, the side free semaphore given at 3, the mid free taken at 7, the mid start given at 8, none elsewhere |
| Arm.UpToHooks | src/arm.c:216-253 | the rendezvous calls of the first k steps are the first `HookCount(k)` of the cycle's four |
| Arm.UpToHooksStep | src/arm.c:216-253 | step n extends the rendezvous calls of the steps before it from the first `HookCount(n)` to the first `HookCount(n + 1)` of the cycle's four |
| Arm.CycleHooks | src/arm.c:216-253 | a full cycle makes exactly four rendezvous calls, in this order: grab, side free given, mid free taken, mid start given |
| Arm.PartialCycleIsPrefix | src/arm.c:216-253 | what a stalled cycle did is a strict prefix of the full cycle trace; a completed one is the full trace |
| Arm.Jogged | src/arm.c:399-440 | the position after one jog pass; `Arm.JogGripperAndArmByte`, `Arm.JogMovesOneJoint`, `Arm.JogOtherButtonsHold` and `Arm.JogUndo` state its properties |
| Arm.ManualStep | src/arm.c:383-455 | one pass applies `Jogged` in place to the six position bytes and queues the position command and a status request to the arm selected by switch 0 |
| Arm.JogRun | src/arm.c:383-455 | the position after the `while(1)` loop of the manual task has applied `Jogged` for each reading in turn; it keeps six bytes, and `Arm.ManualKeepsArmByte` states its property |
| Arm.JogGripperAndArmByte | src/arm.c:399-403 | switch 2 alone decides the gripper byte (1 or 0), and byte 0 is never touched |
| Arm.JogMovesOneJoint | src/arm.c:405-437 | a single button moves exactly its own joint by +1 or -1 modulo 256, as switch 1 says, and no other joint |
| Arm.JogOtherButtonsHold | src/arm.c:438-440 | any other button value, including several buttons together, leaves every joint alone |
| Arm.JogUndo | src/arm.c:405-437 | an increment followed by a decrement of the same joint restores it, across the 0/255 wrap too |
| Arm.ManualKeepsArmByte | src/arm.c:374-455 | however many passes run, byte 0 keeps its initial value 0x02 |
| Display.Allocate | src/display.c:44-59 | the id allocation of display_log; `Display.AllocateProperties` states its properties |
| Display.AllocateProperties | src/display.c:44-59 | a newline request gets last_given_id + 1, which is never DISPLAY_NEWLINE; any other id is used unchanged; the counter stays below 0xFF |
| Display.FreshIdsCycle | src/display.c:48-52 | from counter c the i-th fresh id is (c + i) mod 255 + 1: ids run 1..255 and then restart at 1 |
| Display.FreshIdsFromPowerUp | src/display.c:27 | from power-up the fresh ids are 1, ..., 255, and the 256th request gets 1 again |
| Display.LoggedId | src/display.c:31-64 | the corrected display_log returns the id it attached, which is never DISPLAY_NEWLINE for a fresh-line request |
| Display.LoggedIdAsWritten | src/display.c:31-64 | the value display_log as written hands back: with no return statement it is whatever is left behind (`leftover`), whatever the counter and the id; `Display.MissingReturnBreaksLineUpdate` states its effect |
| Display.MissingReturnBreaksLineUpdate | src/display.c:31-64 | from any counter value, as written the follow-up log carries the id first allocated exactly when the leftover value happens to be that id; a leftover 0 draws a further fresh id; with the returned id the follow-up always carries the id first allocated |
| Display.Display.constructor | src/display.c:27-28 | the display starts with counter 0, an empty queue and an empty screen |
| Display.Display.Log | src/display.c:31-64 | *corrected* (see Findings): queues the message with the allocated id, updates the counter, returns that id (`Display.LoggedId`), which the code as written does not, and leaves the screen alone |
| Display.ScreenAfter | src/display.c:99-121 | the screen shows min(received, 30) lines |
| Display.ScreenScrolls | src/display.c:103-118 | a new message is appended below while lines are free; once all 30 are used the oldest scrolls off; the newest message is always the last line |
| Display.Display.TaskStep | src/display.c:102-119 | one iteration moves the oldest queued message onto the screen, so the screen is always that of the messages received; it redraws from the new line, or everything once full |
| Display.Display.ScrollIn | src/display.c:108-109 | writing at the ring offset and advancing it drops the top line and appends the message |
| Display.Display.Redraw | src/display.c:110-113 | the redraw loop prints exactly the screen, from the oldest line to the newest |
| Display.Display.AppendLine | src/display.c:115-118 | while the screen is not full, the message is stored after the visible lines and only that line is printed |
| Display.RingAdvance | src/display.c:109-111 | advancing the offset shifts ring index i to i + 1, and the last index wraps to the old offset |

## Left out

- FreeRTOS scheduling, task priorities and every `vTaskDelay`. The tasks are modelled one at a time; interleavings between tasks are not modelled.
- The capacity of the CAN transmit queue. `ucan_write_data` (src/ucan.c:93-100) is a task loop that blocks on the queue forever; the model makes it an explicit call that drains `count` frames. No task for it is created in the files modelled here.
- The CAN controller set-up and the acceptance filter in `ucan_init`. The library calls (`CARME_CAN_*`) are foreign code.
- The LCD output of `display_print_message`, the `vsprintf` formatting and `pcTaskGetName`. The task name and the text are fields of an entry.
- Every `display_log` call made from the belt, arm and CAN code. These are log side effects only.
- `ucan_link_message_to_queue_mask` and the dispatch of received frames to queues. The belt queues are taken as already routed. The model's message map only records links; the dispatch that reads the map is code this model does not include.
- The arm task's start-up: the reset frame, the queue link and the 500 ms delay. Its step loop is modelled from the first cycle on.
- The manual task's receive of the arm's answer and its display of the position. Its log line reads the right arm's buffer for byte 0; it is display output only.
- Bcs.Rendezvous.Grab: takes a side only. `bcs_grab` with the mid belt would return an uninitialised value, and no caller does that.
- Bcs.BeltTask.StartCycle: the aborting branch's `while(true);` is modelled as the phase `Halted`, from which no cycle starts.
- Arm.Airspace.constructor: the model creates one mutex for both arms. In the source only the right arm's task creates and gives `arm_mid_air_mutex`, so the left arm depends on the right arm's task having run first.
- Arm.Cycle: requires the grab slot, the airspace and the mid free semaphore to be available at the start of the cycle. The source blocks until another task provides them; the model runs one arm without a concurrent task.
- Arm.Cycle: takes the position table as a parameter, a sequence of eleven six-byte rows (`Arm.Table`). The source walks the `static uint8_t[11][6]` table through a flat pointer, where `&pos_arm[n*6]` is row n (`Arm.Row`); the pointer cast itself is not modelled.
- Bcs.AwaitProperties: the bound of 100 requests is proved only when |replies| + 100 < 65536. With more replies the 16-bit `wait_count` can wrap during the timeouts, and the model keeps that wrap.
- Ucan.Transport.LinkMessageToQueueAsWritten: requires n + 1 < 100 when the table is not full. With n = 99 the as-written store writes index 100, outside the array. `Ucan.AsWrittenGuardAdmitsOverflow` states that case instead.
- Display.Display.Log: requires room in the queue, and Display.Display.TaskStep requires a queued message. Both calls block with `portMAX_DELAY` in the source.
- Display.Display.TaskStep: the entry keeps the task name, the id and the text, not the 30-byte `char message[30]` of `message_t` (src/display.c:20-24). `Entry.message` is an unbounded string, so the model does not capture `vsprintf` (src/display.c:38) writing past the 30 bytes. The source has such messages: the fixed text of "Waiting on block. Found! position %04x location %d" (src/bcs.c:104) is 34 characters before formatting.

## Findings

| source | as written | input that shows it | evidently intended | confidence | as-written member | corrected member |
|---|---|---|---|---|---|---|
| src/ucan.c:139-140 | the message id is stored in slot n with a post-increment, then the queue is stored in slot n+1 | the first registration, `ucan_link_message_to_queue(0x151, q1)` on an empty map: slot 0 holds (queue 0, id 0x151), slot 1 holds queue q1 | both fields in slot n, then n += 1 | high, not executed | Ucan.FirstRegistrationAsWrittenLosesQueue | Ucan.StoreLinkPairs |
| src/display.c:31-64 | `display_log` is declared to return `uint8_t` and has no return statement | `bcs_await_block` logs with DISPLAY_NEWLINE, then passes the returned value as the id of its follow-ups; any leftover value other than the id just allocated makes the follow-up miss that line, and a leftover 0 makes it take a further fresh id | return `newId` | high, not executed | Display.MissingReturnBreaksLineUpdate | Display.LoggedId |
