/**
 * The CAN transport bookkeeping of src/ucan.c: the registration table that links a
 * message id to a receive queue, the construction of outgoing frames, the FIFO
 * transmit queue and the writer task that drains it onto the bus.
 */
module Ucan {
  import opened Types

  /** SIZE_MAP: capacity of the message link table. */
  const SIZE_MAP: nat := 100

  /** Status answer ids of the three conveyor belts. */
  const CAN_ID_CONVL_STAT_ANSW: Uint16 := 0x111
  const CAN_ID_CONVM_STAT_ANSW: Uint16 := 0x121
  const CAN_ID_CONVR_STAT_ANSW: Uint16 := 0x131

  /**
   * A CARME_CAN_MESSAGE. For a frame built by SendData, `data` holds exactly the
   * bytes that were copied into it; a received message always carries its whole
   * 8-byte data array (see IsCanMessage).
   */
  datatype Frame = Frame(id: Uint16, rtr: Byte, ext: Byte, dlc: Byte, data: seq<Byte>)

  /** A message as the controller delivers it: all eight data bytes are present. */
  predicate IsCanMessage(f: Frame)
  {
    |f.data| == 8
  }

  /** A frame as the controller delivers it. */
  type CanMessage = f: Frame | IsCanMessage(f) witness Frame(0, 0, 0, 0, [0, 0, 0, 0, 0, 0, 0, 0])

  /** Handle of a FreeRTOS queue; 0 plays the role of NULL. */
  type QueueHandle = nat

  /** msg_link_t: one entry of message_map. */
  datatype Link = Link(queue: QueueHandle, messageId: Uint16)

  /**
   * The frame that ucan_send_data(n, msgId, data) puts on the transmit queue:
   * rtr and ext cleared, dlc = n without clamping, and only the first min(n, 8)
   * bytes of `data` copied.
   */
  function QueuedFrame(n: Byte, msgId: Uint16, data: seq<Byte>): Frame
    requires Min(n, 8) <= |data|
  {
    Frame(msgId, 0, 0, n, data[..Min(n, 8)])
  }

  lemma QueuedFrameShape(n: Byte, msgId: Uint16, data: seq<Byte>)
    requires Min(n, 8) <= |data|
    ensures QueuedFrame(n, msgId, data).id == msgId
    ensures QueuedFrame(n, msgId, data).rtr == 0 && QueuedFrame(n, msgId, data).ext == 0
    ensures QueuedFrame(n, msgId, data).dlc == n
    ensures |QueuedFrame(n, msgId, data).data| <= 8
    ensures n <= 8 ==> QueuedFrame(n, msgId, data).data == data[..n]
    ensures n > 8 ==> QueuedFrame(n, msgId, data).data == data[..8]
  {
  }

  /** The table after the corrected registration: id and queue share slot n. */
  function StoreLink(table: seq<Link>, n: nat, messageId: Uint16, queue: QueueHandle): seq<Link>
    requires n < |table|
  {
    table[n := Link(queue, messageId)]
  }

  /**
   * The table after registration as written at src/ucan.c:139-140: the id goes to
   * slot n, the post-increment moves the index, and the queue goes to slot n + 1.
   */
  function StoreLinkAsWritten(table: seq<Link>, n: nat, messageId: Uint16, queue: QueueHandle): seq<Link>
    requires n + 1 < |table|
  {
    table[n := table[n].(messageId := messageId)][n + 1 := table[n + 1].(queue := queue)]
  }

  /** The corrected store pairs the id with its queue and leaves the other slots alone. */
  lemma StoreLinkPairs(table: seq<Link>, n: nat, messageId: Uint16, queue: QueueHandle)
    requires n < |table|
    ensures |StoreLink(table, n, messageId, queue)| == |table|
    ensures StoreLink(table, n, messageId, queue)[n] == Link(queue, messageId)
    ensures forall i :: 0 <= i < |table| && i != n ==> StoreLink(table, n, messageId, queue)[i] == table[i]
  {
  }

  /**
   * As written, the slot that receives the id keeps whatever queue it held before, so
   * unless that was already `queue` the id is not linked to its queue; the queue lands
   * in the next slot instead.
   */
  lemma StoreLinkAsWrittenSplitsLink(table: seq<Link>, n: nat, messageId: Uint16, queue: QueueHandle)
    requires n + 1 < |table|
    requires table[n].queue != queue
    ensures StoreLinkAsWritten(table, n, messageId, queue)[n] != Link(queue, messageId)
    ensures StoreLinkAsWritten(table, n, messageId, queue)[n].messageId == messageId
    ensures StoreLinkAsWritten(table, n, messageId, queue)[n + 1].queue == queue
  {
  }

  /** The capacity guard of src/ucan.c:135: the call is refused when it holds. */
  predicate TableFull(n: nat)
  {
    n > SIZE_MAP - 1
  }

  /**
   * On a message_map of SIZE_MAP slots the guard keeps slot n, where the corrected
   * code stores both fields, inside the table; at n = SIZE_MAP - 1 it still lets the
   * call through, although StoreLinkAsWritten's precondition (slot n + 1 exists)
   * fails there: the queue store of the as-written code lands past the end.
   */
  lemma AsWrittenGuardAdmitsOverflow(table: seq<Link>)
    requires |table| == SIZE_MAP
    ensures forall n: nat :: !TableFull(n) ==> n < |table|
    ensures var n := SIZE_MAP - 1; !TableFull(n) && !(n + 1 < |table|)
  {
  }

  /** From an empty all-NULL table, the first registration as written links its id to NULL. */
  lemma FirstRegistrationAsWrittenLosesQueue()
    ensures StoreLinkAsWritten(Repeat(Link(0, 0), SIZE_MAP), 0, 0x151, 1)[0] == Link(0, 0x151)
    ensures StoreLink(Repeat(Link(0, 0), SIZE_MAP), 0, 0x151, 1)[0] == Link(1, 0x151)
  {
  }

  /**
   * The transport state: can_tx_queue, the frames handed to CARME_CAN_Write so far,
   * rx_msg, message_map and n_message_map.
   */
  class Transport {
    /** can_tx_queue, oldest frame first. */
    var txQueue: seq<Frame>
    /** The frames written to the bus, in the order they were written. */
    var bus: seq<Frame>
    /** Every frame ever queued by SendData, in order. */
    ghost var sent: seq<Frame>
    /** rx_msg */
    var rxMsg: Frame
    /** message_map[SIZE_MAP] */
    var messageMap: array<Link>
    /** n_message_map */
    var nMessageMap: Uint16

    /** Frames leave in send order: what is on the bus followed by what is queued is everything sent. */
    ghost predicate Valid()
      reads this
    {
      messageMap.Length == SIZE_MAP &&
      nMessageMap <= SIZE_MAP &&
      bus + txQueue == sent
    }

    /** The state after ucan_init: the static table is zeroed and the queues are empty. */
    constructor Init()
      ensures Valid() && fresh(messageMap)
      ensures txQueue == [] && bus == [] && sent == []
      ensures nMessageMap == 0
      ensures forall i :: 0 <= i < SIZE_MAP ==> messageMap[i] == Link(0, 0)
    {
      txQueue := [];
      bus := [];
      sent := [];
      rxMsg := Frame(0, 0, 0, 0, Repeat(0, 8));
      messageMap := new Link[SIZE_MAP](_ => Link(0, 0));
      nMessageMap := 0;
    }

    /**
     * ucan_link_message_to_queue with the id and the queue stored in the same slot.
     * Refused, with nothing changed, once the table holds SIZE_MAP links.
     */
    method LinkMessageToQueue(messageId: Uint16, queue: QueueHandle) returns (ok: bool)
      requires Valid()
      modifies this, messageMap
      ensures Valid() && messageMap == old(messageMap)
      ensures ok == !TableFull(old(nMessageMap))
      ensures ok ==> nMessageMap == old(nMessageMap) + 1
      ensures ok ==> messageMap[..] == StoreLink(old(messageMap[..]), old(nMessageMap), messageId, queue)
      ensures !ok ==> nMessageMap == old(nMessageMap) && messageMap[..] == old(messageMap[..])
      ensures txQueue == old(txQueue) && bus == old(bus) && sent == old(sent) && rxMsg == old(rxMsg)
    {
      if nMessageMap > SIZE_MAP - 1 {
        return false;
      }
      messageMap[nMessageMap] := Link(queue, messageId);
      nMessageMap := nMessageMap + 1;
      return true;
    }

    /**
     * ucan_link_message_to_queue as written: `message_map[n_message_map++].message_id`
     * followed by `message_map[n_message_map].queue`. At n_message_map = SIZE_MAP - 1
     * the second store is out of bounds, so that case is excluded here.
     */
    method LinkMessageToQueueAsWritten(messageId: Uint16, queue: QueueHandle) returns (ok: bool)
      requires Valid()
      requires TableFull(nMessageMap) || nMessageMap + 1 < SIZE_MAP
      modifies this, messageMap
      ensures Valid() && messageMap == old(messageMap)
      ensures ok == !TableFull(old(nMessageMap))
      ensures ok ==> nMessageMap == old(nMessageMap) + 1
      ensures ok ==> messageMap[..] == StoreLinkAsWritten(old(messageMap[..]), old(nMessageMap), messageId, queue)
      ensures !ok ==> nMessageMap == old(nMessageMap) && messageMap[..] == old(messageMap[..])
      ensures txQueue == old(txQueue) && bus == old(bus) && sent == old(sent) && rxMsg == old(rxMsg)
    {
      if nMessageMap > SIZE_MAP - 1 {
        return false;
      }
      messageMap[nMessageMap] := messageMap[nMessageMap].(messageId := messageId);
      nMessageMap := nMessageMap + 1;
      messageMap[nMessageMap] := messageMap[nMessageMap].(queue := queue);
      return true;
    }

    /**
     * ucan_send_data: builds the frame and appends it to can_tx_queue. The call
     * always reports success. `data` must hold the min(n, 8) bytes memcpy reads.
     */
    method SendData(n: Byte, msgId: Uint16, data: seq<Byte>) returns (ok: bool)
      requires Valid()
      requires Min(n, 8) <= |data|
      modifies this
      ensures Valid() && ok
      ensures txQueue == old(txQueue) + [QueuedFrame(n, msgId, data)]
      ensures sent == old(sent) + [QueuedFrame(n, msgId, data)]
      ensures bus == old(bus) && rxMsg == old(rxMsg)
      ensures messageMap == old(messageMap) && nMessageMap == old(nMessageMap)
    {
      var tmpMsg := Frame(msgId, 0, 0, n, data[..Min(n, 8)]);
      txQueue := txQueue + [tmpMsg];
      sent := sent + [tmpMsg];
      ok := true;
    }

    /**
     * `count` iterations of the ucan_write_data loop: each takes the oldest frame off
     * can_tx_queue and writes it to the bus. A receive on an empty queue blocks, so
     * the queue must hold at least `count` frames.
     */
    method WriteData(count: nat)
      requires Valid()
      requires count <= |txQueue|
      modifies this
      ensures Valid()
      ensures bus == old(bus) + old(txQueue)[..count]
      ensures txQueue == old(txQueue)[count..]
      ensures sent == old(sent) && rxMsg == old(rxMsg)
      ensures messageMap == old(messageMap) && nMessageMap == old(nMessageMap)
    {
      var i := 0;
      while i < count
        invariant 0 <= i <= count
        invariant Valid()
        invariant bus == old(bus) + old(txQueue)[..i]
        invariant txQueue == old(txQueue)[i..]
        invariant sent == old(sent) && rxMsg == old(rxMsg)
        invariant messageMap == old(messageMap) && nMessageMap == old(nMessageMap)
      {
        var txMsg := txQueue[0];
        txQueue := txQueue[1..];
        bus := bus + [txMsg];
        assert old(txQueue)[..i + 1] == old(txQueue)[..i] + [old(txQueue)[i]];
        i := i + 1;
      }
    }

    /**
     * ucan_receive_data: `read` is the outcome of CARME_CAN_Read (a frame, or None
     * for an error). The frame lands in rx_msg; it is routed to no queue, and the
     * call reports success either way.
     */
    method ReceiveData(read: Option<Frame>) returns (ok: bool)
      requires Valid()
      modifies this
      ensures Valid() && ok
      ensures rxMsg == if read.Some? then read.value else old(rxMsg)
      ensures txQueue == old(txQueue) && bus == old(bus) && sent == old(sent)
      ensures messageMap == old(messageMap) && nMessageMap == old(nMessageMap)
    {
      if read.Some? {
        rxMsg := read.value;
      }
      ok := true;
    }
  }

  /** Frames reach the bus in send order: the bus is always a prefix of everything sent. */
  lemma BusIsPrefixOfSent(bus: seq<Frame>, txQueue: seq<Frame>, sent: seq<Frame>)
    requires bus + txQueue == sent
    ensures |bus| <= |sent| && bus == sent[..|bus|]
  {
    assert sent[..|bus|] == (bus + txQueue)[..|bus|];
  }
}
