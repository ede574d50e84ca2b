/**
 * The log display of src/display.c: display_log hands each message to the display
 * task with a line id (a fresh one for DISPLAY_NEWLINE), and display_task keeps the
 * last thirty messages in a ring buffer, one per LCD line, scrolling once full.
 */
module Display {
  import opened Types

  /** The id that asks display_log for a fresh line. */
  const DISPLAY_NEWLINE: Byte := 0
  const DISPLAY_LINES: nat := 30
  /** Capacity of display_queue. */
  const QUEUE_SIZE: nat := 10

  /** message_t: the sending task's name, the line id and the formatted text. */
  datatype Entry = Entry(taskname: string, id: Byte, message: string)

  const BLANK := Entry("", 0, "")

  // ---------------------------------------------------------------- id allocation

  /** The id a display_log call attaches to its message and the new value of last_given_id. */
  datatype Allocation = Allocation(newId: Byte, lastGivenId: Byte)

  /** The id assignment of display_log: pre-increment of the uint8_t counter, reset at 0xFF. */
  function Allocate(lastGivenId: Byte, id: Byte): Allocation
  {
    if id == DISPLAY_NEWLINE then
      var next := WrapByte(lastGivenId + 1);
      Allocation(next, if next == 0xFF then 0 else next)
    else Allocation(id, lastGivenId)
  }

  /**
   * While last_given_id stays below 0xFF, which every allocation preserves, a fresh
   * line gets last_given_id + 1 and never DISPLAY_NEWLINE itself; any other id is
   * used unchanged and leaves the counter alone.
   */
  lemma AllocateProperties(lastGivenId: Byte, id: Byte)
    requires lastGivenId < 0xFF
    ensures Allocate(lastGivenId, id).lastGivenId < 0xFF
    ensures id == DISPLAY_NEWLINE ==> Allocate(lastGivenId, id).newId == lastGivenId + 1
    ensures id == DISPLAY_NEWLINE ==> Allocate(lastGivenId, id).newId != DISPLAY_NEWLINE
    ensures id != DISPLAY_NEWLINE ==> Allocate(lastGivenId, id) == Allocation(id, lastGivenId)
  {
  }

  /** The ids of k consecutive DISPLAY_NEWLINE requests starting from a counter value. */
  function FreshIds(lastGivenId: Byte, k: nat): (ids: seq<Byte>)
    ensures |ids| == k
    decreases k
  {
    if k == 0 then []
    else
      var a := Allocate(lastGivenId, DISPLAY_NEWLINE);
      [a.newId] + FreshIds(a.lastGivenId, k - 1)
  }

  /** From last_given_id = c the i-th fresh id is (c + i) mod 255 + 1: ids run 1..255 and restart at 1. */
  lemma {:induction false} FreshIdsCycle(lastGivenId: Byte, k: nat)
    requires lastGivenId < 0xFF
    ensures forall i :: 0 <= i < k ==> FreshIds(lastGivenId, k)[i] == (lastGivenId + i) % 0xFF + 1
    decreases k
  {
    if k > 0 {
      var a := Allocate(lastGivenId, DISPLAY_NEWLINE);
      FreshIdsCycle(a.lastGivenId, k - 1);
      assert a.lastGivenId == (lastGivenId + 1) % 0xFF;
      forall i | 1 <= i < k
        ensures FreshIds(lastGivenId, k)[i] == (lastGivenId + i) % 0xFF + 1
      {
        assert FreshIds(lastGivenId, k)[i] == FreshIds(a.lastGivenId, k - 1)[i - 1];
        assert (a.lastGivenId + (i - 1)) % 0xFF == (lastGivenId + i) % 0xFF;
      }
    }
  }

  /** From power-up every run of fresh ids starts 1, 2, ... and the 256th request gets 1 again. */
  lemma FreshIdsFromPowerUp()
    ensures FreshIds(0, 256)[0] == 1 && FreshIds(0, 256)[254] == 0xFF && FreshIds(0, 256)[255] == 1
  {
    FreshIdsCycle(0, 256);
  }

  /**
   * display_log as written has no return statement, so the id its caller receives
   * is whatever value the calling convention leaves behind (`leftover`). The first
   * two parameters are those of the corrected LoggedId; the result depends on
   * neither of them.
   */
  function LoggedIdAsWritten(lastGivenId: Byte, id: Byte, leftover: Byte): Byte
  {
    leftover
  }

  /** The corrected display_log returns the id it attached to the message. */
  function LoggedId(lastGivenId: Byte, id: Byte): (r: Byte)
    requires lastGivenId < 0xFF
    ensures r == Allocate(lastGivenId, id).newId
    ensures id == DISPLAY_NEWLINE ==> r != DISPLAY_NEWLINE
  {
    Allocate(lastGivenId, id).newId
  }

  /**
   * bcs_await_block logs "Waiting on block..." with DISPLAY_NEWLINE and passes the
   * returned id to its follow-up messages so that they carry the same id. As written,
   * the follow-up carries the id first allocated only when the leftover value happens
   * to be that id: a leftover 0 makes it a DISPLAY_NEWLINE request that draws a
   * further fresh id, and any other leftover names another line. With the returned
   * id the follow-up always carries the id first allocated.
   */
  lemma MissingReturnBreaksLineUpdate(lastGivenId: Byte, leftover: Byte)
    requires lastGivenId < 0xFF
    ensures var first := Allocate(lastGivenId, DISPLAY_NEWLINE);
      && (Allocate(first.lastGivenId, LoggedIdAsWritten(lastGivenId, DISPLAY_NEWLINE, leftover)).newId == first.newId
          <==> leftover == first.newId)
      && (leftover == DISPLAY_NEWLINE ==>
          Allocate(first.lastGivenId, LoggedIdAsWritten(lastGivenId, DISPLAY_NEWLINE, leftover)).newId
          == Allocate(first.lastGivenId, DISPLAY_NEWLINE).newId)
      && Allocate(first.lastGivenId, LoggedId(lastGivenId, DISPLAY_NEWLINE)).newId == first.newId
  {
  }

  // ---------------------------------------------------------------- the screen

  /** What the LCD shows after the display task received `received`: the newest thirty, oldest on line 0. */
  function ScreenAfter(received: seq<Entry>): (screen: seq<Entry>)
    ensures |screen| == Min(|received|, DISPLAY_LINES)
  {
    if |received| <= DISPLAY_LINES then received else received[|received| - DISPLAY_LINES..]
  }

  /**
   * Each message lands on the line below the last one until thirty lines are in use;
   * from then on the screen scrolls: the oldest line disappears and the new message is
   * shown on line 29.
   */
  lemma ScreenScrolls(received: seq<Entry>, e: Entry)
    ensures |ScreenAfter(received)| < DISPLAY_LINES ==> ScreenAfter(received + [e]) == ScreenAfter(received) + [e]
    ensures |ScreenAfter(received)| == DISPLAY_LINES ==> ScreenAfter(received + [e]) == ScreenAfter(received)[1..] + [e]
    ensures ScreenAfter(received + [e])[|ScreenAfter(received + [e])| - 1] == e
  {
    var r := received + [e];
    if |received| >= DISPLAY_LINES {
      assert r[|r| - DISPLAY_LINES..] == received[|received| - DISPLAY_LINES..][1..] + [e];
    }
  }

  /** The display task's state and the two ends of display_queue. */
  class Display {
    /** last_given_id */
    var lastGivenId: Byte
    /** display_queue: messages sent by display_log, not yet taken by the display task */
    var queue: seq<Entry>
    var visibleMessages: Byte
    var bufferOffset: Byte
    var messageBuffer: array<Entry>
    /** every message the display task took from the queue, oldest first */
    ghost var received: seq<Entry>

    /** Line i of the LCD shows buffer slot (buffer_offset + i) mod 30. */
    function Screen(): seq<Entry>
      reads this, messageBuffer
      requires messageBuffer.Length == DISPLAY_LINES && visibleMessages <= DISPLAY_LINES
    {
      var buffer, offset, visible := messageBuffer, bufferOffset, visibleMessages;
      seq(visible, i requires 0 <= i < visible reads buffer => buffer[(offset + i) % DISPLAY_LINES])
    }

    ghost predicate Valid()
      reads this, messageBuffer
    {
      && messageBuffer.Length == DISPLAY_LINES
      && lastGivenId < 0xFF
      && |queue| <= QUEUE_SIZE
      && visibleMessages <= DISPLAY_LINES
      && bufferOffset < DISPLAY_LINES
      && (visibleMessages < DISPLAY_LINES ==> bufferOffset == 0)
      && Screen() == ScreenAfter(received)
    }

    /** display_init and the static initialisers: nothing shown, nothing queued. */
    constructor ()
      ensures Valid() && fresh(messageBuffer)
      ensures lastGivenId == 0 && queue == [] && received == [] && visibleMessages == 0 && bufferOffset == 0
    {
      lastGivenId := 0;
      queue := [];
      visibleMessages := 0;
      bufferOffset := 0;
      messageBuffer := new Entry[DISPLAY_LINES](_ => BLANK);
      received := [];
    }

    /**
     * display_log with the message already formatted: attach the id and queue the
     * message, blocking while the queue is full. Returns the attached id, as the
     * header declares.
     */
    method Log(id: Byte, taskname: string, message: string) returns (newId: Byte)
      requires Valid() && |queue| < QUEUE_SIZE
      modifies this
      ensures Valid()
      ensures newId == LoggedId(old(lastGivenId), id)
      ensures lastGivenId == Allocate(old(lastGivenId), id).lastGivenId
      ensures queue == old(queue) + [Entry(taskname, newId, message)]
      ensures received == old(received) && messageBuffer == old(messageBuffer)
      ensures visibleMessages == old(visibleMessages) && bufferOffset == old(bufferOffset)
    {
      if id == DISPLAY_NEWLINE {
        lastGivenId := WrapByte(lastGivenId + 1);
        newId := lastGivenId;
        if lastGivenId == 0xFF {
          lastGivenId := 0;
        }
      } else {
        newId := id;
      }
      queue := queue + [Entry(taskname, newId, message)];
    }

    /**
     * One pass of display_task's loop: take the oldest queued message (blocking while
     * the queue is empty) into the ring buffer and redraw. `redrawn` are the entries
     * printed, from line `firstLine` down.
     */
    method TaskStep() returns (firstLine: nat, redrawn: seq<Entry>)
      requires Valid() && |queue| > 0
      modifies this, messageBuffer
      ensures Valid() && messageBuffer == old(messageBuffer)
      ensures received == old(received) + [old(queue)[0]] && queue == old(queue)[1..]
      ensures lastGivenId == old(lastGivenId)
      ensures visibleMessages == Min(old(visibleMessages) + 1, DISPLAY_LINES)
      ensures firstLine == if old(visibleMessages) == DISPLAY_LINES then 0 else old(visibleMessages)
      ensures redrawn == Screen()[firstLine..]
    {
      var msg := queue[0];
      queue := queue[1..];
      received := received + [msg];
      ScreenScrolls(old(received), msg);
      if visibleMessages == DISPLAY_LINES as Byte {
        ScrollIn(msg);
        redrawn := Redraw();
        firstLine := 0;
      } else {
        firstLine := visibleMessages;
        redrawn := AppendLine(msg);
      }
    }

    /** The full-screen branch: overwrite the oldest slot and advance buffer_offset. */
    method ScrollIn(msg: Entry)
      requires messageBuffer.Length == DISPLAY_LINES && visibleMessages == DISPLAY_LINES as Byte
      requires bufferOffset < DISPLAY_LINES
      modifies this`bufferOffset, messageBuffer
      ensures bufferOffset < DISPLAY_LINES
      ensures Screen() == old(Screen())[1..] + [msg]
    {
      ghost var screen0 := Screen();
      ghost var offset0 := bufferOffset;
      messageBuffer[bufferOffset] := msg;
      bufferOffset := (bufferOffset + 1) % DISPLAY_LINES as Byte;
      forall i | 0 <= i < DISPLAY_LINES
        ensures Screen()[i] == (screen0[1..] + [msg])[i]
      {
        RingAdvance(offset0, i);
      }
    }

    /** The redraw loop of a full screen: line i is printed from slot (buffer_offset + i) mod 30. */
    method Redraw() returns (redrawn: seq<Entry>)
      requires messageBuffer.Length == DISPLAY_LINES && visibleMessages == DISPLAY_LINES as Byte
      ensures redrawn == Screen()
    {
      redrawn := [];
      var i: Byte := 0;
      while i < DISPLAY_LINES as Byte
        invariant 0 <= i <= DISPLAY_LINES
        invariant redrawn == Screen()[..i]
      {
        var bufferIndex := (bufferOffset + i) % DISPLAY_LINES as Byte;
        redrawn := redrawn + [messageBuffer[bufferIndex]];
        i := i + 1;
      }
    }

    /** The filling branch: the message goes to the slot after the shown ones, printed on the next line. */
    method AppendLine(msg: Entry) returns (redrawn: seq<Entry>)
      requires messageBuffer.Length == DISPLAY_LINES && visibleMessages < DISPLAY_LINES && bufferOffset == 0
      modifies this`visibleMessages, messageBuffer
      ensures visibleMessages == old(visibleMessages) + 1
      ensures Screen() == old(Screen()) + [msg]
      ensures redrawn == [msg]
    {
      var bufferIndex := (bufferOffset + visibleMessages) % DISPLAY_LINES as Byte;
      messageBuffer[bufferIndex] := msg;
      redrawn := [messageBuffer[bufferIndex]];
      visibleMessages := visibleMessages + 1;
    }
  }

  /** After buffer_offset advances past slot `offset`, line i shows the slot line i + 1 showed, and line 29 the slot just written. */
  lemma RingAdvance(offset: nat, i: nat)
    requires offset < DISPLAY_LINES && i < DISPLAY_LINES
    ensures i < DISPLAY_LINES - 1 ==> ((offset + 1) % DISPLAY_LINES + i) % DISPLAY_LINES == (offset + (i + 1)) % DISPLAY_LINES
    ensures i == DISPLAY_LINES - 1 ==> ((offset + 1) % DISPLAY_LINES + i) % DISPLAY_LINES == offset
  {
  }
}
