/** One device's pending writes, in order: the queue the scheduler and the RESPONSE path share. */
module WriteQueue {
  import opened Words
  import opened Wrappers
  import opened WriteItems

  /** A pending write. Its identity is the object's, never its contents. */
  class PendingPointWrite {
    const Point: Device        // the point's DeviceUUID; the rest of the point is not needed here
    var MessageId: byte
    var Message: Option<seq<byte>>
    var RetryCount: nat
    var done: bool
    var acked: bool

    constructor (point: Device)
      ensures View() == NewItem(point)
    {
      Point := point;
      MessageId, Message, RetryCount, done, acked := 0, None, 0, false, false;
    }

    function View(): Item
      reads this
    {
      Item(Point, MessageId, Message, RetryCount, done, acked)
    }

    method MarkDone(wasAcked: bool)
      modifies this
      ensures View() == if old(done) then old(View()) else old(View()).(done := true, acked := wasAcked)
    {
      if !done {
        acked := wasAcked;
        done := true;
      }
    }
  }

  class PointWriteQueue {
    var writeQueue: seq<PendingPointWrite>

    constructor ()
      ensures writeQueue == []
    {
      writeQueue := [];
    }

    method EnqueueWriteQueue(point: Device) returns (ppWrite: PendingPointWrite)
      modifies this
      ensures fresh(ppWrite) && ppWrite.View() == NewItem(point)
      ensures writeQueue == old(writeQueue) + [ppWrite]
    {
      ppWrite := new PendingPointWrite(point);
      writeQueue := writeQueue + [ppWrite];
    }

    method Peek() returns (head: PendingPointWrite?)
      ensures head == if writeQueue == [] then null else writeQueue[0]
    {
      if |writeQueue| == 0 {
        return null;
      }
      return writeQueue[0];
    }

    method SetMessage(item: PendingPointWrite, messageId: byte, message: seq<byte>)
      modifies item
      ensures item.View() == old(item.View()).(messageId := messageId, message := Some(message))
    {
      item.MessageId := messageId;
      item.Message := Some(message);
    }

    method IncRetry(item: PendingPointWrite) returns (count: nat)
      modifies item
      ensures count == old(item.RetryCount) + 1
      ensures item.View() == old(item.View()).(retryCount := count)
    {
      item.RetryCount := item.RetryCount + 1;
      return item.RetryCount;
    }

    /** Removes the item if it is still the head. */
    method RemoveItem(item: PendingPointWrite) returns (removed: bool)
      modifies this, item
      ensures removed <==> old(writeQueue) != [] && old(writeQueue)[0] == item
      ensures writeQueue == if removed then old(writeQueue)[1..] else old(writeQueue)
      ensures item.View() == if removed && !old(item.done) then old(item.View()).(done := true, acked := false) else old(item.View())
    {
      if |writeQueue| == 0 || writeQueue[0] != item {
        return false;
      }
      writeQueue := writeQueue[1..];
      item.MarkDone(false);
      return true;
    }

    /** Removes the head; with a message id only if the head has been prepared with that id. */
    method Dequeue(messageId: Option<byte>) returns (head: PendingPointWrite?)
      modifies this, if writeQueue == [] then {} else {writeQueue[0]}
      ensures head != null <==>
                && old(writeQueue) != []
                && (messageId.Some? ==> old(writeQueue[0].Message).Some? && old(writeQueue[0].MessageId) == messageId.value)
      ensures head != null ==>
                && head == old(writeQueue)[0] && writeQueue == old(writeQueue)[1..]
                && head.View() == if old(writeQueue[0].done) then old(writeQueue[0].View())
                                  else old(writeQueue[0].View()).(done := true, acked := messageId.Some?)
      ensures head == null ==>
                && writeQueue == old(writeQueue)
                && (writeQueue != [] ==> writeQueue[0].View() == old(writeQueue[0].View()))
    {
      if |writeQueue| == 0 {
        return null;
      }
      var first := writeQueue[0];
      if messageId.None? {
        writeQueue := writeQueue[1..];
        first.MarkDone(false);
        return first;
      }
      if first.Message.None? || first.MessageId != messageId.value {
        return null;
      }
      writeQueue := writeQueue[1..];
      first.MarkDone(true);
      return first;
    }
  }
}
