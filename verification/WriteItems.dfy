/** One pending point write and what the queue operations do to it: shared by the queue classes
    and by the protocol they take part in. */
module WriteItems {
  import opened Words
  import opened Wrappers

  type Device = string

  datatype Item = Item(
    device: Device,
    messageId: byte,
    message: Option<seq<byte>>,
    retryCount: nat,
    done: bool,
    acked: bool)

  function NewItem(device: Device): Item
  {
    Item(device, 0, None, 0, false, false)
  }

  /** markDone: only the first call has an effect. */
  function MarkDone(item: Item, acked: bool): Item
  {
    if item.done then item else item.(done := true, acked := acked)
  }

  /** Whether a RESPONSE with this id acknowledges the item: it has been prepared, with that id. */
  predicate Acks(item: Item, messageId: byte)
  {
    item.message.Some? && item.messageId == messageId
  }

  /** maxRetry as IncRetry's result is compared with it: the count is at least one by then. */
  function Limit(maxRetry: int): (limit: nat)
    ensures limit >= 1
  {
    if maxRetry < 1 then 1 else maxRetry
  }

  /** `IncRetry(item) < maxRetry` is the same comparison with the limit. */
  lemma LimitComparison(maxRetry: int, count: nat)
    requires count >= 1
    ensures count < maxRetry <==> count < Limit(maxRetry)
  {}
}
