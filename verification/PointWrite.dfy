/** One point write through all three layers: queued item, Rubix payload, encrypted frame, and the
    RESPONSE that comes back for it. */
module PointWrite {
  import opened Words
  import opened Wrappers
  import opened BitLists
  import opened SerialMap
  import opened RubixFields
  import opened PositionNames
  import opened Decoder
  import opened RubixStream
  import opened RequestMessage
  import opened Cbc
  import opened LoRaRawFrame
  import AesUtils
  import Dispatch
  import opened WriteItems
  import opened Scheduler
  import opened SchedulerMemory
  import opened SchedulerSafety
  import opened SchedulerRuns

  /** The frame prepareMessage stores on the item. */
  function RequestFrame(suite: Suite, key: seq<byte>, address: seq<byte>, messageId: byte, payload: seq<byte>): seq<byte>
  {
    AesUtils.Sealed(suite, key, address, AesUtils.Inner(LORARAW_OPTS_REQUEST, messageId, payload))
  }

  lemma RequestIsShort(payload: seq<byte>, field: Field)
    requires Spells(payload, Settings(true) + StreamBits(true, [field]))
    ensures |payload| <= 11
  {
    hide Unpack, Settings, StreamBits, DataWidth;
    SingleStream(field);
  }

  /** The frame's MAC verifies and it opens to these opts, this nonce and this payload. */
  predicate OpensAs(suite: Suite, key: seq<byte>, frame: seq<byte>, opts: byte, nonce: byte, payload: seq<byte>)
  {
    && 24 <= |frame| && (|frame| - 8) % 16 == 0 && AesUtils.MacVerifies(suite, key, frame)
    && Contains(AesUtils.Opened(suite, key, frame), opts, nonce, payload)
  }

  /** The device that opens a request frame finds REQUEST, the message id, and a payload that decodes
      to the write: the configured point name in canonical spelling, the same key, the data sent. */
  lemma WriteReachesDevice(suite: Suite, key: seq<byte>, address: seq<byte>, messageId: byte,
                           point: Point, word: (real, int) -> nat, payload: seq<byte>, field: Field)
    requires Inverts(suite, key) && |address| == 4
    requires RequestFields([point], word) == Ok([field]) && field.key != MDK_DOUBLE
    requires Spells(payload, Settings(true) + StreamBits(true, [field]))
    ensures OpensAs(suite, key, RequestFrame(suite, key, address, messageId, payload), 3, messageId, payload)
    ensures 8 <= |Unpack(payload)|
    ensures var read := DecodePayload(Unpack(payload));
            && read != [] && read[0] == Received(true, field, 0) && Decoder.Report(read[0]).name == CanonicalName(point.ioNumber)
            && forall i | 1 <= i < |read| :: read[i] == Trailer(true, 1)
  {
    hide Spells, RequestFields, StreamBits, Settings, DecodePayload, Received, Decoder.Report, CanonicalName, Unpack, Trailer;
    hide AesUtils.Sealed, AesUtils.Opened, AesUtils.Inner, AesUtils.MacVerifies, StripPayload, CheckPayloadLength;
    RequestIsShort(payload, field);
    FrameRoundTrip(suite, key, address, LORARAW_OPTS_REQUEST, messageId, payload);
    WriteReadBack(point, word, payload, field);
    PayloadHasSettings(payload, field);
  }

  lemma PayloadHasSettings(payload: seq<byte>, field: Field)
    requires Spells(payload, Settings(true) + StreamBits(true, [field]))
    ensures 8 <= |Unpack(payload)|
  {
    hide StreamBits, DataWidth;
  }

  /** What DecodeRubixResponse does to the write queue: one DequeueUsingMessageId per callback, each at
      its own time, whatever the callback reports. */
  function AckCallbacks(m: Mem, uuid: WriteItems.Device, messageId: byte, times: seq<nat>): Mem
    decreases |times|
  {
    if times == [] then m else AckCallbacks(AckHead(m, uuid, messageId, times[0]), uuid, messageId, times[1..])
  }

  /** The head of this queue has a message, under this id. */
  predicate HeadCarries(m: Mem, uuid: WriteItems.Device, messageId: byte)
  {
    var queue := Queue(m, uuid);
    queue != [] && ItemAt(m, queue[0]).message.Some? && ItemAt(m, queue[0]).messageId == messageId
  }

  lemma UnpreparedIsNotAcked(m: Mem, uuid: WriteItems.Device, messageId: byte, at: nat)
    requires Unprepared(m, uuid)
    ensures AckHead(m, uuid, messageId, at) == m
  {
    hide PopHead;
    if Queue(m, uuid) != [] {
      assert ItemAt(m, Queue(m, uuid)[0]).message.None?;
    }
  }

  lemma {:induction false} NoFurtherAck(m: Mem, uuid: WriteItems.Device, messageId: byte, times: seq<nat>)
    requires forall at: nat :: AckHead(m, uuid, messageId, at) == m
    ensures AckCallbacks(m, uuid, messageId, times) == m
    decreases |times|
  {
    hide AckHead;
    if times != [] {
      NoFurtherAck(m, uuid, messageId, times[1..]);
    }
  }

  /** However many callbacks a RESPONSE makes, they pop one write, or none. */
  lemma CallbacksPopOnce(m: Mem, uuid: WriteItems.Device, messageId: byte, times: seq<nat>)
    requires MemInv(m)
    ensures AckCallbacks(m, uuid, messageId, times)
            == if times != [] && HeadCarries(m, uuid, messageId) then PopHead(m, uuid, Acked, times[0]) else m
  {
    hide MemInv, PopHead;
    if Queue(m, uuid) != [] && Acks(ItemAt(m, Queue(m, uuid)[0]), messageId) {
      if times != [] {
        var popped := PopHead(m, uuid, Acked, times[0]);
        UnpreparedTail(m, uuid, times[0]);
        forall at: nat
          ensures AckHead(popped, uuid, messageId, at) == popped
        {
          UnpreparedIsNotAcked(popped, uuid, messageId, at);
        }
        NoFurtherAck(popped, uuid, messageId, times[1..]);
      }
    } else {
      NoFurtherAck(m, uuid, messageId, times);
    }
  }

  /** A payload of one byte has no field; any longer one has at least one. */
  lemma CallbacksOfPayload(payload: seq<byte>)
    requires payload != []
    ensures DecodePayload(Unpack(payload)) != [] <==> |payload| >= 2
  {
    hide NextField;
  }

  /** An encrypted RESPONSE frame, from the wire to the write queue of the device it is from: through
      dispatch, the decode loop and one dequeue per decoded field. The head of that device's queue
      leaves as acknowledged exactly when the payload has at least two bytes and the head is prepared
      with the frame's message id; it leaves once; nothing else changes in any case. */
  lemma ResponseAcknowledges(config: Dispatch.Config, device: Dispatch.Device, address: seq<byte>, messageId: byte,
                             payload: seq<byte>, trailer: seq<byte>, m: Mem, times: seq<nat>)
    requires |address| == 4 && |trailer| == 2 && 1 <= |payload| <= 255
    requires config.getDevice(address) == Some(device) && device.described && device.isLoRaRaw && device.decodesResponses
    requires device.keyDecodes && ValidKey(device.key) && Inverts(config.suite, device.key)
    requires MemInv(m) && |times| == |DecodePayload(Unpack(payload))|
    ensures var outcome := Dispatch.Outcome(config, Wire(config.suite, device.key, address, 4, messageId, payload, trailer));
            outcome.Accepted? && outcome.device == device && outcome.emission == Some(Dispatch.Response(payload, messageId))
    ensures var queue, after := Queue(m, device.uuid), AckCallbacks(m, device.uuid, messageId, times);
            if |payload| >= 2 && HeadCarries(m, device.uuid, messageId) then
              && queue != [] && queue[0] < |m.items| && Queue(after, device.uuid) == queue[1..] && times != []
              && after.ends == m.ends + [End(queue[0], Acked, times[0])]
              && after.items == m.items[queue[0] := ItemAt(m, queue[0]).(done := true, acked := true)]
              && after.queues == m.queues[device.uuid := queue[1..]] && after.order == m.order
            else after == m
  {
    hide Dispatch.Outcome, Wire, MemInv, PopHead, DecodePayload, Unpack;
    Dispatch.EncryptedFrameDelivered(config, device, address, LORARAW_OPTS_RESPONSE, messageId, payload, trailer);
    CallbacksOfPayload(payload);
    CallbacksPopOnce(m, device.uuid, messageId, times);
    if times != [] && Queue(m, device.uuid) != [] {
      PoppedItems(m, device.uuid, Acked, times[0]);
      PopRegisters(m, device.uuid, Acked, times[0]);
    }
  }
}
